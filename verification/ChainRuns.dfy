/**
 Whole runs of one message ratchet: key accounting, refusal and delivery-order confluence.
 */
module ChainRuns {
  import opened Basics
  import opened Crypto
  import opened Chain

  // ---------- Mixed runs of Encrypt and Decrypt ----------

  /** `Decrypted(i)` is any Decrypt call at index i, whether or not its MAC check passes. */
  datatype Call = Encrypted | Decrypted(index: int)

  function Step(p: Primitives, s: Chain, call: Call): Chain {
    match call
    case Encrypted => Sent(p, s)
    case Decrypted(i) => Received(p, s, i)
  }

  /** The indexes whose key this call hands out: none or one. */
  function HandedOut(s: Chain, call: Call): seq<int> {
    match call
    case Encrypted => [s.previousIndex + 1]
    case Decrypted(i) => if Refuses(s, i).None? then [i] else []
  }

  function Run(p: Primitives, s: Chain, calls: seq<Call>): (r: Chain)
    ensures r.previousIndex >= s.previousIndex
    ensures r.root == s.root && r.maxSkip == s.maxSkip
  {
    if calls == [] then s else Step(p, Run(p, s, calls[..|calls| - 1]), calls[|calls| - 1])
  }

  /** All indexes handed out in a run, in order. */
  function History(p: Primitives, s: Chain, calls: seq<Call>): seq<int> {
    if calls == [] then []
    else
      var before := calls[..|calls| - 1];
      History(p, s, before) + HandedOut(Run(p, s, before), calls[|calls| - 1])
  }

  predicate Fresh(s: Chain) {
    s == NewChain(s.root).(maxSkip := s.maxSkip)
  }

  ghost predicate Distinct(xs: seq<int>) {
    forall i, j | 0 <= i < j < |xs| :: xs[i] != xs[j]
  }

  /** The indexes 0..previousIndex are split between those handed out and those stored. */
  ghost predicate Accounted(s: Chain, history: seq<int>) {
    && Distinct(history)
    && (forall j: int :: 0 <= j <= s.previousIndex <==> (j in history || j in s.skipped))
    && (forall j: int :: !(j in history && j in s.skipped))
  }

  lemma DistinctSnoc(xs: seq<int>, x: int)
    requires Distinct(xs) && x !in xs
    ensures Distinct(xs + [x])
  {
  }

  lemma StepAccounted(p: Primitives, s: Chain, history: seq<int>, call: Call)
    requires Coherent(p, s) && Accounted(s, history)
    ensures Coherent(p, Step(p, s, call))
    ensures Accounted(Step(p, s, call), history + HandedOut(s, call))
  {
    var h := HandedOut(s, call);
    match call {
      case Encrypted => SentCoherent(p, s);
      case Decrypted(i) => ReceivedCoherent(p, s, i);
    }
    if h == [] {
      assert history + h == history;
    } else {
      DistinctSnoc(history, h[0]);
      assert forall j: int :: j in history + h <==> j in history || j == h[0];
    }
  }

  /** Chain coherence and key accounting hold in every reachable state. */
  lemma {:induction false} RunAccounted(p: Primitives, s: Chain, calls: seq<Call>)
    requires Fresh(s)
    ensures Coherent(p, Run(p, s, calls))
    ensures Accounted(Run(p, s, calls), History(p, s, calls))
  {
    if calls == [] {
    } else {
      var before := calls[..|calls| - 1];
      RunAccounted(p, s, before);
      StepAccounted(p, Run(p, s, before), History(p, s, before), calls[|calls| - 1]);
    }
  }

  /** Decrypt(i) is refused as already processed exactly when index i was handed out earlier in the run. */
  lemma {:induction false} RefusedIffHandedOut(p: Primitives, s: Chain, calls: seq<Call>, i: int)
    requires Fresh(s) && i >= 0
    ensures Refuses(Run(p, s, calls), i) == Some(AlreadyProcessed) <==> i in History(p, s, calls)
  {
    RunAccounted(p, s, calls);
  }

  /**
   When Decrypt refuses an index, from the history alone: a negative one, one handed out before, or
   one that would skip more than 100 indexes above the last one handed out in order.
   */
  lemma {:induction false} RefusalExact(p: Primitives, root: Bytes, calls: seq<Call>, i: int, last: int)
    requires IsLatest(Indexes(History(p, NewChain(root), calls)), last)
    ensures Refuses(Run(p, NewChain(root), calls), i) ==
      if i < 0 then Some(InvalidIndex)
      else if i in History(p, NewChain(root), calls) then Some(AlreadyProcessed)
      else if i - (last + 1) > 100 then Some(TooManySkipped)
      else None
  {
    RunAccounted(p, NewChain(root), calls);
    RunLatest(p, NewChain(root), calls);
  }

  lemma StepLatest(p: Primitives, s: Chain, history: seq<int>, call: Call)
    requires Coherent(p, s) && Accounted(s, history) && IsLatest(Indexes(history), s.previousIndex)
    ensures IsLatest(Indexes(history + HandedOut(s, call)), Step(p, s, call).previousIndex)
  {
    var h := HandedOut(s, call);
    assert forall x: int :: x in Indexes(history + h) <==> x in Indexes(history) || x in h;
    assert h == [] || h == [h[0]];
    if h != [] {
      assert h[0] in Indexes(history + h);
    }
  }

  /** `previousIndex` is the largest index handed out, or -1. */
  lemma {:induction false} RunLatest(p: Primitives, s: Chain, calls: seq<Call>)
    requires Fresh(s)
    ensures IsLatest(Indexes(History(p, s, calls)), Run(p, s, calls).previousIndex)
  {
    if calls == [] {
    } else {
      var before := calls[..|calls| - 1];
      RunLatest(p, s, before);
      RunAccounted(p, s, before);
      hide IsLatest;
      hide Indexes;
      StepLatest(p, Run(p, s, before), History(p, s, before), calls[|calls| - 1]);
    }
  }

  /**
   Over every run, Decrypt gives x exactly if it does not refuse the index and the body is x sealed
   under the key of that index: any other body, altered or forged, gives an error.
   */
  lemma {:induction false} RunReceiptExact(p: Primitives, s: Chain, calls: seq<Call>, i: int, m: Sealed, x: Bytes)
    requires Fresh(s)
    ensures Receipt(p, Run(p, s, calls), i, m) == Ok(x) <==>
      i >= 0 && i !in History(p, s, calls) && Refuses(Run(p, s, calls), i) != Some(TooManySkipped)
      && SealedUnder(p, MessageKey(p, s.root, i), m, x)
  {
    RunAccounted(p, s, calls);
    hide SealedUnder;
    hide MessageKey;
    hide Receipt;
    ReceiptExact(p, Run(p, s, calls), i, m, x);
  }

  lemma IntervalSize(lo: int, hi: int, xs: set<int>)
    requires lo <= hi && forall j: int :: j in xs <==> lo <= j < hi
    ensures |xs| == hi - lo
    decreases hi - lo
  {
    if lo == hi {
      assert forall j: int :: j !in xs;
      assert xs == {};
    } else {
      IntervalSize(lo, hi - 1, xs - {hi - 1});
    }
  }

  lemma {:induction false} DistinctSize(xs: seq<int>)
    requires Distinct(xs)
    ensures |set x | x in xs| == |xs|
  {
    if xs == [] {
    } else {
      var front, last := xs[..|xs| - 1], xs[|xs| - 1];
      DistinctSize(front);
      assert (set x | x in xs) == (set x | x in front) + {last};
    }
  }

  /** Stored keys and used keys together number `previousIndex + 1`. */
  lemma {:induction false} KeyConservation(p: Primitives, s: Chain, calls: seq<Call>)
    requires Fresh(s)
    ensures var r := Run(p, s, calls);
      |r.skipped| + |History(p, s, calls)| == r.previousIndex + 1
  {
    RunAccounted(p, s, calls);
    var r, used := Run(p, s, calls), set x | x in History(p, s, calls);
    DistinctSize(History(p, s, calls));
    IntervalSize(0, r.previousIndex + 1, used + r.skipped.Keys);
    assert used !! r.skipped.Keys;
  }

  lemma SkippedBetweenSize(p: Primitives, root: Bytes, lo: nat, hi: int)
    requires lo <= hi
    ensures |SkippedBetween(p, root, lo, hi)| == hi - lo
  {
    hide MessageKey;
    IntervalSize(lo, hi, SkippedBetween(p, root, lo, hi).Keys);
  }

  lemma MergeSize<K, V>(a: map<K, V>, b: map<K, V>)
    ensures |a + b| <= |a| + |b|
  {
  }

  lemma RemoveSize<K, V>(m: map<K, V>, k: K)
    ensures |m - {k}| <= |m|
  {
  }

  lemma ReceivedStoreGrowth(p: Primitives, s: Chain, i: int)
    requires s.maxSkip >= 0
    ensures |Received(p, s, i).skipped| <= |s.skipped| + s.maxSkip
  {
    if Refuses(s, i).Some? {
    } else if i in s.skipped {
      RemoveSize(s.skipped, i);
    } else {
      var between := SkippedBetween(p, s.root, s.previousIndex + 1, i);
      SkippedBetweenSize(p, s.root, s.previousIndex + 1, i);
      MergeSize(s.skipped, between);
      assert Received(p, s, i).skipped == s.skipped + between;
    }
  }

  lemma MulStep(n: nat, m: nat)
    ensures (n + 1) * m == n * m + m
  {
  }

  /** MaxSkip bounds one gap, so n calls store at most n * MaxSkip keys. */
  lemma {:induction false} StoreBound(p: Primitives, s: Chain, calls: seq<Call>)
    requires Fresh(s) && s.maxSkip >= 0
    ensures |Run(p, s, calls).skipped| <= |calls| * s.maxSkip
  {
    if calls == [] {
    } else {
      var before := calls[..|calls| - 1];
      StoreBound(p, s, before);
      if calls[|calls| - 1].Decrypted? {
        ReceivedStoreGrowth(p, Run(p, s, before), calls[|calls| - 1].index);
      }
      MulStep(|before|, s.maxSkip);
    }
  }

  /** Each Encrypt takes an index above every index handed out before it. */
  lemma EncryptIndexIncreases(p: Primitives, s: Chain, calls: seq<Call>)
    requires Fresh(s)
    ensures forall j | j in History(p, s, calls) :: j < HandedOut(Run(p, s, calls), Encrypted)[0]
  {
    RunAccounted(p, s, calls);
  }

  // ---------- Delivery-order confluence ----------

  function Deliveries(ds: seq<int>): seq<Call> {
    seq(|ds|, k requires 0 <= k < |ds| => Decrypted(ds[k]))
  }

  /** The state after Decrypt calls at the indexes `ds`, in that order. */
  function Deliver(p: Primitives, s: Chain, ds: seq<int>): (r: Chain)
    ensures r.root == s.root && r.maxSkip == s.maxSkip
  {
    Run(p, s, Deliveries(ds))
  }

  lemma DeliverSnoc(p: Primitives, s: Chain, ds: seq<int>)
    requires ds != []
    ensures Deliver(p, s, ds) == Received(p, Deliver(p, s, ds[..|ds| - 1]), ds[|ds| - 1])
  {
    assert Deliveries(ds)[..|ds| - 1] == Deliveries(ds[..|ds| - 1]);
  }

  /** No delivery is refused for skipping too far, and every index is non-negative. */
  predicate WithinSkip(p: Primitives, s: Chain, ds: seq<int>) {
    ds == [] ||
    var before, i := ds[..|ds| - 1], ds[|ds| - 1];
    WithinSkip(p, s, before) && i >= 0 && Refuses(Deliver(p, s, before), i) != Some(TooManySkipped)
  }

  /** The k-th delivery of an accepted sequence, seen on its own. */
  lemma {:induction false} WithinSkipAt(p: Primitives, s: Chain, ds: seq<int>, k: nat)
    requires WithinSkip(p, s, ds) && k < |ds|
    ensures WithinSkip(p, s, ds[..k])
    ensures ds[k] >= 0 && Refuses(Deliver(p, s, ds[..k]), ds[k]) != Some(TooManySkipped)
  {
    if k == |ds| - 1 {
    } else {
      WithinSkipAt(p, s, ds[..|ds| - 1], k);
      assert ds[..|ds| - 1][..k] == ds[..k];
    }
  }

  function Indexes(ds: seq<int>): set<int> {
    set x | x in ds
  }

  function Missing(delivered: set<int>, previousIndex: int): set<int> {
    set j: int | 0 <= j <= previousIndex && j !in delivered
  }

  /** `previousIndex` is the largest delivered index, or -1. */
  ghost predicate IsLatest(delivered: set<int>, previousIndex: int) {
    && (delivered == {} ==> previousIndex == -1)
    && (delivered != {} ==> previousIndex in delivered)
    && (forall x | x in delivered :: 0 <= x <= previousIndex)
  }

  /** The one state that depends only on the set of delivered indexes. */
  ghost predicate Settled(p: Primitives, s0: Chain, delivered: set<int>, s: Chain) {
    && s.root == s0.root && s.maxSkip == s0.maxSkip
    && IsLatest(delivered, s.previousIndex)
    && s.skipped.Keys == Missing(delivered, s.previousIndex)
    && Coherent(p, s)
  }

  lemma SettledUnique(p: Primitives, s0: Chain, delivered: set<int>, s: Chain, t: Chain)
    requires Settled(p, s0, delivered, s) && Settled(p, s0, delivered, t)
    ensures s == t
  {
  }

  lemma ReceivedIndexes(p: Primitives, s: Chain, i: int)
    requires Coherent(p, s) && i >= 0 && Refuses(s, i) != Some(TooManySkipped)
    ensures Received(p, s, i).previousIndex == if i > s.previousIndex && i !in s.skipped then i else s.previousIndex
    ensures i > s.previousIndex && i !in s.skipped ==>
      Received(p, s, i).skipped.Keys == s.skipped.Keys + SkippedBetween(p, s.root, s.previousIndex + 1, i).Keys
    ensures i <= s.previousIndex || i in s.skipped ==> Received(p, s, i).skipped.Keys == s.skipped.Keys - {i}
  {
  }

  lemma SettledStep(p: Primitives, s0: Chain, delivered: set<int>, s: Chain, i: int)
    requires Settled(p, s0, delivered, s) && i >= 0 && Refuses(s, i) != Some(TooManySkipped)
    ensures Settled(p, s0, delivered + {i}, Received(p, s, i))
  {
    var t := Received(p, s, i);
    assert IsLatest(delivered + {i}, t.previousIndex)
      && t.skipped.Keys == Missing(delivered + {i}, t.previousIndex) by {
      ReceivedIndexes(p, s, i);
      assert i > s.previousIndex ==> i !in s.skipped.Keys;
    }
    ReceivedCoherent(p, s, i);
  }

  /** The final state depends only on the set delivered. */
  lemma {:induction false} DeliverSettled(p: Primitives, s: Chain, ds: seq<int>)
    requires Fresh(s) && WithinSkip(p, s, ds)
    ensures Settled(p, s, Indexes(ds), Deliver(p, s, ds))
  {
    if ds == [] {
      FreshSettled(p, s);
    } else {
      hide Settled;
      hide Fresh;
      hide Deliver;
      hide Received;
      hide Refuses;
      var n := |ds| - 1;
      DeliverSettled(p, s, ds[..n]);
      DeliverSnoc(p, s, ds);
      SettledStep(p, s, Indexes(ds[..n]), Deliver(p, s, ds[..n]), ds[n]);
      assert Indexes(ds) == Indexes(ds[..n]) + {ds[n]};
    }
  }

  lemma FreshSettled(p: Primitives, s: Chain)
    requires Fresh(s)
    ensures Settled(p, s, Indexes([]), Deliver(p, s, []))
  {
    assert Deliver(p, s, []) == s;
    assert Indexes([]) == {};
    assert s.skipped.Keys == Missing({}, -1);
  }

  /** Any two delivery orders of the same indexes, with any duplicates, end in the same state. */
  lemma Confluence(p: Primitives, s: Chain, ds: seq<int>, es: seq<int>)
    requires Fresh(s) && WithinSkip(p, s, ds) && WithinSkip(p, s, es)
    requires Indexes(ds) == Indexes(es)
    ensures Deliver(p, s, ds) == Deliver(p, s, es)
  {
    DeliverSettled(p, s, ds);
    DeliverSettled(p, s, es);
    SettledUnique(p, s, Indexes(ds), Deliver(p, s, ds), Deliver(p, s, es));
  }

  ghost predicate Increasing(xs: seq<int>) {
    forall i, j | 0 <= i < j < |xs| :: xs[i] < xs[j]
  }

  /** The first delivery at or above `bound` jumps from below it. */
  lemma {:induction false} FirstAtLeast(ds: seq<int>, bound: int) returns (k: nat)
    requires exists x | x in ds :: x >= bound
    ensures k < |ds| && ds[k] >= bound && forall x | x in ds[..k] :: x < bound
  {
    k := 0;
    while ds[k] < bound
      invariant k < |ds| && forall x | x in ds[..k] :: x < bound
      decreases |ds| - k
    {
      assert ds[..k + 1] == ds[..k] + [ds[k]];
      assert ds[..|ds|] == ds;
      k := k + 1;
    }
  }

  /** In-order delivery never skips further than any other order of the same indexes. */
  lemma {:induction false} InOrderWithinSkip(p: Primitives, s: Chain, ds: seq<int>, sorted: seq<int>, n: nat)
    requires Fresh(s) && WithinSkip(p, s, ds)
    requires Increasing(sorted) && Indexes(sorted) == Indexes(ds) && n <= |sorted|
    ensures WithinSkip(p, s, sorted[..n])
  {
    if n == 0 {
    } else {
      InOrderWithinSkip(p, s, ds, sorted, n - 1);
      InOrderStep(p, s, ds, sorted, n - 1);
      assert sorted[..n][..n - 1] == sorted[..n - 1];
    }
  }

  /** The latest index before the first delivery at or above sorted[k] precedes sorted[k]. */
  lemma LatestPrecedes(sorted: seq<int>, k: nat, latest: int, x: int)
    requires Increasing(sorted) && k < |sorted|
    requires x in Indexes(sorted) && x < sorted[k]
    requires IsLatest(Indexes(sorted[..k]), latest)
    ensures x <= latest
  {
    var q :| 0 <= q < |sorted| && sorted[q] == x;
    assert sorted[..k][q] == x;
    assert x in Indexes(sorted[..k]);
  }

  lemma InOrderStep(p: Primitives, s: Chain, ds: seq<int>, sorted: seq<int>, k: nat)
    requires Fresh(s) && WithinSkip(p, s, ds)
    requires Increasing(sorted) && Indexes(sorted) == Indexes(ds)
    requires k < |sorted| && WithinSkip(p, s, sorted[..k])
    ensures sorted[k] >= 0 && Refuses(Deliver(p, s, sorted[..k]), sorted[k]) != Some(TooManySkipped)
  {
    assert sorted[k] in Indexes(sorted);
    var m := FirstAtLeast(ds, sorted[k]);
    var late, early := Deliver(p, s, ds[..m]), Deliver(p, s, sorted[..k]);
    WithinSkipAt(p, s, ds, m);
    DeliverSettled(p, s, ds[..m]);
    DeliverSettled(p, s, sorted[..k]);
    var q := late.previousIndex;
    if q >= 0 {
      assert q in Indexes(ds[..m]);
      LatestPrecedes(sorted, k, early.previousIndex, q);
    }
    var j :| 0 <= j < |ds| && ds[j] == sorted[k];
    WithinSkipAt(p, s, ds, j);
  }

  /** Every accepted delivery order ends in the same state as in-order delivery without duplicates. */
  lemma {:induction false} SameAsInOrder(p: Primitives, s: Chain, ds: seq<int>, sorted: seq<int>)
    requires Fresh(s) && WithinSkip(p, s, ds)
    requires Increasing(sorted) && Indexes(sorted) == Indexes(ds)
    ensures WithinSkip(p, s, sorted) && Deliver(p, s, ds) == Deliver(p, s, sorted)
  {
    InOrderWithinSkip(p, s, ds, sorted, |sorted|);
    assert sorted[..|sorted|] == sorted;
    Confluence(p, s, ds, sorted);
  }
}
