/**
 Late messages to a retired epoch. GetPrevRatchet returns a pointer to a copy, so a Decrypt
 through it keeps only its changes to the shared skipped-key map.
 */
module Retired {
  import opened Basics
  import opened Crypto
  import opened Chain
  import opened ChainRuns

  /** The stored epoch after a Decrypt on a copy of it. */
  function LateReceived(p: Primitives, s: Chain, i: int): (r: Chain)
    ensures r.previousIndex == s.previousIndex && r.root == s.root && r.maxSkip == s.maxSkip
  {
    s.(skipped := Received(p, s, i).skipped)
  }

  function LateRun(p: Primitives, s: Chain, ds: seq<int>): (r: Chain)
    ensures r.previousIndex == s.previousIndex && r.root == s.root && r.maxSkip == s.maxSkip
  {
    if ds == [] then s else LateReceived(p, LateRun(p, s, ds[..|ds| - 1]), ds[|ds| - 1])
  }

  lemma LateReceivedCoherent(p: Primitives, s: Chain, i: int)
    requires Coherent(p, s)
    ensures Coherent(p, LateReceived(p, s, i))
  {
    ReceivedCoherent(p, s, i);
  }

  /** Any late sequence keeps every stored key right. */
  lemma {:induction false} LateRunCoherent(p: Primitives, s: Chain, ds: seq<int>)
    requires Coherent(p, s)
    ensures Coherent(p, LateRun(p, s, ds))
  {
    if ds == [] {
    } else {
      LateRunCoherent(p, s, ds[..|ds| - 1]);
      LateReceivedCoherent(p, LateRun(p, s, ds[..|ds| - 1]), ds[|ds| - 1]);
    }
  }

  /** A late message, whatever came before it, opens to its plaintext or is refused by index; never a wrong key. */
  lemma {:induction false} LateOutcome(p: Primitives, s: Chain, ds: seq<int>, i: nat, plaintext: Bytes, nonce: Bytes)
    requires Coherent(p, s) && |nonce| == NONCE_LENGTH
    ensures Coherent(p, LateRun(p, s, ds))
    ensures var late := LateRun(p, s, ds);
      Receipt(p, late, i, Seal(p, MessageKey(p, s.root, i), plaintext, nonce)) ==
        if Refuses(late, i).Some? then Err(Refused(Refuses(late, i).value)) else Ok(plaintext)
  {
    LateRunCoherent(p, s, ds);
    OpenInvertsSeal(p, MessageKey(p, s.root, i), plaintext, nonce);
  }

  // ---------- Which late messages are refused ----------

  predicate WithinReach(s: Chain, i: int) {
    Gap(s, i) <= s.maxSkip || Gap(s, i) <= 0
  }

  /** The stored indexes of a retired epoch, given the indexes used before and after it retired. */
  ghost predicate LateStore(s: Chain, used: set<int>) {
    && (forall j: int | 0 <= j <= s.previousIndex :: j in s.skipped <==> j !in used)
    && (forall j: int | j in s.skipped :: j >= 0 && WithinReach(s, j))
  }

  lemma LateStoreStep(p: Primitives, s: Chain, used: set<int>, i: int)
    requires LateStore(s, used)
    ensures LateStore(LateReceived(p, s, i), used + {i})
  {
  }

  lemma {:induction false} LateRunStore(p: Primitives, s: Chain, used: set<int>, ds: seq<int>)
    requires LateStore(s, used)
    ensures LateStore(LateRun(p, s, ds), used + Indexes(ds))
  {
    if ds == [] {
      assert used + Indexes(ds) == used;
    } else {
      var before, i := ds[..|ds| - 1], ds[|ds| - 1];
      LateRunStore(p, s, used, before);
      LateStoreStep(p, LateRun(p, s, before), used + Indexes(before), i);
      assert used + Indexes(ds) == used + Indexes(before) + {i};
    }
  }

  /**
   For an epoch retired after `calls` and then sent the late indexes `ds`: an index the epoch
   had already passed is refused exactly if it was used, before or after retirement; an index
   beyond that point is never remembered as used.
   */
  lemma LateRefusal(p: Primitives, s: Chain, calls: seq<Call>, ds: seq<int>, i: int)
    requires Fresh(s) && i >= 0
    ensures var atRetirement := Run(p, s, calls);
      Refuses(LateRun(p, atRetirement, ds), i) ==
        if i <= atRetirement.previousIndex then
          (if i in History(p, s, calls) || i in ds then Some(AlreadyProcessed) else None)
        else if WithinReach(atRetirement, i) then None
        else Some(TooManySkipped)
  {
    RunAccounted(p, s, calls);
    var r, used := Run(p, s, calls), Indexes(History(p, s, calls));
    assert LateStore(r, used);
    LateRunStore(p, r, used, ds);
  }

  /** At most once holds for a retired epoch exactly up to the index it had reached when it retired. */
  lemma LateReplay(p: Primitives, s: Chain, calls: seq<Call>, ds: seq<int>, i: int)
    requires Fresh(s) && i >= 0
    requires Refuses(LateRun(p, Run(p, s, calls), ds), i).None?
    ensures Refuses(LateRun(p, Run(p, s, calls), ds + [i]), i).Some? <==> i <= Run(p, s, calls).previousIndex
  {
    LateRefusal(p, s, calls, ds, i);
    LateRefusal(p, s, calls, ds + [i], i);
  }
}
