/**
 One epoch as a channel: a sending and a receiving message ratchet over the same root, with
 messages lost, reordered and duplicated in any interleaving with further sends.
 */
module Channel {
  import opened Basics
  import opened Crypto
  import opened Chain
  import opened ChainRuns

  datatype Text = Text(plaintext: Bytes, nonce: Bytes)

  /** `Arrive(i)` delivers a copy of the i-th message sent. A message that never arrives is lost. */
  datatype Event = Send(text: Text) | Arrive(message: nat)

  /** What handleIncomingMessage does with the outcome of Decrypt: an already processed index is no error. */
  datatype Handling = Saved(plaintext: Bytes) | Ignored | Reported(error: Failure)

  function Handle(outcome: Result<Bytes, Failure>): Handling {
    match outcome
    case Ok(plaintext) => Saved(plaintext)
    case Err(error) => if error == Refused(AlreadyProcessed) then Ignored else Reported(error)
  }

  datatype State = State(sender: Chain, receiver: Chain, outbox: seq<Wire>, inbox: seq<Bytes>, reports: nat)

  function Initial(s: Chain): State {
    State(s, s, [], [], 0)
  }

  function Outcome(p: Primitives, w: State, i: nat): Handling
    requires i < |w.outbox|
  {
    Handle(Receipt(p, w.receiver, w.outbox[i].index, w.outbox[i].body))
  }

  function Next(p: Primitives, w: State, e: Event): State
    requires e.Arrive? ==> e.message < |w.outbox|
  {
    match e
    case Send(t) =>
      w.(sender := Sent(p, w.sender), outbox := w.outbox + [Outgoing(p, w.sender, t.plaintext, t.nonce)])
    case Arrive(i) =>
      var h := Outcome(p, w, i);
      w.(receiver := Received(p, w.receiver, w.outbox[i].index),
         inbox := if h.Saved? then w.inbox + [h.plaintext] else w.inbox,
         reports := if h.Reported? then w.reports + 1 else w.reports)
  }

  // ---------- Schedules ----------

  function Texts(es: seq<Event>): seq<Text> {
    if es == [] then []
    else
      var e := es[|es| - 1];
      Texts(es[..|es| - 1]) + if e.Send? then [e.text] else []
  }

  function Arrivals(es: seq<Event>): seq<int> {
    if es == [] then []
    else
      var e := es[|es| - 1];
      Arrivals(es[..|es| - 1]) + if e.Arrive? then [e.message] else []
  }

  /** Every arrival is of a message sent before it, and every nonce has its length. */
  predicate Causal(es: seq<Event>) {
    es == [] ||
    var before, e := es[..|es| - 1], es[|es| - 1];
    && Causal(before)
    && (e.Arrive? ==> e.message < |Texts(before)|)
    && (e.Send? ==> |e.text.nonce| == NONCE_LENGTH)
  }

  /** The distinct indexes of `ds`, in order of first occurrence. */
  function Firsts(ds: seq<int>): seq<int> {
    if ds == [] then []
    else
      var before, i := ds[..|ds| - 1], ds[|ds| - 1];
      if i in before then Firsts(before) else Firsts(before) + [i]
  }

  lemma {:induction false} FirstsDistinct(ds: seq<int>)
    ensures Indexes(Firsts(ds)) == Indexes(ds) && Distinct(Firsts(ds))
  {
    if ds == [] {
    } else {
      var before, i := ds[..|ds| - 1], ds[|ds| - 1];
      FirstsDistinct(before);
      assert Indexes(ds) == Indexes(before) + {i};
      if i !in before {
        assert i !in Indexes(Firsts(before));
        DistinctSnoc(Firsts(before), i);
        assert Indexes(Firsts(before) + [i]) == Indexes(Firsts(before)) + {i};
      }
    }
  }

  predicate InRange(ds: seq<int>, n: nat) {
    forall k | 0 <= k < |ds| :: 0 <= ds[k] < n
  }

  function PlaintextsAt(texts: seq<Text>, ds: seq<int>): seq<Bytes>
    requires InRange(ds, |texts|)
  {
    if ds == [] then []
    else
      PlaintextsAt(texts, ds[..|ds| - 1]) + [texts[ds[|ds| - 1]].plaintext]
  }

  lemma {:induction false} PlaintextsExtend(texts: seq<Text>, more: seq<Text>, ds: seq<int>)
    requires InRange(ds, |texts|)
    ensures PlaintextsAt(texts + more, ds) == PlaintextsAt(texts, ds)
  {
    if ds == [] {
    } else {
      PlaintextsExtend(texts, more, ds[..|ds| - 1]);
    }
  }

  // ---------- Correctness ----------

  /** The sender has sent exactly `texts`, each sealed under the key of its own index. */
  ghost predicate SentAll(p: Primitives, s: Chain, texts: seq<Text>, w: State) {
    && w.sender.root == s.root
    && w.sender.previousIndex == |texts| - 1
    && |w.outbox| == |texts|
    && forall i | 0 <= i < |texts| ::
         && |texts[i].nonce| == NONCE_LENGTH
         && w.outbox[i] == Wire(i, Seal(p, MessageKey(p, s.root, i), texts[i].plaintext, texts[i].nonce))
  }

  /** The outcome of one arrival: the plaintext the first time, a refusal that changes nothing afterwards. */
  lemma {:induction false} ArrivalOutcome(p: Primitives, s: Chain, texts: seq<Text>, ds: seq<int>, w: State, i: nat)
    requires Fresh(s) && SentAll(p, s, texts, w) && i < |texts|
    requires WithinSkip(p, s, ds + [i]) && w.receiver == Deliver(p, s, ds)
    ensures var r := Receipt(p, w.receiver, w.outbox[i].index, w.outbox[i].body);
      if i in ds then r == Err(Refused(AlreadyProcessed)) && Received(p, w.receiver, i) == w.receiver
      else r == Ok(texts[i].plaintext)
  {
    WithinSkipAt(p, s, ds + [i], |ds|);
    assert (ds + [i])[..|ds|] == ds;
    DeliverSettled(p, s, ds);
    assert i in ds <==> i in Indexes(ds);
    assert i in w.receiver.skipped <==> i in w.receiver.skipped.Keys;
    if i !in ds {
      OpenInvertsSeal(p, MessageKey(p, s.root, i), texts[i].plaintext, texts[i].nonce);
    }
  }

  function RunChannel(p: Primitives, s: Chain, es: seq<Event>): (w: State)
    requires Causal(es)
    ensures |w.outbox| == |Texts(es)|
  {
    if es == [] then Initial(s) else Next(p, RunChannel(p, s, es[..|es| - 1]), es[|es| - 1])
  }

  // ---------- Any schedule ----------

  /** The indexes whose keys the arrivals `ds` get, in order. */
  function Taken(p: Primitives, s: Chain, ds: seq<int>): seq<int> {
    History(p, s, Deliveries(ds))
  }

  /** How many of the arrivals skip too far. */
  function Skips(p: Primitives, s: Chain, ds: seq<int>): nat {
    if ds == [] then 0
    else
      var before := ds[..|ds| - 1];
      Skips(p, s, before) + if Refuses(Deliver(p, s, before), ds[|ds| - 1]) == Some(TooManySkipped) then 1 else 0
  }

  /** The state when `texts` have been sent and the messages `ds` have arrived, in whatever order. */
  ghost predicate Stands(p: Primitives, s: Chain, texts: seq<Text>, ds: seq<int>, w: State) {
    && SentAll(p, s, texts, w)
    && w.receiver == Deliver(p, s, ds)
    && InRange(Taken(p, s, ds), |texts|)
    && w.inbox == PlaintextsAt(texts, Taken(p, s, ds))
    && w.reports == Skips(p, s, ds)
  }

  lemma SendStands(p: Primitives, s: Chain, texts: seq<Text>, ds: seq<int>, w: State, t: Text)
    requires Stands(p, s, texts, ds, w) && |t.nonce| == NONCE_LENGTH
    ensures Stands(p, s, texts + [t], ds, Next(p, w, Send(t)))
  {
    PlaintextsExtend(texts, [t], Taken(p, s, ds));
  }

  /** An arrival gives its plaintext unless its index is refused, and only a skip too far is reported. */
  lemma {:induction false} ArriveStep(p: Primitives, s: Chain, texts: seq<Text>, ds: seq<int>, w: State, i: nat)
    requires Fresh(s) && SentAll(p, s, texts, w) && w.receiver == Deliver(p, s, ds) && i < |texts|
    ensures var refusal := Refuses(w.receiver, i);
      Next(p, w, Arrive(i)) ==
        w.(receiver := Received(p, w.receiver, i),
           inbox := w.inbox + if refusal.None? then [texts[i].plaintext] else [],
           reports := w.reports + if refusal == Some(TooManySkipped) then 1 else 0)
  {
    RunAccounted(p, s, Deliveries(ds));
    OpenInvertsSeal(p, MessageKey(p, s.root, i), texts[i].plaintext, texts[i].nonce);
    hide Open;
    hide Seal;
    hide MessageKey;
    hide Received;
    hide Deliver;
    hide Fresh;
  }

  lemma {:induction false} TakenOneMore(p: Primitives, s: Chain, ds: seq<int>, i: nat)
    ensures Deliver(p, s, ds + [i]) == Received(p, Deliver(p, s, ds), i)
    ensures Taken(p, s, ds + [i]) == Taken(p, s, ds) + if Refuses(Deliver(p, s, ds), i).None? then [i] else []
  {
    hide Received;
    hide Refuses;
    DeliverSnoc(p, s, ds + [i]);
    assert (ds + [i])[..|ds|] == ds;
    assert Deliveries(ds + [i])[..|ds|] == Deliveries(ds);
    hide Run;
  }

  lemma {:induction false} SkipsOneMore(p: Primitives, s: Chain, ds: seq<int>, i: nat)
    ensures Skips(p, s, ds + [i]) ==
      Skips(p, s, ds) + if Refuses(Deliver(p, s, ds), i) == Some(TooManySkipped) then 1 else 0
  {
    hide Refuses;
    hide Deliver;
    assert (ds + [i])[..|ds|] == ds;
  }

  lemma {:induction false} PlaintextsOneMore(texts: seq<Text>, xs: seq<int>, i: nat)
    requires i < |texts| && InRange(xs, |texts|)
    ensures InRange(xs + [i], |texts|)
    ensures PlaintextsAt(texts, xs + [i]) == PlaintextsAt(texts, xs) + [texts[i].plaintext]
  {
    assert (xs + [i])[..|xs|] == xs;
  }

  lemma {:induction false} ArriveStands(p: Primitives, s: Chain, texts: seq<Text>, ds: seq<int>, w: State, i: nat)
    requires Fresh(s) && Stands(p, s, texts, ds, w) && i < |texts|
    ensures Stands(p, s, texts, ds + [i], Next(p, w, Arrive(i)))
  {
    hide Next;
    hide Received;
    hide Refuses;
    hide Deliver;
    hide Taken;
    hide Skips;
    hide PlaintextsAt;
    hide Fresh;
    hide Seal;
    hide MessageKey;
    ArriveStep(p, s, texts, ds, w, i);
    TakenOneMore(p, s, ds, i);
    SkipsOneMore(p, s, ds, i);
    PlaintextsOneMore(texts, Taken(p, s, ds), i);
    hide InRange;
    assert Taken(p, s, ds) + [] == Taken(p, s, ds) && w.inbox + [] == w.inbox;
  }

  /**
   For every interleaving of sends and arrivals, however far they skip, the inbox holds the
   plaintexts of the indexes taken, each once; one report is made for each arrival that skips too
   far, and none for any other.
   */
  lemma {:induction false} AnySchedule(p: Primitives, s: Chain, es: seq<Event>)
    requires Fresh(s) && Causal(es)
    ensures Stands(p, s, Texts(es), Arrivals(es), RunChannel(p, s, es))
    ensures Distinct(Taken(p, s, Arrivals(es)))
  {
    RunAccounted(p, s, Deliveries(Arrivals(es)));
    if es == [] {
      assert Stands(p, s, [], [], Initial(s));
    } else {
      var before, e := es[..|es| - 1], es[|es| - 1];
      AnySchedule(p, s, before);
      var w := RunChannel(p, s, before);
      assert |w.outbox| == |Texts(before)|;
      hide Stands;
      hide Next;
      hide Taken;
      match e {
        case Send(t) =>
          assert Arrivals(es) == Arrivals(before);
          SendStands(p, s, Texts(before), Arrivals(before), w, t);
        case Arrive(i) =>
          assert Texts(es) == Texts(before);
          ArriveStands(p, s, Texts(before), Arrivals(before), w, i);
      }
    }
  }

  // ---------- Schedules within the skip bound ----------

  /** The state reached when `texts` have been sent and the messages `ds` have arrived. */
  ghost predicate Holds(p: Primitives, s: Chain, texts: seq<Text>, ds: seq<int>, w: State) {
    && SentAll(p, s, texts, w)
    && w.receiver == Deliver(p, s, ds)
    && InRange(Firsts(ds), |texts|)
    && w.inbox == PlaintextsAt(texts, Firsts(ds))
    && w.reports == 0
  }

  /** Within the bound, what is taken is each index at its first arrival, and nothing skips too far. */
  lemma {:induction false} TakenWithinSkip(p: Primitives, s: Chain, ds: seq<int>)
    requires Fresh(s) && WithinSkip(p, s, ds)
    ensures Taken(p, s, ds) == Firsts(ds) && Skips(p, s, ds) == 0
  {
    if ds == [] {
    } else {
      var before, i := ds[..|ds| - 1], ds[|ds| - 1];
      TakenWithinSkip(p, s, before);
      FirstsDistinct(before);
      assert Deliveries(ds)[..|before|] == Deliveries(before);
      RefusedIffHandedOut(p, s, Deliveries(before), i);
      assert i in before <==> i in Indexes(before);
      assert i in Firsts(before) <==> i in Indexes(Firsts(before));
    }
  }

  /**
   For every interleaving of sends and arrivals within the skip bound, the inbox holds each
   message that arrived exactly once, as its own plaintext, in order of first arrival; nothing
   is reported as an error.
   */
  lemma {:induction false} ExactlyOnce(p: Primitives, s: Chain, es: seq<Event>)
    requires Fresh(s) && Causal(es) && WithinSkip(p, s, Arrivals(es))
    ensures Holds(p, s, Texts(es), Arrivals(es), RunChannel(p, s, es))
    ensures Distinct(Firsts(Arrivals(es))) && Indexes(Firsts(Arrivals(es))) == Indexes(Arrivals(es))
  {
    FirstsDistinct(Arrivals(es));
    AnySchedule(p, s, es);
    TakenWithinSkip(p, s, Arrivals(es));
  }
}
