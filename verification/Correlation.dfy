/**
 Request and response correlation in the client (client/internal/tcpclient/tcpclient.go):
 concurrent SendReceive calls, their timeouts, and the listener, as interleaved atomic steps.

 Every critical section of a caller is one step. The listener alone keeps the mutex across
 steps: it holds it while it offers a packet on a call's unbuffered channel.
 */
module Correlation {
  import opened Basics

  /** A packet read from the connection; its number is its position in `arrived`. */
  datatype Arrival = Arrival(messageId: Bytes, messageType: Byte)

  /** Where a SendReceive call is. `Returned(Some(n))` got packet n from its channel. */
  datatype Phase =
    | Registered
    | WriteFailed
    | Waiting
    | TimedOut
    | Returned(response: Option<nat>)

  datatype Call = Call(messageId: Bytes, phase: Phase)

  /** Offering and Clearing hold the mutex. */
  datatype Listener = Reading | Offering(call: nat) | Clearing | Calling

  datatype Client = Client(
    pendingResponses: map<Bytes, nat>,
    messageHandlers: set<Byte>,
    calls: map<nat, Call>,
    listener: Listener,
    arrived: seq<Arrival>,
    delivered: seq<(nat, nat)>,
    handled: seq<nat>)

  const START := Client(map[], {}, map[], Reading, [], [], [])

  datatype Step =
    | Register(call: nat, messageId: Bytes)
    | PayloadFails(call: nat)
    | Write(call: nat, ok: bool)
    | CleanUp(call: nat)
    | TimeOut(call: nat)
    | RegisterHandler(messageType: Byte)
    | Read(packet: Arrival)
    | HandOver
    | Clear
    | RunHandler

  predicate MutexFree(s: Client) {
    s.listener.Reading? || s.listener.Calling?
  }

  predicate InPhase(s: Client, c: nat, phase: Phase) {
    c in s.calls && s.calls[c].phase == phase
  }

  /** Message ids are random; the guard of Register is that they do not repeat. */
  ghost predicate Enabled(s: Client, step: Step) {
    match step
    case Register(c, id) => MutexFree(s) && c !in s.calls && forall d | d in s.calls :: s.calls[d].messageId != id
    case PayloadFails(c) => InPhase(s, c, Registered)
    case Write(c, _) => MutexFree(s) && InPhase(s, c, Registered)
    case CleanUp(c) => MutexFree(s) && (InPhase(s, c, WriteFailed) || InPhase(s, c, TimedOut))
    case TimeOut(c) => InPhase(s, c, Waiting)
    case RegisterHandler(_) => MutexFree(s)
    case Read(_) => s.listener.Reading?
    case HandOver => s.listener.Offering? && s.arrived != [] && InPhase(s, s.listener.call, Waiting)
    case Clear => s.listener.Clearing? && s.arrived != []
    case RunHandler => s.listener.Calling? && s.arrived != []
  }

  function Enter(s: Client, c: nat, phase: Phase): Client
    requires c in s.calls
  {
    s.(calls := s.calls[c := s.calls[c].(phase := phase)])
  }

  function Next(s: Client, step: Step): Client
    requires Enabled(s, step)
  {
    match step
    case Register(c, id) =>
      s.(pendingResponses := s.pendingResponses[id := c], calls := s.calls[c := Call(id, Registered)])
    case PayloadFails(c) => Enter(s, c, Returned(None))
    case Write(c, ok) => Enter(s, c, if ok then Waiting else WriteFailed)
    case CleanUp(c) =>
      Enter(s, c, Returned(None)).(pendingResponses := s.pendingResponses - {s.calls[c].messageId})
    case TimeOut(c) => Enter(s, c, TimedOut)
    case RegisterHandler(t) => s.(messageHandlers := s.messageHandlers + {t})
    case Read(packet) =>
      s.(arrived := s.arrived + [packet],
         listener := if packet.messageId in s.pendingResponses then Offering(s.pendingResponses[packet.messageId])
                     else if packet.messageType in s.messageHandlers then Calling
                     else Reading)
    case HandOver =>
      var n := |s.arrived| - 1;
      Enter(s, s.listener.call, Returned(Some(n))).(
        listener := Clearing, delivered := s.delivered + [(s.listener.call, n)])
    case Clear =>
      s.(listener := Reading, pendingResponses := s.pendingResponses - {s.arrived[|s.arrived| - 1].messageId})
    case RunHandler => s.(listener := Reading, handled := s.handled + [|s.arrived| - 1])
  }

  ghost predicate Leads(s: Client, steps: seq<Step>, t: Client) {
    if steps == [] then t == s
    else exists m {:trigger Leads(s, steps[..|steps| - 1], m)} ::
      Leads(s, steps[..|steps| - 1], m) && Enabled(m, steps[|steps| - 1]) && t == Next(m, steps[|steps| - 1])
  }

  lemma OneMoreStep(s: Client, steps: seq<Step>, m: Client, step: Step)
    requires Leads(s, steps, m) && Enabled(m, step)
    ensures Leads(s, steps + [step], Next(m, step))
  {
    assert (steps + [step])[..|steps|] == steps;
  }

  lemma OneStep(s: Client, step: Step)
    requires Enabled(s, step)
    ensures Leads(s, [step], Next(s, step))
  {
    assert Leads(s, [], s);
    assert [step][..0] == [];
  }

  // ---------- Safety ----------

  /** Packets before this number have been dealt with. */
  function Settled(s: Client): int {
    if s.listener.Offering? || s.listener.Calling? then |s.arrived| - 1 else |s.arrived|
  }

  /** The deliveries name each call and each packet at most once, and match by message id. */
  ghost predicate DeliveriesRight(s: Client) {
    && (forall i | 0 <= i < |s.delivered| ::
          && s.delivered[i].1 < |s.arrived|
          && s.delivered[i].1 < Settled(s)
          && InPhase(s, s.delivered[i].0, Returned(Some(s.delivered[i].1)))
          && s.arrived[s.delivered[i].1].messageId == s.calls[s.delivered[i].0].messageId)
    && (forall i, j | 0 <= i < j < |s.delivered| :: s.delivered[i].1 != s.delivered[j].1)
  }

  ghost predicate HandledRight(s: Client) {
    && (forall i | 0 <= i < |s.handled| :: s.handled[i] < Settled(s))
    && (forall i, j | 0 <= i < j < |s.handled| :: s.handled[i] != s.handled[j])
    && (forall i, j | 0 <= i < |s.delivered| && 0 <= j < |s.handled| :: s.delivered[i].1 != s.handled[j])
  }

  ghost predicate ClientHolds(s: Client) {
    && (forall id | id in s.pendingResponses ::
          s.pendingResponses[id] in s.calls && s.calls[s.pendingResponses[id]].messageId == id)
    && (!s.listener.Reading? ==> s.arrived != [])
    && (s.listener.Offering? ==>
          s.listener.call in s.calls && s.calls[s.listener.call].messageId == s.arrived[|s.arrived| - 1].messageId)
    && DeliveriesRight(s)
    && HandledRight(s)
  }

  lemma StepHandled(s: Client, step: Step)
    requires ClientHolds(s) && Enabled(s, step)
    ensures HandledRight(Next(s, step))
  {
  }

  lemma StepDeliveries(s: Client, step: Step)
    requires ClientHolds(s) && Enabled(s, step)
    ensures DeliveriesRight(Next(s, step))
  {
    hide HandledRight;
  }

  lemma StepHolds(s: Client, step: Step)
    requires ClientHolds(s) && Enabled(s, step)
    ensures ClientHolds(Next(s, step))
  {
    StepHandled(s, step);
    StepDeliveries(s, step);
    hide HandledRight;
    hide DeliveriesRight;
  }

  lemma {:induction false} RunHolds(steps: seq<Step>, t: Client)
    requires Leads(START, steps, t)
    ensures ClientHolds(t)
  {
    if steps == [] {
    } else {
      var m :| Leads(START, steps[..|steps| - 1], m)
        && Enabled(m, steps[|steps| - 1]) && t == Next(m, steps[|steps| - 1]);
      RunHolds(steps[..|steps| - 1], m);
      StepHolds(m, steps[|steps| - 1]);
    }
  }

  /**
   In every interleaving, a call is handed at most one packet, a packet goes to at most one call,
   the two carry the same message id, and no such packet also reaches a handler.
   */
  lemma Correlated(steps: seq<Step>, t: Client, i: nat, j: nat)
    requires Leads(START, steps, t) && i < |t.delivered|
    ensures t.delivered[i].1 < |t.arrived| && t.delivered[i].0 in t.calls
    ensures t.arrived[t.delivered[i].1].messageId == t.calls[t.delivered[i].0].messageId
    ensures t.delivered[i].1 !in t.handled
    ensures j < |t.delivered| && i != j ==>
      t.delivered[i].0 != t.delivered[j].0 && t.delivered[i].1 != t.delivered[j].1
  {
    RunHolds(steps, t);
  }

  // ---------- What is pending, from the history alone ----------

  /** The last packet read in these steps. */
  function LastRead(steps: seq<Step>): Option<Arrival> {
    if steps == [] then None
    else if steps[|steps| - 1].Read? then Some(steps[|steps| - 1].packet)
    else LastRead(steps[..|steps| - 1])
  }

  /** A response with this id was handed over and then cleared. */
  ghost predicate Cleared(steps: seq<Step>, id: Bytes) {
    exists k | 0 <= k < |steps| :: steps[k].Clear? && ClearedAt(steps, k, id)
  }

  predicate ClearedAt(steps: seq<Step>, k: nat, id: Bytes)
    requires k <= |steps|
  {
    LastRead(steps[..k]).Some? && LastRead(steps[..k]).value.messageId == id
  }

  /** Call c was registered with this id, and neither cleaned up nor answered. */
  ghost predicate Open(steps: seq<Step>, c: nat, id: Bytes) {
    Register(c, id) in steps && CleanUp(c) !in steps && !Cleared(steps, id)
  }

  /** The calls are those registered. */
  ghost predicate CallsMatch(steps: seq<Step>, t: Client) {
    && (forall c: nat, id: Bytes :: Register(c, id) in steps <==> c in t.calls && t.calls[c].messageId == id)
    && (forall c, d | c in t.calls && d in t.calls && t.calls[c].messageId == t.calls[d].messageId :: c == d)
    && (forall c: nat :: CleanUp(c) in steps ==> c in t.calls)
  }

  /** The handlers are those registered, and the last packet is the last one read. */
  ghost predicate ReadsMatch(steps: seq<Step>, t: Client) {
    && (forall b: Byte :: RegisterHandler(b) in steps <==> b in t.messageHandlers)
    && LastRead(steps) == (if t.arrived == [] then None else Some(t.arrived[|t.arrived| - 1]))
  }

  predicate Known(t: Client, id: Bytes) {
    exists c :: c in t.calls && t.calls[c].messageId == id
  }

  ghost predicate PendingRight(steps: seq<Step>, t: Client) {
    && (forall id: Bytes :: Cleared(steps, id) ==> Known(t, id))
    && (forall id: Bytes, c: nat :: Open(steps, c, id) ==> id in t.pendingResponses && t.pendingResponses[id] == c)
    && (forall id: Bytes :: id in t.pendingResponses ==> Open(steps, t.pendingResponses[id], id))
    && (t.listener.Clearing? ==> t.arrived != [] && Known(t, t.arrived[|t.arrived| - 1].messageId))
  }

  ghost predicate HistoryHolds(steps: seq<Step>, t: Client) {
    CallsMatch(steps, t) && ReadsMatch(steps, t) && PendingRight(steps, t)
  }

  lemma ClearedSnoc(steps: seq<Step>, step: Step, id: Bytes)
    ensures Cleared(steps + [step], id) <==>
      Cleared(steps, id) || (step.Clear? && LastRead(steps).Some? && LastRead(steps).value.messageId == id)
  {
    var after := steps + [step];
    assert after[..|steps|] == steps;
    forall k | 0 <= k < |steps|
      ensures after[k] == steps[k] && (ClearedAt(after, k, id) <==> ClearedAt(steps, k, id))
    {
      assert after[..k] == steps[..k];
    }
    if Cleared(steps, id) {
      var k :| 0 <= k < |steps| && steps[k].Clear? && ClearedAt(steps, k, id);
      assert after[k].Clear? && ClearedAt(after, k, id);
    }
    if step.Clear? && LastRead(steps).Some? && LastRead(steps).value.messageId == id {
      assert after[|steps|].Clear? && ClearedAt(after, |steps|, id);
    }
  }

  lemma CallsStep(steps: seq<Step>, s: Client, step: Step)
    requires CallsMatch(steps, s) && Enabled(s, step)
    ensures CallsMatch(steps + [step], Next(s, step))
  {
    assert forall x: Step :: x in steps + [step] <==> x in steps || x == step;
  }

  lemma ReadsStep(steps: seq<Step>, s: Client, step: Step)
    requires ReadsMatch(steps, s) && Enabled(s, step)
    ensures ReadsMatch(steps + [step], Next(s, step))
  {
    assert (steps + [step])[..|steps|] == steps;
    assert forall x: Step :: x in steps + [step] <==> x in steps || x == step;
  }

  predicate Clears(steps: seq<Step>, step: Step, id: Bytes) {
    step.Clear? && LastRead(steps).Some? && LastRead(steps).value.messageId == id
  }

  /** One more step opens the call it registers, and closes the one it cleans up or whose response it clears. */
  lemma OpenStep(steps: seq<Step>, s: Client, step: Step, c: nat, id: Bytes)
    requires CallsMatch(steps, s) && PendingRight(steps, s) && Enabled(s, step)
    ensures Cleared(steps + [step], id) <==> Cleared(steps, id) || Clears(steps, step, id)
    ensures Open(steps + [step], c, id) <==>
      (Open(steps, c, id) || step == Register(c, id)) && step != CleanUp(c) && !Clears(steps, step, id)
  {
    assert forall x: Step :: x in steps + [step] <==> x in steps || x == step;
    ClearedSnoc(steps, step, id);
    hide Cleared;
    if step == Register(c, id) {
      assert !Known(s, id);
    }
  }

  lemma KnownStep(s: Client, step: Step, id: Bytes)
    requires Enabled(s, step) && Known(s, id)
    ensures Known(Next(s, step), id)
  {
    var c :| c in s.calls && s.calls[c].messageId == id;
    assert c in Next(s, step).calls && Next(s, step).calls[c].messageId == id;
  }

  lemma PendingStep(steps: seq<Step>, s: Client, step: Step)
    requires ClientHolds(s) && HistoryHolds(steps, s) && Enabled(s, step)
    ensures PendingRight(steps + [step], Next(s, step))
  {
    var after, t := steps + [step], Next(s, step);
    forall id: Bytes | Cleared(after, id)
      ensures Known(t, id)
    {
      OpenStep(steps, s, step, 0, id);
      if Clears(steps, step, id) {
        assert Known(s, id);
      }
      KnownStep(s, step, id);
    }
    forall id: Bytes, c: nat | Open(after, c, id)
      ensures id in t.pendingResponses && t.pendingResponses[id] == c
    {
      OpenStep(steps, s, step, c, id);
      OpenIsCall(steps, s, c, id);
    }
    forall id: Bytes | id in t.pendingResponses
      ensures Open(after, t.pendingResponses[id], id)
    {
      OpenStep(steps, s, step, t.pendingResponses[id], id);
    }
    if t.listener.Clearing? {
      var id := t.arrived[|t.arrived| - 1].messageId;
      assert Known(s, id);
      KnownStep(s, step, id);
    }
  }

  lemma OpenIsCall(steps: seq<Step>, s: Client, c: nat, id: Bytes)
    requires CallsMatch(steps, s)
    ensures Open(steps, c, id) ==> c in s.calls && s.calls[c].messageId == id
  {
  }

  lemma HistoryStep(steps: seq<Step>, s: Client, step: Step)
    requires ClientHolds(s) && HistoryHolds(steps, s) && Enabled(s, step)
    ensures HistoryHolds(steps + [step], Next(s, step))
  {
    CallsStep(steps, s, step);
    ReadsStep(steps, s, step);
    PendingStep(steps, s, step);
    hide CallsMatch;
    hide ReadsMatch;
    hide PendingRight;
  }

  lemma {:induction false} RunHistory(steps: seq<Step>, t: Client)
    requires Leads(START, steps, t)
    ensures HistoryHolds(steps, t)
  {
    if steps == [] {
    } else {
      var before, step := steps[..|steps| - 1], steps[|steps| - 1];
      var m :| Leads(START, before, m) && Enabled(m, step) && t == Next(m, step);
      RunHolds(before, m);
      RunHistory(before, m);
      assert steps == before + [step];
      hide HistoryHolds;
      HistoryStep(before, m, step);
    }
  }

  /** An id is pending exactly if its call is open: registered, not cleaned up, and its response not cleared. */
  lemma {:induction false} PendingExact(steps: seq<Step>, t: Client, id: Bytes)
    requires Leads(START, steps, t)
    ensures id in t.pendingResponses <==> exists c: nat :: Open(steps, c, id)
    ensures forall c: nat | Open(steps, c, id) :: t.pendingResponses[id] == c
  {
    RunHistory(steps, t);
    if id in t.pendingResponses {
      assert Open(steps, t.pendingResponses[id], id);
    }
  }

  /**
   What the listener does with the next packet, from the history alone: it offers it to the open call
   with its id, whatever handlers there are; it gives it to a handler exactly if there is no such call.
   */
  lemma {:induction false} DispatchExact(steps: seq<Step>, t: Client, packet: Arrival, c: nat)
    requires Leads(START, steps, t) && t.listener.Reading?
    ensures var u := Next(t, Read(packet));
      && (u.listener == Offering(c) <==> Open(steps, c, packet.messageId))
      && (u.listener.Calling? <==>
            (forall d: nat :: !Open(steps, d, packet.messageId)) && RegisterHandler(packet.messageType) in steps)
  {
    RunHistory(steps, t);
  }

  /** A response that arrives after its call was cleaned up or answered is not offered to anyone. */
  lemma {:induction false} LateResponse(steps: seq<Step>, t: Client, packet: Arrival, c: nat)
    requires Leads(START, steps, t) && t.listener.Reading? && Register(c, packet.messageId) in steps
    requires CleanUp(c) in steps || Cleared(steps, packet.messageId)
    ensures !Next(t, Read(packet)).listener.Offering?
  {
    RunHistory(steps, t);
  }

  /** Packet n has been given to a handler, or is about to be. */
  predicate GoesToHandler(t: Client, n: nat) {
    n in t.handled || (t.listener.Calling? && |t.arrived| == n + 1)
  }

  lemma HandlerStep(s: Client, step: Step, n: nat)
    requires Enabled(s, step) && |s.arrived| > n
    ensures |Next(s, step).arrived| > n && (GoesToHandler(Next(s, step), n) <==> GoesToHandler(s, n))
  {
    if step.RunHandler? {
      var last := |s.arrived| - 1;
      assert n in s.handled + [last] <==> n in s.handled || n == last;
    }
  }

  lemma {:induction false} HandlerFixed(u: Client, steps: seq<Step>, t: Client, n: nat)
    requires Leads(u, steps, t) && |u.arrived| > n
    ensures |t.arrived| > n && (GoesToHandler(t, n) <==> GoesToHandler(u, n))
  {
    if steps == [] {
    } else {
      var before, step := steps[..|steps| - 1], steps[|steps| - 1];
      var m :| Leads(u, before, m) && Enabled(m, step) && t == Next(m, step);
      HandlerFixed(u, before, m, n);
      HandlerStep(m, step, n);
      hide *;
    }
  }

  /** Over every run, a packet is given to a handler exactly if no call was open for it and a handler was registered. */
  lemma {:induction false} HandlerExact(before: seq<Step>, s: Client, packet: Arrival, steps: seq<Step>, t: Client)
    requires Leads(START, before, s) && s.listener.Reading? && Leads(Next(s, Read(packet)), steps, t)
    ensures GoesToHandler(t, |s.arrived|) <==>
      (forall d: nat :: !Open(before, d, packet.messageId)) && RegisterHandler(packet.messageType) in before
  {
    RunHolds(before, s);
    DispatchExact(before, s, packet, 0);
    HandlerFixed(Next(s, Read(packet)), steps, t, |s.arrived|);
  }

  // ---------- Where a call is, from the history alone ----------

  /** Every phase of call c in terms of the steps it took and the packets handed over. */
  ghost predicate PhaseRight(steps: seq<Step>, t: Client, c: nat) {
    var wrote, failed, gaveUp := Write(c, true) in steps, Write(c, false) in steps, PayloadFails(c) in steps;
    var timedOut, cleaned := TimeOut(c) in steps, CleanUp(c) in steps;
    var answered := exists n: nat :: (c, n) in t.delivered;
    if c !in t.calls then !wrote && !failed && !timedOut && !cleaned && !gaveUp && !answered
    else
      && (InPhase(t, c, Registered) <==> !wrote && !failed && !gaveUp)
      && (InPhase(t, c, WriteFailed) <==> failed && !cleaned)
      && (InPhase(t, c, Waiting) <==> wrote && !timedOut && !answered)
      && (InPhase(t, c, TimedOut) <==> timedOut && !cleaned)
      && (InPhase(t, c, Returned(None)) <==> cleaned || gaveUp)
      && (forall n: nat :: InPhase(t, c, Returned(Some(n))) <==> (c, n) in t.delivered)
  }

  /** A step that is not about call c leaves it where it was. */
  predicate About(s: Client, step: Step, c: nat) {
    match step
    case Register(d, _) => d == c
    case PayloadFails(d) => d == c
    case Write(d, _) => d == c
    case CleanUp(d) => d == c
    case TimeOut(d) => d == c
    case HandOver => s.listener == Offering(c)
    case _ => false
  }

  lemma DeliveredSnoc(s: Client, step: Step, c: nat, n: nat)
    requires Enabled(s, step)
    ensures (c, n) in Next(s, step).delivered <==>
      (c, n) in s.delivered || (step.HandOver? && s.listener == Offering(c) && n == |s.arrived| - 1)
  {
  }

  lemma PhaseStepElsewhere(steps: seq<Step>, s: Client, step: Step, c: nat)
    requires PhaseRight(steps, s, c) && Enabled(s, step) && !About(s, step, c)
    ensures PhaseRight(steps + [step], Next(s, step), c)
  {
    assert forall x: Step :: x in steps + [step] <==> x in steps || x == step;
    forall n: nat
      ensures (c, n) in Next(s, step).delivered <==> (c, n) in s.delivered
    {
      DeliveredSnoc(s, step, c, n);
    }
  }

  lemma PhaseStep(steps: seq<Step>, s: Client, step: Step, c: nat)
    requires PhaseRight(steps, s, c) && Enabled(s, step)
    ensures PhaseRight(steps + [step], Next(s, step), c)
  {
    if About(s, step, c) {
      hide MutexFree;
      assert forall x: Step :: x in steps + [step] <==> x in steps || x == step;
      forall n: nat
        ensures (c, n) in Next(s, step).delivered <==>
          (c, n) in s.delivered || (step.HandOver? && n == |s.arrived| - 1)
      {
        DeliveredSnoc(s, step, c, n);
      }
    } else {
      PhaseStepElsewhere(steps, s, step, c);
    }
  }

  /**
   In every run: a call returns without a packet exactly if its payload failed or it was cleaned up,
   which it is after a failed write or a timeout; it waits from a successful write until its timeout
   or its answer; and it returns packet n exactly if n was handed to it.
   */
  lemma {:induction false} PhaseExact(steps: seq<Step>, t: Client, c: nat)
    requires Leads(START, steps, t)
    ensures PhaseRight(steps, t, c)
  {
    if steps == [] {
    } else {
      var before, step := steps[..|steps| - 1], steps[|steps| - 1];
      var m :| Leads(START, before, m) && Enabled(m, step) && t == Next(m, step);
      PhaseExact(before, m, c);
      PhaseStep(before, m, step, c);
      assert steps == before + [step];
    }
  }

  // ---------- The untimely response ----------

  /** The listener offers a packet to a call that is not waiting for it. */
  predicate Stuck(s: Client, c: nat) {
    s.listener == Offering(c) && c in s.calls && !s.calls[c].phase.Waiting?
  }

  lemma StepStuck(s: Client, c: nat, step: Step)
    requires Stuck(s, c) && Enabled(s, step)
    ensures Stuck(Next(s, step), c) && Next(s, step).delivered == s.delivered && Next(s, step).arrived == s.arrived
  {
  }

  lemma {:induction false} StuckForever(s: Client, c: nat, steps: seq<Step>, t: Client)
    requires Stuck(s, c) && Leads(s, steps, t)
    ensures Stuck(t, c) && t.delivered == s.delivered && t.arrived == s.arrived
  {
    if steps == [] {
    } else {
      var m :| Leads(s, steps[..|steps| - 1], m) && Enabled(m, steps[|steps| - 1]) && t == Next(m, steps[|steps| - 1]);
      StuckForever(s, c, steps[..|steps| - 1], m);
      StepStuck(m, c, steps[|steps| - 1]);
    }
  }

  /** The state is reached: a response read after the timeout of its call has fired. */
  lemma StuckReached(messageId: Bytes, messageType: Byte)
    ensures exists t ::
      && Leads(START, [Register(0, messageId), Write(0, true), TimeOut(0), Read(Arrival(messageId, messageType))], t)
      && Stuck(t, 0)
  {
    hide Leads;
    var packet := Arrival(messageId, messageType);
    var s1 := Next(START, Register(0, messageId));
    var s2 := Next(s1, Write(0, true));
    var s3 := Next(s2, TimeOut(0));
    var steps := [Register(0, messageId)];
    assert Leads(START, steps, s1) by {
      OneStep(START, Register(0, messageId));
    }
    OneMoreStep(START, steps, s1, Write(0, true));
    OneMoreStep(START, steps + [Write(0, true)], s2, TimeOut(0));
    OneMoreStep(START, steps + [Write(0, true)] + [TimeOut(0)], s3, Read(packet));
    assert steps + [Write(0, true)] + [TimeOut(0)] + [Read(packet)] ==
      [Register(0, messageId), Write(0, true), TimeOut(0), Read(packet)];
    assert Stuck(Next(s3, Read(packet)), 0);
  }

  /**
   An offer can still be taken in some continuation exactly if the call is waiting. Otherwise,
   as when the timeout has fired but not yet cleaned up, the listener keeps the mutex for good.
   */
  lemma {:induction false} OfferExact(s: Client, c: nat)
    requires ClientHolds(s) && s.listener == Offering(c)
    ensures (exists steps, t :: Leads(s, steps, t) && t.delivered != s.delivered) <==> InPhase(s, c, Waiting)
  {
    if InPhase(s, c, Waiting) {
      OneStep(s, HandOver);
      assert Leads(s, [HandOver], Next(s, HandOver)) && |Next(s, HandOver).delivered| > |s.delivered|;
    } else {
      forall steps, t | Leads(s, steps, t)
        ensures t.delivered == s.delivered
      {
        StuckForever(s, c, steps, t);
      }
    }
  }
}
