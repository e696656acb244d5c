/**
 What the two parties of a permitted run get to read, over the whole run: only what the peer
 sent, and each message once unless its epoch had retired before reaching its index.
 */
module Inbox {
  import opened Basics
  import opened Crypto
  import opened Chain
  import opened Parties
  import opened Windows
  import opened Turns
  import opened Agreement

  predicate SameMessage(e: Entry, f: Entry) {
    e.turn == f.turn && e.index == f.index
  }

  /** How often a message gave its plaintext. */
  function Times(inbox: seq<Entry>, e: Entry): nat {
    if inbox == [] then 0
    else Times(inbox[..|inbox| - 1], e) + if SameMessage(inbox[|inbox| - 1], e) then 1 else 0
  }

  function Messages(inbox: seq<Entry>): set<(nat, int)> {
    set n | 0 <= n < |inbox| :: (inbox[n].turn, inbox[n].index)
  }

  // ---------- The invariant ----------

  /**
   An index that its epoch had passed stays passed; one that it had not belongs to a retired
   epoch, which moves no further.
   */
  predicate EntryFits(a: Party, e: Entry) {
    if Passed(e) then e.turn >= Oldest(a) ==> e.index <= Reached(a, e.turn)
    else e.turn < a.index && (e.turn >= Oldest(a) ==> Reached(a, e.turn) == e.reached)
  }

  ghost predicate EntriesFit(s: nat, a: Party, inbox: seq<Entry>) {
    forall n | 0 <= n < |inbox| && !Owns(s, inbox[n].turn) :: inbox[n].turn <= a.index && EntryFits(a, inbox[n])
  }

  predicate Passed(e: Entry) {
    e.index <= e.reached
  }

  /** Only a message that its epoch had not passed is read again, and then it still has not. */
  ghost predicate NoRepeats(inbox: seq<Entry>) {
    forall m, n | 0 <= m < n < |inbox| && SameMessage(inbox[m], inbox[n]) :: !Passed(inbox[m]) && !Passed(inbox[n])
  }

  predicate IsOf(m: Post, e: Entry) {
    m.turn == e.turn && m.envelope.wire.index == e.index && m.plaintext == e.plaintext
  }

  predicate WasSent(mail: seq<Post>, e: Entry) {
    exists d | 0 <= d < |mail| :: IsOf(mail[d], e)
  }

  /** Everything read was sent, at that turn and index and with that plaintext. */
  ghost predicate Authentic(mail: seq<Post>, inbox: seq<Entry>) {
    forall n | 0 <= n < |inbox| :: WasSent(mail, inbox[n])
  }

  ghost predicate InboxHolds(w: World) {
    && |w.sides| == 2
    && w.got == Messages(w.inbox)
    && NoRepeats(w.inbox)
    && Authentic(w.mail, w.inbox)
    && EntriesFit(0, w.sides[0], w.inbox)
    && EntriesFit(1, w.sides[1], w.inbox)
  }

  // ---------- One event ----------

  lemma ActionKeepsEntries(p: Primitives, keys: seq<KeyPair>, s: nat, a: Party, act: Action, inbox: seq<Entry>)
    requires SideHolds(p, keys, s, a) && Succeeds(p, a, act) && EntriesFit(s, a, inbox)
    ensures EntriesFit(s, Acted(p, a, act), inbox)
  {
    var b := Acted(p, a, act);
    assert a.index <= b.index;
    forall n | 0 <= n < |inbox| && !Owns(s, inbox[n].turn)
      ensures EntryFits(b, inbox[n])
    {
      hide Acted;
      if inbox[n].turn >= Oldest(b) {
        ReachedGrows(p, Secret(p, keys), Dhs(p, keys, a.index), a, act, inbox[n].turn);
      }
    }
  }

  lemma SendSucceeds(p: Primitives, keys: seq<KeyPair>, s: nat, a: Party, k: KeyPair)
    requires SideHolds(p, keys, s, a) && (a.role == Receiving ==> a.index == LastTurn(keys) && Unused(p, keys, k))
    ensures Succeeds(p, a, Encrypting(k))
  {
  }

  lemma PeerKey(p: Primitives, keys: seq<KeyPair>, m: Post)
    requires KeysHold(p, keys) && PostHolds(p, keys, m)
    ensures |m.envelope.publicKey| > 0
  {
    hide Seal;
    PublicKeySize(p, keys[m.turn + 1]);
  }

  lemma PeerExchange(p: Primitives, keys: seq<KeyPair>, s: nat, a: Party)
    requires KeysHold(p, keys) && SideHolds(p, keys, s, a) && a.index < LastTurn(keys) && Owns(s, a.index)
    ensures SharedSecret(p, a.keys, TurnKey(keys, a.index + 1)).Some?
  {
    TurnDhBothEnds(p, keys, a.index + 1);
    hide WindowHolds;
  }

  lemma SidePlaced(p: Primitives, keys: seq<KeyPair>, s: nat, a: Party)
    requires KeysHold(p, keys) && SideHolds(p, keys, s, a)
    ensures DistinctKeys(keys) && Placed(keys, s, a)
  {
  }

  lemma DeliverySucceeds(p: Primitives, keys: seq<KeyPair>, s: nat, a: Party, m: Post)
    requires KeysHold(p, keys) && SideHolds(p, keys, s, a) && PostHolds(p, keys, m)
    requires !Owns(s, m.turn) && MayArrive(a, m.turn) && a.index >= LastTurn(keys) - 1
    ensures Succeeds(p, a, Decrypting(m.envelope))
  {
    hide KeysHold;
    hide SideHolds;
    hide DistinctKeys;
    hide Seal;
    hide MessageKey;
    hide Locate;
    PeerKey(p, keys, m);
    SidePlaced(p, keys, s, a);
    if m.turn > a.index {
      assert Owns(s, a.index);
      PeerExchange(p, keys, s, a);
    } else {
      LookupExact(keys, s, a, m.turn);
    }
    hide Placed;
  }

  lemma ServingReached(p: Primitives, keys: seq<KeyPair>, a: Party, turn: nat)
    requires 0 <= Oldest(a) <= turn <= LastTurn(keys) && turn <= a.index
    ensures Serving(p, keys, a, turn).previousIndex == Reached(a, turn)
  {
  }

  /** A message of which the epoch has passed the index is refused the second time. */
  lemma NotReadAgain(p: Primitives, keys: seq<KeyPair>, s: nat, a: Party, b: Party, inbox: seq<Entry>, m: Post,
                     e: Entry)
    requires 0 <= Oldest(a) <= m.turn <= LastTurn(keys) && !Owns(s, m.turn) && m.envelope.wire.index >= 0
    requires EntriesFit(s, a, inbox) && EntriesFit(s, b, inbox) && NoRepeats(inbox)
    requires e.turn == m.turn && e.index == m.envelope.wire.index && e.reached == Reached(b, m.turn)
    requires Expected(Serving(p, keys, a, m.turn), Messages(inbox), m).Ok?
    ensures NoRepeats(inbox + [e])
  {
    hide Serving;
    forall n | 0 <= n < |inbox| && SameMessage(inbox[n], e)
      ensures !Passed(inbox[n]) && !Passed(e)
    {
      assert (inbox[n].turn, inbox[n].index) in Messages(inbox);
      ServingReached(p, keys, a, m.turn);
      assert EntryFits(a, inbox[n]) && EntryFits(b, inbox[n]);
    }
  }

  lemma ReadNow(p: Primitives, keys: seq<KeyPair>, mail: seq<Post>, got: set<(nat, int)>, s: nat, b: Party, e: Entry)
    requires SideFits(p, keys, mail, got, s, b) && (e.turn, e.index) in got && !Owns(s, e.turn)
    requires e.reached == Reached(b, e.turn)
    ensures e.turn <= b.index && EntryFits(b, e)
  {
    FitsHolds(p, keys, mail, got, s, b);
    assert GotUpTo(got, s, b.index);
    if e.turn == b.index {
      assert LiveLedger(b.current.chain, got, b.index);
    }
  }

  lemma MessagesSnoc(inbox: seq<Entry>, e: Entry)
    ensures Messages(inbox + [e]) == Messages(inbox) + {(e.turn, e.index)}
  {
    var after := inbox + [e];
    assert after[|inbox|] == e;
    forall n | 0 <= n < |inbox|
      ensures (inbox[n].turn, inbox[n].index) in Messages(after)
    {
      assert after[n] == inbox[n];
    }
  }

  lemma ReadKeepsAuthentic(mail: seq<Post>, inbox: seq<Entry>, d: nat, e: Entry)
    requires Authentic(mail, inbox) && d < |mail| && IsOf(mail[d], e)
    ensures Authentic(mail, inbox + [e])
  {
    assert WasSent(mail, e);
  }

  lemma SentKeepsAuthentic(mail: seq<Post>, inbox: seq<Entry>, m: Post)
    requires Authentic(mail, inbox)
    ensures Authentic(mail + [m], inbox)
  {
    forall n | 0 <= n < |inbox|
      ensures WasSent(mail + [m], inbox[n])
    {
      assert WasSent(mail, inbox[n]);
      var d :| 0 <= d < |mail| && IsOf(mail[d], inbox[n]);
      assert (mail + [m])[d] == mail[d];
    }
  }

  lemma ReadKeepsEntries(s: nat, a: Party, inbox: seq<Entry>, e: Entry)
    requires EntriesFit(s, a, inbox)
    requires !Owns(s, e.turn) ==> e.turn <= a.index && EntryFits(a, e)
    ensures EntriesFit(s, a, inbox + [e])
  {
  }

  /** The side a message is delivered to. */
  lemma ReadHere(p: Primitives, w: World, d: nat, b: Party, e: Entry)
    requires WorldHolds(p, w) && InboxHolds(w) && Enabled(p, w, Deliver(d))
    requires var m := w.mail[d]; var a := w.sides[Receiver(m.turn)];
      && b == AfterDecrypt(p, a, m.envelope) && Outcome(p, a, m.envelope) == Ok(e.plaintext)
      && e.turn == m.turn && e.index == m.envelope.wire.index && e.reached == Reached(b, m.turn)
    ensures IsOf(w.mail[d], e) && e.turn <= b.index && EntryFits(b, e)
    ensures EntriesFit(Receiver(e.turn), b, w.inbox) ==> NoRepeats(w.inbox + [e])
  {
    hide SideFits;
    hide KeysHold;
    hide Outcome;
    hide AfterDecrypt;
    hide Serving;
    hide NoRepeats;
    var m := w.mail[d];
    var s := Receiver(m.turn);
    assert PostHolds(p, w.keys, m);
    assert EntriesFit(s, w.sides[s], w.inbox);
    SideOfWorld(p, w, s);
    DeliveryInWorld(p, w, d);
    DeliverKeepsReceiver(p, w.keys, w.mail, s, w.sides[s], w.got, m);
    hide WorldHolds;
    hide PostHolds;
    hide EntriesFit;
    hide Reached;
    ReadNow(p, w.keys, w.mail, GotAfter(w.got, m, Ok(e.plaintext)), s, b, e);
    if EntriesFit(s, b, w.inbox) {
      NotReadAgain(p, w.keys, s, w.sides[s], b, w.inbox, m, e);
    }
  }

  lemma DeliverKeepsEntries(p: Primitives, keys: seq<KeyPair>, mail: seq<Post>, s: nat, a: Party,
                            got: set<(nat, int)>, m: Post, inbox: seq<Entry>)
    requires KeysHold(p, keys) && SideFits(p, keys, mail, got, s, a) && PostHolds(p, keys, m)
    requires !Owns(s, m.turn) && MayArrive(a, m.turn) && EntriesFit(s, a, inbox)
    ensures EntriesFit(s, AfterDecrypt(p, a, m.envelope), inbox)
  {
    hide AfterDecrypt;
    hide EntriesFit;
    FitsHolds(p, keys, mail, got, s, a);
    hide SideFits;
    DeliverySucceeds(p, keys, s, a, m);
    ActionKeepsEntries(p, keys, s, a, Decrypting(m.envelope), inbox);
  }

  lemma DeliverKeepsInbox(p: Primitives, w: World, d: nat)
    requires WorldHolds(p, w) && InboxHolds(w) && Enabled(p, w, Deliver(d))
    ensures InboxHolds(Next(p, w, Deliver(d)))
  {
    hide Outcome;
    hide AfterDecrypt;
    hide EntriesFit;
    hide NoRepeats;
    hide Authentic;
    hide SideFits;
    hide KeysHold;
    var m := w.mail[d];
    var s := Receiver(m.turn);
    var b, outcome := AfterDecrypt(p, w.sides[s], m.envelope), Outcome(p, w.sides[s], m.envelope);
    assert PostHolds(p, w.keys, m);
    SideOfWorld(p, w, s);
    DeliverKeepsEntries(p, w.keys, w.mail, s, w.sides[s], w.got, m, w.inbox);
    hide PostHolds;
    if outcome.Ok? {
      var e := Entry(m.turn, m.envelope.wire.index, outcome.value, Reached(b, m.turn));
      ReadHere(p, w, d, b, e);
      hide Reached;
      hide EntryFits;
      hide MayArrive;
      MessagesSnoc(w.inbox, e);
      ReadKeepsAuthentic(w.mail, w.inbox, d, e);
      ReadKeepsEntries(s, b, w.inbox, e);
      ReadKeepsEntries(1 - s, w.sides[1 - s], w.inbox, e);
    }
  }

  lemma SendKeepsInbox(p: Primitives, w: World, s: nat, k: KeyPair, plaintext: Bytes, nonce: Bytes)
    requires WorldHolds(p, w) && InboxHolds(w) && MaySend(p, w, s, k, nonce)
    ensures InboxHolds(AfterSend(p, w, s, k, plaintext, nonce))
  {
    hide SideFits;
    hide KeysHold;
    hide AfterEncrypt;
    hide Encrypted;
    hide EntriesFit;
    hide NoRepeats;
    hide Authentic;
    hide Unused;
    var a, w' := w.sides[s], AfterSend(p, w, s, k, plaintext, nonce);
    SideOfWorld(p, w, s);
    FitsHolds(p, w.keys, w.mail, w.got, s, a);
    hide WorldHolds;
    SendSucceeds(p, w.keys, s, a, k);
    ActionKeepsEntries(p, w.keys, s, a, Encrypting(k), w.inbox);
    hide SideHolds;
    SentKeepsAuthentic(w.mail, w.inbox, w'.mail[|w.mail|]);
  }

  lemma {:induction false} RunInbox(p: Primitives, es: seq<Event>, w: World)
    requires Leads(p, es, w)
    ensures InboxHolds(w)
    decreases |es|
  {
    if es == [] {
      assert Initial(p, w);
    } else {
      hide Initial;
      hide WorldHolds;
      hide InboxHolds;
      hide AfterSend;
      hide AfterDelivery;
      var v, e :| Follows(p, es, v, w) && e == es[|es| - 1];
      RunHolds(p, es[..|es| - 1], v);
      RunInbox(p, es[..|es| - 1], v);
      match e {
        case Send(s, k, plaintext, nonce) => SendKeepsInbox(p, v, s, k, plaintext, nonce);
        case Deliver(d) => DeliverKeepsInbox(p, v, d);
      }
    }
  }

  // ---------- The theorems ----------

  /** Nothing is read that the peer did not send. */
  lemma {:induction false} ReadWasSent(p: Primitives, es: seq<Event>, w: World, n: nat)
    requires Leads(p, es, w) && n < |w.inbox|
    ensures WasSent(w.mail, w.inbox[n])
  {
    RunInbox(p, es, w);
  }

  lemma {:induction false} TimesZero(inbox: seq<Entry>, e: Entry)
    requires forall n | 0 <= n < |inbox| :: !SameMessage(inbox[n], e)
    ensures Times(inbox, e) == 0
  {
    if inbox == [] {
    } else {
      TimesZero(inbox[..|inbox| - 1], e);
    }
  }

  lemma {:induction false} TimesOnce(inbox: seq<Entry>, n: nat)
    requires NoRepeats(inbox) && n < |inbox| && Passed(inbox[n])
    ensures Times(inbox, inbox[n]) == 1
  {
    var before, last := inbox[..|inbox| - 1], inbox[|inbox| - 1];
    if n < |inbox| - 1 {
      TimesOnce(before, n);
    } else {
      TimesZero(before, last);
    }
  }

  /**
   Over a whole conversation a message is read once, unless it was read from a retired epoch that
   had not reached its index.
   */
  lemma {:induction false} ReadOnce(p: Primitives, es: seq<Event>, w: World, n: nat)
    requires Leads(p, es, w) && n < |w.inbox|
    ensures Passed(w.inbox[n]) ==> Times(w.inbox, w.inbox[n]) == 1
  {
    RunInbox(p, es, w);
    if Passed(w.inbox[n]) {
      TimesOnce(w.inbox, n);
    }
  }

  /** A message that was read gives its plaintext again exactly if its epoch had not reached its index. */
  lemma {:induction false} ReadAgainExact(p: Primitives, es: seq<Event>, w: World, n: nat, d: nat)
    requires Leads(p, es, w) && Enabled(p, w, Deliver(d)) && n < |w.inbox|
    requires w.mail[d].turn == w.inbox[n].turn && w.mail[d].envelope.wire.index == w.inbox[n].index
    ensures Outcome(p, w.sides[Receiver(w.mail[d].turn)], w.mail[d].envelope) ==
      if Passed(w.inbox[n]) then Err(Refused(AlreadyProcessed)) else Ok(w.mail[d].plaintext)
  {
    hide Leads;
    hide Outcome;
    hide SideFits;
    hide KeysHold;
    hide SideHolds;
    var m, e := w.mail[d], w.inbox[n];
    var s := Receiver(m.turn);
    RunInbox(p, es, w);
    DeliveryOutcome(p, es, w, d);
    RunHolds(p, es, w);
    SideOfWorld(p, w, s);
    hide WorldHolds;
    assert (e.turn, e.index) in Messages(w.inbox);
    assert EntriesFit(s, w.sides[s], w.inbox);
    ReadExpected(p, w.keys, w.mail, s, w.sides[s], w.got, m, e);
  }

  lemma ReadExpected(p: Primitives, keys: seq<KeyPair>, mail: seq<Post>, s: nat, a: Party, got: set<(nat, int)>,
                     m: Post, e: Entry)
    requires SideFits(p, keys, mail, got, s, a) && (e.turn, e.index) in got && !Owns(s, e.turn)
    requires 0 <= Oldest(a) <= e.turn <= a.index && e.turn <= LastTurn(keys) && EntryFits(a, e)
    requires e.turn == m.turn && e.index == m.envelope.wire.index
    ensures Expected(Serving(p, keys, a, m.turn), got, m) ==
      if Passed(e) then Err(Refused(AlreadyProcessed)) else Ok(m.plaintext)
  {
    ServingReached(p, keys, a, e.turn);
    assert Ledger(Serving(p, keys, a, e.turn), got, e.turn);
  }
}
