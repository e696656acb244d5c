/**
 Runs of two parties that reach the cases in which the code loses a message or reads one twice.
 */
module Witnesses {
  import opened Basics
  import opened Crypto
  import opened Chain
  import opened Parties
  import opened Windows
  import opened Turns
  import opened Agreement
  import opened Inbox
  import opened Guards

  lemma OneMoreEvent(p: Primitives, es: seq<Event>, v: World, e: Event)
    requires Leads(p, es, v) && Enabled(p, v, e)
    ensures Leads(p, es + [e], Next(p, v, e))
  {
    hide Initial;
    hide Enabled;
    hide Next;
    assert (es + [e])[..|es|] == es;
    assert Follows(p, es + [e], v, Next(p, v, e));
  }

  // ---------- Conversations exist ----------

  /** Key pairs of the degenerate primitives, all different. */
  function Key(n: Byte): KeyPair {
    KeyPair([1, n] + Zeros(KEY_LENGTH - 2), [1, n] + Zeros(KEY_LENGTH - 2))
  }

  function Keys(n: nat): (r: seq<KeyPair>)
    requires n <= 256
    ensures |r| == n && forall i | 0 <= i < n :: r[i] == Key(i)
  {
    if n == 0 then [] else Keys(n - 1) + [Key(n - 1)]
  }

  lemma KeyUnused(n: Byte)
    requires n >= 2
    ensures Unused(TRIVIAL, Keys(n), Key(n))
  {
    forall i | 0 <= i < n
      ensures Keys(n)[i].publicKey != Key(n).publicKey
    {
      assert Key(i).publicKey[1] == i && Key(n).publicKey[1] == n;
    }
  }

  /** A conversation that can start. */
  lemma ConversationExists() returns (w0: World)
    ensures Initial(TRIVIAL, w0) && w0.keys == Keys(2)
  {
    var a := NewParty(TRIVIAL, Key(1), Key(0).publicKey, Sending);
    var b := NewParty(TRIVIAL, Key(0), Key(1).publicKey, Receiving);
    w0 := World([a.value, b.value], Keys(2), [], {}, []);
    assert Key(0).publicKey[1] == 0 && Key(1).publicKey[1] == 1;
  }

  // ---------- Crossing messages ----------

  /** Both sides have sent their first message, and neither has arrived. */
  ghost predicate Crossed(p: Primitives, w0: World, k: KeyPair, w: World) {
    && WorldHolds(p, w) && InboxHolds(w)
    && |w.sides| == 2 && |w.mail| == 2 && w.got == {} && w.keys == w0.keys + [k] && |w0.keys| == 2
    && w.mail[0].turn == 0 && w.mail[0].envelope.wire.index == 0
    && w.mail[1].turn == 1
    && w.sides[1].role == Sending && w.sides[1].index == 1
    && w.sides[1].current.chain.previousIndex == 0 && w.sides[1].current.chain.skipped == map[]
    && Reached(w.sides[1], 0) == -1
  }

  /** The two sends, step by step. */
  lemma FirstSend(p: Primitives, w0: World, k: KeyPair, x: Bytes, nonce: Bytes) returns (w: World)
    requires Initial(p, w0) && |nonce| == NONCE_LENGTH
    ensures Leads(p, [Send(0, k, x, nonce)], w) && w.keys == w0.keys && |w.keys| == 2 && w.got == {}
    ensures |w.sides| == 2 && w.sides[1] == w0.sides[1] && w.sides[1].role == Receiving && w.sides[1].index == 0
    ensures |w.mail| == 1 && w.mail[0].turn == 0 && w.mail[0].envelope.wire.index == 0
  {
    hide Seal;
    hide Seed;
    hide MessageKey;
    var send := Send(0, k, x, nonce);
    assert Leads(p, [], w0);
    OneMoreEvent(p, [], w0, send);
    assert [] + [send] == [send];
    w := Next(p, w0, send);
  }

  lemma Answering(p: Primitives, keys: seq<KeyPair>, k: KeyPair, a: Party)
    requires |keys| == 2 && NewParty(p, keys[0], keys[1].publicKey, Receiving) == Some(a) && Unused(p, keys, k)
    ensures var b := AfterEncrypt(p, a, k);
      && b.role == Sending && b.index == 1 == Prepared(p, a, k).index && Reached(b, 0) == -1
      && b.current.chain.previousIndex == 0 && b.current.chain.skipped == map[]
  {
    hide Seed;
    hide NextRoot;
    hide RootMaterial;
  }

  lemma Cross(p: Primitives, w0: World, k: KeyPair, x: Bytes, y: Bytes, nonce: Bytes)
    returns (es: seq<Event>, w: World)
    requires Initial(p, w0) && Unused(p, w0.keys, k) && |nonce| == NONCE_LENGTH
    ensures es == [Send(0, k, x, nonce), Send(1, k, y, nonce)] && Leads(p, es, w) && Crossed(p, w0, k, w)
  {
    hide Leads;
    hide Unused;
    hide NewParty;
    hide AfterEncrypt;
    hide Encrypted;
    hide Reached;
    hide WorldHolds;
    hide InboxHolds;
    var first, second := Send(0, k, x, nonce), Send(1, k, y, nonce);
    var w1 := FirstSend(p, w0, k, x, nonce);
    Answering(p, w0.keys, k, w0.sides[1]);
    OneMoreEvent(p, [first], w1, second);
    es, w := [first] + [second], Next(p, w1, second);
    RunHolds(p, es, w);
    RunInbox(p, es, w);
  }

  /** Side 1 has answered, and a message of the turn it answered is refused although it was never read. */
  predicate Lost(p: Primitives, w: World) {
    && |w.sides| == 2 && |w.mail| == 2 && w.got == {}
    && w.sides[1].role == Sending && w.mail[0].turn == w.sides[1].index - 1
    && Outcome(p, w.sides[1], w.mail[0].envelope) == Err(Refused(AlreadyProcessed))
  }

  /** If both sides send their first message before either arrives, the message of the first is lost. */
  lemma CrossingLosesMessage(p: Primitives, w0: World, k: KeyPair, x: Bytes, y: Bytes, nonce: Bytes)
    requires Initial(p, w0) && Unused(p, w0.keys, k) && |nonce| == NONCE_LENGTH
    ensures exists w :: Leads(p, [Send(0, k, x, nonce), Send(1, k, y, nonce)], w) && Lost(p, w)
  {
    hide Leads;
    hide Initial;
    hide SideHolds;
    var es, w := Cross(p, w0, k, x, y, nonce);
    SideOfWorld(p, w, 1);
    FitsHolds(p, w.keys, w.mail, w.got, 1, w.sides[1]);
    assert PostHolds(p, w.keys, w.mail[0]) && KeysHold(p, w.keys);
    hide WorldHolds;
    Answered(p, w.keys, w.sides[1], w.mail[0]);
    assert Lost(p, w);
  }

  lemma Answered(p: Primitives, keys: seq<KeyPair>, a: Party, m: Post)
    requires KeysHold(p, keys) && SideHolds(p, keys, 1, a) && PostHolds(p, keys, m)
    requires a.role == Sending && m.turn == a.index - 1 && m.envelope.wire.index <= a.current.chain.previousIndex
    requires a.current.chain.skipped == map[]
    ensures Outcome(p, a, m.envelope) == Err(Refused(AlreadyProcessed))
  {
    LookupExact(keys, 1, a, m.turn);
  }

  lemma LossReached(x: Bytes, y: Bytes)
    ensures exists w ::
      Leads(TRIVIAL, [Send(0, Key(2), x, Zeros(NONCE_LENGTH)), Send(1, Key(2), y, Zeros(NONCE_LENGTH))], w)
      && Lost(TRIVIAL, w)
  {
    var w0 := ConversationExists();
    KeyUnused(2);
    CrossingLosesMessage(TRIVIAL, w0, Key(2), x, y, Zeros(NONCE_LENGTH));
  }

  /**
   Two parties created as Sending from each other's keys share one chain: each refuses the other's
   first message as already processed once it has sent its own.
   */
  lemma InitiatorsCollide(p: Primitives, k0: KeyPair, k1: KeyPair, a: Party, b: Party,
                          x: Bytes, nonce: Bytes, newKeys: KeyPair)
    requires IsKeyPair(p, k0) && IsKeyPair(p, k1)
    requires NewParty(p, k0, k1.publicKey, Sending) == Some(a) && NewParty(p, k1, k0.publicKey, Sending) == Some(b)
    ensures a.current.chain == b.current.chain
    ensures Outcome(p, AfterEncrypt(p, b, newKeys), Encrypted(p, a, newKeys, x, nonce)) ==
      Err(Refused(AlreadyProcessed))
  {
    SharedSecretCommutes(p, k0, k1);
  }

  // ---------- A message read twice ----------

  /** Side 1 has followed turn 2, and has retired the epoch of turn 0 without reading from it. */
  predicate TurnZeroRetired(a: Party) {
    a.role == Receiving && a.index == 2 && Oldest(a) == 0 && Reached(a, 0) == -1
  }

  lemma FollowRetires(p: Primitives, keys: seq<KeyPair>, mail: seq<Post>, got: set<(nat, int)>, a: Party, m: Post)
    requires KeysHold(p, keys) && SideFits(p, keys, mail, got, 1, a) && PostHolds(p, keys, m)
    requires m.turn == LastTurn(keys) == 2 && a.index == 1 && a.role == Sending && Reached(a, 0) == -1
    ensures TurnZeroRetired(AfterDecrypt(p, a, m.envelope))
  {
    hide AfterDecrypt;
    hide SideHolds;
    FitsHolds(p, keys, mail, got, 1, a);
    DeliverHere(p, keys, mail, 1, a, got, m);
    DeliverySucceeds(p, keys, 1, a, m);
    assert MayArrive(a, m.turn);
    DeliverKeepsReceiver(p, keys, mail, 1, a, got, m);
    FitsHolds(p, keys, mail, GotAfter(got, m, Outcome(p, a, m.envelope)), 1, AfterDecrypt(p, a, m.envelope));
    hide SideFits;
    OldestIs(p, keys, 1, AfterDecrypt(p, a, m.envelope));
    ReachedStays(p, keys, 1, a, m, 0);
  }

  lemma OldestIs(p: Primitives, keys: seq<KeyPair>, s: nat, a: Party)
    requires SideHolds(p, keys, s, a)
    ensures Oldest(a) == if a.index < PREV_RATCHET_LIMIT then 0 else a.index - PREV_RATCHET_LIMIT
  {
    hide WindowHolds;
  }

  lemma ReachedStays(p: Primitives, keys: seq<KeyPair>, s: nat, a: Party, m: Post, k: int)
    requires SideHolds(p, keys, s, a) && Succeeds(p, a, Decrypting(m.envelope))
    requires Oldest(AfterDecrypt(p, a, m.envelope)) <= k < a.index
    ensures Reached(AfterDecrypt(p, a, m.envelope), k) == Reached(a, k)
  {
    hide AfterDecrypt;
    ReachedGrows(p, Secret(p, keys), Dhs(p, keys, a.index), a, Decrypting(m.envelope), k);
  }

  lemma LateRead(p: Primitives, keys: seq<KeyPair>, mail: seq<Post>, got: set<(nat, int)>, a: Party, m: Post)
    requires KeysHold(p, keys) && SideFits(p, keys, mail, got, 1, a) && PostHolds(p, keys, m)
    requires TurnZeroRetired(a) && m.turn == 0 && m.envelope.wire.index == 0
    ensures Outcome(p, a, m.envelope) == Ok(m.plaintext) && TurnZeroRetired(AfterDecrypt(p, a, m.envelope))
  {
    hide AfterDecrypt;
    hide SideHolds;
    hide Outcome;
    FitsHolds(p, keys, mail, got, 1, a);
    assert MayArrive(a, m.turn);
    DeliverHere(p, keys, mail, 1, a, got, m);
    ServingReached(p, keys, a, 0);
    hide Serving;
    DeliverySucceeds(p, keys, 1, a, m);
    DeliverKeepsReceiver(p, keys, mail, 1, a, got, m);
    FitsHolds(p, keys, mail, GotAfter(got, m, Outcome(p, a, m.envelope)), 1, AfterDecrypt(p, a, m.envelope));
    hide SideFits;
    OldestIs(p, keys, 1, AfterDecrypt(p, a, m.envelope));
    ReachedStays(p, keys, 1, a, m, 0);
  }

  /** A turn passes: message d of the latest turn arrives, and is answered. */
  lemma PassTurn(p: Primitives, es: seq<Event>, w: World, d: nat, k: KeyPair, x: Bytes, nonce: Bytes)
    returns (es': seq<Event>, v: World)
    requires Leads(p, es, w) && d < |w.mail| && w.mail[d].turn == LastTurn(w.keys)
    requires |w.keys| >= 2 && Unused(p, w.keys, k) && |nonce| == NONCE_LENGTH
    ensures var s := Receiver(w.mail[d].turn);
      && es' == es + [Deliver(d)] + [Send(s, k, x, nonce)] && Leads(p, es', v)
      && |w.sides| == |v.sides| == 2 && v.sides[1 - s] == w.sides[1 - s]
      && v.keys == w.keys + [k] && |v.mail| == |w.mail| + 1 && v.mail[..|w.mail|] == w.mail
      && v.mail[|w.mail|].turn == LastTurn(v.keys)
  {
    hide Leads;
    hide Unused;
    hide Outcome;
    hide AfterDecrypt;
    hide AfterEncrypt;
    hide Encrypted;
    hide SideHolds;
    var s := Receiver(w.mail[d].turn);
    LatestArrives(p, es, w, d, k, nonce);
    OneMoreEvent(p, es, w, Deliver(d));
    var w' := Next(p, w, Deliver(d));
    RunHolds(p, es + [Deliver(d)], w');
    SideOfWorld(p, w', s);
    FitsHolds(p, w'.keys, w'.mail, w'.got, s, w'.sides[s]);
    AnswerStep(p, w', s, k, nonce);
    hide WorldHolds;
    hide Prepared;
    hide SideFits;
    hide KeysHold;
    hide MailHolds;
    hide Initial;
    OneMoreEvent(p, es + [Deliver(d)], w', Send(s, k, x, nonce));
    es', v := es + [Deliver(d)] + [Send(s, k, x, nonce)], Next(p, w', Send(s, k, x, nonce));
    FitsHolds(p, w'.keys + [k], w'.mail, w'.got, s, Prepared(p, w'.sides[s], k));
  }

  /** A late message that is read, and the world after it. */
  lemma ReadLate(p: Primitives, es: seq<Event>, w: World) returns (v: World)
    requires Leads(p, es, w) && |w.sides| == 2 && TurnZeroRetired(w.sides[1])
    requires |w.mail| > 0 && w.mail[0].turn == 0 && w.mail[0].envelope.wire.index == 0
    ensures Leads(p, es + [Deliver(0)], v) && |v.sides| == 2 && TurnZeroRetired(v.sides[1]) && v.mail == w.mail
    ensures v.inbox == w.inbox + [Entry(0, 0, w.mail[0].plaintext, -1)]
  {
    hide Leads;
    hide Outcome;
    hide AfterDecrypt;
    hide SideFits;
    hide KeysHold;
    var m := w.mail[0];
    RunHolds(p, es, w);
    SideOfWorld(p, w, 1);
    assert PostHolds(p, w.keys, m);
    LateRead(p, w.keys, w.mail, w.got, w.sides[1], m);
    OneMoreEvent(p, es, w, Deliver(0));
    v := Next(p, w, Deliver(0));
  }

  /** From the crossing, side 0 is answered and starts turn 2, which side 1 follows. */
  lemma TurnsPass(p: Primitives, w0: World, k1: KeyPair, es: seq<Event>, w: World, k: KeyPair, z: Bytes, nonce: Bytes)
    returns (es': seq<Event>, v: World)
    requires Leads(p, es, w) && Crossed(p, w0, k1, w) && Unused(p, w.keys, k) && |nonce| == NONCE_LENGTH
    ensures es' == es + [Deliver(1)] + [Send(0, k, z, nonce)] + [Deliver(2)] && Leads(p, es', v)
    ensures |v.sides| == 2 && TurnZeroRetired(v.sides[1])
    ensures |v.mail| > 0 && v.mail[0].turn == 0 && v.mail[0].envelope.wire.index == 0
  {
    hide Leads;
    hide Unused;
    hide Outcome;
    hide AfterDecrypt;
    hide SideFits;
    hide KeysHold;
    hide InboxHolds;
    hide Reached;
    var es4, w4 := PassTurn(p, es, w, 1, k, z, nonce);
    assert w4.mail[0] == w4.mail[..2][0] == w.mail[0];
    RunHolds(p, es4, w4);
    SideOfWorld(p, w4, 1);
    assert PostHolds(p, w4.keys, w4.mail[2]) && KeysHold(p, w4.keys);
    hide WorldHolds;
    FollowRetires(p, w4.keys, w4.mail, w4.got, w4.sides[1], w4.mail[2]);
    hide PostHolds;
    LatestArrives(p, es4, w4, 2, k, nonce);
    OneMoreEvent(p, es4, w4, Deliver(2));
    es', v := es4 + [Deliver(2)], Next(p, w4, Deliver(2));
  }

  predicate ReadTwice(w: World) {
    exists m, n | 0 <= m < n < |w.inbox| :: SameMessage(w.inbox[m], w.inbox[n])
  }

  /**
   The exception of ReadOnce: a message that side 1 has not read when it answers, and that arrives
   twice after the next turn, is read twice.
   */
  lemma LateMessageReadTwice(p: Primitives, w0: World, k1: KeyPair, k2: KeyPair,
                             x: Bytes, y: Bytes, z: Bytes, nonce: Bytes)
    requires Initial(p, w0) && |nonce| == NONCE_LENGTH
    requires Unused(p, w0.keys, k1) && Unused(p, w0.keys + [k1], k2)
    ensures exists w :: ReadTwice(w) && Leads(p,
      [Send(0, k1, x, nonce), Send(1, k1, y, nonce), Deliver(1), Send(0, k2, z, nonce),
       Deliver(2), Deliver(0), Deliver(0)], w)
  {
    hide Leads;
    hide Initial;
    hide Unused;
    hide WorldHolds;
    hide InboxHolds;
    hide TurnZeroRetired;
    var es, w := Cross(p, w0, k1, x, y, nonce);
    var es5, w5 := TurnsPass(p, w0, k1, es, w, k2, z, nonce);
    var w6 := ReadLate(p, es5, w5);
    var w7 := ReadLate(p, es5 + [Deliver(0)], w6);
    assert es5 + [Deliver(0)] + [Deliver(0)] ==
      [Send(0, k1, x, nonce), Send(1, k1, y, nonce), Deliver(1), Send(0, k2, z, nonce),
       Deliver(2), Deliver(0), Deliver(0)];
    var n := |w5.inbox|;
    assert SameMessage(w7.inbox[n], w7.inbox[n + 1]);
  }

  lemma RepeatReached()
    ensures exists es, w :: Leads(TRIVIAL, es, w) && ReadTwice(w)
  {
    hide Leads;
    hide Initial;
    hide ReadTwice;
    var w0 := ConversationExists();
    assert Unused(TRIVIAL, Keys(2), Key(2)) && Unused(TRIVIAL, Keys(2) + [Key(2)], Key(3)) by {
      KeyUnused(2);
      KeyUnused(3);
      assert Keys(2) + [Key(2)] == Keys(3);
    }
    hide Unused;
    LateMessageReadTwice(TRIVIAL, w0, Key(2), Key(3), [], [], [], Zeros(NONCE_LENGTH));
  }

  // ---------- Long conversations ----------

  /** Turns can go on until the degenerate primitives run out of the key pairs named here. */
  lemma {:induction false} TurnsReached(n: nat) returns (es: seq<Event>, w: World)
    requires n < 254
    ensures Leads(TRIVIAL, es, w) && w.keys == Keys(n + 2)
    ensures |w.mail| == n + 1 && w.mail[0].turn == 0 && w.mail[n].turn == n
  {
    hide Leads;
    hide Initial;
    hide Unused;
    if n == 0 {
      var w0 := ConversationExists();
      w := FirstSend(TRIVIAL, w0, Key(2), [], Zeros(NONCE_LENGTH));
      es := [Send(0, Key(2), [], Zeros(NONCE_LENGTH))];
    } else {
      var es', v := TurnsReached(n - 1);
      KeyUnused(n + 1);
      es, w := PassTurn(TRIVIAL, es', v, n - 1, Key(n + 1), [], Zeros(NONCE_LENGTH));
      assert w.mail[0] == w.mail[..n][0] == v.mail[0];
    }
  }

  /** The holder of the latest turn, in its epoch and with a full window if there were enough turns. */
  lemma HolderAt(p: Primitives, es: seq<Event>, w: World)
    requires Leads(p, es, w)
    ensures |w.sides| == 2 && KeysHold(p, w.keys) && MailHolds(p, w.keys, w.mail)
    ensures var s: nat, last := LastTurn(w.keys) % 2, LastTurn(w.keys);
      && SideHolds(p, w.keys, s, w.sides[s])
      && w.sides[s].role == Sending && w.sides[s].index == last
      && Oldest(w.sides[s]) == if last < PREV_RATCHET_LIMIT then 0 else last - PREV_RATCHET_LIMIT
  {
    hide Leads;
    var s := LastTurn(w.keys) % 2;
    RunHolds(p, es, w);
    hide KeysHold;
    hide MailHolds;
    hide SideHolds;
    SideOfWorld(p, w, s);
    FitsHolds(p, w.keys, w.mail, w.got, s, w.sides[s]);
    OldestIs(p, w.keys, s, w.sides[s]);
  }

  /** A message of the turn that has just left the window is handed to the sending epoch after that turn. */
  predicate LeftTurn(p: Primitives, w: World) {
    && |w.sides| == 2 && |w.mail| > 0
    && var a, m := w.sides[1], w.mail[0];
      && a.role == Sending && m.turn == Oldest(a) - 1 && |a.previous| > 0
      && AfterDecrypt(p, a, m.envelope) == ReceiveKept(p, a, 0, m.envelope.wire.index)
  }

  /** A message of an older turn starts a new receiving epoch. */
  predicate OldTurn(p: Primitives, w: World) {
    && |w.sides| == 2 && |w.mail| > 0
    && var a, m := w.sides[1], w.mail[0];
      && a.role == Sending && m.turn < Oldest(a) - 1
      && AfterDecrypt(p, a, m.envelope).role == Receiving
      && AfterDecrypt(p, a, m.envelope).index == a.index + 1
  }

  lemma AtTurnEleven(p: Primitives, es: seq<Event>, w: World)
    requires Leads(p, es, w) && LastTurn(w.keys) == 11 && |w.mail| > 0 && w.mail[0].turn == 0
    ensures LeftTurn(p, w)
  {
    hide Leads;
    hide SideHolds;
    hide KeysHold;
    hide AfterDecrypt;
    HolderAt(p, es, w);
    assert PostHolds(p, w.keys, w.mail[0]);
    hide MailHolds;
    LeftTurnMisread(p, w.keys, 1, w.sides[1], w.mail[0]);
    hide PostHolds;
  }

  lemma AtTurnThirteen(p: Primitives, es: seq<Event>, w: World)
    requires Leads(p, es, w) && LastTurn(w.keys) == 13 && |w.mail| > 0 && w.mail[0].turn == 0
    requires |w.sides| == 2 && SharedSecret(p, w.sides[1].keys, TurnKey(w.keys, 0)).Some?
    ensures OldTurn(p, w)
  {
    hide Leads;
    hide SideHolds;
    hide KeysHold;
    hide AfterDecrypt;
    HolderAt(p, es, w);
    assert PostHolds(p, w.keys, w.mail[0]);
    hide MailHolds;
    OldTurnMisread(p, w.keys, 1, w.sides[1], w.mail[0]);
    assert w.mail[0].envelope.publicKey == TurnKey(w.keys, 0);
    hide PostHolds;
  }

  lemma LeftTurnReached()
    ensures exists es, w :: Leads(TRIVIAL, es, w) && LeftTurn(TRIVIAL, w)
  {
    hide Leads;
    hide LeftTurn;
    var es, w := TurnsReached(11);
    AtTurnEleven(TRIVIAL, es, w);
  }

  lemma OldTurnReached()
    ensures exists es, w :: Leads(TRIVIAL, es, w) && OldTurn(TRIVIAL, w)
  {
    hide Leads;
    hide OldTurn;
    var es, w := TurnsReached(13);
    TwoSides(TRIVIAL, es, w);
    assert TurnKey(w.keys, 0) == Key(1).publicKey;
    assert ValidKey(Key(1).publicKey);
    AtTurnThirteen(TRIVIAL, es, w);
  }

  lemma TwoSides(p: Primitives, es: seq<Event>, w: World)
    requires Leads(p, es, w)
    ensures |w.sides| == 2
  {
    hide Leads;
    RunHolds(p, es, w);
  }

  // ---------- A failed exchange ----------

  /** A new party that receives a key with which the exchange fails has a broken window afterwards. */
  lemma FailureReached()
    ensures var m := Envelope(Zeros(KEY_LENGTH), Wire(0, Sealed([], [])));
      exists a, secret ::
        && NewParty(TRIVIAL, Key(0), Key(1).publicKey, Receiving) == Some(a)
        && WindowHolds(TRIVIAL, secret, [], a)
        && Locate(a, m.publicKey) == Unknown && Shares(TRIVIAL, a, m.publicKey)
        && forall secret', dhs' :: !WindowHolds(TRIVIAL, secret', dhs', AfterDecrypt(TRIVIAL, a, m))
  {
    var m := Envelope(Zeros(KEY_LENGTH), Wire(0, Sealed([], [])));
    var a := NewParty(TRIVIAL, Key(0), Key(1).publicKey, Receiving).value;
    assert Key(1).publicKey[0] == 1;
    assert WindowHolds(TRIVIAL, a.root, [], a);
    WindowExact(TRIVIAL, a.root, [], a, Decrypting(m));
    hide WindowHolds;
    assert Acted(TRIVIAL, a, Decrypting(m)) == AfterDecrypt(TRIVIAL, a, m);
  }
}
