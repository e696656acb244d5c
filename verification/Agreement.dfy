/**
 Two-party agreement over every run in which messages arrive at turns their receiver still keeps
 and has not just answered: any number of turns and messages, sent at any time, any order, loss and
 duplication of deliveries.
 */
module Agreement {
  import opened Basics
  import opened Crypto
  import opened Chain
  import opened Parties
  import opened Retired
  import opened Windows
  import opened Turns

  /** A message on the network. It is never removed, so it can arrive any number of times, or never. */
  datatype Post = Post(turn: nat, envelope: Envelope, plaintext: Bytes, nonce: Bytes)

  /** A plaintext that a delivery gave, with the last index its epoch has taken in order by then. */
  datatype Entry = Entry(turn: nat, index: int, plaintext: Bytes, reached: int)

  /** `inbox` records the deliveries that gave a plaintext, in order, and `got` which (turn, index) did. */
  datatype World = World(
    sides: seq<Party>,
    keys: seq<KeyPair>,
    mail: seq<Post>,
    got: set<(nat, int)>,
    inbox: seq<Entry>)

  datatype Event =
    | Send(side: nat, newKeys: KeyPair, plaintext: Bytes, nonce: Bytes)
    | Deliver(post: nat)

  function Receiver(turn: int): nat {
    1 - turn % 2
  }

  /** A key pair for a new turn: genuine, unused, and its exchange succeeds. */
  predicate Unused(p: Primitives, keys: seq<KeyPair>, k: KeyPair)
    requires |keys| >= 2
  {
    && IsKeyPair(p, k)
    && (forall i | 0 <= i < |keys| :: keys[i].publicKey != k.publicKey)
    && SharedSecret(p, k, keys[|keys| - 1].publicKey).Some?
  }

  /** A party may send at any time; a new turn starts under an unused key pair. */
  predicate MaySend(p: Primitives, w: World, s: nat, newKeys: KeyPair, nonce: Bytes) {
    && |w.sides| == 2 && |w.keys| >= 2 && s < 2
    && |nonce| == NONCE_LENGTH
    && (w.sides[s].role == Receiving ==> Unused(p, w.keys, newKeys))
  }

  /** A message arrives while its turn is kept, and not between the receiver's answer and the next turn. */
  predicate MayArrive(a: Party, turn: int) {
    && turn >= Oldest(a)
    && !(a.role == Sending && turn == a.index - 1)
  }

  predicate Enabled(p: Primitives, w: World, e: Event) {
    match e
    case Send(s, k, _, nonce) => MaySend(p, w, s, k, nonce)
    case Deliver(d) => |w.sides| == 2 && d < |w.mail| && MayArrive(w.sides[Receiver(w.mail[d].turn)], w.mail[d].turn)
  }

  function AfterSend(p: Primitives, w: World, s: nat, k: KeyPair, plaintext: Bytes, nonce: Bytes): World
    requires s < |w.sides| && |w.keys| >= 2
  {
    var a := w.sides[s];
    var keys := if a.role == Receiving then w.keys + [k] else w.keys;
    w.(sides := w.sides[s := AfterEncrypt(p, a, k)],
       keys := keys,
       mail := w.mail + [Post(Prepared(p, a, k).index, Encrypted(p, a, k, plaintext, nonce), plaintext, nonce)])
  }

  function GotAfter(got: set<(nat, int)>, m: Post, outcome: Result<Bytes, Failure>): set<(nat, int)> {
    if outcome.Ok? then got + {(m.turn, m.envelope.wire.index)} else got
  }

  function InboxAfter(inbox: seq<Entry>, m: Post, outcome: Result<Bytes, Failure>, b: Party): seq<Entry> {
    if outcome.Ok? then inbox + [Entry(m.turn, m.envelope.wire.index, outcome.value, Reached(b, m.turn))] else inbox
  }

  function AfterDelivery(p: Primitives, w: World, m: Post): World
    requires |w.sides| == 2
  {
    var s := Receiver(m.turn);
    var a := w.sides[s];
    var b, outcome := AfterDecrypt(p, a, m.envelope), Outcome(p, a, m.envelope);
    w.(sides := w.sides[s := b],
       got := GotAfter(w.got, m, outcome),
       inbox := InboxAfter(w.inbox, m, outcome, b))
  }

  function Next(p: Primitives, w: World, e: Event): World
    requires Enabled(p, w, e)
  {
    match e
    case Send(s, k, plaintext, nonce) => AfterSend(p, w, s, k, plaintext, nonce)
    case Deliver(d) => AfterDelivery(p, w, w.mail[d])
  }

  /** One party created as Sending, the other as Receiving, from each other's first public key. */
  predicate Initial(p: Primitives, w: World) {
    && |w.keys| == 2 && |w.sides| == 2
    && IsKeyPair(p, w.keys[0]) && IsKeyPair(p, w.keys[1])
    && w.keys[0].publicKey != w.keys[1].publicKey
    && NewParty(p, w.keys[1], w.keys[0].publicKey, Sending) == Some(w.sides[0])
    && NewParty(p, w.keys[0], w.keys[1].publicKey, Receiving) == Some(w.sides[1])
    && w.mail == [] && w.got == {} && w.inbox == []
  }

  /** The worlds that a run reaches from an initial one. */
  ghost predicate Leads(p: Primitives, es: seq<Event>, w: World)
    decreases |es|, 1
  {
    if es == [] then Initial(p, w) else exists v :: Follows(p, es, v, w)
  }

  /** The run but for its last event reaches `v`, and that event turns `v` into `w`. */
  ghost predicate Follows(p: Primitives, es: seq<Event>, v: World, w: World)
    requires es != []
    decreases |es|, 0
  {
    && Leads(p, es[..|es| - 1], v)
    && Enabled(p, v, es[|es| - 1]) && w == Next(p, v, es[|es| - 1])
  }

  // ---------- The invariant ----------

  /** A receiving epoch stores exactly the passed indexes that have not been delivered; the rest is within reach. */
  ghost predicate Ledger(c: Chain, got: set<(nat, int)>, turn: nat) {
    && c.maxSkip == MAX_MESSAGE_SKIP
    && (forall i: int | 0 <= i <= c.previousIndex :: i in c.skipped <==> (turn, i) !in got)
    && (forall i: int | i in c.skipped :: i >= 0 && WithinReach(c, i))
    && (forall i: int | (turn, i) in got :: WithinReach(c, i))
  }

  /** While it is current, it also has delivered and stored nothing beyond `previousIndex`. */
  ghost predicate LiveLedger(c: Chain, got: set<(nat, int)>, turn: nat) {
    && Ledger(c, got, turn)
    && (forall i: int | i in c.skipped :: i <= c.previousIndex)
    && (forall i: int | (turn, i) in got :: i <= c.previousIndex)
  }

  ghost predicate LedgersHold(s: nat, a: Party, got: set<(nat, int)>)
    requires Oldest(a) >= 0
  {
    && (forall j | 0 <= j < |a.previous| && !Owns(s, Oldest(a) + j) ::
          Ledger(a.previous[j].chain, got, Oldest(a) + j))
    && (a.role == Receiving ==> LiveLedger(a.current.chain, got, a.index))
  }

  ghost predicate PostHolds(p: Primitives, keys: seq<KeyPair>, m: Post) {
    && m.turn <= LastTurn(keys)
    && m.envelope.publicKey == TurnKey(keys, m.turn)
    && m.envelope.wire.index >= 0
    && |m.nonce| == NONCE_LENGTH
    && m.envelope.wire.body ==
         Seal(p, MessageKey(p, TurnRoot(p, keys, m.turn), m.envelope.wire.index), m.plaintext, m.nonce)
  }

  /** Every message is sealed under the key of its turn and index, and no two share both. */
  ghost predicate MailHolds(p: Primitives, keys: seq<KeyPair>, mail: seq<Post>) {
    && (forall d | 0 <= d < |mail| :: PostHolds(p, keys, mail[d]))
    && (forall d, e | 0 <= d < e < |mail| && mail[d].turn == mail[e].turn ::
          mail[d].envelope.wire.index != mail[e].envelope.wire.index)
  }

  /** The holder of the latest turn has sent no index of that turn beyond `previousIndex`. */
  ghost predicate SentUpTo(turn: nat, mail: seq<Post>, lastIndex: int) {
    forall d | 0 <= d < |mail| && mail[d].turn == turn :: mail[d].envelope.wire.index <= lastIndex
  }

  ghost predicate GotUpTo(got: set<(nat, int)>, s: nat, index: int) {
    forall k: nat, i: int | (k, i) in got && !Owns(s, k) :: k <= index
  }

  /** A side holds its turn or is one behind, and its ledgers agree with what was delivered to it. */
  ghost predicate SideFits(p: Primitives, keys: seq<KeyPair>, mail: seq<Post>, got: set<(nat, int)>, s: nat, a: Party) {
    && SideHolds(p, keys, s, a)
    && a.index >= LastTurn(keys) - 1
    && (Owns(s, LastTurn(keys)) ==> a.index == LastTurn(keys))
    && (a.role == Sending ==> SentUpTo(a.index, mail, a.current.chain.previousIndex))
    && LedgersHold(s, a, got)
    && GotUpTo(got, s, a.index)
  }

  ghost predicate WorldHolds(p: Primitives, w: World) {
    && |w.sides| == 2
    && KeysHold(p, w.keys)
    && MailHolds(p, w.keys, w.mail)
    && forall s: nat | s < 2 :: SideFits(p, w.keys, w.mail, w.got, s, w.sides[s])
  }

  lemma InitialHolds(p: Primitives, w: World)
    requires Initial(p, w)
    ensures WorldHolds(p, w)
  {
  }

  // ---------- One delivery ----------

  /** The chain that serves the peer's turn `turn`, before any new epoch is entered for it. */
  function Serving(p: Primitives, keys: seq<KeyPair>, a: Party, turn: nat): Chain
    requires 0 <= Oldest(a) <= turn <= LastTurn(keys)
  {
    if turn == a.index then a.current.chain
    else if turn < a.index then a.previous[turn - Oldest(a)].chain
    else NewChain(TurnRoot(p, keys, turn))
  }

  /** What a delivery gives: its own plaintext, or a refusal that depends only on indexes. */
  function Expected(c: Chain, got: set<(nat, int)>, m: Post): Result<Bytes, Failure> {
    var i := m.envelope.wire.index;
    if i <= c.previousIndex then
      if (m.turn, i) in got then Err(Refused(AlreadyProcessed)) else Ok(m.plaintext)
    else if WithinReach(c, i) then Ok(m.plaintext)
    else Err(Refused(TooManySkipped))
  }

  lemma ReceiptExpected(p: Primitives, keys: seq<KeyPair>, c: Chain, got: set<(nat, int)>, m: Post)
    requires Coherent(p, c) && Ledger(c, got, m.turn) && PostHolds(p, keys, m)
    requires c.root == TurnRoot(p, keys, m.turn)
    ensures Receipt(p, c, m.envelope.wire.index, m.envelope.wire.body) == Expected(c, got, m)
    ensures Refuses(c, m.envelope.wire.index).None? <==> Expected(c, got, m).Ok?
  {
  }

  lemma LateLedger(p: Primitives, c: Chain, got: set<(nat, int)>, turn: nat, i: nat)
    requires Ledger(c, got, turn)
    ensures Ledger(LateReceived(p, c, i), if Refuses(c, i).None? then got + {(turn, i)} else got, turn)
  {
  }

  lemma LiveLedgerReceived(p: Primitives, c: Chain, got: set<(nat, int)>, turn: nat, i: nat)
    requires LiveLedger(c, got, turn)
    ensures LiveLedger(Received(p, c, i), if Refuses(c, i).None? then got + {(turn, i)} else got, turn)
  {
  }

  lemma NewLiveLedger(root: Bytes, got: set<(nat, int)>, turn: nat)
    requires forall i: int :: (turn, i) !in got
    ensures LiveLedger(NewChain(root), got, turn)
  {
  }

  /** A delivery of another turn does not touch a ledger. */
  lemma OtherLedger(c: Chain, got: set<(nat, int)>, turn: nat, other: nat, i: int)
    requires other != turn
    ensures Ledger(c, got, turn) ==> Ledger(c, got + {(other, i)}, turn)
    ensures LiveLedger(c, got, turn) ==> LiveLedger(c, got + {(other, i)}, turn)
  {
  }

  ghost predicate DeliveryHolds(p: Primitives, keys: seq<KeyPair>, s: nat, a: Party, got: set<(nat, int)>, m: Post)
    requires SideHolds(p, keys, s, a) && Oldest(a) <= m.turn <= LastTurn(keys)
  {
    var b, got' := AfterDecrypt(p, a, m.envelope), GotAfter(got, m, Outcome(p, a, m.envelope));
    && Outcome(p, a, m.envelope) == Expected(Serving(p, keys, a, m.turn), got, m)
    && SideHolds(p, keys, s, b) && LedgersHold(s, b, got')
    && b.index == if m.turn > a.index then m.turn else a.index
  }

  lemma {:induction false} ArriveCurrent(p: Primitives, keys: seq<KeyPair>, s: nat, a: Party,
                                         got: set<(nat, int)>, m: Post)
    requires KeysHold(p, keys) && SideHolds(p, keys, s, a) && LedgersHold(s, a, got) && PostHolds(p, keys, m)
    requires !Owns(s, m.turn) && m.turn == a.index
    ensures DeliveryHolds(p, keys, s, a, got, m)
  {
    hide Seal;
    hide Fold;
    var i, c := m.envelope.wire.index, a.current.chain;
    LookupExact(keys, s, a, m.turn);
    RootIs(p, keys, s, a);
    ReceiptExpected(p, keys, c, got, m);
    ReceiveCurrentCoherent(p, a, i);
    UpdateKeepsSide(p, keys, s, a, ReceiveCurrent(p, a, i));
    LiveLedgerReceived(p, c, got, m.turn, i);
    forall j | 0 <= j < |a.previous| && !Owns(s, Oldest(a) + j)
      ensures Ledger(a.previous[j].chain, got + {(m.turn, i)}, Oldest(a) + j)
    {
      OtherLedger(a.previous[j].chain, got, Oldest(a) + j, m.turn, i);
    }
  }

  lemma KeptLedgers(s: nat, a: Party, got: set<(nat, int)>, k: nat, c: Chain, i: int, got': set<(nat, int)>)
    requires k < |a.previous| && Oldest(a) >= 0 && LedgersHold(s, a, got)
    requires got' == got || got' == got + {(Oldest(a) + k, i)}
    requires Ledger(c, got', Oldest(a) + k)
    ensures LedgersHold(s, a.(previous := a.previous[k := a.previous[k].(chain := c)]), got')
  {
    forall j | 0 <= j < |a.previous| && !Owns(s, Oldest(a) + j) && j != k
      ensures Ledger(a.previous[j].chain, got', Oldest(a) + j)
    {
      OtherLedger(a.previous[j].chain, got, Oldest(a) + j, Oldest(a) + k, i);
    }
    OtherLedger(a.current.chain, got, a.index, Oldest(a) + k, i);
  }

  lemma KeptLedgerReceived(p: Primitives, s: nat, a: Party, got: set<(nat, int)>, k: nat, i: nat)
    requires CoherentParty(p, a) && k < |a.previous| && Oldest(a) >= 0 && LedgersHold(s, a, got)
    requires !Owns(s, Oldest(a) + k)
    ensures LedgersHold(s, ReceiveKept(p, a, k, i),
                        if Refuses(a.previous[k].chain, i).None? then got + {(Oldest(a) + k, i)} else got)
  {
    var c := a.previous[k].chain;
    LateLedger(p, c, got, Oldest(a) + k, i);
    KeptLedgers(s, a, got, k, LateReceived(p, c, i), i,
                if Refuses(c, i).None? then got + {(Oldest(a) + k, i)} else got);
  }

  lemma ReceiveKeptKeepsSide(p: Primitives, keys: seq<KeyPair>, s: nat, a: Party, k: nat, i: int)
    requires SideHolds(p, keys, s, a) && k < |a.previous|
    ensures SideHolds(p, keys, s, ReceiveKept(p, a, k, i))
  {
    ReceiveKeptCoherent(p, a, k, i);
    UpdateKeepsSide(p, keys, s, a, ReceiveKept(p, a, k, i));
  }

  lemma KeptReceipt(p: Primitives, keys: seq<KeyPair>, s: nat, a: Party, k: nat, got: set<(nat, int)>, m: Post)
    requires SideHolds(p, keys, s, a) && k < |a.previous| && m.turn == Oldest(a) + k && PostHolds(p, keys, m)
    requires Ledger(a.previous[k].chain, got, m.turn)
    ensures Receipt(p, a.previous[k].chain, m.envelope.wire.index, m.envelope.wire.body) ==
      Expected(a.previous[k].chain, got, m)
    ensures Refuses(a.previous[k].chain, m.envelope.wire.index).None? <==> Expected(a.previous[k].chain, got, m).Ok?
  {
    RootsAgree(p, keys, s, a, k);
    ReceiptExpected(p, keys, a.previous[k].chain, got, m);
  }

  lemma KeptStep(p: Primitives, a: Party, k: nat, m: Envelope)
    requires k < |a.previous| && Locate(a, m.publicKey) == Kept(k)
    ensures AfterDecrypt(p, a, m) == ReceiveKept(p, a, k, m.wire.index)
    ensures Outcome(p, a, m) == Receipt(p, a.previous[k].chain, m.wire.index, m.wire.body)
    ensures AfterDecrypt(p, a, m).index == a.index && AfterDecrypt(p, a, m).current == a.current
  {
  }

  lemma KeptDelivery(p: Primitives, keys: seq<KeyPair>, s: nat, a: Party, k: nat, got: set<(nat, int)>, m: Post)
    requires SideHolds(p, keys, s, a) && LedgersHold(s, a, got) && PostHolds(p, keys, m)
    requires k < |a.previous| && m.turn == Oldest(a) + k && !Owns(s, m.turn)
    requires Locate(a, m.envelope.publicKey) == Kept(k)
    ensures DeliveryHolds(p, keys, s, a, got, m)
    ensures AfterDecrypt(p, a, m.envelope).current == a.current
  {
    hide Seal;
    hide Fold;
    hide AfterDecrypt;
    hide Outcome;
    hide Receipt;
    hide Expected;
    hide ReceiveKept;
    var i := m.envelope.wire.index;
    assert Ledger(a.previous[k].chain, got, m.turn);
    KeptStep(p, a, k, m.envelope);
    KeptReceipt(p, keys, s, a, k, got, m);
    ReceiveKeptKeepsSide(p, keys, s, a, k, i);
    KeptLedgerReceived(p, s, a, got, k, i);
    hide SideHolds;
    hide LedgersHold;
    hide Locate;
    hide Refuses;
  }

  lemma {:induction false} ArriveKept(p: Primitives, keys: seq<KeyPair>, s: nat, a: Party, got: set<(nat, int)>,
                                      m: Post)
    requires KeysHold(p, keys) && SideHolds(p, keys, s, a) && LedgersHold(s, a, got) && PostHolds(p, keys, m)
    requires !Owns(s, m.turn) && Oldest(a) <= m.turn < a.index && MayArrive(a, m.turn)
    ensures DeliveryHolds(p, keys, s, a, got, m)
    ensures AfterDecrypt(p, a, m.envelope).current == a.current
  {
    hide DeliveryHolds;
    hide AfterDecrypt;
    hide LedgersHold;
    hide Seal;
    hide Fold;
    assert Locate(a, m.envelope.publicKey) == Kept(m.turn - Oldest(a)) by {
      LookupExact(keys, s, a, m.turn);
    }
    hide Locate;
    KeptDelivery(p, keys, s, a, m.turn - Oldest(a), got, m);
  }

  /** Retiring a sending epoch, or a receiving one whose ledger is live, keeps the ledgers. */
  lemma NextLedgers(s: nat, a: Party, got: set<(nat, int)>, b: Party)
    requires Oldest(a) >= 0 && LedgersHold(s, a, got)
    requires b.previous == LastTen(Epochs(a)) && b.index == a.index + 1
    requires b.role == Receiving ==> LiveLedger(b.current.chain, got, b.index)
    requires a.role == (if Owns(s, a.index) then Sending else Receiving)
    ensures Oldest(b) >= 0 && LedgersHold(s, b, got)
  {
  }

  /** The first message of a new turn is handled as if its epoch had been entered already. */
  lemma FollowedSame(p: Primitives, keys: seq<KeyPair>, s: nat, a: Party, m: Post)
    requires KeysHold(p, keys) && SideHolds(p, keys, s, a) && PostHolds(p, keys, m)
    requires a.role == Sending && m.turn == a.index + 1 == LastTurn(keys)
    ensures AfterDecrypt(p, a, m.envelope) == AfterDecrypt(p, Followed(p, a, m.envelope.publicKey), m.envelope)
    ensures Outcome(p, a, m.envelope) == Outcome(p, Followed(p, a, m.envelope.publicKey), m.envelope)
  {
    FollowTurn(p, keys, s, a);
    LookupExact(keys, s, a, m.turn);
    LookupExact(keys, s, Followed(p, a, m.envelope.publicKey), m.turn);
  }

  lemma {:induction false} ArriveNext(p: Primitives, keys: seq<KeyPair>, s: nat, a: Party, got: set<(nat, int)>,
                                      m: Post)
    requires KeysHold(p, keys) && SideHolds(p, keys, s, a) && LedgersHold(s, a, got) && PostHolds(p, keys, m)
    requires a.role == Sending && m.turn == a.index + 1 == LastTurn(keys)
    requires forall i: int :: (m.turn, i) !in got
    ensures DeliveryHolds(p, keys, s, a, got, m)
  {
    var b := Followed(p, a, m.envelope.publicKey);
    FollowTurn(p, keys, s, a);
    assert LedgersHold(s, b, got) by {
      NewLiveLedger(b.current.chain.root, got, m.turn);
      NextLedgers(s, a, got, b);
    }
    ArriveCurrent(p, keys, s, b, got, m);
    FollowedSame(p, keys, s, a, m);
  }

  // ---------- Every step keeps the invariant ----------

  lemma FitsHolds(p: Primitives, keys: seq<KeyPair>, mail: seq<Post>, got: set<(nat, int)>, s: nat, a: Party)
    requires SideFits(p, keys, mail, got, s, a)
    ensures s < 2 && SideHolds(p, keys, s, a) && 0 <= Oldest(a) && LastTurn(keys) - 1 <= a.index <= LastTurn(keys)
    ensures a.role == (if Owns(s, a.index) then Sending else Receiving)
    ensures Owns(s, LastTurn(keys)) || a.role == Receiving ==> a.index == LastTurn(keys)
  {
  }

  lemma DeliverHere(p: Primitives, keys: seq<KeyPair>, mail: seq<Post>, s: nat, a: Party, got: set<(nat, int)>, m: Post)
    requires KeysHold(p, keys) && SideFits(p, keys, mail, got, s, a) && PostHolds(p, keys, m)
    requires !Owns(s, m.turn) && MayArrive(a, m.turn)
    ensures DeliveryHolds(p, keys, s, a, got, m)
    ensures var b := AfterDecrypt(p, a, m.envelope); b.role == Sending ==> b.current == a.current && b.index == a.index
  {
    if m.turn == a.index {
      ArriveCurrent(p, keys, s, a, got, m);
    } else if m.turn < a.index {
      ArriveKept(p, keys, s, a, got, m);
    } else {
      ArriveNext(p, keys, s, a, got, m);
    }
  }

  lemma DeliverKeepsReceiver(p: Primitives, keys: seq<KeyPair>, mail: seq<Post>, s: nat, a: Party,
                             got: set<(nat, int)>, m: Post)
    requires KeysHold(p, keys) && SideFits(p, keys, mail, got, s, a) && PostHolds(p, keys, m)
    requires !Owns(s, m.turn) && MayArrive(a, m.turn)
    ensures SideFits(p, keys, mail, GotAfter(got, m, Outcome(p, a, m.envelope)), s, AfterDecrypt(p, a, m.envelope))
  {
    DeliverHere(p, keys, mail, s, a, got, m);
  }

  lemma DeliverKeepsOther(p: Primitives, keys: seq<KeyPair>, mail: seq<Post>, s: nat, a: Party,
                          got: set<(nat, int)>, m: Post, outcome: Result<Bytes, Failure>)
    requires SideFits(p, keys, mail, got, s, a) && Owns(s, m.turn)
    ensures SideFits(p, keys, mail, GotAfter(got, m, outcome), s, a)
  {
  }

  lemma SideOfWorld(p: Primitives, w: World, s: nat)
    requires WorldHolds(p, w) && s < 2
    ensures SideFits(p, w.keys, w.mail, w.got, s, w.sides[s])
  {
  }

  lemma WorldOfSides(p: Primitives, w: World, s: nat)
    requires |w.sides| == 2 && KeysHold(p, w.keys) && MailHolds(p, w.keys, w.mail) && s < 2
    requires SideFits(p, w.keys, w.mail, w.got, s, w.sides[s])
    requires SideFits(p, w.keys, w.mail, w.got, 1 - s, w.sides[1 - s])
    ensures WorldHolds(p, w)
  {
    hide SideFits;
    hide KeysHold;
    hide MailHolds;
  }

  lemma DeliverStep(p: Primitives, w: World, m: Post)
    requires WorldHolds(p, w) && PostHolds(p, w.keys, m)
    requires MayArrive(w.sides[Receiver(m.turn)], m.turn)
    ensures WorldHolds(p, AfterDelivery(p, w, m))
  {
    hide SideFits;
    hide KeysHold;
    hide MailHolds;
    var s := Receiver(m.turn);
    SideOfWorld(p, w, s);
    SideOfWorld(p, w, 1 - s);
    DeliverKeepsReceiver(p, w.keys, w.mail, s, w.sides[s], w.got, m);
    DeliverKeepsOther(p, w.keys, w.mail, 1 - s, w.sides[1 - s], w.got, m, Outcome(p, w.sides[s], m.envelope));
    WorldOfSides(p, AfterDelivery(p, w, m), s);
  }

  /** What a sending side puts on the network. */
  function NewPost(p: Primitives, a: Party, plaintext: Bytes, nonce: Bytes): Post {
    Post(a.index, Envelope(a.keys.publicKey, Outgoing(p, a.current.chain, plaintext, nonce)), plaintext, nonce)
  }

  lemma NewPostHolds(p: Primitives, keys: seq<KeyPair>, s: nat, a: Party, plaintext: Bytes, nonce: Bytes)
    requires SideHolds(p, keys, s, a) && a.role == Sending && |nonce| == NONCE_LENGTH
    ensures PostHolds(p, keys, NewPost(p, a, plaintext, nonce))
  {
    RootIs(p, keys, s, a);
  }

  /** A new message of a turn, one index beyond the last. */
  lemma MailGrows(p: Primitives, keys: seq<KeyPair>, mail: seq<Post>, lastIndex: int, m: Post)
    requires MailHolds(p, keys, mail) && SentUpTo(m.turn, mail, lastIndex)
    requires PostHolds(p, keys, m) && m.envelope.wire.index == lastIndex + 1
    ensures MailHolds(p, keys, mail + [m]) && SentUpTo(m.turn, mail + [m], lastIndex + 1)
  {
  }

  function SentSide(p: Primitives, a: Party): Party {
    a.(current := a.current.(chain := Sent(p, a.current.chain)))
  }

  lemma SentKeepsSide(p: Primitives, keys: seq<KeyPair>, s: nat, a: Party)
    requires SideHolds(p, keys, s, a)
    ensures SideHolds(p, keys, s, SentSide(p, a))
  {
    SentCoherent(p, a.current.chain);
    UpdateKeepsSide(p, keys, s, a, SentSide(p, a));
  }

  /** A sending party sends one more message of its turn, which may no longer be the latest. */
  lemma SendKeepsSender(p: Primitives, keys: seq<KeyPair>, mail: seq<Post>, s: nat, a: Party, got: set<(nat, int)>,
                        plaintext: Bytes, nonce: Bytes)
    requires MailHolds(p, keys, mail) && SideFits(p, keys, mail, got, s, a)
    requires a.role == Sending && |nonce| == NONCE_LENGTH
    ensures var m := NewPost(p, a, plaintext, nonce);
      MailHolds(p, keys, mail + [m]) && SideFits(p, keys, mail + [m], got, s, SentSide(p, a))
  {
    var m := NewPost(p, a, plaintext, nonce);
    NewPostHolds(p, keys, s, a, plaintext, nonce);
    MailGrows(p, keys, mail, a.current.chain.previousIndex, m);
    SentKeepsSide(p, keys, s, a);
  }

  lemma SendKeepsOther(p: Primitives, keys: seq<KeyPair>, mail: seq<Post>, s: nat, a: Party,
                       got: set<(nat, int)>, m: Post)
    requires SideFits(p, keys, mail, got, s, a) && !Owns(s, m.turn)
    ensures SideFits(p, keys, mail + [m], got, s, a)
  {
  }

  lemma NewTurnKeepsMail(p: Primitives, keys: seq<KeyPair>, k: KeyPair, mail: seq<Post>)
    requires |keys| >= 2 && MailHolds(p, keys, mail)
    ensures MailHolds(p, keys + [k], mail) && SentUpTo(LastTurn(keys + [k]), mail, -1)
  {
    forall d | 0 <= d < |mail|
      ensures PostHolds(p, keys + [k], mail[d])
    {
      DhsExtend(p, keys, k, mail[d].turn);
    }
  }

  /** The party that answers enters the new turn; the other falls one behind. */
  lemma NewTurnKeepsSender(p: Primitives, keys: seq<KeyPair>, k: KeyPair, mail: seq<Post>, s: nat, a: Party,
                           got: set<(nat, int)>)
    requires KeysHold(p, keys + [k]) && MailHolds(p, keys, mail) && SideFits(p, keys, mail, got, s, a)
    requires a.role == Receiving && a.index == LastTurn(keys)
    ensures SideFits(p, keys + [k], mail, got, s, Prepared(p, a, k))
  {
    TakeTurn(p, keys, k, s, a);
    NewTurnKeepsMail(p, keys, k, mail);
    NextLedgers(s, a, got, Prepared(p, a, k));
  }

  lemma NewTurnKeepsOther(p: Primitives, keys: seq<KeyPair>, k: KeyPair, mail: seq<Post>, s: nat, a: Party,
                          got: set<(nat, int)>)
    requires SideFits(p, keys, mail, got, s, a) && Owns(s, LastTurn(keys))
    ensures SideFits(p, keys + [k], mail, got, s, a)
  {
    NewTurnKeepsSide(p, keys, k, s, a);
  }

  lemma KeysExtend(p: Primitives, w: World, s: nat, k: KeyPair, nonce: Bytes)
    requires |w.sides| == 2 && KeysHold(p, w.keys) && MaySend(p, w, s, k, nonce) && w.sides[s].role == Receiving
    ensures KeysHold(p, w.keys + [k])
  {
    forall i: nat | i <= LastTurn(w.keys + [k])
      ensures Exchanged(p, w.keys + [k], i)
    {
      assert i <= LastTurn(w.keys) ==> Exchanged(p, w.keys, i);
    }
  }

  lemma AnswerStep(p: Primitives, w: World, s: nat, k: KeyPair, nonce: Bytes)
    requires WorldHolds(p, w) && MaySend(p, w, s, k, nonce) && w.sides[s].role == Receiving
    ensures KeysHold(p, w.keys + [k]) && MailHolds(p, w.keys + [k], w.mail)
    ensures SideFits(p, w.keys + [k], w.mail, w.got, s, Prepared(p, w.sides[s], k))
    ensures SideFits(p, w.keys + [k], w.mail, w.got, 1 - s, w.sides[1 - s])
  {
    hide SideFits;
    hide KeysHold;
    hide MailHolds;
    hide Prepared;
    SideOfWorld(p, w, s);
    SideOfWorld(p, w, 1 - s);
    FitsHolds(p, w.keys, w.mail, w.got, s, w.sides[s]);
    hide SideHolds;
    KeysExtend(p, w, s, k, nonce);
    NewTurnKeepsSender(p, w.keys, k, w.mail, s, w.sides[s], w.got);
    NewTurnKeepsOther(p, w.keys, k, w.mail, 1 - s, w.sides[1 - s], w.got);
    NewTurnKeepsMail(p, w.keys, k, w.mail);
  }

  lemma SendStep(p: Primitives, w: World, s: nat, k: KeyPair, plaintext: Bytes, nonce: Bytes)
    requires WorldHolds(p, w) && MaySend(p, w, s, k, nonce)
    ensures WorldHolds(p, AfterSend(p, w, s, k, plaintext, nonce))
  {
    hide SideFits;
    hide KeysHold;
    hide MailHolds;
    var a, b, w' := w.sides[s], Prepared(p, w.sides[s], k), AfterSend(p, w, s, k, plaintext, nonce);
    SideOfWorld(p, w, s);
    SideOfWorld(p, w, 1 - s);
    if a.role == Receiving {
      AnswerStep(p, w, s, k, nonce);
    } else {
      assert b == a;
    }
    hide WorldHolds;
    hide Prepared;
    FitsHolds(p, w'.keys, w.mail, w.got, s, b);
    FitsHolds(p, w'.keys, w.mail, w.got, 1 - s, w.sides[1 - s]);
    hide SideHolds;
    assert b.role == Sending && Owns(s, b.index);
    SendKeepsSender(p, w'.keys, w.mail, s, b, w.got, plaintext, nonce);
    SendKeepsOther(p, w'.keys, w.mail, 1 - s, w.sides[1 - s], w.got, w'.mail[|w.mail|]);
    WorldOfSides(p, w', s);
  }

  lemma NextHolds(p: Primitives, w: World, e: Event)
    requires WorldHolds(p, w) && Enabled(p, w, e)
    ensures WorldHolds(p, Next(p, w, e))
  {
    match e
    case Send(s, k, plaintext, nonce) => SendStep(p, w, s, k, plaintext, nonce);
    case Deliver(d) => DeliverStep(p, w, w.mail[d]);
  }

  lemma {:induction false} RunHolds(p: Primitives, es: seq<Event>, w: World)
    requires Leads(p, es, w)
    ensures WorldHolds(p, w)
    decreases |es|
  {
    hide Initial;
    hide WorldHolds;
    hide Enabled;
    hide Next;
    if es == [] {
      InitialHolds(p, w);
    } else {
      var v :| Follows(p, es, v, w);
      RunHolds(p, es[..|es| - 1], v);
      NextHolds(p, v, es[|es| - 1]);
    }
  }

  // ---------- The theorems ----------

  /** Both sides hold the same root key for every epoch they both keep, and are at most one turn apart. */
  lemma {:induction false} SameRoots(p: Primitives, es: seq<Event>, w: World, i: nat, j: nat)
    requires Leads(p, es, w)
    ensures |w.sides| == 2 && -1 <= w.sides[0].index - w.sides[1].index <= 1
    ensures
      (i <= |w.sides[0].previous| && j <= |w.sides[1].previous| && Oldest(w.sides[0]) + i == Oldest(w.sides[1]) + j)
      ==> Epochs(w.sides[0])[i].chain.root == Epochs(w.sides[1])[j].chain.root
  {
    hide Leads;
    hide MailHolds;
    hide KeysHold;
    RunHolds(p, es, w);
    SideOfWorld(p, w, 0);
    SideOfWorld(p, w, 1);
    if i <= |w.sides[0].previous| && j <= |w.sides[1].previous| {
      RootsAgree(p, w.keys, 0, w.sides[0], i);
      RootsAgree(p, w.keys, 1, w.sides[1], j);
    }
  }

  lemma DeliveryInWorld(p: Primitives, w: World, d: nat)
    requires WorldHolds(p, w) && Enabled(p, w, Deliver(d))
    ensures var m := w.mail[d];
      var a := w.sides[Receiver(m.turn)];
      && 0 <= Oldest(a) <= m.turn <= LastTurn(w.keys)
      && Outcome(p, a, m.envelope) == Expected(Serving(p, w.keys, a, m.turn), w.got, m)
  {
    hide SideFits;
    hide KeysHold;
    hide Outcome;
    hide Expected;
    var s := Receiver(w.mail[d].turn);
    assert PostHolds(p, w.keys, w.mail[d]);
    SideOfWorld(p, w, s);
    FitsHolds(p, w.keys, w.mail, w.got, s, w.sides[s]);
    DeliverHere(p, w.keys, w.mail, s, w.sides[s], w.got, w.mail[d]);
  }

  /** Every permitted delivery gives the message's own plaintext or a refusal decided by indexes alone. */
  lemma {:induction false} DeliveryOutcome(p: Primitives, es: seq<Event>, w: World, d: nat)
    requires Leads(p, es, w) && Enabled(p, w, Deliver(d))
    ensures var m := w.mail[d];
      var a := w.sides[Receiver(m.turn)];
      && 0 <= Oldest(a) <= m.turn <= LastTurn(w.keys)
      && Outcome(p, a, m.envelope) == Expected(Serving(p, w.keys, a, m.turn), w.got, m)
  {
    hide Leads;
    RunHolds(p, es, w);
    DeliveryInWorld(p, w, d);
  }

  /** For the current or next turn of a side, refusal as already processed is exactly prior delivery. */
  lemma ExpectedWhenCurrent(p: Primitives, keys: seq<KeyPair>, mail: seq<Post>, got: set<(nat, int)>,
                            s: nat, a: Party, m: Post)
    requires SideFits(p, keys, mail, got, s, a) && !Owns(s, m.turn) && a.index <= m.turn <= LastTurn(keys)
    ensures Oldest(a) >= 0
    ensures var reached := if m.turn == a.index then a.current.chain.previousIndex else -1;
      Expected(Serving(p, keys, a, m.turn), got, m) ==
        if (m.turn, m.envelope.wire.index) in got then Err(Refused(AlreadyProcessed))
        else if m.envelope.wire.index - (reached + 1) <= MAX_MESSAGE_SKIP then Ok(m.plaintext)
        else Err(Refused(TooManySkipped))
  {
  }

  /**
   A message of the receiver's current turn, or of the turn after it, decrypts to its plaintext
   the first time, unless it would skip more than MAX_MESSAGE_SKIP keys; once delivered it is refused.
   */
  lemma {:induction false} CurrentTurnDelivery(p: Primitives, es: seq<Event>, w: World, d: nat)
    requires Leads(p, es, w) && Enabled(p, w, Deliver(d))
    requires w.mail[d].turn >= w.sides[Receiver(w.mail[d].turn)].index
    ensures var m := w.mail[d];
      var a := w.sides[Receiver(m.turn)];
      var reached := if m.turn == a.index then a.current.chain.previousIndex else -1;
      Outcome(p, a, m.envelope) ==
        if (m.turn, m.envelope.wire.index) in w.got then Err(Refused(AlreadyProcessed))
        else if m.envelope.wire.index - (reached + 1) <= MAX_MESSAGE_SKIP then Ok(m.plaintext)
        else Err(Refused(TooManySkipped))
  {
    hide SideFits;
    hide KeysHold;
    hide MailHolds;
    hide CoherentParty;
    hide Outcome;
    hide Leads;
    DeliveryOutcome(p, es, w, d);
    RunHolds(p, es, w);
    var s := Receiver(w.mail[d].turn);
    SideOfWorld(p, w, s);
    ExpectedWhenCurrent(p, w.keys, w.mail, w.got, s, w.sides[s], w.mail[d]);
  }

  // ---------- A conversation never gets stuck ----------

  /** Sending is always open; a side needs an unused key pair exactly if it has followed the latest turn. */
  lemma {:induction false} SendExact(p: Primitives, es: seq<Event>, w: World, s: nat, k: KeyPair, nonce: Bytes)
    requires Leads(p, es, w) && s < 2 && |nonce| == NONCE_LENGTH
    ensures |w.sides| == 2 && |w.keys| >= 2
    ensures MaySend(p, w, s, k, nonce) <==>
      (!Owns(s, LastTurn(w.keys)) && w.sides[s].index == LastTurn(w.keys) ==> Unused(p, w.keys, k))
  {
    hide Leads;
    hide Unused;
    hide SideHolds;
    RunHolds(p, es, w);
    SideOfWorld(p, w, s);
    FitsHolds(p, w.keys, w.mail, w.got, s, w.sides[s]);
  }

  /** Every message of the latest turn may arrive, any number of times; its receiver then answers with the next turn. */
  lemma {:induction false} LatestArrives(p: Primitives, es: seq<Event>, w: World, d: nat, k: KeyPair, nonce: Bytes)
    requires Leads(p, es, w) && d < |w.mail| && w.mail[d].turn == LastTurn(w.keys)
    ensures Enabled(p, w, Deliver(d)) && |w.keys| >= 2
    ensures var v, s := Next(p, w, Deliver(d)), Receiver(w.mail[d].turn);
      && v.sides[s].role == Receiving && v.sides[s].index == LastTurn(w.keys)
      && (Unused(p, w.keys, k) && |nonce| == NONCE_LENGTH ==> MaySend(p, v, s, k, nonce))
  {
    hide Leads;
    hide Unused;
    hide Outcome;
    hide AfterDecrypt;
    hide SideHolds;
    var s := Receiver(w.mail[d].turn);
    RunHolds(p, es, w);
    assert PostHolds(p, w.keys, w.mail[d]);
    SideOfWorld(p, w, s);
    var a, m := w.sides[s], w.mail[d];
    FitsHolds(p, w.keys, w.mail, w.got, s, a);
    DeliverHere(p, w.keys, w.mail, s, a, w.got, m);
    DeliverKeepsReceiver(p, w.keys, w.mail, s, a, w.got, m);
    hide WorldHolds;
    hide SideFits;
    FitsHolds(p, w.keys, w.mail, GotAfter(w.got, m, Outcome(p, a, m.envelope)), s, AfterDecrypt(p, a, m.envelope));
  }

  lemma LookupHere(p: Primitives, keys: seq<KeyPair>, s: nat, a: Party, k: nat)
    requires KeysHold(p, keys) && SideHolds(p, keys, s, a)
    requires a.role == Receiving && !Owns(s, k) && Oldest(a) <= k <= a.index
    ensures 0 <= Oldest(a) && k <= LastTurn(keys)
    ensures Locate(a, TurnKey(keys, k)) == SlotOf(a, k)
    ensures Serving(p, keys, a, k).root == TurnRoot(p, keys, k)
  {
    LookupExact(keys, s, a, k);
    RootsAgree(p, keys, s, a, k - Oldest(a));
  }

  /** In every permitted run a receiving party finds each kept turn of its peer in that turn's own epoch. */
  lemma {:induction false} WindowLookup(p: Primitives, es: seq<Event>, w: World, s: nat, k: nat)
    requires Leads(p, es, w) && s < |w.sides|
    requires w.sides[s].role == Receiving && !Owns(s, k) && Oldest(w.sides[s]) <= k <= w.sides[s].index
    ensures 0 <= Oldest(w.sides[s]) && k <= LastTurn(w.keys)
    ensures Locate(w.sides[s], TurnKey(w.keys, k)) == SlotOf(w.sides[s], k)
    ensures Serving(p, w.keys, w.sides[s], k).root == TurnRoot(p, w.keys, k)
  {
    hide Leads;
    hide MailHolds;
    hide KeysHold;
    hide SideFits;
    RunHolds(p, es, w);
    SideOfWorld(p, w, s);
    FitsHolds(p, w.keys, w.mail, w.got, s, w.sides[s]);
    hide SideHolds;
    LookupHere(p, w.keys, s, w.sides[s], k);
  }
}
