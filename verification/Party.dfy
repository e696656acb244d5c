/**
 One side of a conversation as a value: the Diffie-Hellman ratchet
 (client/internal/contact/ratchet/dhratchet.go) and the epoch choice of Message.Encrypt and
 Message.Decrypt (client/internal/contact/message/message.go).
 */
module Parties {
  import opened Basics
  import opened Crypto
  import opened Chain
  import opened Retired

  const PREV_RATCHET_LIMIT := 10

  /** The ASCII bytes of the info string "Ratchet". */
  const RATCHET_INFO: Bytes := [82, 97, 116, 99, 104, 101, 116]

  datatype Role = Sending | Receiving

  /** A message ratchet with the public key it is looked up by. */
  datatype Epoch = Epoch(foreign: Bytes, chain: Chain)

  datatype Party = Party(
    keys: KeyPair,
    root: Bytes,
    child: Bytes,
    current: Epoch,
    previous: seq<Epoch>,
    index: nat,
    role: Role)

  datatype Envelope = Envelope(publicKey: Bytes, wire: Wire)

  ghost predicate CoherentParty(p: Primitives, a: Party) {
    && Coherent(p, a.current.chain)
    && forall j | 0 <= j < |a.previous| :: Coherent(p, a.previous[j].chain)
  }

  /** NewDHRatchet; a failing exchange ends the program. */
  function NewParty(p: Primitives, keys: KeyPair, foreign: Bytes, role: Role): Option<Party> {
    var secret := SharedSecret(p, keys, foreign);
    if secret.None? then None
    else Some(Party(keys, secret.value, [], Epoch(foreign, NewChain(secret.value)), [], 0, role))
  }

  function RootMaterial(p: Primitives, root: Bytes, dh: Bytes): (r: Bytes)
    ensures |r| == 2 * KEY_LENGTH
  {
    DeriveIsHkdf(p, root, Some(dh), RATCHET_INFO, 64);
    Derive(p, root, Some(dh), RATCHET_INFO, 64)
  }

  function NextRoot(p: Primitives, root: Bytes, dh: Bytes): Bytes {
    RootMaterial(p, root, dh)[..KEY_LENGTH]
  }

  function LastTen<T>(xs: seq<T>): seq<T> {
    if |xs| > PREV_RATCHET_LIMIT then xs[|xs| - PREV_RATCHET_LIMIT..] else xs
  }

  /** The window after the current epoch retires; an epoch without a foreign key is not kept. */
  function Window(a: Party): seq<Epoch> {
    if |a.current.foreign| > 0 then LastTen(a.previous + [a.current]) else a.previous
  }

  /** RKCycle. If the exchange fails the window has already changed, but the epoch has not. */
  function Cycle(p: Primitives, a: Party, foreign: Option<Bytes>): Party {
    var peer := if foreign.None? then a.current.foreign else foreign.value;
    var dh := SharedSecret(p, a.keys, peer);
    if dh.None? then a.(previous := Window(a))
    else
      var root := NextRoot(p, a.root, dh.value);
      a.(previous := Window(a), root := root, child := RootMaterial(p, a.root, dh.value)[KEY_LENGTH..],
         current := Epoch(peer, NewChain(root)), index := a.index + 1)
  }

  lemma CurrentCoherent(p: Primitives, a: Party)
    requires CoherentParty(p, a)
    ensures Coherent(p, a.current.chain)
  {
  }

  lemma KeptCoherent(p: Primitives, a: Party, j: nat)
    requires CoherentParty(p, a) && j < |a.previous|
    ensures Coherent(p, a.previous[j].chain)
  {
  }

  lemma SameChainsCoherent(p: Primitives, a: Party, b: Party)
    requires CoherentParty(p, a) && b.current == a.current && b.previous == a.previous
    ensures CoherentParty(p, b)
  {
  }

  lemma WindowCoherent(p: Primitives, a: Party)
    requires CoherentParty(p, a)
    ensures CoherentParty(p, a.(previous := Window(a)))
  {
  }

  lemma CycleCoherent(p: Primitives, a: Party, foreign: Option<Bytes>)
    requires CoherentParty(p, a)
    ensures CoherentParty(p, Cycle(p, a, foreign))
  {
  }

  // ---------- Sending ----------

  /** The first send after receiving starts a new epoch under a new key pair. */
  function Prepared(p: Primitives, a: Party, newKeys: KeyPair): Party {
    if a.role == Receiving then Cycle(p, a.(role := Sending, keys := newKeys), None) else a
  }

  lemma PreparedCoherent(p: Primitives, a: Party, newKeys: KeyPair)
    requires CoherentParty(p, a)
    ensures CoherentParty(p, Prepared(p, a, newKeys))
  {
  }

  function AfterEncrypt(p: Primitives, a: Party, newKeys: KeyPair): Party {
    var b := Prepared(p, a, newKeys);
    b.(current := b.current.(chain := Sent(p, b.current.chain)))
  }

  function Encrypted(p: Primitives, a: Party, newKeys: KeyPair, plaintext: Bytes, nonce: Bytes): Envelope {
    var b := Prepared(p, a, newKeys);
    Envelope(b.keys.publicKey, Outgoing(p, b.current.chain, plaintext, nonce))
  }

  // ---------- Receiving ----------

  /** The search of GetPrevRatchet: the oldest retained epoch with this foreign key. */
  function FirstMatch(es: seq<Epoch>, publicKey: Bytes): (r: Option<nat>)
    ensures r.Some? ==> r.value < |es| && es[r.value].foreign == publicKey
    ensures r.Some? ==> forall j | 0 <= j < r.value :: es[j].foreign != publicKey
    ensures r.None? ==> forall j | 0 <= j < |es| :: es[j].foreign != publicKey
  {
    if es == [] then None
    else if es[0].foreign == publicKey then Some(0)
    else
      var r := FirstMatch(es[1..], publicKey);
      if r.None? then None else Some(r.value + 1)
  }

  lemma FirstMatchIs(es: seq<Epoch>, publicKey: Bytes, j: nat)
    requires j < |es| && es[j].foreign == publicKey
    requires forall i | 0 <= i < j :: es[i].foreign != publicKey
    ensures FirstMatch(es, publicKey) == Some(j)
  {
  }

  /** Which epoch Message.Decrypt uses for a public key. */
  datatype Slot = Current | Kept(j: nat) | Unknown

  function Locate(a: Party, publicKey: Bytes): (s: Slot)
    ensures s.Kept? ==> s.j < |a.previous|
  {
    if a.current.foreign == publicKey then Current
    else
      match FirstMatch(a.previous, publicKey)
      case Some(j) => Kept(j)
      case None => Unknown
  }

  /** A party that has followed a public key it did not know into a new epoch. */
  function Followed(p: Primitives, a: Party, publicKey: Bytes): Party {
    Cycle(p, a, Some(publicKey)).(role := Receiving)
  }

  lemma FollowedCoherent(p: Primitives, a: Party, publicKey: Bytes)
    requires CoherentParty(p, a)
    ensures CoherentParty(p, Followed(p, a, publicKey))
  {
  }

  /** After a failed exchange the newest kept epoch is a copy of the current one, sharing its stored keys. */
  predicate Shares(p: Primitives, a: Party, publicKey: Bytes) {
    SharedSecret(p, a.keys, publicKey).None? && |a.current.foreign| > 0
  }

  function ReceiveCurrent(p: Primitives, a: Party, i: int): Party {
    a.(current := a.current.(chain := Received(p, a.current.chain, i)))
  }

  function ReceiveKept(p: Primitives, a: Party, j: nat, i: int): Party
    requires j < |a.previous|
  {
    a.(previous := a.previous[j := a.previous[j].(chain := LateReceived(p, a.previous[j].chain, i))])
  }

  lemma ReceiveCurrentCoherent(p: Primitives, a: Party, i: int)
    requires CoherentParty(p, a)
    ensures CoherentParty(p, ReceiveCurrent(p, a, i))
  {
    ReceivedCoherent(p, a.current.chain, i);
  }

  lemma ReceiveKeptCoherent(p: Primitives, a: Party, j: nat, i: int)
    requires CoherentParty(p, a) && j < |a.previous|
    ensures CoherentParty(p, ReceiveKept(p, a, j, i))
  {
    LateReceivedCoherent(p, a.previous[j].chain, i);
  }

  function AfterDecrypt(p: Primitives, a: Party, m: Envelope): Party {
    match Locate(a, m.publicKey)
    case Current => ReceiveCurrent(p, a, m.wire.index)
    case Kept(j) => ReceiveKept(p, a, j, m.wire.index)
    case Unknown =>
      var c := ReceiveCurrent(p, Followed(p, a, m.publicKey), m.wire.index);
      if Shares(p, a, m.publicKey) then ReceiveKept(p, c, |c.previous| - 1, m.wire.index) else c
  }

  function Outcome(p: Primitives, a: Party, m: Envelope): Result<Bytes, Failure> {
    match Locate(a, m.publicKey)
    case Current => Receipt(p, a.current.chain, m.wire.index, m.wire.body)
    case Kept(j) => Receipt(p, a.previous[j].chain, m.wire.index, m.wire.body)
    case Unknown => Receipt(p, Followed(p, a, m.publicKey).current.chain, m.wire.index, m.wire.body)
  }

  /** The chain that a message is opened with. */
  function Opening(p: Primitives, a: Party, publicKey: Bytes): Chain {
    match Locate(a, publicKey)
    case Current => a.current.chain
    case Kept(j) => a.previous[j].chain
    case Unknown => Followed(p, a, publicKey).current.chain
  }

  /** A party reads x exactly if that chain does not refuse the index and the body is x sealed under its key. */
  lemma OutcomeExact(p: Primitives, a: Party, m: Envelope, x: Bytes)
    requires CoherentParty(p, a)
    ensures var c, i := Opening(p, a, m.publicKey), m.wire.index;
      Outcome(p, a, m) == Ok(x) <==>
        Refuses(c, i).None? && i >= 0 && SealedUnder(p, MessageKey(p, c.root, i), m.wire.body, x)
  {
    hide Coherent;
    hide Receipt;
    hide Followed;
    hide SealedUnder;
    hide MessageKey;
    FollowedCoherent(p, a, m.publicKey);
    var c := Opening(p, a, m.publicKey);
    assert Outcome(p, a, m) == Receipt(p, c, m.wire.index, m.wire.body);
    ReceiptExact(p, c, m.wire.index, m.wire.body, x);
  }

  lemma AfterEncryptCoherent(p: Primitives, a: Party, newKeys: KeyPair)
    requires CoherentParty(p, a)
    ensures CoherentParty(p, AfterEncrypt(p, a, newKeys))
  {
    PreparedCoherent(p, a, newKeys);
    SentCoherent(p, Prepared(p, a, newKeys).current.chain);
  }

  lemma {:induction false} AfterDecryptCoherent(p: Primitives, a: Party, m: Envelope)
    requires CoherentParty(p, a)
    ensures CoherentParty(p, AfterDecrypt(p, a, m))
  {
    var i := m.wire.index;
    match Locate(a, m.publicKey) {
      case Current => ReceiveCurrentCoherent(p, a, i);
      case Kept(j) => ReceiveKeptCoherent(p, a, j, i);
      case Unknown =>
        FollowedCoherent(p, a, m.publicKey);
        var b := Followed(p, a, m.publicKey);
        ReceiveCurrentCoherent(p, b, i);
        if Shares(p, a, m.publicKey) {
          var c := ReceiveCurrent(p, b, i);
          ReceiveKeptCoherent(p, c, |c.previous| - 1, i);
        }
    }
  }
}
