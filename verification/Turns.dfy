/**
 Two parties taking turns over a network that loses, reorders and duplicates messages.

 Side 0 is the party created as Sending, side 1 the one created as Receiving. Turn t belongs to
 side t % 2. `keys[t + 1]` is the key pair of turn t, and `keys[0]` the first key pair of side 1.
 */
module Turns {
  import opened Basics
  import opened Crypto
  import opened Chain
  import opened Parties
  import opened Windows

  // ---------- Keys of the conversation ----------

  ghost predicate DistinctKeys(keys: seq<KeyPair>) {
    forall i, j | 0 <= i < j < |keys| :: keys[i].publicKey != keys[j].publicKey
  }

  /** The exchange of turn k succeeds. */
  predicate Exchanged(p: Primitives, keys: seq<KeyPair>, k: nat)
    requires k <= LastTurn(keys)
  {
    SharedSecret(p, keys[k + 1], keys[k].publicKey).Some?
  }

  /** Key pairs are genuine, no public key repeats, and every exchange between adjacent turns succeeds. */
  ghost predicate KeysHold(p: Primitives, keys: seq<KeyPair>) {
    && |keys| >= 2
    && (forall i | 0 <= i < |keys| :: IsKeyPair(p, keys[i]))
    && DistinctKeys(keys)
    && (forall k: nat | k <= LastTurn(keys) :: Exchanged(p, keys, k))
  }

  function LastTurn(keys: seq<KeyPair>): int {
    |keys| - 2
  }

  function TurnKey(keys: seq<KeyPair>, turn: int): Bytes
    requires -1 <= turn <= LastTurn(keys)
  {
    keys[turn + 1].publicKey
  }

  /** The Diffie-Hellman output of turn k: its key pair with the public key of turn k - 1. */
  function TurnDh(p: Primitives, keys: seq<KeyPair>, k: nat): Bytes
    requires k <= LastTurn(keys)
  {
    var dh := SharedSecret(p, keys[k + 1], keys[k].publicKey);
    if dh.Some? then dh.value else []
  }

  function Secret(p: Primitives, keys: seq<KeyPair>): Bytes
    requires |keys| >= 2
  {
    TurnDh(p, keys, 0)
  }

  /** The outputs of turns 1, ..., n. */
  function Dhs(p: Primitives, keys: seq<KeyPair>, n: nat): (r: seq<Bytes>)
    requires n <= LastTurn(keys)
    ensures |r| == n
  {
    if n == 0 then [] else Dhs(p, keys, n - 1) + [TurnDh(p, keys, n)]
  }

  /** The root key of turn k, the same for both sides. */
  function TurnRoot(p: Primitives, keys: seq<KeyPair>, k: nat): Bytes
    requires k <= LastTurn(keys)
  {
    Fold(p, Secret(p, keys), Dhs(p, keys, k))
  }

  lemma {:induction false} DhsPrefix(p: Primitives, keys: seq<KeyPair>, n: nat, k: nat)
    requires k <= n <= LastTurn(keys)
    ensures Dhs(p, keys, n)[..k] == Dhs(p, keys, k)
  {
    if k == n {
    } else {
      DhsPrefix(p, keys, n - 1, k);
      assert Dhs(p, keys, n)[..k] == Dhs(p, keys, n - 1)[..k];
    }
  }

  lemma {:induction false} DhsExtend(p: Primitives, keys: seq<KeyPair>, k: KeyPair, n: nat)
    requires n <= LastTurn(keys)
    ensures Dhs(p, keys + [k], n) == Dhs(p, keys, n)
    ensures TurnRoot(p, keys + [k], n) == TurnRoot(p, keys, n)
  {
    if n == 0 {
    } else {
      DhsExtend(p, keys, k, n - 1);
    }
  }

  // ---------- One side ----------

  predicate Owns(s: nat, turn: int) {
    turn % 2 == s
  }

  /** The peer's turn whose key serves epoch k on side s: turn k itself, or the turn before. */
  function ForeignTurn(s: nat, k: int): int {
    if Owns(s, k) then k - 1 else k
  }

  function ForeignAt(keys: seq<KeyPair>, s: nat, k: nat): Bytes
    requires k <= LastTurn(keys)
  {
    TurnKey(keys, ForeignTurn(s, k))
  }

  lemma ForeignIs(keys: seq<KeyPair>, s: nat, epoch: nat, k: nat)
    requires DistinctKeys(keys) && epoch <= LastTurn(keys) && k <= LastTurn(keys)
    ensures ForeignAt(keys, s, epoch) == TurnKey(keys, k) <==> ForeignTurn(s, epoch) == k
  {
  }

  ghost predicate ForeignsHold(keys: seq<KeyPair>, s: nat, first: int, es: seq<Epoch>)
    requires 0 <= first && first + |es| <= LastTurn(keys) + 1
  {
    forall j | 0 <= j < |es| :: es[j].foreign == ForeignAt(keys, s, first + j)
  }

  /** Side s stands at epoch `a.index` with the role and the foreign keys that go with it. */
  ghost predicate Placed(keys: seq<KeyPair>, s: nat, a: Party) {
    && s < 2
    && 0 <= a.index <= LastTurn(keys)
    && |a.previous| == (if a.index < PREV_RATCHET_LIMIT then a.index else PREV_RATCHET_LIMIT)
    && a.role == (if Owns(s, a.index) then Sending else Receiving)
    && ForeignsHold(keys, s, Oldest(a), a.previous)
    && a.current.foreign == ForeignAt(keys, s, a.index)
  }

  /** Moreover it holds its latest own key pair, and the root key of every epoch it keeps. */
  ghost predicate SideHolds(p: Primitives, keys: seq<KeyPair>, s: nat, a: Party) {
    && Placed(keys, s, a)
    && a.keys == keys[if Owns(s, a.index) then a.index + 1 else a.index]
    && WindowHolds(p, Secret(p, keys), Dhs(p, keys, a.index), a)
  }

  /** Where side s keeps epoch k. */
  function SlotOf(a: Party, k: int): Slot
    requires Oldest(a) <= k <= a.index
  {
    if k == a.index then Current else Kept(k - Oldest(a))
  }

  /**
   Which epoch the lookup finds for the peer's turn k. It is the epoch of that turn, except that
   a sending party takes the turn it just answered for its own current epoch, and the turn that
   just left the window for the sending epoch after it.
   */
  lemma LookupExact(keys: seq<KeyPair>, s: nat, a: Party, k: nat)
    requires DistinctKeys(keys) && Placed(keys, s, a)
    requires !Owns(s, k) && k <= LastTurn(keys)
    ensures Locate(a, TurnKey(keys, k)) ==
      if k > a.index then Unknown
      else if a.role == Sending && k == a.index - 1 then Current
      else if k >= Oldest(a) then SlotOf(a, k)
      else if a.role == Sending && k == Oldest(a) - 1 then Kept(0)
      else Unknown
  {
    var pk := TurnKey(keys, k);
    ForeignIs(keys, s, a.index, k);
    hide DistinctKeys;
    if a.current.foreign != pk {
      forall j | 0 <= j < |a.previous|
        ensures a.previous[j].foreign == pk <==> ForeignTurn(s, Oldest(a) + j) == k
      {
        ForeignIs(keys, s, Oldest(a) + j, k);
      }
      if Oldest(a) <= k < a.index {
        FirstMatchIs(a.previous, pk, k - Oldest(a));
      } else if k == Oldest(a) - 1 && Owns(s, Oldest(a)) {
        FirstMatchIs(a.previous, pk, 0);
      }
    }
  }

  // ---------- How a side moves ----------

  /** A change inside the chains of a side leaves it where it is. */
  lemma UpdateKeepsSide(p: Primitives, keys: seq<KeyPair>, s: nat, a: Party, b: Party)
    requires SideHolds(p, keys, s, a) && CoherentParty(p, b)
    requires b.keys == a.keys && b.role == a.role
    requires b.index == a.index && b.root == a.root && |b.previous| == |a.previous|
    requires b.current.foreign == a.current.foreign && b.current.chain.root == a.current.chain.root
    requires forall j | 0 <= j < |a.previous| ::
      b.previous[j].foreign == a.previous[j].foreign && b.previous[j].chain.root == a.previous[j].chain.root
    ensures SideHolds(p, keys, s, b)
  {
    UpdateKeepsWindow(p, Secret(p, keys), Dhs(p, keys, a.index), a, b);
  }

  lemma NextEpochPlaced(keys: seq<KeyPair>, s: nat, a: Party, b: Party)
    requires Placed(keys, s, a) && a.index < LastTurn(keys)
    requires b.previous == LastTen(Epochs(a)) && b.index == a.index + 1
    requires b.current.foreign == ForeignAt(keys, s, b.index)
    requires b.role == (if Owns(s, b.index) then Sending else Receiving)
    ensures Placed(keys, s, b)
  {
    hide ForeignAt;
    hide Owns;
    assert ForeignsHold(keys, s, Oldest(a), Epochs(a));
  }

  /** A side that enters the next turn's epoch. */
  lemma NextEpochKeepsSide(p: Primitives, keys: seq<KeyPair>, s: nat, a: Party, b: Party)
    requires SideHolds(p, keys, s, a) && a.index < LastTurn(keys)
    requires b.previous == LastTen(Epochs(a)) && b.index == a.index + 1
    requires b.root == NextRoot(p, a.root, TurnDh(p, keys, b.index))
    requires b.current.chain == NewChain(b.root)
    requires b.current.foreign == ForeignAt(keys, s, b.index) && |b.current.foreign| > 0
    requires b.keys == keys[if Owns(s, b.index) then b.index + 1 else b.index]
    requires b.role == (if Owns(s, b.index) then Sending else Receiving)
    ensures SideHolds(p, keys, s, b)
  {
    NextEpochPlaced(keys, s, a, b);
    hide Placed;
    NewEpochKeepsWindow(p, Secret(p, keys), Dhs(p, keys, a.index), a, TurnDh(p, keys, b.index), b);
    hide WindowHolds;
  }

  /** A turn added by the peer does not move a side. */
  lemma NewTurnKeepsSide(p: Primitives, keys: seq<KeyPair>, k: KeyPair, s: nat, a: Party)
    requires SideHolds(p, keys, s, a)
    ensures SideHolds(p, keys + [k], s, a)
  {
    DhsExtend(p, keys, k, a.index);
  }

  /** The two ends of one exchange. */
  lemma TurnDhBothEnds(p: Primitives, keys: seq<KeyPair>, k: nat)
    requires KeysHold(p, keys) && k <= LastTurn(keys)
    ensures SharedSecret(p, keys[k + 1], keys[k].publicKey) == Some(TurnDh(p, keys, k))
    ensures SharedSecret(p, keys[k], keys[k + 1].publicKey) == Some(TurnDh(p, keys, k))
  {
    SharedSecretCommutes(p, keys[k], keys[k + 1]);
    assert Exchanged(p, keys, k);
  }

  lemma PublicKeySize(p: Primitives, k: KeyPair)
    requires IsKeyPair(p, k)
    ensures |k.publicKey| == KEY_LENGTH
  {
  }

  /** Answering: the first send after receiving enters the next turn. */
  lemma {:induction false} AnswerTurn(p: Primitives, keys: seq<KeyPair>, s: nat, a: Party)
    requires SideHolds(p, keys, s, a) && a.index == LastTurn(keys) - 1 && a.role == Receiving
    requires KeysHold(p, keys)
    ensures var b := Prepared(p, a, keys[a.index + 2]);
      && SideHolds(p, keys, s, b) && b.index == a.index + 1 && b.role == Sending
      && b.current.chain == NewChain(TurnRoot(p, keys, a.index + 1))
  {
    hide Fold;
    hide NextRoot;
    var b := Prepared(p, a, keys[a.index + 2]);
    TurnDhBothEnds(p, keys, a.index + 1);
    PublicKeySize(p, keys[a.index + 1]);
    NextEpochKeepsSide(p, keys, s, a, b);
    RootIs(p, keys, s, b);
  }

  /** Taking the next turn under a key pair not used before. */
  lemma {:induction false} TakeTurn(p: Primitives, keys: seq<KeyPair>, k: KeyPair, s: nat, a: Party)
    requires SideHolds(p, keys, s, a) && a.index == LastTurn(keys) && a.role == Receiving
    requires KeysHold(p, keys + [k])
    ensures var b := Prepared(p, a, k);
      && SideHolds(p, keys + [k], s, b) && b.index == a.index + 1 && b.role == Sending
      && b.current.chain == NewChain(TurnRoot(p, keys + [k], a.index + 1))
  {
    NewTurnKeepsSide(p, keys, k, s, a);
    hide SideHolds;
    hide KeysHold;
    AnswerTurn(p, keys + [k], s, a);
  }

  /** Following the next turn: the first message of a new turn of the peer. */
  lemma FollowTurn(p: Primitives, keys: seq<KeyPair>, s: nat, a: Party)
    requires SideHolds(p, keys, s, a) && a.index == LastTurn(keys) - 1 && a.role == Sending
    requires KeysHold(p, keys)
    ensures SideHolds(p, keys, s, Followed(p, a, TurnKey(keys, a.index + 1)))
    ensures Followed(p, a, TurnKey(keys, a.index + 1)).index == a.index + 1
    ensures Followed(p, a, TurnKey(keys, a.index + 1)).role == Receiving
    ensures Followed(p, a, TurnKey(keys, a.index + 1)).current.chain == NewChain(TurnRoot(p, keys, a.index + 1))
    ensures !Shares(p, a, TurnKey(keys, a.index + 1))
  {
    hide Fold;
    hide NextRoot;
    var b := Followed(p, a, TurnKey(keys, a.index + 1));
    TurnDhBothEnds(p, keys, a.index + 1);
    PublicKeySize(p, keys[a.index + 2]);
    NextEpochKeepsSide(p, keys, s, a, b);
    RootIs(p, keys, s, b);
  }

  /** Every epoch a side keeps has the root key of its turn. */
  lemma RootsAgree(p: Primitives, keys: seq<KeyPair>, s: nat, a: Party, j: nat)
    requires SideHolds(p, keys, s, a) && j <= |a.previous|
    ensures Epochs(a)[j].chain.root == TurnRoot(p, keys, Oldest(a) + j)
  {
    DhsPrefix(p, keys, a.index, Oldest(a) + j);
  }

  lemma RootIs(p: Primitives, keys: seq<KeyPair>, s: nat, a: Party)
    requires SideHolds(p, keys, s, a)
    ensures a.root == TurnRoot(p, keys, a.index) && a.current.chain.root == a.root
  {
    RootsAgree(p, keys, s, a, |a.previous|);
  }
}
