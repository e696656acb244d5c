/**
 The arrival guard of the two-party theorem: exactly what it is for, and what happens to the
 messages that it leaves out.
 */
module Guards {
  import opened Crypto
  import opened Chain
  import opened Parties
  import opened Windows
  import opened Turns
  import opened Agreement

  /** The lookup finds the epoch of a kept turn exactly when the guard of Deliver allows the arrival. */
  lemma {:induction false} GuardExact(keys: seq<KeyPair>, s: nat, a: Party, k: nat)
    requires DistinctKeys(keys) && Placed(keys, s, a) && !Owns(s, k) && k <= a.index
    ensures (k >= Oldest(a) && Locate(a, TurnKey(keys, k)) == SlotOf(a, k)) <==> MayArrive(a, k)
  {
    LookupExact(keys, s, a, k);
  }

  /**
   Outside it, a message of the turn just answered is opened with a key of the answering epoch,
   and consumes an index of the chain the party is sending on.
   */
  lemma {:induction false} AnsweredTurnMisread(p: Primitives, keys: seq<KeyPair>, s: nat, a: Party, m: Post)
    requires KeysHold(p, keys) && SideHolds(p, keys, s, a) && PostHolds(p, keys, m)
    requires a.role == Sending && m.turn == a.index - 1
    ensures AfterDecrypt(p, a, m.envelope) == ReceiveCurrent(p, a, m.envelope.wire.index)
    ensures Refuses(a.current.chain, m.envelope.wire.index).None? ==>
      Outcome(p, a, m.envelope) ==
        Open(p, MessageKey(p, TurnRoot(p, keys, m.turn + 1), m.envelope.wire.index), m.envelope.wire.body)
  {
    LookupExact(keys, s, a, m.turn);
    RootIs(p, keys, s, a);
  }

  /** A message of the turn that has just left the window is opened with a key of the sending epoch after it. */
  lemma {:induction false} LeftTurnMisread(p: Primitives, keys: seq<KeyPair>, s: nat, a: Party, m: Post)
    requires KeysHold(p, keys) && SideHolds(p, keys, s, a) && PostHolds(p, keys, m)
    requires a.role == Sending && !Owns(s, m.turn) && m.turn == Oldest(a) - 1
    ensures |a.previous| > 0 && AfterDecrypt(p, a, m.envelope) == ReceiveKept(p, a, 0, m.envelope.wire.index)
    ensures Refuses(a.previous[0].chain, m.envelope.wire.index).None? ==>
      Outcome(p, a, m.envelope) ==
        Open(p, MessageKey(p, TurnRoot(p, keys, m.turn + 1), m.envelope.wire.index), m.envelope.wire.body)
  {
    LookupExact(keys, s, a, m.turn);
    RootsAgree(p, keys, s, a, 0);
  }

  /**
   A message of any older turn is taken for the start of a new one: if the exchange with its old
   key succeeds, the party moves to a new receiving epoch that its peer does not know.
   */
  lemma {:induction false} OldTurnMisread(p: Primitives, keys: seq<KeyPair>, s: nat, a: Party, m: Post)
    requires KeysHold(p, keys) && SideHolds(p, keys, s, a) && PostHolds(p, keys, m)
    requires !Owns(s, m.turn) && m.turn < Oldest(a) && !(a.role == Sending && m.turn == Oldest(a) - 1)
    ensures Locate(a, m.envelope.publicKey) == Unknown
    ensures AfterDecrypt(p, a, m.envelope).role == Receiving
    ensures AfterDecrypt(p, a, m.envelope).index ==
      a.index + if SharedSecret(p, a.keys, m.envelope.publicKey).Some? then 1 else 0
  {
    LookupExact(keys, s, a, m.turn);
  }
}
