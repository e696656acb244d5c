/**
 The window of retired epochs over every run of one party, whatever messages it is given:
 crossing, replayed, unknown or forged ones included.
 */
module Windows {
  import opened Basics
  import opened Crypto
  import opened Chain
  import opened Parties

  /** The root key of epoch |dhs|: one derivation per Diffie-Hellman output, from the initial secret. */
  function Fold(p: Primitives, secret: Bytes, dhs: seq<Bytes>): Bytes {
    if dhs == [] then secret
    else NextRoot(p, Fold(p, secret, dhs[..|dhs| - 1]), dhs[|dhs| - 1])
  }

  function RootAt(p: Primitives, secret: Bytes, dhs: seq<Bytes>, k: nat): Bytes
    requires k <= |dhs|
  {
    Fold(p, secret, dhs[..k])
  }

  lemma RootAtPrefix(p: Primitives, secret: Bytes, dhs: seq<Bytes>, dh: Bytes, k: nat)
    requires k <= |dhs|
    ensures RootAt(p, secret, dhs + [dh], k) == RootAt(p, secret, dhs, k)
  {
    assert (dhs + [dh])[..k] == dhs[..k];
  }

  /** The number of the oldest kept epoch. */
  function Oldest(a: Party): int {
    a.index - |a.previous|
  }

  function Epochs(a: Party): seq<Epoch> {
    a.previous + [a.current]
  }

  /** The last index taken in order in epoch k, while it is kept. */
  function Reached(a: Party, k: int): int {
    if Oldest(a) <= k <= a.index then Epochs(a)[k - Oldest(a)].chain.previousIndex else -1
  }

  /** `es` are the epochs numbered from `first`, each with the root key of its number. */
  ghost predicate KeptRight(p: Primitives, secret: Bytes, dhs: seq<Bytes>, first: int, es: seq<Epoch>)
    requires 0 <= first && first + |es| <= |dhs| + 1
  {
    forall j | 0 <= j < |es| ::
      |es[j].foreign| > 0 && Coherent(p, es[j].chain) && es[j].chain.root == RootAt(p, secret, dhs, first + j)
  }

  /** The kept epochs are the last min(index, 10) ones in order, each with the root key of its number. */
  ghost predicate WindowHolds(p: Primitives, secret: Bytes, dhs: seq<Bytes>, a: Party) {
    && CoherentParty(p, a)
    && a.index == |dhs|
    && a.root == RootAt(p, secret, dhs, |dhs|)
    && |a.previous| == (if |dhs| < PREV_RATCHET_LIMIT then |dhs| else PREV_RATCHET_LIMIT)
    && |a.current.foreign| > 0 && a.current.chain.root == a.root
    && KeptRight(p, secret, dhs, Oldest(a), a.previous)
  }

  /** Dropping old epochs and learning a new Diffie-Hellman output keep the rest right. */
  lemma KeptRightSlides(p: Primitives, secret: Bytes, dhs: seq<Bytes>, dh: Bytes, first: int, es: seq<Epoch>, drop: nat)
    requires 0 <= first && first + |es| <= |dhs| + 1 && drop <= |es|
    requires KeptRight(p, secret, dhs, first, es)
    ensures KeptRight(p, secret, dhs + [dh], first + drop, es[drop..])
  {
    var rest := es[drop..];
    forall j | 0 <= j < |rest|
      ensures |rest[j].foreign| > 0 && Coherent(p, rest[j].chain)
      ensures rest[j].chain.root == RootAt(p, secret, dhs + [dh], first + drop + j)
    {
      assert rest[j] == es[drop + j];
      RootAtPrefix(p, secret, dhs, dh, first + drop + j);
    }
  }

  lemma FoldStep(p: Primitives, secret: Bytes, dhs: seq<Bytes>, dh: Bytes)
    ensures RootAt(p, secret, dhs + [dh], |dhs| + 1) == NextRoot(p, RootAt(p, secret, dhs, |dhs|), dh)
  {
    assert dhs[..|dhs|] == dhs;
    assert (dhs + [dh])[..|dhs| + 1] == dhs + [dh];
  }

  lemma AllEpochsRight(p: Primitives, secret: Bytes, dhs: seq<Bytes>, a: Party)
    requires WindowHolds(p, secret, dhs, a)
    ensures KeptRight(p, secret, dhs, Oldest(a), Epochs(a))
  {
  }

  lemma NewEpochKeepsWindow(p: Primitives, secret: Bytes, dhs: seq<Bytes>, a: Party, dh: Bytes, b: Party)
    requires WindowHolds(p, secret, dhs, a)
    requires b.previous == LastTen(Epochs(a)) && b.index == a.index + 1
    requires b.root == NextRoot(p, a.root, dh)
    requires b.current.chain == NewChain(b.root) && |b.current.foreign| > 0
    ensures WindowHolds(p, secret, dhs + [dh], b)
  {
    var es := Epochs(a);
    var drop := |es| - |LastTen(es)|;
    AllEpochsRight(p, secret, dhs, a);
    KeptRightSlides(p, secret, dhs, dh, Oldest(a), es, drop);
    assert b.previous == es[drop..];
    FoldStep(p, secret, dhs, dh);
    NewChainCoherent(p, b.root);
  }

  lemma CycleKeepsWindow(p: Primitives, secret: Bytes, dhs: seq<Bytes>, a: Party, foreign: Option<Bytes>, dh: Bytes)
    requires WindowHolds(p, secret, dhs, a)
    requires foreign.Some? ==> |foreign.value| > 0
    requires SharedSecret(p, a.keys, if foreign.None? then a.current.foreign else foreign.value) == Some(dh)
    ensures WindowHolds(p, secret, dhs + [dh], Cycle(p, a, foreign))
    ensures Cycle(p, a, foreign).previous == LastTen(Epochs(a))
  {
    NewEpochKeepsWindow(p, secret, dhs, a, dh, Cycle(p, a, foreign));
  }

  lemma UpdateKeepsWindow(p: Primitives, secret: Bytes, dhs: seq<Bytes>, a: Party, b: Party)
    requires WindowHolds(p, secret, dhs, a) && CoherentParty(p, b)
    requires b.index == a.index && b.root == a.root && |b.previous| == |a.previous|
    requires b.current.foreign == a.current.foreign && b.current.chain.root == a.current.chain.root
    requires forall j | 0 <= j < |a.previous| ::
      b.previous[j].foreign == a.previous[j].foreign && b.previous[j].chain.root == a.previous[j].chain.root
    ensures WindowHolds(p, secret, dhs, b)
  {
  }

  // ---------- Every run of one party ----------

  datatype Action = Encrypting(newKeys: KeyPair) | Decrypting(m: Envelope)

  function Acted(p: Primitives, a: Party, act: Action): Party {
    match act
    case Encrypting(k) => AfterEncrypt(p, a, k)
    case Decrypting(m) => AfterDecrypt(p, a, m)
  }

  /** The exchange an action performs, if it starts a new epoch. */
  function Exchange(p: Primitives, a: Party, act: Action): Option<Option<Bytes>> {
    match act
    case Encrypting(k) => if a.role == Receiving then Some(SharedSecret(p, k, a.current.foreign)) else None
    case Decrypting(m) => if Locate(a, m.publicKey).Unknown? then Some(SharedSecret(p, a.keys, m.publicKey)) else None
  }

  /** The exchange succeeds, and received public keys are not empty. */
  predicate Succeeds(p: Primitives, a: Party, act: Action) {
    && Exchange(p, a, act) != Some(None)
    && (act.Decrypting? ==> |act.m.publicKey| > 0)
  }

  function DhsAfter(p: Primitives, a: Party, act: Action, dhs: seq<Bytes>): seq<Bytes>
    requires Succeeds(p, a, act)
  {
    match Exchange(p, a, act)
    case None => dhs
    case Some(dh) => dhs + [dh.value]
  }

  lemma ActionKeepsWindow(p: Primitives, secret: Bytes, dhs: seq<Bytes>, a: Party, act: Action)
    requires WindowHolds(p, secret, dhs, a) && Succeeds(p, a, act)
    ensures WindowHolds(p, secret, DhsAfter(p, a, act, dhs), Acted(p, a, act))
  {
    var dhs' := DhsAfter(p, a, act, dhs);
    match act {
      case Encrypting(k) =>
        var b := Prepared(p, a, k);
        if a.role == Receiving {
          var c := a.(role := Sending, keys := k);
          UpdateKeepsWindow(p, secret, dhs, a, c);
          CycleKeepsWindow(p, secret, dhs, c, None, SharedSecret(p, k, a.current.foreign).value);
        }
        SentCoherent(p, b.current.chain);
        UpdateKeepsWindow(p, secret, dhs', b, AfterEncrypt(p, a, k));
      case Decrypting(m) =>
        match Locate(a, m.publicKey) {
          case Current =>
            ReceiveCurrentCoherent(p, a, m.wire.index);
            UpdateKeepsWindow(p, secret, dhs, a, ReceiveCurrent(p, a, m.wire.index));
          case Kept(j) =>
            ReceiveKeptCoherent(p, a, j, m.wire.index);
            UpdateKeepsWindow(p, secret, dhs, a, ReceiveKept(p, a, j, m.wire.index));
          case Unknown =>
            var b := Cycle(p, a, Some(m.publicKey));
            CycleKeepsWindow(p, secret, dhs, a, Some(m.publicKey), SharedSecret(p, a.keys, m.publicKey).value);
            UpdateKeepsWindow(p, secret, dhs', b, b.(role := Receiving));
            ReceiveCurrentCoherent(p, b.(role := Receiving), m.wire.index);
            UpdateKeepsWindow(p, secret, dhs', b.(role := Receiving), AfterDecrypt(p, a, m));
        }
    }
  }

  lemma ReachedInWindow(a: Party, b: Party, k: int)
    requires Oldest(b) <= k <= a.index
    requires b.previous == LastTen(Epochs(a)) && b.index == a.index + 1
    ensures Oldest(a) <= k && Reached(b, k) == Reached(a, k)
  {
    assert Epochs(b)[k - Oldest(b)] == Epochs(a)[k - Oldest(a)];
  }

  lemma ReachedInPlace(a: Party, b: Party, k: int)
    requires Oldest(a) <= k <= a.index && b.index == a.index && |b.previous| == |a.previous|
    requires forall j | 0 <= j < |a.previous| :: b.previous[j].chain.previousIndex == a.previous[j].chain.previousIndex
    requires b.current.chain.previousIndex >= a.current.chain.previousIndex
    ensures Reached(b, k) >= Reached(a, k)
    ensures k < a.index ==> Reached(b, k) == Reached(a, k)
  {
  }

  /** What an epoch has reached never falls, and no longer changes once it has retired. */
  lemma {:induction false} ReachedGrows(p: Primitives, secret: Bytes, dhs: seq<Bytes>, a: Party, act: Action, k: int)
    requires WindowHolds(p, secret, dhs, a) && Succeeds(p, a, act)
    requires Oldest(Acted(p, a, act)) <= k <= a.index
    ensures Oldest(a) <= k && Reached(Acted(p, a, act), k) >= Reached(a, k)
    ensures k < a.index ==> Reached(Acted(p, a, act), k) == Reached(a, k)
  {
    assert |a.current.foreign| > 0;
    hide WindowHolds;
    hide NextRoot;
    hide RootMaterial;
    hide Reached;
    match act {
      case Encrypting(keys) =>
        var b := Prepared(p, a, keys);
        if a.role == Receiving {
          ReachedInWindow(a, b, k);
        }
        ReachedInPlace(b, AfterEncrypt(p, a, keys), k);
      case Decrypting(m) =>
        match Locate(a, m.publicKey) {
          case Current => ReachedInPlace(a, AfterDecrypt(p, a, m), k);
          case Kept(j) => ReachedInPlace(a, AfterDecrypt(p, a, m), k);
          case Unknown =>
            var b := Followed(p, a, m.publicKey);
            ReachedInWindow(a, b, k);
            ReachedInPlace(b, AfterDecrypt(p, a, m), k);
        }
    }
  }

  lemma LastTenSnoc<T>(xs: seq<T>, x: T)
    ensures var kept := LastTen(xs + [x]);
      && |kept| == (if |xs| < 10 then |xs| + 1 else 10)
      && kept[|kept| - 1] == x
      && forall j | 0 <= j < |kept| - 1 :: kept[j] == xs[|xs| + 1 - |kept| + j]
  {
  }

  /** An epoch is retired exactly if it has a foreign key; the window then keeps the last ten epochs. */
  lemma RetiredExact(p: Primitives, a: Party, foreign: Option<Bytes>)
    ensures var kept := Cycle(p, a, foreign).previous;
      if |a.current.foreign| == 0 then kept == a.previous
      else |kept| == (if |a.previous| < 10 then |a.previous| + 1 else 10)
           && kept[|kept| - 1] == a.current
           && forall j | 0 <= j < |kept| - 1 :: kept[j] == a.previous[|a.previous| + 1 - |kept| + j]
  {
    hide NextRoot;
    hide RootMaterial;
    hide LastTen;
    LastTenSnoc(a.previous, a.current);
    assert Cycle(p, a, foreign).previous == Window(a);
    hide Cycle;
  }

  // ---------- The failed exchange ----------

  /** After a failed exchange the newest kept epoch repeats the current one. */
  lemma {:induction false} FailureRepeatsEpoch(p: Primitives, secret: Bytes, dhs: seq<Bytes>, a: Party, act: Action)
    requires WindowHolds(p, secret, dhs, a) && Exchange(p, a, act) == Some(None)
    ensures var b := Acted(p, a, act);
      && b.index == a.index && |b.previous| > 0
      && |b.previous| == (if a.index < PREV_RATCHET_LIMIT then a.index + 1 else PREV_RATCHET_LIMIT)
      && b.previous[|b.previous| - 1].foreign == b.current.foreign
      && b.previous[|b.previous| - 1].chain.root == b.current.chain.root
  {
    hide NextRoot;
    hide RootMaterial;
    hide Fold;
  }

  /** So while the window is not full, it holds after an action exactly if the action's exchange did not fail. */
  lemma {:induction false} WindowExact(p: Primitives, secret: Bytes, dhs: seq<Bytes>, a: Party, act: Action)
    requires WindowHolds(p, secret, dhs, a) && a.index < PREV_RATCHET_LIMIT
    requires act.Decrypting? ==> |act.m.publicKey| > 0
    ensures (exists secret', dhs' :: WindowHolds(p, secret', dhs', Acted(p, a, act))) <==>
      Exchange(p, a, act) != Some(None)
  {
    if Exchange(p, a, act) == Some(None) {
      FailureRepeatsEpoch(p, secret, dhs, a, act);
      hide Acted;
      hide Exchange;
      forall secret', dhs'
        ensures !WindowHolds(p, secret', dhs', Acted(p, a, act))
      {
      }
    } else {
      ActionKeepsWindow(p, secret, dhs, a, act);
    }
  }

  /** A full window survives a failed exchange only if its root key is one that derivation leaves as it is. */
  lemma {:induction false} FullWindowFailure(p: Primitives, secret: Bytes, dhs: seq<Bytes>, a: Party, act: Action,
                                             secret': Bytes, dhs': seq<Bytes>)
    requires WindowHolds(p, secret, dhs, a) && a.index >= PREV_RATCHET_LIMIT && Exchange(p, a, act) == Some(None)
    requires WindowHolds(p, secret', dhs', Acted(p, a, act))
    ensures exists dh :: NextRoot(p, a.root, dh) == a.root
  {
    var b, n := Acted(p, a, act), |dhs'|;
    FailureRepeatsEpoch(p, secret, dhs, a, act);
    assert b.root == a.root == a.current.chain.root == b.current.chain.root by {
      hide NextRoot;
      hide Fold;
    }
    hide Acted;
    hide Exchange;
    assert b.previous[|b.previous| - 1].chain.root == RootAt(p, secret', dhs', n - 1);
    var before, dh := dhs'[..n - 1], dhs'[n - 1];
    assert dhs' == before + [dh] && before[..n - 1] == before;
    FoldStep(p, secret', before, dh);
    assert NextRoot(p, a.root, dh) == a.root;
  }

  /** A run from `a` to `b` in which every exchange succeeds, with the Diffie-Hellman outputs it used. */
  ghost predicate Reaches(p: Primitives, a: Party, acts: seq<Action>, dhs: seq<Bytes>, b: Party)
    decreases |acts|, 1
  {
    if acts == [] then dhs == [] && b == a else exists m, ds :: Extends(p, a, acts, ds, m, dhs, b)
  }

  /** The run but for its last action reaches `m` with outputs `ds`, and that action leads on to `b`. */
  ghost predicate Extends(p: Primitives, a: Party, acts: seq<Action>, ds: seq<Bytes>, m: Party, dhs: seq<Bytes>,
                          b: Party)
    requires acts != []
    decreases |acts|, 0
  {
    var act := acts[|acts| - 1];
    && Reaches(p, a, acts[..|acts| - 1], ds, m)
    && Succeeds(p, m, act) && b == Acted(p, m, act) && dhs == DhsAfter(p, m, act, ds)
  }

  /** The window invariant holds after every run. */
  lemma {:induction false} WindowOverRuns(p: Primitives, keys: KeyPair, foreign: Bytes, role: Role,
                                         acts: seq<Action>, dhs: seq<Bytes>, b: Party)
    requires |foreign| > 0 && NewParty(p, keys, foreign, role).Some?
    requires Reaches(p, NewParty(p, keys, foreign, role).value, acts, dhs, b)
    ensures WindowHolds(p, SharedSecret(p, keys, foreign).value, dhs, b)
    decreases |acts|
  {
    if acts == [] {
    } else {
      var m, ds :| Extends(p, NewParty(p, keys, foreign, role).value, acts, ds, m, dhs, b);
      WindowOverRuns(p, keys, foreign, role, acts[..|acts| - 1], ds, m);
      ActionKeepsWindow(p, SharedSecret(p, keys, foreign).value, ds, m, acts[|acts| - 1]);
    }
  }

  lemma {:induction false} OpeningRoot(p: Primitives, secret: Bytes, dhs: seq<Bytes>, a: Party, m: Envelope)
    returns (k: nat)
    requires WindowHolds(p, secret, dhs, a) && Succeeds(p, a, Decrypting(m))
    ensures var dhs' := DhsAfter(p, a, Decrypting(m), dhs);
      k <= |dhs'| && Opening(p, a, m.publicKey).root == RootAt(p, secret, dhs', k)
  {
    hide NextRoot;
    match Locate(a, m.publicKey) {
      case Current => k := |dhs|;
      case Kept(j) => k := a.index - |a.previous| + j;
      case Unknown =>
        k := |dhs| + 1;
        FoldStep(p, secret, dhs, SharedSecret(p, a.keys, m.publicKey).value);
    }
  }

  /**
   Whatever a party has been sent before, it reads x from a message exactly if the index is not
   refused and the body is x sealed under the key of that index in one of its own epochs. Anything
   altered, forged or sealed for another epoch gives an error.
   */
  lemma {:induction false} ReadExact(p: Primitives, keys: KeyPair, foreign: Bytes, role: Role, acts: seq<Action>,
                                     dhs: seq<Bytes>, b: Party, m: Envelope, x: Bytes) returns (k: nat)
    requires |foreign| > 0 && NewParty(p, keys, foreign, role).Some?
    requires Reaches(p, NewParty(p, keys, foreign, role).value, acts, dhs, b)
    requires Succeeds(p, b, Decrypting(m))
    ensures var dhs', secret := DhsAfter(p, b, Decrypting(m), dhs), SharedSecret(p, keys, foreign).value;
      && k <= |dhs'|
      && (Outcome(p, b, m) == Ok(x) <==>
            Refuses(Opening(p, b, m.publicKey), m.wire.index).None? && m.wire.index >= 0
            && SealedUnder(p, MessageKey(p, RootAt(p, secret, dhs', k), m.wire.index), m.wire.body, x))
  {
    hide Reaches;
    hide Outcome;
    hide Opening;
    hide Succeeds;
    hide DhsAfter;
    hide SealedUnder;
    hide MessageKey;
    hide Refuses;
    WindowOverRuns(p, keys, foreign, role, acts, dhs, b);
    k := OpeningRoot(p, SharedSecret(p, keys, foreign).value, dhs, b, m);
    OutcomeExact(p, b, m, x);
  }
}
