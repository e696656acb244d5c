/**
 The mutable Diffie-Hellman ratchet (client/internal/contact/ratchet/dhratchet.go), proved to
 perform the transitions of Party.dfy. Retired ratchets are struct copies that still share the
 skipped-key map of the ratchet they were copied from.
 */
module DHRatchets {
  import opened Basics
  import opened Crypto
  import opened Chain
  import opened Parties
  import opened Ratchet

  /** A retired MessageRatchet, stored by value; the skipped-key map is a reference. */
  datatype RatchetRecord = RatchetRecord(
    foreignPublicKey: Bytes,
    rootKey: Bytes,
    chainKey: Option<Bytes>,
    skippedMessageKeys: KeyStore,
    maxSkip: int,
    previousIndex: LastIndex)

  ghost function RecordView(r: RatchetRecord): Epoch
    reads r.skippedMessageKeys
  {
    Epoch(r.foreignPublicKey, Chain(r.rootKey, r.chainKey, r.skippedMessageKeys.keys, r.maxSkip, r.previousIndex))
  }

  ghost function Stores(rs: seq<RatchetRecord>): set<KeyStore> {
    set i | 0 <= i < |rs| :: rs[i].skippedMessageKeys
  }

  ghost function RecordsView(rs: seq<RatchetRecord>): (es: seq<Epoch>)
    reads Stores(rs)
    ensures |es| == |rs| && forall i | 0 <= i < |rs| :: es[i] == RecordView(rs[i])
  {
    seq(|rs|, i requires 0 <= i < |rs| reads Stores(rs) => RecordView(rs[i]))
  }

  /** No two retired ratchets share a map. */
  ghost predicate Separate(rs: seq<RatchetRecord>) {
    forall i, j | 0 <= i < j < |rs| :: rs[i].skippedMessageKeys != rs[j].skippedMessageKeys
  }

  lemma LastTenIs<T>(xs: seq<T>)
    ensures LastTen(xs) == if |xs| > PREV_RATCHET_LIMIT then xs[|xs| - PREV_RATCHET_LIMIT..] else xs
  {
  }

  lemma RecordsViewKept(rs: seq<RatchetRecord>, r: RatchetRecord)
    ensures RecordsView(LastTen(rs + [r])) == LastTen(RecordsView(rs) + [RecordView(r)])
  {
  }

  lemma StoresKept(rs: seq<RatchetRecord>, r: RatchetRecord)
    ensures Stores(LastTen(rs + [r])) <= Stores(rs) + {r.skippedMessageKeys}
  {
    var kept := LastTen(rs + [r]);
    forall i | 0 <= i < |kept|
      ensures kept[i] == r || kept[i] in rs
    {
      assert kept[i] == (rs + [r])[|rs| + 1 - |kept| + i];
    }
  }

  lemma SeparateKept(rs: seq<RatchetRecord>, r: RatchetRecord)
    requires Separate(rs) && r.skippedMessageKeys !in Stores(rs)
    ensures Separate(LastTen(rs + [r]))
  {
    assert Separate(rs + [r]);
  }

  /** What retiring one more ratchet keeps. */
  lemma RecordsKept(rs: seq<RatchetRecord>, r: RatchetRecord)
    ensures RecordsView(LastTen(rs + [r])) == LastTen(RecordsView(rs) + [RecordView(r)])
    ensures Stores(LastTen(rs + [r])) <= Stores(rs) + {r.skippedMessageKeys}
    ensures Separate(rs) && r.skippedMessageKeys !in Stores(rs) ==> Separate(LastTen(rs + [r]))
    ensures |LastTen(rs + [r])| > 0 && LastTen(rs + [r])[|LastTen(rs + [r])| - 1] == r
  {
    RecordsViewKept(rs, r);
    StoresKept(rs, r);
    hide RecordsView;
    hide Stores;
    hide Separate;
    if Separate(rs) && r.skippedMessageKeys !in Stores(rs) {
      SeparateKept(rs, r);
    }
  }

  class DHRatchet {
    var keyPair: KeyPair
    var rootKey: Bytes
    var childKey: Bytes
    var currentMRatchet: MessageRatchet
    var previousMRatchets: seq<RatchetRecord>
    var ratchetIndex: nat
    var state: Role

    ghost function View(): Party
      reads this, currentMRatchet, currentMRatchet.skippedMessageKeys, Stores(previousMRatchets)
    {
      Party(keyPair, rootKey, childKey, Epoch(currentMRatchet.foreignPublicKey, currentMRatchet.View()),
            RecordsView(previousMRatchets), ratchetIndex, state)
    }

    /** Every chain is coherent and every skipped-key map has one owner. */
    ghost predicate Valid(p: Primitives)
      reads this, currentMRatchet, currentMRatchet.skippedMessageKeys, Stores(previousMRatchets)
    {
      && CoherentParty(p, View())
      && Separate(previousMRatchets)
      && currentMRatchet.skippedMessageKeys !in Stores(previousMRatchets)
    }

    /** After a failed exchange the newest retired copy shares the current ratchet's map. */
    ghost predicate SharesLast()
      reads this
    {
      && Separate(previousMRatchets) && |previousMRatchets| > 0
      && currentMRatchet.skippedMessageKeys == previousMRatchets[|previousMRatchets| - 1].skippedMessageKeys
    }

    constructor (p: Primitives, keyPair: KeyPair, foreignPublicKey: Bytes, initState: Role, rootKey: Bytes)
      requires SharedSecret(p, keyPair, foreignPublicKey) == Some(rootKey)
      ensures Valid(p) && NewParty(p, keyPair, foreignPublicKey, initState) == Some(View())
      ensures fresh(currentMRatchet) && fresh(currentMRatchet.skippedMessageKeys)
    {
      this.keyPair := keyPair;
      this.rootKey := rootKey;
      childKey := [];
      currentMRatchet := new MessageRatchet(p, rootKey, foreignPublicKey);
      previousMRatchets := [];
      ratchetIndex := 0;
      state := initState;
    }

    /** NewDHRatchet; null stands for the end of the program after a failed exchange. */
    static method NewDHRatchet(p: Primitives, keyPair: KeyPair, foreignPublicKey: Bytes, initState: Role)
      returns (r: DHRatchet?)
      ensures r == null <==> NewParty(p, keyPair, foreignPublicKey, initState).None?
      ensures r != null ==>
        fresh(r) && r.Valid(p) && NewParty(p, keyPair, foreignPublicKey, initState) == Some(r.View())
    {
      var rootKey := SharedSecret(p, keyPair, foreignPublicKey);
      if rootKey.None? {
        return null;
      }
      r := new DHRatchet(p, keyPair, foreignPublicKey, initState, rootKey.value);
    }

    /** The first half of RKCycle: keep a copy of the current ratchet in the bounded window. */
    method Retire(p: Primitives)
      requires Valid(p)
      modifies this`previousMRatchets
      ensures View() == old(View()).(previous := Window(old(View())))
      ensures CoherentParty(p, View())
      ensures if |currentMRatchet.foreignPublicKey| > 0 then SharesLast() else Valid(p)
      ensures Stores(previousMRatchets) <= old(Stores(previousMRatchets)) + {currentMRatchet.skippedMessageKeys}
    {
      hide CoherentParty;
      hide RecordsView;
      hide Separate;
      hide LastTen;
      hide Stores;
      WindowCoherent(p, View());
      if |currentMRatchet.foreignPublicKey| > 0 {
        var record := RatchetRecord(currentMRatchet.foreignPublicKey, currentMRatchet.rootKey, currentMRatchet.chainKey,
                                    currentMRatchet.skippedMessageKeys, currentMRatchet.maxSkip,
                                    currentMRatchet.previousIndex);
        var kept := previousMRatchets + [record];
        if |kept| > PREV_RATCHET_LIMIT {
          kept := kept[|kept| - PREV_RATCHET_LIMIT..];
        }
        assert kept == LastTen(previousMRatchets + [record]) by { LastTenIs(previousMRatchets + [record]); }
        RecordsKept(previousMRatchets, record);
        assert RecordsView(kept) == Window(View());
        previousMRatchets := kept;
      }
    }

    /** The second half of RKCycle: derive the next root key and start a new message ratchet. */
    method EnterEpoch(p: Primitives, foreign: Bytes, dhKey: Bytes)
      modifies this`rootKey, this`childKey, this`currentMRatchet, this`ratchetIndex
      ensures var a := old(View());
        View() == a.(root := NextRoot(p, a.root, dhKey), child := RootMaterial(p, a.root, dhKey)[KEY_LENGTH..],
                     current := Epoch(foreign, NewChain(NextRoot(p, a.root, dhKey))), index := a.index + 1)
      ensures fresh(currentMRatchet) && fresh(currentMRatchet.skippedMessageKeys)
    {
      hide RecordsView;
      ghost var kept := RecordsView(previousMRatchets);
      var keyMaterial := RunDerive(p, rootKey, Some(dhKey), RATCHET_INFO, 2 * KEY_LENGTH);
      rootKey := keyMaterial.value[..KEY_LENGTH];
      childKey := keyMaterial.value[KEY_LENGTH..];
      currentMRatchet := new MessageRatchet(p, rootKey, foreign);
      ratchetIndex := ratchetIndex + 1;
      assert RecordsView(previousMRatchets) == kept;
    }

    method RKCycle(p: Primitives, foreignPublicKey: Option<Bytes>)
      requires Valid(p)
      modifies this`rootKey, this`childKey, this`currentMRatchet, this`previousMRatchets, this`ratchetIndex
      ensures View() == Cycle(p, old(View()), foreignPublicKey)
      ensures CoherentParty(p, View())
      ensures ratchetIndex > old(ratchetIndex) ==>
        Valid(p) && fresh(currentMRatchet) && fresh(currentMRatchet.skippedMessageKeys)
      ensures ratchetIndex <= old(ratchetIndex) ==> currentMRatchet == old(currentMRatchet)
      ensures ratchetIndex <= old(ratchetIndex) ==>
        if |currentMRatchet.foreignPublicKey| > 0 then SharesLast() else Valid(p)
      ensures Stores(previousMRatchets) <= old(Stores(previousMRatchets)) + {old(currentMRatchet.skippedMessageKeys)}
    {
      hide CoherentParty;
      hide RecordsView;
      hide Separate;
      hide Window;
      hide NextRoot;
      hide RootMaterial;
      CycleCoherent(p, View(), foreignPublicKey);
      var foreign := if foreignPublicKey.None? then currentMRatchet.foreignPublicKey else foreignPublicKey.value;
      Retire(p);
      var dhKey := SharedSecret(p, keyPair, foreign);
      if dhKey.None? {
        return;
      }
      EnterEpoch(p, foreign, dhKey.value);
    }

    method IsCurrentRatchet(publicKey: Bytes) returns (b: bool)
      ensures b <==> View().current.foreign == publicKey
    {
      b := currentMRatchet.foreignPublicKey == publicKey;
    }

    /** A pointer to a copy of the oldest retired ratchet with this key, or null. */
    method GetPrevRatchet(publicKey: Bytes) returns (m: MessageRatchet?)
      ensures m == null <==> FirstMatch(View().previous, publicKey).None?
      ensures m != null ==>
        var j := FirstMatch(View().previous, publicKey).value;
        && fresh(m) && m.skippedMessageKeys == previousMRatchets[j].skippedMessageKeys
        && m.View() == View().previous[j].chain
    {
      var i := 0;
      while i < |previousMRatchets|
        invariant 0 <= i <= |previousMRatchets|
        invariant forall j | 0 <= j < i :: View().previous[j].foreign != publicKey
      {
        var ratchet := previousMRatchets[i];
        if ratchet.foreignPublicKey == publicKey {
          FirstMatchIs(View().previous, publicKey, i);
          m := new MessageRatchet.Copy(ratchet.foreignPublicKey, ratchet.rootKey, ratchet.chainKey,
                                       ratchet.skippedMessageKeys, ratchet.maxSkip, ratchet.previousIndex);
          return;
        }
        i := i + 1;
      }
      m := null;
    }
  }
}
