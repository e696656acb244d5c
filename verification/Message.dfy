/**
 Message.Encrypt and Message.Decrypt (client/internal/contact/message/message.go) over the
 mutable ratchets.
 */
module Messages {
  import opened Basics
  import opened Crypto
  import opened Chain
  import opened Parties
  import opened Ratchet
  import opened DHRatchets
  import opened Windows

  /** A change to the current ratchet alone shows only there. */
  twostate lemma OnlyCurrent(r: DHRatchet)
    requires unchanged(r) && r.currentMRatchet.foreignPublicKey == old(r.currentMRatchet.foreignPublicKey)
    requires forall k | k in Stores(r.previousMRatchets) :: old(allocated(k)) && unchanged(k)
    ensures r.View() == old(r.View()).(current := Epoch(r.currentMRatchet.foreignPublicKey, r.currentMRatchet.View()))
  {
    assert RecordsView(r.previousMRatchets) == old(RecordsView(r.previousMRatchets));
  }

  /** A change to one retired ratchet's map shows only in that epoch's stored keys. */
  twostate lemma OnlyKept(r: DHRatchet, new j: nat)
    requires unchanged(r) && r.currentMRatchet.foreignPublicKey == old(r.currentMRatchet.foreignPublicKey)
    requires r.currentMRatchet.View() == old(r.currentMRatchet.View())
    requires j < |r.previousMRatchets| && Separate(r.previousMRatchets)
    requires forall i | 0 <= i < |r.previousMRatchets| :: old(allocated(r.previousMRatchets[i].skippedMessageKeys))
    requires forall i | 0 <= i < |r.previousMRatchets| && i != j :: unchanged(r.previousMRatchets[i].skippedMessageKeys)
    ensures var e := old(r.View()).previous[j];
      r.View() == old(r.View()).(previous := old(r.View()).previous[j :=
        e.(chain := e.chain.(skipped := r.previousMRatchets[j].skippedMessageKeys.keys))])
  {
    var e := old(r.View()).previous[j];
    assert RecordsView(r.previousMRatchets) == old(RecordsView(r.previousMRatchets))[j :=
        e.(chain := e.chain.(skipped := r.previousMRatchets[j].skippedMessageKeys.keys))];
  }

  /** When the newest retired copy shares the current map, a change to that map shows in both. */
  twostate lemma CurrentAndLast(r: DHRatchet)
    requires unchanged(r) && r.currentMRatchet.foreignPublicKey == old(r.currentMRatchet.foreignPublicKey)
    requires r.SharesLast()
    requires forall i | 0 <= i < |r.previousMRatchets| - 1 ::
      old(allocated(r.previousMRatchets[i].skippedMessageKeys)) && unchanged(r.previousMRatchets[i].skippedMessageKeys)
    requires old(allocated(r.currentMRatchet.skippedMessageKeys))
    ensures var j := |r.previousMRatchets| - 1;
      var e := old(r.View()).previous[j];
      r.View() == old(r.View()).(
        current := Epoch(r.currentMRatchet.foreignPublicKey, r.currentMRatchet.View()),
        previous := old(r.View()).previous[j :=
          e.(chain := e.chain.(skipped := r.currentMRatchet.skippedMessageKeys.keys))])
  {
    var j := |r.previousMRatchets| - 1;
    var e := old(r.View()).previous[j];
    assert RecordsView(r.previousMRatchets) == old(RecordsView(r.previousMRatchets))[j :=
        e.(chain := e.chain.(skipped := r.currentMRatchet.skippedMessageKeys.keys))];
  }

  class Message {
    var publicKey: Bytes
    var index: int
    var encryptedMessage: Bytes
    var plainMessage: Bytes
    var hash: Bytes

    ghost function View(): Envelope
      reads this
    {
      Envelope(publicKey, Wire(index, Sealed(encryptedMessage, hash)))
    }

    constructor (plainMessage: Bytes)
      ensures this.plainMessage == plainMessage
    {
      this.plainMessage := plainMessage;
      publicKey, index, encryptedMessage, hash := [], 0, [], Zeros(32);
    }

    /** The first part of Encrypt: a ratchet last used for receiving enters a new epoch. */
    static method Prepare(p: Primitives, r: DHRatchet, newKeys: KeyPair)
      requires r.Valid(p)
      modifies r
      ensures r.View() == Prepared(p, old(r.View()), newKeys)
      ensures CoherentParty(p, r.View())
      ensures Exchange(p, old(r.View()), Encrypting(newKeys)) != Some(None) ==> r.Valid(p)
      ensures r.currentMRatchet == old(r.currentMRatchet) || fresh(r.currentMRatchet)
    {
      hide CoherentParty;
      hide RecordsView;
      hide Separate;
      if r.state == Receiving {
        r.state := Sending;
        r.keyPair := newKeys;
        assert r.Valid(p) by { SameChainsCoherent(p, old(r.View()), r.View()); }
        r.RKCycle(p, None);
      }
    }

    /** `newKeys` is the key pair that GenerateKeyPair would return, `nonce` the random nonce. */
    method Encrypt(p: Primitives, r: DHRatchet, newKeys: KeyPair, nonce: Bytes)
      requires r.Valid(p)
      modifies this`publicKey, this`index, this`encryptedMessage, this`hash
      modifies r, r.currentMRatchet
      ensures r.View() == AfterEncrypt(p, old(r.View()), newKeys)
      ensures View() == Encrypted(p, old(r.View()), newKeys, plainMessage, nonce)
      ensures Exchange(p, old(r.View()), Encrypting(newKeys)) != Some(None) ==> r.Valid(p)
    {
      hide CoherentParty;
      hide RecordsView;
      hide Separate;
      hide Prepared;
      AfterEncryptCoherent(p, r.View(), newKeys);
      Prepare(p, r, newKeys);
      label cycled:
      assert r.currentMRatchet.Valid(p) by { CurrentCoherent(p, r.View()); }
      var encrypted, mac, idx := r.currentMRatchet.Encrypt(p, plainMessage, nonce);
      OnlyCurrent@cycled(r);
      encryptedMessage, hash, index := encrypted, mac, idx;
      publicKey := r.keyPair.publicKey;
    }

    /** The plaintext is stored only on success. */
    method Settle(r: Result<Bytes, Failure>) returns (err: Option<Failure>)
      modifies this`plainMessage
      ensures err == (if r.Ok? then None else Some(r.error))
      ensures plainMessage == if r.Ok? then r.value else old(plainMessage)
    {
      if r.Ok? {
        plainMessage := r.value;
        return None;
      }
      err := Some(r.error);
    }

    /** Decrypt with the current ratchet; after a failed exchange its newest retired copy changes with it. */
    method DecryptCurrent(p: Primitives, r: DHRatchet) returns (outcome: Result<Bytes, Failure>)
      requires CoherentParty(p, r.View())
      requires r.Valid(p) || (r.SharesLast() && r.View().previous[|r.View().previous| - 1] == r.View().current)
      modifies r.currentMRatchet, r.currentMRatchet.skippedMessageKeys
      ensures var b := ReceiveCurrent(p, old(r.View()), index);
        && CoherentParty(p, b)
        && r.View() == (if old(r.SharesLast()) then ReceiveKept(p, b, |b.previous| - 1, index) else b)
      ensures old(r.Valid(p)) ==> r.Valid(p)
      ensures outcome == Receipt(p, old(r.View()).current.chain, index, Sealed(encryptedMessage, hash))
    {
      hide CoherentParty;
      hide RecordsView;
      hide Receipt;
      hide Received;
      CurrentCoherent(p, r.View());
      ReceiveCurrentCoherent(p, r.View(), index);
      outcome := r.currentMRatchet.Decrypt(p, encryptedMessage, hash, index);
      if r.SharesLast() {
        CurrentAndLast(r);
      } else {
        OnlyCurrent(r);
      }
    }

    method DecryptKept(p: Primitives, r: DHRatchet, prevRatchet: MessageRatchet, ghost j: nat)
      returns (outcome: Result<Bytes, Failure>)
      requires r.Valid(p)
      requires j < |r.previousMRatchets|
      requires prevRatchet.skippedMessageKeys == r.previousMRatchets[j].skippedMessageKeys
      requires prevRatchet != r.currentMRatchet
      requires prevRatchet.View() == r.View().previous[j].chain
      modifies prevRatchet, prevRatchet.skippedMessageKeys
      ensures r.View() == ReceiveKept(p, old(r.View()), j, index) && r.Valid(p)
      ensures outcome == Receipt(p, old(r.View()).previous[j].chain, index, Sealed(encryptedMessage, hash))
    {
      hide CoherentParty;
      hide RecordsView;
      KeptCoherent(p, r.View(), j);
      ReceiveKeptCoherent(p, r.View(), j, index);
      outcome := prevRatchet.Decrypt(p, encryptedMessage, hash, index);
      OnlyKept(r, j);
    }

    /** The last part of Decrypt: an unknown public key starts a new receiving epoch. */
    static method Follow(p: Primitives, r: DHRatchet, publicKey: Bytes)
      requires r.Valid(p)
      modifies r
      ensures r.View() == Followed(p, old(r.View()), publicKey) && CoherentParty(p, r.View())
      ensures if Shares(p, old(r.View()), publicKey)
              then r.SharesLast() && r.View().previous[|r.View().previous| - 1] == r.View().current
              else r.Valid(p)
      ensures r.currentMRatchet == old(r.currentMRatchet)
        || (fresh(r.currentMRatchet) && fresh(r.currentMRatchet.skippedMessageKeys))
    {
      hide CoherentParty;
      hide RecordsView;
      hide Separate;
      FollowedCoherent(p, r.View(), publicKey);
      r.RKCycle(p, Some(publicKey));
      r.state := Receiving;
    }

    method DecryptUnknown(p: Primitives, r: DHRatchet) returns (outcome: Result<Bytes, Failure>)
      requires r.Valid(p) && Locate(r.View(), publicKey) == Unknown
      modifies r, r.currentMRatchet, r.currentMRatchet.skippedMessageKeys
      ensures r.View() == AfterDecrypt(p, old(r.View()), View())
      ensures outcome == Outcome(p, old(r.View()), View())
      ensures !Shares(p, old(r.View()), publicKey) ==> r.Valid(p)
    {
      hide CoherentParty;
      hide RecordsView;
      hide Separate;
      hide Receipt;
      hide ReceiveCurrent;
      hide ReceiveKept;
      hide Followed;
      hide Shares;
      Follow(p, r, publicKey);
      outcome := DecryptCurrent(p, r);
    }

    /** The part of Decrypt for a key that is not the current one. */
    method DecryptElsewhere(p: Primitives, r: DHRatchet) returns (outcome: Result<Bytes, Failure>)
      requires r.Valid(p) && Locate(r.View(), publicKey) != Current
      modifies r, r.currentMRatchet, r.currentMRatchet.skippedMessageKeys, Stores(r.previousMRatchets)
      ensures r.View() == AfterDecrypt(p, old(r.View()), View())
      ensures outcome == Outcome(p, old(r.View()), View())
      ensures !(Locate(old(r.View()), publicKey) == Unknown && Shares(p, old(r.View()), publicKey)) ==> r.Valid(p)
    {
      hide CoherentParty;
      hide RecordsView;
      hide Separate;
      hide Receipt;
      hide ReceiveKept;
      var prevRatchet := r.GetPrevRatchet(publicKey);
      if prevRatchet != null {
        outcome := DecryptKept(p, r, prevRatchet, FirstMatch(r.View().previous, publicKey).value);
      } else {
        outcome := DecryptUnknown(p, r);
      }
    }

    /**
     The second test of the current key in the source is always true here, so its final error
     return is never reached.
     */
    method Decrypt(p: Primitives, r: DHRatchet) returns (err: Option<Failure>)
      requires r.Valid(p)
      modifies this`plainMessage
      modifies r, r.currentMRatchet, r.currentMRatchet.skippedMessageKeys, Stores(r.previousMRatchets)
      ensures r.View() == AfterDecrypt(p, old(r.View()), View())
      ensures var outcome := Outcome(p, old(r.View()), View());
        && err == (if outcome.Ok? then None else Some(outcome.error))
        && plainMessage == (if outcome.Ok? then outcome.value else old(plainMessage))
      ensures Exchange(p, old(r.View()), Decrypting(View())) != Some(None) ==> r.Valid(p)
    {
      hide CoherentParty;
      hide RecordsView;
      hide Separate;
      hide Receipt;
      hide ReceiveCurrent;
      hide ReceiveKept;
      hide Followed;
      var outcome;
      var isCurrent := r.IsCurrentRatchet(publicKey);
      if isCurrent {
        outcome := DecryptCurrent(p, r);
        assert !old(r.SharesLast());
      } else {
        outcome := DecryptElsewhere(p, r);
      }
      err := Settle(outcome);
    }
  }
}
