/**
 The mutable message ratchet (client/internal/contact/ratchet/mratchet.go).

 Each method is proved to perform the transition that Chain.dfy gives in closed form.
 */
module Ratchet {
  import opened Basics
  import opened Crypto
  import opened Chain
  import Hkdf

  /** The Go map of skipped message keys. Copies of a ratchet share it. */
  class KeyStore {
    var keys: map<int, Bytes>

    constructor ()
      ensures keys == map[]
    {
      keys := map[];
    }
  }

  /** HKDF as the code calls it; its error result never occurs. */
  method RunDerive(p: Primitives, input: Bytes, salt: Option<Bytes>, info: Bytes, length: nat)
    returns (r: Result<Bytes, Hkdf.Error>)
    ensures r == Ok(Derive(p, input, salt, info, length)) && |r.value| == length
  {
    r := Hkdf.Derive(p.hmacSha512, input, salt, info, length);
    DeriveIsHkdf(p, input, salt, info, length);
  }

  class MessageRatchet {
    var foreignPublicKey: Bytes
    var rootKey: Bytes
    var chainKey: Option<Bytes>
    const skippedMessageKeys: KeyStore
    var maxSkip: int
    var previousIndex: LastIndex

    ghost function View(): Chain
      reads this, skippedMessageKeys
    {
      Chain(rootKey, chainKey, skippedMessageKeys.keys, maxSkip, previousIndex)
    }

    ghost predicate Valid(p: Primitives)
      reads this, skippedMessageKeys
    {
      Coherent(p, View())
    }

    /** NewMessageRatchet followed by Initialize. */
    constructor (p: Primitives, rootKey: Bytes, foreignPublicKey: Bytes)
      ensures Valid(p) && fresh(skippedMessageKeys)
      ensures View() == NewChain(rootKey) && this.foreignPublicKey == foreignPublicKey
    {
      this.foreignPublicKey := foreignPublicKey;
      this.rootKey := rootKey;
      chainKey := None;
      skippedMessageKeys := new KeyStore();
      maxSkip := MAX_MESSAGE_SKIP;
      previousIndex := -1;
    }

    /** A second ratchet over the same skipped-key map: Go's copy of the struct. */
    constructor Copy(foreignPublicKey: Bytes, rootKey: Bytes, chainKey: Option<Bytes>, store: KeyStore,
                     maxSkip: int, previousIndex: LastIndex)
      ensures this.foreignPublicKey == foreignPublicKey && skippedMessageKeys == store
      ensures View() == Chain(rootKey, chainKey, store.keys, maxSkip, previousIndex)
    {
      this.foreignPublicKey := foreignPublicKey;
      this.rootKey := rootKey;
      this.chainKey := chainKey;
      skippedMessageKeys := store;
      this.maxSkip := maxSkip;
      this.previousIndex := previousIndex;
    }

    /** From the seed of step n, return message key n and leave the seed of step n + 1. */
    method CKCycle(p: Primitives, ghost n: nat) returns (messageKey: Bytes)
      requires chainKey == ChainKeyAfter(p, rootKey, n - 1)
      modifies this`chainKey
      ensures messageKey == MessageKey(p, rootKey, n)
      ensures chainKey == ChainKeyAfter(p, rootKey, n)
    {
      if chainKey.None? {
        var keyMaterial := RunDerive(p, rootKey, None, CHAIN_INFO, 64);
        chainKey := Some(keyMaterial.value[KEY_LENGTH..]);
        return keyMaterial.value[..KEY_LENGTH];
      }
      var keyMaterial := RunDerive(p, chainKey.value, None, CHAIN_INFO, 64);
      messageKey := keyMaterial.value[..KEY_LENGTH];
      chainKey := Some(keyMaterial.value[KEY_LENGTH..]);
    }

    method Encrypt(p: Primitives, plaintext: Bytes, nonce: Bytes)
      returns (ciphertext: Bytes, macHash: Bytes, index: int)
      requires Valid(p)
      modifies this`chainKey, this`previousIndex
      ensures Valid(p) && View() == Sent(p, old(View()))
      ensures Wire(index, Sealed(ciphertext, macHash)) == Outgoing(p, old(View()), plaintext, nonce)
    {
      var messageKey := CKCycle(p, previousIndex + 1);
      var nextIndex := previousIndex + 1;
      var derivedKey := RunDerive(p, messageKey, Some(Zeros(SALT_LENGTH)), [], 2 * KEY_LENGTH);
      var encryptionKey, authenticationKey := derivedKey.value[..KEY_LENGTH], derivedKey.value[KEY_LENGTH..];
      var cipherText := EncryptAES(p, encryptionKey, plaintext, nonce);
      macHash := HmacSha256(p, authenticationKey, nonce + cipherText);
      previousIndex := nextIndex;
      ciphertext, index := nonce + cipherText, nextIndex;
    }

    method DecryptWithKey(p: Primitives, ciphertext: Bytes, macHash: Bytes, messageKey: Bytes)
      returns (r: Result<Bytes, Failure>)
      ensures r == Open(p, messageKey, Sealed(ciphertext, macHash))
    {
      var derivedKey := RunDerive(p, messageKey, Some(Zeros(SALT_LENGTH)), [], 2 * KEY_LENGTH);
      var encryptionKey, authenticationKey := derivedKey.value[..KEY_LENGTH], derivedKey.value[KEY_LENGTH..];
      if |ciphertext| < NONCE_LENGTH {
        return Err(ShortCiphertext);
      }
      var nonce, body := ciphertext[..NONCE_LENGTH], ciphertext[NONCE_LENGTH..];
      assert nonce + body == ciphertext;
      var expectedMac := HmacSha256(p, authenticationKey, nonce + body);
      if expectedMac != macHash {
        return Err(BadMac);
      }
      var plaintext := DecryptAES(p, encryptionKey, body, nonce);
      r := if plaintext.None? then Err(BadCipher) else Ok(plaintext.value);
    }

    /** Store the keys from `previousIndex + 1` up to, not including, `msgIdx`. */
    method SkipTo(p: Primitives, msgIdx: int)
      requires Valid(p) && msgIdx > previousIndex
      modifies this`chainKey, skippedMessageKeys
      ensures chainKey == ChainKeyAfter(p, rootKey, msgIdx - 1)
      ensures skippedMessageKeys.keys ==
        old(skippedMessageKeys.keys) + SkippedBetween(p, rootKey, previousIndex + 1, msgIdx)
    {
      ghost var before, lo := skippedMessageKeys.keys, previousIndex + 1;
      SkippedNone(p, View());
      for i := previousIndex + 1 to msgIdx
        invariant chainKey == ChainKeyAfter(p, rootKey, i - 1)
        invariant skippedMessageKeys.keys == before + SkippedBetween(p, rootKey, lo, i)
      {
        var skippedKey := CKCycle(p, i);
        SkippedSnoc(p, rootKey, before, lo, i);
        skippedMessageKeys.keys := skippedMessageKeys.keys[i := skippedKey];
      }
    }

    /** The index is consumed whether or not the MAC check passes. */
    method Decrypt(p: Primitives, ciphertext: Bytes, macHash: Bytes, msgIdx: int) returns (r: Result<Bytes, Failure>)
      requires Valid(p)
      modifies this`chainKey, this`previousIndex, skippedMessageKeys
      ensures Valid(p) && View() == Received(p, old(View()), msgIdx)
      ensures r == Receipt(p, old(View()), msgIdx, Sealed(ciphertext, macHash))
    {
      hide Open;
      hide MessageKey;
      hide SkippedBetween;
      hide Seed;
      ghost var before := View();
      if msgIdx in skippedMessageKeys.keys {
        var msgKey := skippedMessageKeys.keys[msgIdx];
        r := DecryptWithKey(p, ciphertext, macHash, msgKey);
        skippedMessageKeys.keys := skippedMessageKeys.keys - {msgIdx};
        ReceivedCoherent(p, before, msgIdx);
        return;
      }
      if msgIdx < 0 {
        return Err(Refused(InvalidIndex));
      }
      if msgIdx > previousIndex + 1 {
        var skipped := msgIdx - (previousIndex + 1);
        if skipped > maxSkip {
          return Err(Refused(TooManySkipped));
        }
        SkipTo(p, msgIdx);
      }
      if msgIdx <= previousIndex {
        return Err(Refused(AlreadyProcessed));
      }
      assert Refuses(before, msgIdx).None?;
      SkippedNone(p, before);
      var messageKey := CKCycle(p, msgIdx);
      previousIndex := msgIdx;
      assert View() == Received(p, before, msgIdx);
      ReceivedCoherent(p, before, msgIdx);
      r := DecryptWithKey(p, ciphertext, macHash, messageKey);
    }
  }
}
