/**
 The key schedule in terms of the HMAC alone, by sections 2.2 and 2.3 of RFC 5869: which bytes feed
 every key, and which half of the output goes where.
 */
module Schedule {
  import opened Basics
  import opened Crypto
  import opened Chain
  import opened Parties
  import Hkdf

  lemma DeriveOneBlock(p: Primitives, input: Bytes, salt: Option<Bytes>, info: Bytes)
    ensures Derive(p, input, salt, info, 64) ==
      p.hmacSha512(p.hmacSha512(if salt.Some? then salt.value else Zeros(64), input), info + [1])
  {
    DeriveIsHkdf(p, input, salt, info, 64);
    Hkdf.DerivedBlock(p.hmacSha512, input, salt, info);
  }

  /** One step of a chain: the first half is the message key, the second the next seed. */
  lemma MessageKeySchedule(p: Primitives, root: Bytes, n: nat)
    ensures Seed(p, root, 0) == root
    ensures |MessageKey(p, root, n)| == 32 && |Seed(p, root, n + 1)| == 32
    ensures MessageKey(p, root, n) + Seed(p, root, n + 1) ==
      p.hmacSha512(p.hmacSha512(Zeros(64), Seed(p, root, n)), Ascii("Chain") + [1])
  {
    assert CHAIN_INFO == Ascii("Chain");
    DeriveOneBlock(p, Seed(p, root, n), None, CHAIN_INFO);
  }

  /** A sealed message: the first half of the derived key encrypts, the second authenticates nonce and ciphertext. */
  lemma SealSchedule(p: Primitives, key: Bytes, x: Bytes, nonce: Bytes)
    ensures var k := p.hmacSha512(p.hmacSha512(Zeros(64), key), [1]);
      && |k| == 64
      && Seal(p, key, x, nonce).ciphertext == nonce + p.seal(k[..32], x, nonce)
      && Seal(p, key, x, nonce).mac == p.hmacSha256(k[32..], nonce + p.seal(k[..32], x, nonce))
  {
    DeriveOneBlock(p, key, Some(Zeros(SALT_LENGTH)), []);
    assert [] + [1] == [1];
  }

  /** What opening a body gives, and why it fails: too short for a nonce, a wrong hash, or a refusal of AES-GCM. */
  lemma OpenSchedule(p: Primitives, key: Bytes, s: Sealed)
    ensures var k := p.hmacSha512(p.hmacSha512(Zeros(64), key), [1]);
      && |k| == 64
      && (Open(p, key, s) == Err(ShortCiphertext) <==> |s.ciphertext| < 12)
      && (|s.ciphertext| >= 12 ==>
            var plaintext := p.open(k[..32], s.ciphertext[12..], s.ciphertext[..12]);
            && (Open(p, key, s) == Err(BadMac) <==> s.mac != p.hmacSha256(k[32..], s.ciphertext))
            && (s.mac == p.hmacSha256(k[32..], s.ciphertext) ==>
                  Open(p, key, s) == if plaintext.Some? then Ok(plaintext.value) else Err(BadCipher)))
  {
    DeriveOneBlock(p, key, Some(Zeros(SALT_LENGTH)), []);
    assert [] + [1] == [1];
  }

  /** One successful step of the root chain: salted with the exchange output, the first half is the new root key. */
  lemma RootSchedule(p: Primitives, a: Party, foreign: Option<Bytes>, dh: Bytes)
    requires SharedSecret(p, a.keys, if foreign.None? then a.current.foreign else foreign.value) == Some(dh)
    ensures var b := Cycle(p, a, foreign);
      && b.root + b.child == p.hmacSha512(p.hmacSha512(dh, a.root), Ascii("Ratchet") + [1])
      && |b.root| == 32 && |b.child| == 32
      && b.current.chain == NewChain(b.root) && b.index == a.index + 1
  {
    assert RATCHET_INFO == Ascii("Ratchet");
    DeriveOneBlock(p, a.root, Some(dh), RATCHET_INFO);
  }
}
