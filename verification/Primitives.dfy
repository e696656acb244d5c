/**
 The external cryptographic primitives, as arbitrary functions that satisfy a few laws.
 Every other module takes a value of type `Primitives`, so each theorem holds for every
 choice of functions that meets the laws.
 */
module Crypto {
  import opened Basics
  import Hkdf

  const KEY_LENGTH := 32
  const NONCE_LENGTH := 12

  datatype RawPrimitives = RawPrimitives(
    hmacSha512: Hkdf.Hmac,
    kdf: (Bytes, Option<Bytes>, Bytes, nat) -> Bytes,
    hmacSha256: (Bytes, Bytes) -> Bytes,
    seal: (Bytes, Bytes, Bytes) -> Bytes,
    open: (Bytes, Bytes, Bytes) -> Option<Bytes>,
    publicKey: Bytes -> Bytes,
    x25519: (Bytes, Bytes) -> Option<Bytes>)
  {
    /**
     HKDF over the HMAC, sizes, AES-GCM inversion in both directions, and Diffie-Hellman
     commutativity (section 6.1 of RFC 7748).
     */
    ghost predicate Lawful() {
      && (forall input, salt, info, length {:trigger Hkdf.Derived(hmacSha512, input, salt, info, length)} ::
            kdf(input, salt, info, length) == Hkdf.Derived(hmacSha512, input, salt, info, length))
      && (forall key, data :: |hmacSha256(key, data)| == 32)
      && (forall key, plaintext, nonce :: open(key, seal(key, plaintext, nonce), nonce) == Some(plaintext))
      && (forall key, ciphertext, nonce {:trigger open(key, ciphertext, nonce)} ::
            open(key, ciphertext, nonce).Some? ==>
              ciphertext == seal(key, open(key, ciphertext, nonce).value, nonce))
      && (forall private :: |publicKey(private)| == KEY_LENGTH)
      && (forall a, b {:trigger x25519(a, publicKey(b))} :: x25519(a, publicKey(b)) == x25519(b, publicKey(a)))
    }
  }

  const TRIVIAL_HMAC: Hkdf.Hmac := (_, _) => Zeros(64)

  predicate ValidKey(key: Bytes) {
    |key| == KEY_LENGTH && key[0] != 0
  }

  /**
   A degenerate instance, showing that the laws are consistent. Keys are valid if their first byte
   is not zero: all valid keys are different key pairs, and an exchange fails exactly with an invalid one.
   */
  const TRIVIAL := RawPrimitives(
    TRIVIAL_HMAC,
    (input, salt, info, length) => Hkdf.Derived(TRIVIAL_HMAC, input, salt, info, length),
    (_, _) => Zeros(32),
    (_, plaintext, _) => plaintext,
    (_, ciphertext, _) => Some(ciphertext),
    private => if ValidKey(private) then private else [1] + Zeros(KEY_LENGTH - 1),
    (_, public) => if ValidKey(public) then Some(Zeros(KEY_LENGTH)) else None)

  type Primitives = p: RawPrimitives | p.Lawful() witness TRIVIAL

  datatype KeyPair = KeyPair(publicKey: Bytes, privateKey: Bytes)

  /** A key pair as GenerateKeyPair makes it: the public half belongs to the private half. */
  predicate IsKeyPair(p: Primitives, k: KeyPair) {
    k.publicKey == p.publicKey(k.privateKey)
  }

  /** HKDF-SHA512. The law of `kdf` fixes its value; Hkdf.dfy proves that the code computes it. */
  function Derive(p: Primitives, input: Bytes, salt: Option<Bytes>, info: Bytes, length: nat): Bytes {
    p.kdf(input, salt, info, length)
  }

  lemma DeriveIsHkdf(p: Primitives, input: Bytes, salt: Option<Bytes>, info: Bytes, length: nat)
    ensures Derive(p, input, salt, info, length) == Hkdf.Derived(p.hmacSha512, input, salt, info, length)
    ensures |Derive(p, input, salt, info, length)| == length
  {
  }

  function HmacSha256(p: Primitives, key: Bytes, data: Bytes): (mac: Bytes)
    ensures |mac| == 32
  {
    p.hmacSha256(key, data)
  }

  function EncryptAES(p: Primitives, key: Bytes, plaintext: Bytes, nonce: Bytes): Bytes {
    p.seal(key, plaintext, nonce)
  }

  function DecryptAES(p: Primitives, key: Bytes, ciphertext: Bytes, nonce: Bytes): Option<Bytes> {
    p.open(key, ciphertext, nonce)
  }

  function SharedSecret(p: Primitives, k: KeyPair, publicKey: Bytes): Option<Bytes> {
    p.x25519(k.privateKey, publicKey)
  }

  /** Both ends of an exchange compute the same secret, or both fail. */
  lemma SharedSecretCommutes(p: Primitives, a: KeyPair, b: KeyPair)
    requires IsKeyPair(p, a) && IsKeyPair(p, b)
    ensures SharedSecret(p, a, b.publicKey) == SharedSecret(p, b, a.publicKey)
  {
  }
}
