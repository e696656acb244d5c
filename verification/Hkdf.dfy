/** HKDF with SHA-512 (client/internal/contact/ratchet/hkdf.go), against RFC 5869. */
module Hkdf {
  import opened Basics

  /** HMAC-SHA512: any function of a key and data with 64-byte results. */
  type Hmac = h: (Bytes, Bytes) -> Bytes | forall key, data :: |h(key, data)| == 64 witness (_, _) => Zeros(64)

  const HASH_LENGTH := 64

  datatype Error = ShortBuffer | LengthTooLarge

  // ---------- The standard ----------

  /** HKDF-Extract, section 2.2 of RFC 5869: an absent salt is HashLen zero octets. */
  function Extract(hmac: Hmac, input: Bytes, salt: Option<Bytes>): Bytes {
    hmac(if salt.Some? then salt.value else Zeros(HASH_LENGTH), input)
  }

  /** T(n) of section 2.3 of RFC 5869, defined for a counter that fits one octet. */
  function T(hmac: Hmac, prk: Bytes, info: Bytes, n: nat): Bytes
    requires n <= 255
  {
    if n == 0 then [] else hmac(prk, T(hmac, prk, info, n - 1) + info + [n])
  }

  /** T(1) | T(2) | ... | T(n). */
  function TStream(hmac: Hmac, prk: Bytes, info: Bytes, n: nat): (okm: Bytes)
    requires n <= 255
    ensures |okm| == n * HASH_LENGTH
  {
    if n == 0 then [] else TStream(hmac, prk, info, n - 1) + T(hmac, prk, info, n)
  }

  function BlockCount(length: nat): (n: nat)
    ensures length <= n * HASH_LENGTH < length + HASH_LENGTH
  {
    (length + HASH_LENGTH - 1) / HASH_LENGTH
  }

  /** HKDF-Expand of section 2.3 of RFC 5869, with its bound L <= 255*HashLen. */
  function StandardExpand(hmac: Hmac, prk: Bytes, info: Bytes, length: nat): Result<Bytes, Error> {
    if length > 255 * HASH_LENGTH then Err(LengthTooLarge)
    else Ok(TStream(hmac, prk, info, BlockCount(length))[..length])
  }

  // ---------- The code ----------

  /** The block the loop computes in round i: the counter is truncated to one byte. */
  function Block(hmac: Hmac, prk: Bytes, info: Bytes, i: nat): Bytes {
    if i == 0 then [] else hmac(prk, Block(hmac, prk, info, i - 1) + info + [i % 256])
  }

  function BlockStream(hmac: Hmac, prk: Bytes, info: Bytes, n: nat): (okm: Bytes)
    ensures |okm| == n * HASH_LENGTH
  {
    if n == 0 then [] else BlockStream(hmac, prk, info, n - 1) + Block(hmac, prk, info, n)
  }

  function Expanded(hmac: Hmac, prk: Bytes, info: Bytes, length: nat): (okm: Bytes)
    ensures |okm| == length
  {
    BlockStream(hmac, prk, info, BlockCount(length))[..length]
  }

  function Derived(hmac: Hmac, input: Bytes, salt: Option<Bytes>, info: Bytes, length: nat): (okm: Bytes)
    ensures |okm| == length
  {
    Expanded(hmac, Extract(hmac, input, salt), info, length)
  }

  /** A negative length makes the final slice panic, hence `nat`. */
  method Expand(hmac: Hmac, prk: Bytes, info: Bytes, length: nat) returns (r: Result<Bytes, Error>)
    ensures r == Ok(Expanded(hmac, prk, info, length))
  {
    var n := (length + HASH_LENGTH - 1) / HASH_LENGTH;
    var okm: Bytes := [];
    var previousBlock: Bytes := [];
    for i := 1 to n + 1
      invariant previousBlock == Block(hmac, prk, info, i - 1)
      invariant okm == BlockStream(hmac, prk, info, i - 1)
    {
      previousBlock := hmac(prk, previousBlock + info + [i % 256]);
      okm := okm + previousBlock;
    }
    r := if |okm| < length then Err(ShortBuffer) else Ok(okm[..length]);
  }

  method Derive(hmac: Hmac, input: Bytes, salt: Option<Bytes>, info: Bytes, length: nat)
    returns (r: Result<Bytes, Error>)
    ensures r == Ok(Derived(hmac, input, salt, info, length))
  {
    var prk := Extract(hmac, input, salt);
    r := Expand(hmac, prk, info, length);
  }

  // ---------- Conformance ----------

  lemma {:induction false} BlocksAreStandard(hmac: Hmac, prk: Bytes, info: Bytes, n: nat)
    requires n <= 255
    ensures Block(hmac, prk, info, n) == T(hmac, prk, info, n)
    ensures BlockStream(hmac, prk, info, n) == TStream(hmac, prk, info, n)
  {
    if n == 0 {
    } else {
      BlocksAreStandard(hmac, prk, info, n - 1);
    }
  }

  /** The code agrees with RFC 5869 exactly up to 255 blocks; past that it wraps its counter instead of refusing. */
  lemma ExpandConforms(hmac: Hmac, prk: Bytes, info: Bytes, length: nat)
    ensures Ok(Expanded(hmac, prk, info, length)) == StandardExpand(hmac, prk, info, length) <==>
      length <= 255 * HASH_LENGTH
  {
    if length <= 255 * HASH_LENGTH {
      BlocksAreStandard(hmac, prk, info, BlockCount(length));
    }
  }

  /** A key of 64 bytes is one block: the HMAC of the info and the counter 1, under the extracted key. */
  lemma DerivedBlock(hmac: Hmac, input: Bytes, salt: Option<Bytes>, info: Bytes)
    ensures Derived(hmac, input, salt, info, 64) ==
      hmac(hmac(if salt.Some? then salt.value else Zeros(64), input), info + [1])
  {
    var prk := Extract(hmac, input, salt);
    assert BlockCount(64) == 1;
    assert Block(hmac, prk, info, 1) == hmac(prk, info + [1]) by {
      assert [] + info == info;
    }
    assert BlockStream(hmac, prk, info, 1) == Block(hmac, prk, info, 1);
  }

  lemma {:induction false} BlockStreamPrefix(hmac: Hmac, prk: Bytes, info: Bytes, m: nat, n: nat)
    requires m <= n
    ensures BlockStream(hmac, prk, info, m) <= BlockStream(hmac, prk, info, n)
  {
    if m == n {
    } else {
      BlockStreamPrefix(hmac, prk, info, m, n - 1);
    }
  }

  /** A shorter output is a prefix of a longer one. */
  lemma ExpandPrefix(hmac: Hmac, prk: Bytes, info: Bytes, short: nat, long: nat)
    requires short <= long
    ensures Expanded(hmac, prk, info, short) <= Expanded(hmac, prk, info, long)
  {
    BlockStreamPrefix(hmac, prk, info, BlockCount(short), BlockCount(long));
  }
}
