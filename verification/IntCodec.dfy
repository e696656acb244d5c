/**
 The 8-byte integers of the wire formats: the client's loops (client/internal/utils/utils.go)
 and the server's recursions (server/lib/tcp_server/utils.ex), against one big-endian reference.
 */
module IntCodec {
  import opened Basics

  const TWO_63: nat := 0x8000_0000_0000_0000
  const TWO_64: nat := 0x1_0000_0000_0000_0000

  const PACKET_LENGTH_NR_BYTES := 8

  newtype Int64 = i: int | -0x8000_0000_0000_0000 <= i < 0x8000_0000_0000_0000

  // ---------- The reference ----------

  function Pow256(k: nat): nat {
    if k == 0 then 1 else 256 * Pow256(k - 1)
  }

  /** The value of a big-endian byte string. */
  function Value(b: Bytes): nat {
    if b == [] then 0 else 256 * Value(b[..|b| - 1]) + b[|b| - 1]
  }

  /** The last k base-256 digits of v; two's complement when v is negative. */
  function Digits(v: int, k: nat): (b: Bytes)
    ensures |b| == k
    decreases k
  {
    if k == 0 then [] else Digits(v / 256, k - 1) + [v % 256]
  }

  lemma {:induction false} Pow256Positive(k: nat)
    ensures Pow256(k) > 0
  {
    if k == 0 {
    } else {
      Pow256Positive(k - 1);
    }
  }

  lemma DivMul(v: int, m: nat)
    requires m > 0
    ensures v / (256 * m) == (v / 256) / m
    ensures v % (256 * m) == 256 * ((v / 256) % m) + v % 256
  {
    var q, r := (v / 256) / m, (v / 256) % m;
    assert v == 256 * m * q + (256 * r + v % 256);
    assert 0 <= 256 * r + v % 256 < 256 * m;
    DivUnique(v, 256 * m, q, 256 * r + v % 256);
  }

  lemma MulAtLeast(m: nat, d: int)
    requires d != 0
    ensures m * d >= m || m * d <= 0 - m
  {
  }

  lemma DivUnique(v: int, m: nat, q: int, r: int)
    requires m > 0 && v == m * q + r && 0 <= r < m
    ensures v / m == q && v % m == r
  {
    assert m * (v / m - q) == r - v % m;
    if v / m != q {
      MulAtLeast(m, v / m - q);
      assert false;
    }
  }

  /** Decoding the last k digits of v gives v modulo 256^k. */
  lemma {:induction false} ValueOfDigits(v: int, k: nat)
    ensures Pow256(k) > 0 && Value(Digits(v, k)) == v % Pow256(k)
    decreases k
  {
    Pow256Positive(k);
    if k == 0 {
    } else {
      ValueOfDigits(v / 256, k - 1);
      DivMul(v, Pow256(k - 1));
      assert Digits(v, k)[..k - 1] == Digits(v / 256, k - 1);
    }
  }

  lemma {:induction false} DigitsOfValue(b: Bytes)
    ensures Digits(Value(b), |b|) == b
  {
    if b == [] {
    } else {
      DigitsOfValue(b[..|b| - 1]);
    }
  }

  lemma {:induction false} DigitAt(v: int, k: nat, j: nat)
    requires j < k
    ensures Pow256(k - 1 - j) > 0 && Digits(v, k)[j] == (v / Pow256(k - 1 - j)) % 256
    decreases k
  {
    Pow256Positive(k - 1 - j);
    if j == k - 1 {
    } else {
      Pow256Positive(k - 2 - j);
      DigitAt(v / 256, k - 1, j);
      DivMul(v, Pow256(k - 2 - j));
    }
  }

  // ---------- The client ----------

  /** Two's complement reduction to 64 bits. */
  function Wrap64(x: int): Int64 {
    ((x + TWO_63) % TWO_64 - TWO_63) as Int64
  }

  method IntToBytes(i: Int64) returns (r: Bytes)
    ensures r == Digits(i as int, 8)
  {
    var b := new Byte[PACKET_LENGTH_NR_BYTES];
    for j := 0 to PACKET_LENGTH_NR_BYTES
      invariant b[..j] == Digits(i as int, 8)[..j]
    {
      DigitAt(i as int, 8, j);
      b[j] := (i as int / Pow256(PACKET_LENGTH_NR_BYTES - j - 1)) % 256;
      assert b[..j + 1] == b[..j] + [b[j]];
    }
    r := b[..];
  }

  lemma WrapStep(x: int, y: int)
    ensures Wrap64(256 * (Wrap64(x) as int) + y) == Wrap64(256 * x + y)
  {
  }

  /** The Horner loop on 64-bit integers. */
  method BytesToInt(b: Bytes) returns (i: Int64)
    ensures i == Wrap64(Value(b))
  {
    i := 0;
    for j := 0 to |b|
      invariant i == Wrap64(Value(b[..j]))
    {
      assert b[..j + 1][..j] == b[..j];
      WrapStep(Value(b[..j]), b[j]);
      i := Wrap64(256 * (i as int) + b[j]);
    }
    assert b[..|b|] == b;
  }

  // ---------- The server ----------

  function DoIntToBytes(v: nat, n: nat, acc: Bytes): Bytes {
    if n == 0 then Reverse(acc)
    else
      Pow256Positive(n - 1);
      DoIntToBytes(v, n - 1, [(v / Pow256(n - 1)) % 256] + acc)
  }

  function Reverse(s: Bytes): Bytes {
    if s == [] then [] else Reverse(s[1..]) + [s[0]]
  }

  function ServerIntToBytes(v: nat): Bytes {
    DoIntToBytes(v, 8, [])
  }

  function ServerBytesToInt(b: Bytes): nat {
    if b == [] then 0 else b[0] * Pow256(|b| - 1) + ServerBytesToInt(b[1..])
  }

  lemma {:induction false} DoIntToBytesDigits(v: nat, n: nat, acc: Bytes)
    requires n <= 8 && Reverse(acc) == Digits(v, 8)[..8 - n]
    ensures DoIntToBytes(v, n, acc) == Digits(v, 8)
  {
    if n == 0 {
    } else {
      DigitAt(v, 8, 8 - n);
      var d := (v / Pow256(n - 1)) % 256;
      assert ([d] + acc)[1..] == acc;
      assert Digits(v, 8)[..9 - n] == Digits(v, 8)[..8 - n] + [d];
      DoIntToBytesDigits(v, n - 1, [d] + acc);
    }
  }

  lemma {:induction false} ValueFront(x: Byte, b: Bytes)
    ensures Value([x] + b) == x * Pow256(|b|) + Value(b)
  {
    if b == [] {
    } else {
      var front := b[..|b| - 1];
      assert ([x] + b)[..|b|] == [x] + front;
      ValueFront(x, front);
    }
  }

  lemma {:induction false} ServerDecodes(b: Bytes)
    ensures ServerBytesToInt(b) == Value(b)
  {
    if b == [] {
    } else {
      ServerDecodes(b[1..]);
      ValueFront(b[0], b[1..]);
      assert [b[0]] + b[1..] == b;
    }
  }

  // ---------- Agreement ----------

  /** The client's encoder and the server's give the same bytes for every value both accept. */
  lemma EncodersAgree(i: Int64)
    requires i >= 0
    ensures ServerIntToBytes(i as nat) == Digits(i as int, 8)
  {
    DoIntToBytesDigits(i as nat, 8, []);
  }

  /** The decoders agree exactly on the byte strings of any length whose value is below 2^63. */
  lemma DecodersAgree(b: Bytes)
    ensures Wrap64(Value(b)) as int == ServerBytesToInt(b) <==> Value(b) < TWO_63
  {
    ServerDecodes(b);
  }

  lemma EightBytes()
    ensures Pow256(8) == TWO_64
  {
    assert Pow256(2) == 0x1_0000;
    assert Pow256(4) == 0x1_0000_0000;
    assert Pow256(6) == 0x1_0000_0000_0000;
  }

  lemma EightByteValue(n: nat)
    requires n < TWO_64
    ensures Value(Digits(n, 8)) == n
  {
    EightBytes();
    ValueOfDigits(n, 8);
    hide *;
    DivUnique(n, TWO_64, 0, n);
  }

  lemma ModTwo64(i: Int64)
    ensures i as int % TWO_64 == if i < 0 then i as int + TWO_64 else i as int
  {
    var q := if i < 0 then -1 else 0;
    DivUnique(i as int, TWO_64, q, i as int - TWO_64 * q);
  }

  /** On the client every 64-bit integer, negative ones included, survives encoding and decoding. */
  lemma ClientRoundTrip(i: Int64)
    ensures Wrap64(Value(Digits(i as int, 8))) == i
  {
    var v := Value(Digits(i as int, 8));
    assert v == if i < 0 then i as int + TWO_64 else i as int by {
      hide Wrap64;
      EightBytes();
      ValueOfDigits(i as int, 8);
      ModTwo64(i);
      hide *;
    }
    WrapOf(v);
    hide *;
  }

  /** On the server a value survives exactly if it fits eight bytes. */
  lemma ServerRoundTrip(v: nat)
    ensures ServerBytesToInt(ServerIntToBytes(v)) == v <==> v < TWO_64
  {
    EightBytes();
    DoIntToBytesDigits(v, 8, []);
    ValueOfDigits(v, 8);
    ServerDecodes(Digits(v, 8));
    hide *;
    if v < TWO_64 {
      DivUnique(v, TWO_64, 0, v);
    }
  }

  /** Adding a multiple of 256^k does not change the last k digits. */
  lemma {:induction false} DigitsShift(v: int, k: nat)
    ensures Digits(v - Pow256(k), k) == Digits(v, k)
    decreases k
  {
    if k == 0 {
    } else {
      DigitsShift(v / 256, k - 1);
      DivUnique(v - Pow256(k), 256, v / 256 - Pow256(k - 1), v % 256);
    }
  }

  lemma WrapOf(v: nat)
    requires v < TWO_64
    ensures Wrap64(v) as int == if v < TWO_63 then v else v - TWO_64
  {
  }

  lemma WrapDigits(v: nat)
    requires v < TWO_64
    ensures Digits(Wrap64(v) as int, 8) == Digits(v, 8)
  {
    EightBytes();
    WrapOf(v);
    DigitsShift(v, 8);
    hide *;
  }

  lemma ValueBound(b: Bytes)
    ensures Pow256(|b|) > 0 && Value(b) < Pow256(|b|)
  {
  }

  /** Either encoder undoes either decoder on eight bytes. */
  lemma ReencodeEight(b: Bytes)
    requires |b| == 8
    ensures Digits(Wrap64(Value(b)) as int, 8) == b && ServerIntToBytes(ServerBytesToInt(b)) == b
  {
    EightBytes();
    ValueBound(b);
    DigitsOfValue(b);
    ServerDecodes(b);
    DoIntToBytesDigits(Value(b), 8, []);
    WrapDigits(Value(b));
  }
}
