/**
 One epoch's message chain as a value (client/internal/contact/ratchet/mratchet.go).

 The reference notion is `MessageKey(p, root, i)`: the key of message i, found by walking i
 steps from the root key. Transitions are described in closed form against it; the class in
 MessageRatchet.dfy proves that the stepwise code computes exactly these transitions.
 */
module Chain {
  import opened Basics
  import opened Crypto

  const MAX_MESSAGE_SKIP := 100
  const SALT_LENGTH := 64

  /** The ASCII bytes of the info string "Chain". */
  const CHAIN_INFO: Bytes := [67, 104, 97, 105, 110]

  // ---------- Keys ----------

  function KeyMaterial(p: Primitives, seed: Bytes): (r: Bytes)
    ensures |r| == 2 * KEY_LENGTH
  {
    DeriveIsHkdf(p, seed, None, CHAIN_INFO, 64); Derive(p, seed, None, CHAIN_INFO, 64)
  }

  function KeyOf(p: Primitives, seed: Bytes): Bytes {
    KeyMaterial(p, seed)[..KEY_LENGTH]
  }

  function NextSeed(p: Primitives, seed: Bytes): Bytes {
    KeyMaterial(p, seed)[KEY_LENGTH..]
  }

  function Seed(p: Primitives, root: Bytes, n: nat): Bytes {
    if n == 0 then root else NextSeed(p, Seed(p, root, n - 1))
  }

  function MessageKey(p: Primitives, root: Bytes, i: nat): Bytes {
    KeyOf(p, Seed(p, root, i))
  }

  // ---------- Sealing one message ----------

  datatype Refusal = InvalidIndex | TooManySkipped | AlreadyProcessed

  /** Why a decryption gives no plaintext. `ShortCiphertext` is where the Go code panics on a slice. */
  datatype Failure = Refused(reason: Refusal) | ShortCiphertext | BadMac | BadCipher

  datatype Sealed = Sealed(ciphertext: Bytes, mac: Bytes)

  function Subkeys(p: Primitives, key: Bytes): (r: Bytes)
    ensures |r| == 2 * KEY_LENGTH
  {
    DeriveIsHkdf(p, key, Some(Zeros(SALT_LENGTH)), [], 64);
    Derive(p, key, Some(Zeros(SALT_LENGTH)), [], 64)
  }

  function Seal(p: Primitives, key: Bytes, plaintext: Bytes, nonce: Bytes): (r: Sealed)
    ensures |r.mac| == 32
  {
    var body := nonce + EncryptAES(p, Subkeys(p, key)[..KEY_LENGTH], plaintext, nonce);
    Sealed(body, HmacSha256(p, Subkeys(p, key)[KEY_LENGTH..], body))
  }

  function Open(p: Primitives, key: Bytes, s: Sealed): Result<Bytes, Failure> {
    if |s.ciphertext| < NONCE_LENGTH then Err(ShortCiphertext)
    else if HmacSha256(p, Subkeys(p, key)[KEY_LENGTH..], s.ciphertext) != s.mac then Err(BadMac)
    else
      var nonce, body := s.ciphertext[..NONCE_LENGTH], s.ciphertext[NONCE_LENGTH..];
      var plaintext := DecryptAES(p, Subkeys(p, key)[..KEY_LENGTH], body, nonce);
      if plaintext.None? then Err(BadCipher) else Ok(plaintext.value)
  }

  /** Opening with the sealing key gives the plaintext back. */
  lemma OpenInvertsSeal(p: Primitives, key: Bytes, plaintext: Bytes, nonce: Bytes)
    requires |nonce| == NONCE_LENGTH
    ensures Open(p, key, Seal(p, key, plaintext, nonce)) == Ok(plaintext)
  {
  }

  /** The body is x sealed under the key, with some nonce of its length. */
  ghost predicate SealedUnder(p: Primitives, key: Bytes, s: Sealed, x: Bytes) {
    exists nonce :: |nonce| == NONCE_LENGTH && s == Seal(p, key, x, nonce)
  }

  /** A message opens to x exactly if it is x sealed under the key with a nonce of its length. */
  lemma OpenExact(p: Primitives, key: Bytes, s: Sealed, x: Bytes)
    ensures Open(p, key, s) == Ok(x) <==> SealedUnder(p, key, s, x)
  {
    if Open(p, key, s) == Ok(x) {
      var nonce := s.ciphertext[..NONCE_LENGTH];
      assert s.ciphertext == nonce + s.ciphertext[NONCE_LENGTH..];
      assert s == Seal(p, key, x, nonce);
    }
    forall nonce: Bytes | |nonce| == NONCE_LENGTH && s == Seal(p, key, x, nonce)
      ensures Open(p, key, s) == Ok(x)
    {
      OpenInvertsSeal(p, key, x, nonce);
    }
  }

  // ---------- Chain state ----------

  /** The index of the last message taken in order; -1 before the first. */
  type LastIndex = i: int | i >= -1 witness -1

  datatype Chain = Chain(
    root: Bytes,
    chainKey: Option<Bytes>,
    skipped: map<int, Bytes>,
    maxSkip: int,
    previousIndex: LastIndex)

  function NewChain(root: Bytes): Chain {
    Chain(root, None, map[], MAX_MESSAGE_SKIP, -1)
  }

  function ChainKeyAfter(p: Primitives, root: Bytes, index: LastIndex): Option<Bytes> {
    if index == -1 then None else Some(Seed(p, root, index + 1))
  }

  /** Every stored key is the right one for its index. */
  ghost predicate StoredKeysRight(p: Primitives, root: Bytes, skipped: map<int, Bytes>) {
    forall j: int | j in skipped :: 0 <= j && skipped[j] == MessageKey(p, root, j)
  }

  /**
   The invariant of every message ratchet, live or retired: the chain key is the seed after
   `previousIndex`, and every stored key is right. It does not bound the stored indexes.
   */
  ghost predicate Coherent(p: Primitives, s: Chain) {
    && s.chainKey == ChainKeyAfter(p, s.root, s.previousIndex)
    && StoredKeysRight(p, s.root, s.skipped)
  }

  function Gap(s: Chain, i: int): int {
    i - (s.previousIndex + 1)
  }

  /** Whether Decrypt hands out the key of index i, or why not. */
  function Refuses(s: Chain, i: int): Option<Refusal> {
    if i in s.skipped then None
    else if i < 0 then Some(InvalidIndex)
    else if i <= s.previousIndex then Some(AlreadyProcessed)
    else if Gap(s, i) > s.maxSkip && Gap(s, i) > 0 then Some(TooManySkipped)
    else None
  }

  function SkippedBetween(p: Primitives, root: Bytes, lo: nat, hi: int): map<int, Bytes> {
    map j: int | lo <= j < hi :: MessageKey(p, root, j)
  }

  lemma SkippedSnoc(p: Primitives, root: Bytes, store: map<int, Bytes>, lo: nat, i: int)
    requires lo <= i
    ensures (store + SkippedBetween(p, root, lo, i))[i := MessageKey(p, root, i)] ==
      store + SkippedBetween(p, root, lo, i + 1)
  {
  }

  lemma SkippedNone(p: Primitives, s: Chain)
    ensures s.skipped + SkippedBetween(p, s.root, s.previousIndex + 1, s.previousIndex + 1) == s.skipped
  {
  }

  /** The state after Decrypt at index i. It does not depend on the ciphertext. */
  function Received(p: Primitives, s: Chain, i: int): Chain {
    if Refuses(s, i).Some? then s
    else if i in s.skipped then s.(skipped := s.skipped - {i})
    else s.(chainKey := Some(Seed(p, s.root, i + 1)),
            skipped := s.skipped + SkippedBetween(p, s.root, s.previousIndex + 1, i),
            previousIndex := i)
  }

  /** The outcome of Decrypt at index i. */
  function Receipt(p: Primitives, s: Chain, i: int, m: Sealed): Result<Bytes, Failure> {
    if Refuses(s, i).Some? then Err(Refused(Refuses(s, i).value))
    else if i in s.skipped then Open(p, s.skipped[i], m)
    else Open(p, MessageKey(p, s.root, i), m)
  }

  /** A message as it travels: its index in the chain and its sealed body. */
  datatype Wire = Wire(index: int, body: Sealed)

  /** The message Encrypt produces: the next index, sealed under that index's key. */
  function Outgoing(p: Primitives, s: Chain, plaintext: Bytes, nonce: Bytes): Wire {
    var i := s.previousIndex + 1;
    Wire(i, Seal(p, MessageKey(p, s.root, i), plaintext, nonce))
  }

  /** The state after Encrypt; the message gets index `previousIndex + 1`. */
  function Sent(p: Primitives, s: Chain): Chain {
    s.(chainKey := Some(Seed(p, s.root, s.previousIndex + 2)), previousIndex := s.previousIndex + 1)
  }

  lemma NewChainCoherent(p: Primitives, root: Bytes)
    ensures Coherent(p, NewChain(root))
  {
  }

  lemma ReceivedCoherent(p: Primitives, s: Chain, i: int)
    requires Coherent(p, s)
    ensures Coherent(p, Received(p, s, i))
  {
  }

  lemma SentCoherent(p: Primitives, s: Chain)
    requires Coherent(p, s)
    ensures Coherent(p, Sent(p, s))
  {
  }

  /** Receiving gives x exactly if the index is not refused and the body is x sealed under the key of that index. */
  lemma ReceiptExact(p: Primitives, s: Chain, i: int, m: Sealed, x: Bytes)
    requires Coherent(p, s)
    ensures Receipt(p, s, i, m) == Ok(x) <==>
      Refuses(s, i).None? && i >= 0 && SealedUnder(p, MessageKey(p, s.root, i), m, x)
  {
    hide Open;
    hide SealedUnder;
    hide MessageKey;
    if Refuses(s, i).None? {
      OpenExact(p, MessageKey(p, s.root, i), m, x);
    }
  }
}
