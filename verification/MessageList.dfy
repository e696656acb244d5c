/**
 Message bodies and message lists: written by the client (Message.Payload) and the server's fold
 (server/lib/tcp_server/data_handler.ex), parsed by the client's offset loops
 (client/internal/contact/message/message.go).
 */
module MessageList {
  import opened Basics
  import opened IntCodec

  datatype MessageData = MessageData(sender: Bytes, publicKey: Bytes, index: Int64, ciphertext: Bytes, hash: Bytes)

  predicate WellSized(m: MessageData) {
    |m.sender| == 16 && |m.publicKey| == 32 && |m.hash| == 32
  }

  // ---------- Writing ----------

  /** Message.Payload: the sender is added by the server. */
  method Payload(m: MessageData) returns (data: Bytes)
    ensures data == PayloadOf(m)
  {
    data := m.publicKey;
    var index := IntToBytes(m.index);
    data := data + index;
    data := data + m.ciphertext;
    data := data + m.hash;
  }

  function PayloadOf(m: MessageData): Bytes {
    m.publicKey + Digits(m.index as int, 8) + m.ciphertext + m.hash
  }

  /** A row as the server stores it. */
  datatype Stored = Stored(senderIdHash: Bytes, messageData: Bytes)

  /** The function given to Enum.reduce. */
  function AppendMessage(m: Stored, acc: Bytes): Bytes {
    acc + ServerIntToBytes(|m.messageData| + 16) + m.senderIdHash + m.messageData
  }

  function Reduce(ms: seq<Stored>, acc: Bytes): Bytes {
    if ms == [] then acc else Reduce(ms[1..], AppendMessage(ms[0], acc))
  }

  function StoredRows(ms: seq<MessageData>): seq<Stored> {
    if ms == [] then [] else [Stored(ms[0].sender, PayloadOf(ms[0]))] + StoredRows(ms[1..])
  }

  /** A message of the sizes the client makes, with a length that fits its prefix. */
  predicate Sendable(m: MessageData) {
    WellSized(m) && |PayloadOf(m)| + 16 < TWO_63
  }

  predicate AllSendable(ms: seq<MessageData>) {
    ms == [] || (Sendable(ms[0]) && AllSendable(ms[1..]))
  }

  // ---------- Parsing ----------

  /** None is a panic: the slice of the ciphertext is out of bounds exactly below 88 bytes. */
  function ParseMessageData(data: Bytes): Option<MessageData> {
    if |data| < 88 then None
    else
      var end := |data| - 32;
      Some(MessageData(data[..16], data[16..48], Wrap64(Value(data[48..56])), data[56..end], data[end..]))
  }

  datatype ParseError = InsufficientLength | InsufficientData

  datatype Parsed = Parsed(messages: seq<MessageData>, error: Option<ParseError>) | Panic

  /** The list parser, given the messages parsed so far. */
  function ParseRest(done: seq<MessageData>, data: Bytes): Parsed
    decreases |data|
  {
    if data == [] then Parsed(done, None)
    else if |data| < 8 then Parsed([], Some(InsufficientLength))
    else
      var n := Wrap64(Value(data[..8])) as int;
      if |data| - 8 < n then Parsed(done, Some(InsufficientData))
      else if n < 88 then Panic
      else ParseRest(done + [ParseMessageData(data[8..8 + n]).value], data[8 + n..])
  }

  /** The loop advances past a whole entry each time; a negative or short length panics. */
  method ParseMessagesData(data: Bytes) returns (r: Parsed)
    ensures r == ParseRest([], data)
  {
    var messages: seq<MessageData> := [];
    var offset := 0;
    while offset < |data|
      invariant 0 <= offset <= |data|
      invariant ParseRest([], data) == ParseRest(messages, data[offset..])
      decreases |data| - offset
    {
      ghost var here := data[offset..];
      if |data| - offset < PACKET_LENGTH_NR_BYTES {
        return Parsed([], Some(InsufficientLength));
      }
      var messageLength := BytesToInt(data[offset..offset + PACKET_LENGTH_NR_BYTES]);
      assert data[offset..offset + PACKET_LENGTH_NR_BYTES] == here[..8];
      offset := offset + PACKET_LENGTH_NR_BYTES;
      if |data| - offset < messageLength as int {
        return Parsed(messages, Some(InsufficientData));
      }
      if messageLength < 0 {
        return Panic;
      }
      var messageData := data[offset..offset + messageLength as int];
      assert messageData == here[8..8 + messageLength as int];
      offset := offset + messageLength as int;
      assert data[offset..] == here[8 + messageLength as int..];
      var message := ParseMessageData(messageData);
      if message.None? {
        return Panic;
      }
      messages := messages + [message.value];
    }
    r := Parsed(messages, None);
  }

  // ---------- Round trips ----------

  /** What the server pushes for one message, sender id and body, parses to that message. */
  lemma PushedRoundTrip(m: MessageData)
    requires WellSized(m)
    ensures ParseMessageData(m.sender + PayloadOf(m)) == Some(m)
  {
    hide Digits;
    hide Value;
    hide Wrap64;
    ClientRoundTrip(m.index);
    FiveSlices(m.sender, m.publicKey, Digits(m.index as int, 8), m.ciphertext, m.hash);
  }

  lemma FiveSlices<T>(a: seq<T>, b: seq<T>, c: seq<T>, d: seq<T>, e: seq<T>)
    requires |a| == 16 && |b| == 32 && |c| == 8 && |e| == 32
    ensures var data := a + (b + c + d + e);
      && |data| == 88 + |d|
      && data[..16] == a && data[16..48] == b && data[48..56] == c
      && data[56..|data| - 32] == d && data[|data| - 32..] == e
  {
  }

  lemma {:induction false} ReduceAppends(ms: seq<Stored>, acc: Bytes)
    ensures Reduce(ms, acc) == acc + Reduce(ms, [])
  {
    if ms == [] {
      assert acc + [] == acc;
    } else {
      var entry := AppendMessage(ms[0], []);
      ReduceAppends(ms[1..], AppendMessage(ms[0], acc));
      ReduceAppends(ms[1..], entry);
      assert AppendMessage(ms[0], acc) == acc + entry;
      assert acc + entry + Reduce(ms[1..], []) == acc + (entry + Reduce(ms[1..], []));
    }
  }

  /** A length prefix of the server is read back by the client. */
  lemma LengthRoundTrip(n: nat)
    requires n < TWO_63
    ensures |ServerIntToBytes(n)| == 8 && Wrap64(Value(ServerIntToBytes(n))) as int == n
  {
    EncodersAgree(n as Int64);
    ClientRoundTrip(n as Int64);
  }

  lemma ThreeSlices<T>(a: seq<T>, b: seq<T>, c: seq<T>)
    ensures var data := a + b + c;
      data[..|a|] == a && data[|a|..|a| + |b|] == b && data[|a| + |b|..] == c
  {
  }

  lemma ParseEntry(done: seq<MessageData>, m: MessageData, rest: Bytes)
    requires Sendable(m)
    ensures ParseRest(done, AppendMessage(Stored(m.sender, PayloadOf(m)), []) + rest) == ParseRest(done + [m], rest)
  {
    hide PayloadOf;
    hide Value;
    hide Wrap64;
    hide ServerIntToBytes;
    hide ParseMessageData;
    var body := m.sender + PayloadOf(m);
    var prefix := ServerIntToBytes(|body|);
    LengthRoundTrip(|body|);
    assert ParseMessageData(body) == Some(m) && |body| >= 88 by { PushedRoundTrip(m); BodySize(m); }
    Concatenation(prefix, m.sender, PayloadOf(m));
    assert AppendMessage(Stored(m.sender, PayloadOf(m)), []) == prefix + body;
    hide AppendMessage;
    hide Sendable;
    ThreeSlices(prefix, body, rest);
  }

  lemma BodySize(m: MessageData)
    requires WellSized(m)
    ensures |PayloadOf(m)| >= 72
  {
  }

  lemma ReduceStored(m: MessageData, rest: seq<MessageData>)
    ensures Reduce(StoredRows([m] + rest), []) ==
      AppendMessage(Stored(m.sender, PayloadOf(m)), []) + Reduce(StoredRows(rest), [])
  {
    hide AppendMessage;
    hide PayloadOf;
    assert ([m] + rest)[1..] == rest;
    ReduceAppends(StoredRows(rest), AppendMessage(Stored(m.sender, PayloadOf(m)), []));
  }

  lemma Regroup<T>(done: seq<T>, ms: seq<T>)
    requires ms != []
    ensures [ms[0]] + ms[1..] == ms && done + [ms[0]] + ms[1..] == done + ms
  {
  }

  /** The client recovers the same messages in the same order from the server's fold, with no error. */
  lemma {:induction false} ListRoundTrip(done: seq<MessageData>, ms: seq<MessageData>)
    requires AllSendable(ms)
    ensures ParseRest(done, Reduce(StoredRows(ms), [])) == Parsed(done + ms, None)
  {
    ParseFold(done, ms, []);
    var data := Reduce(StoredRows(ms), []);
    assert data + [] == data;
  }

  /** What the parser takes from an entry, written again, is that entry: first the prefix, then the body. */
  lemma PrefixRewritten(prefix: Bytes, n: nat)
    requires |prefix| == 8 && Wrap64(Value(prefix)) as int == n
    ensures ServerIntToBytes(n) == prefix && n < TWO_63
  {
    ReencodeEight(prefix);
    assert ServerBytesToInt(prefix) == n by {
      DecodersAgree(prefix);
      EightBytes();
      ValueBound(prefix);
      WrapOf(Value(prefix));
    }
  }

  lemma BodyRewritten(body: Bytes, m: MessageData)
    requires ParseMessageData(body) == Some(m)
    ensures WellSized(m) && m.sender + PayloadOf(m) == body
  {
    ReencodeEight(body[48..56]);
    FiveParts(body);
    hide Digits;
    hide Value;
    hide Wrap64;
  }

  lemma FiveParts<T>(body: seq<T>)
    requires |body| >= 88
    ensures var end := |body| - 32;
      body[..16] + (body[16..48] + body[48..56] + body[56..end] + body[end..]) == body
  {
    var end := |body| - 32;
    assert body[56..end] + body[end..] == body[56..];
    assert body[48..56] + body[56..] == body[48..];
    assert body[16..48] + body[48..] == body[16..];
    assert body[16..48] + body[48..56] + body[56..end] + body[end..] == body[16..];
  }

  lemma Concatenation<T>(a: seq<T>, b: seq<T>, c: seq<T>)
    ensures a + b + c == a + (b + c)
  {
  }

  lemma EntryRewritten(prefix: Bytes, body: Bytes, m: MessageData)
    requires |prefix| == 8 && Wrap64(Value(prefix)) as int == |body| && ParseMessageData(body) == Some(m)
    ensures Sendable(m) && AppendMessage(Stored(m.sender, PayloadOf(m)), []) == prefix + body
  {
    hide PayloadOf;
    hide ServerIntToBytes;
    hide Wrap64;
    hide Value;
    hide ParseMessageData;
    PrefixRewritten(prefix, |body|);
    BodyRewritten(body, m);
    assert Sendable(m);
    hide Sendable;
    hide WellSized;
    Concatenation(prefix, m.sender, PayloadOf(m));
  }

  /** One step of a parse that ends without error. */
  lemma {:induction false} ParseStep(done: seq<MessageData>, data: Bytes, ms: seq<MessageData>)
    returns (prefix: Bytes, body: Bytes, later: Bytes, m: MessageData)
    requires data != [] && ParseRest(done, data) == Parsed(ms, None)
    ensures data == prefix + body + later
    ensures |prefix| == 8 && Wrap64(Value(prefix)) as int == |body| && ParseMessageData(body) == Some(m)
    ensures ParseRest(done + [m], later) == Parsed(ms, None)
  {
    hide Value;
    hide Wrap64;
    prefix := data[..8];
    var n := Wrap64(Value(prefix)) as int;
    body, later := data[8..8 + n], data[8 + n..];
    m := ParseMessageData(body).value;
  }

  lemma {:induction false} ListRewritten(done: seq<MessageData>, data: Bytes, ms: seq<MessageData>)
    requires ParseRest(done, data) == Parsed(ms, None)
    ensures |done| <= |ms| && ms[..|done|] == done
    ensures AllSendable(ms[|done|..]) && data == Reduce(StoredRows(ms[|done|..]), [])
    decreases |data|
  {
    if data == [] {
      assert ms[|done|..] == [];
    } else {
      var prefix, body, later, m := ParseStep(done, data, ms);
      hide *;
      ListRewritten(done + [m], later, ms);
      EntryRewritten(prefix, body, m);
      PrependEntry(done, ms, m, later);
    }
  }

  lemma PrependEntry(done: seq<MessageData>, ms: seq<MessageData>, m: MessageData, later: Bytes)
    requires |done| < |ms| && ms[..|done| + 1] == done + [m] && Sendable(m)
    requires AllSendable(ms[|done| + 1..]) && later == Reduce(StoredRows(ms[|done| + 1..]), [])
    ensures ms[..|done|] == done && AllSendable(ms[|done|..])
    ensures Reduce(StoredRows(ms[|done|..]), []) == AppendMessage(Stored(m.sender, PayloadOf(m)), []) + later
  {
    hide Sendable;
    hide AppendMessage;
    hide PayloadOf;
    assert ms[|done|] == ms[..|done| + 1][|done|] == m;
    assert ms[|done|..] == [m] + ms[|done| + 1..];
    ReduceStored(m, ms[|done| + 1..]);
    assert ms[..|done|] == ms[..|done| + 1][..|done|];
  }

  /**
   The parser's language: a byte string parses without error to a list exactly if the list is one
   that can be sent and the bytes are the server's fold of it. So no two byte strings parse to the
   same list, and no foreign bytes parse at all.
   */
  lemma {:induction false} ListExact(data: Bytes, ms: seq<MessageData>)
    ensures ParseRest([], data) == Parsed(ms, None) <==> AllSendable(ms) && data == Reduce(StoredRows(ms), [])
  {
    if ParseRest([], data) == Parsed(ms, None) {
      ListRewritten([], data, ms);
      assert ms[0..] == ms;
    }
    if AllSendable(ms) && data == Reduce(StoredRows(ms), []) {
      ListRoundTrip([], ms);
      assert [] + ms == ms;
    }
  }

  // ---------- Every other input ----------

  /** The bytes begin with a length that fits them and a message. */
  predicate Begins(data: Bytes) {
    |data| >= 8 && 88 <= Wrap64(Value(data[..8])) as int <= |data| - 8
  }

  lemma {:induction false} ParseFold(done: seq<MessageData>, ms: seq<MessageData>, tail: Bytes)
    requires AllSendable(ms)
    ensures ParseRest(done, Reduce(StoredRows(ms), []) + tail) == ParseRest(done + ms, tail)
    decreases |ms|
  {
    if ms == [] {
      assert [] + tail == tail && done + ms == done;
    } else {
      var m, rest := ms[0], ms[1..];
      var later := Reduce(StoredRows(rest), []);
      hide ParseRest;
      hide Reduce;
      hide StoredRows;
      hide PayloadOf;
      hide Sendable;
      ReduceStored(m, rest);
      Regroup(done, ms);
      var entry := AppendMessage(Stored(m.sender, PayloadOf(m)), []);
      hide AppendMessage;
      Concatenation(entry, later, tail);
      ParseEntry(done, m, later + tail);
      ParseFold(done + [m], rest, tail);
    }
  }

  /**
   Messages followed by something incomplete: a cut inside a prefix loses them all, a cut inside a
   body keeps them with an error, and a length below 88, negative ones included, is a panic.
   */
  lemma {:induction false} TailExact(ms: seq<MessageData>, tail: Bytes)
    requires AllSendable(ms) && !Begins(tail)
    ensures ParseRest([], Reduce(StoredRows(ms), []) + tail) ==
      if tail == [] then Parsed(ms, None)
      else if |tail| < 8 then Parsed([], Some(InsufficientLength))
      else if Wrap64(Value(tail[..8])) as int > |tail| - 8 then Parsed(ms, Some(InsufficientData))
      else Panic
  {
    ParseFold([], ms, tail);
    assert [] + ms == ms;
  }

  /** Every input is such a list with such a tail, so TailExact says what the parser gives for all of them. */
  lemma {:induction false} EveryInput(data: Bytes) returns (ms: seq<MessageData>, tail: Bytes)
    ensures AllSendable(ms) && !Begins(tail) && data == Reduce(StoredRows(ms), []) + tail
    decreases |data|
  {
    if !Begins(data) {
      ms, tail := [], data;
      assert [] + data == data;
    } else {
      var n := Wrap64(Value(data[..8])) as int;
      var prefix, body, later := data[..8], data[8..8 + n], data[8 + n..];
      var m := ParseMessageData(body).value;
      assert data == prefix + body + later;
      hide Begins;
      hide Value;
      hide Wrap64;
      hide Reduce;
      hide StoredRows;
      hide PayloadOf;
      hide Sendable;
      hide AppendMessage;
      hide ParseMessageData;
      EntryRewritten(prefix, body, m);
      var rest;
      rest, tail := EveryInput(later);
      ms := [m] + rest;
      assert ms[1..] == rest;
      ReduceStored(m, rest);
      Concatenation(prefix + body, Reduce(StoredRows(rest), []), tail);
    }
  }

  /** The server's fold cut at byte j of entry k. */
  lemma {:induction false} Truncated(ms: seq<MessageData>, k: nat, j: nat)
    requires AllSendable(ms) && k < |ms| && j < 24 + |PayloadOf(ms[k])|
    ensures var entry := AppendMessage(Stored(ms[k].sender, PayloadOf(ms[k])), []);
      && j <= |entry|
      && ParseRest([], Reduce(StoredRows(ms[..k]), []) + entry[..j]) ==
           if j == 0 then Parsed(ms[..k], None)
           else if j < 8 then Parsed([], Some(InsufficientLength))
           else Parsed(ms[..k], Some(InsufficientData))
  {
    hide PayloadOf;
    hide AppendMessage;
    hide ServerIntToBytes;
    hide Value;
    hide Wrap64;
    hide ParseRest;
    hide Reduce;
    hide StoredRows;
    AllSendableAt(ms, k);
    hide AllSendable;
    var entry, prefix := EntryPrefix(ms[k]);
    if j >= 8 {
      assert entry[..j][..8] == entry[..8];
    }
    TailExact(ms[..k], entry[..j]);
  }

  /** An entry of a list and its length prefix. */
  lemma EntryPrefix(m: MessageData) returns (entry: Bytes, prefix: Bytes)
    requires Sendable(m)
    ensures entry == AppendMessage(Stored(m.sender, PayloadOf(m)), []) && |entry| == 24 + |PayloadOf(m)|
    ensures prefix == entry[..8] && Wrap64(Value(prefix)) as int == 16 + |PayloadOf(m)|
  {
    var body := m.sender + PayloadOf(m);
    prefix := ServerIntToBytes(|body|);
    LengthRoundTrip(|body|);
    hide PayloadOf;
    hide ServerIntToBytes;
    hide Value;
    hide Wrap64;
    Concatenation(prefix, m.sender, PayloadOf(m));
    entry := prefix + body;
  }

  lemma {:induction false} AllSendableAt(ms: seq<MessageData>, k: nat)
    requires AllSendable(ms) && k < |ms|
    ensures Sendable(ms[k]) && AllSendable(ms[..k])
  {
    if k == 0 {
    } else {
      AllSendableAt(ms[1..], k - 1);
      assert ms[..k] == [ms[0]] + ms[1..][..k - 1];
    }
  }

  // ---------- Layout ----------

  /** Where everything stands in a message body. */
  lemma BodyLayout(m: MessageData)
    requires WellSized(m) && m.index >= 0
    ensures var d := PayloadOf(m);
      && |d| == 72 + |m.ciphertext|
      && d[..32] == m.publicKey && Value(d[32..40]) == m.index as int
      && d[40..|d| - 32] == m.ciphertext && d[|d| - 32..] == m.hash
  {
    hide Digits;
    hide Value;
    EightByteValue(m.index as int);
    FourSlices(m.publicKey, Digits(m.index as int, 8), m.ciphertext, m.hash);
  }

  /** Where everything stands in an entry of a list. */
  lemma EntryLayout(m: MessageData)
    requires Sendable(m)
    ensures var e := AppendMessage(Stored(m.sender, PayloadOf(m)), []);
      |e| == 24 + |PayloadOf(m)| && Value(e[..8]) == 16 + |PayloadOf(m)|
      && e[8..24] == m.sender && e[24..] == PayloadOf(m)
  {
    hide PayloadOf;
    hide Digits;
    hide Value;
    hide ServerIntToBytes;
    var n := 16 + |PayloadOf(m)|;
    EncodersAgree(n as Int64);
    EightByteValue(n);
    ThreeSlices(Digits(n, 8), m.sender, PayloadOf(m));
    assert AppendMessage(Stored(m.sender, PayloadOf(m)), []) == Digits(n, 8) + m.sender + PayloadOf(m);
  }

  lemma FourSlices<T>(a: seq<T>, b: seq<T>, c: seq<T>, d: seq<T>)
    requires |a| == 32 && |b| == 8 && |d| == 32
    ensures var data := a + b + c + d;
      && |data| == 72 + |c| && data[..32] == a && data[32..40] == b
      && data[40..|data| - 32] == c && data[|data| - 32..] == d
  {
  }

  // ---------- Message requests ----------

  /** ReceiveMessagePayload.payload: nothing, a timestamp, or a contact and a timestamp. */
  function RequestPayload(contact: Option<Bytes>, timestamp: Int64): Bytes {
    if contact.None? && timestamp == 0 then []
    else if contact.None? then Digits(timestamp as int, 8)
    else contact.value + Digits(timestamp as int, 8)
  }

  /** The server's size test. */
  function DecodeRequest(data: Bytes): (Option<Bytes>, nat) {
    if |data| > 16 then (Some(data[..16]), ServerBytesToInt(data[16..])) else (None, ServerBytesToInt(data))
  }

  /** The server reads what was meant exactly for a 16-byte contact, or none, and a non-negative timestamp. */
  lemma RequestMeaning(contact: Option<Bytes>, timestamp: Int64)
    ensures DecodeRequest(RequestPayload(contact, timestamp)) == (contact, timestamp as int) <==>
      (timestamp >= 0 && (contact.Some? ==> |contact.value| == 16))
  {
    var stamp := Digits(timestamp as int, 8);
    if timestamp >= 0 {
      EncodersAgree(timestamp);
      ServerRoundTrip(timestamp as nat);
      if contact.Some? && |contact.value| == 16 {
        assert (contact.value + stamp)[..16] == contact.value;
        assert (contact.value + stamp)[16..] == stamp;
      }
    }
  }

  /** What the server reads from any request: above 16 bytes a contact and a number, otherwise a number. */
  lemma RequestRead(contact: Bytes, stamp: Bytes)
    ensures |contact| == 16 && stamp != [] ==> DecodeRequest(contact + stamp) == (Some(contact), Value(stamp))
    ensures |stamp| <= 16 ==> DecodeRequest(stamp) == (None, Value(stamp))
  {
    ServerDecodes(stamp);
    if |contact| == 16 {
      assert (contact + stamp)[..16] == contact && (contact + stamp)[16..] == stamp;
    }
  }
}
