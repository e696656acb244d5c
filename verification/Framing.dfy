/**
 The byte stream from client to server: 8-byte length prefixes written by the client
 (client/internal/tcpclient/packet.go), read by a socket in packet mode 4
 (server/lib/tcp_server/acceptor.ex), short frames dropped (server/lib/tcp_server/data_handler.ex).
 */
module Framing {
  import opened Basics
  import opened IntCodec
  import opened Packets

  /** The complete frames of a stream, and the bytes of the last incomplete one. */
  function ReadFrames(s: Bytes): (r: (seq<Bytes>, Bytes))
    ensures r.0 == [] ==> r.1 == s
  {
    if |s| < 4 || |s| < 4 + Value(s[..4]) then ([], s)
    else
      var n := 4 + Value(s[..4]);
      var (frames, rest) := ReadFrames(s[n..]);
      ([s[4..n]] + frames, rest)
  }

  function Concat(xs: seq<Bytes>): Bytes {
    if xs == [] then [] else xs[0] + Concat(xs[1..])
  }

  /** What handle_data looks at: frames of at least 25 bytes. */
  function Handled(frames: seq<Bytes>): seq<Bytes> {
    if frames == [] then []
    else (if |frames[0]| < 25 then [] else [frames[0]]) + Handled(frames[1..])
  }

  /** An empty frame and the body, for each body. */
  function Interleaved(bodies: seq<Bytes>): seq<Bytes> {
    if bodies == [] then [] else [[], bodies[0]] + Interleaved(bodies[1..])
  }

  /** The bytes the client writes for these bodies. */
  function Written(bodies: seq<Bytes>): Bytes {
    if bodies == [] then [] else Digits(|bodies[0]|, 8) + bodies[0] + Written(bodies[1..])
  }

  lemma {:induction false} SmallDigits(v: nat, k: nat, n: nat)
    requires v < Pow256(k)
    ensures Digits(v, n + k) == Zeros(n) + Digits(v, k)
    decreases k
  {
    if k == 0 {
      ZeroDigits(n);
    } else {
      assert v / 256 < Pow256(k - 1);
      SmallDigits(v / 256, k - 1, n);
    }
  }

  lemma {:induction false} ZeroDigits(n: nat)
    ensures Digits(0, n) == Zeros(n)
  {
    if n == 0 {
    } else {
      ZeroDigits(n - 1);
    }
  }

  lemma FourBytes()
    ensures Pow256(4) == 0x1_0000_0000
  {
  }

  /** The 8-byte prefix of a length below 2^32 is a 4-byte zero followed by its 4-byte prefix. */
  lemma PrefixSplits(n: nat)
    requires n < 0x1_0000_0000
    ensures Digits(n, 8) == Zeros(4) + Digits(n, 4)
    ensures Value(Zeros(4)) == 0 && Value(Digits(n, 4)) == n
  {
    FourBytes();
    SmallDigits(n, 4, 4);
    FourByteValue(n);
    FourByteValue(0);
    ZeroDigits(4);
    hide *;
  }

  lemma FourByteValue(n: nat)
    requires n < 0x1_0000_0000
    ensures Value(Digits(n, 4)) == n
  {
    FourBytes();
    ValueOfDigits(n, 4);
    hide *;
    DivUnique(n, 0x1_0000_0000, 0, n);
  }

  lemma FrameStep(n: Bytes, body: Bytes, rest: Bytes)
    requires |n| == 4 && Value(n) == |body|
    ensures ReadFrames(n + body + rest) == ([body] + ReadFrames(rest).0, ReadFrames(rest).1)
  {
    var s := n + body + rest;
    assert s[..4] == n;
    assert s[4..4 + |body|] == body;
    assert s[4 + |body|..] == rest;
  }

  /** One client packet reads as two frames. */
  lemma {:induction false} TwoFrames(body: Bytes, rest: Bytes)
    requires |body| < 0x1_0000_0000
    ensures ReadFrames(Digits(|body|, 8) + body + rest) == ([[], body] + ReadFrames(rest).0, ReadFrames(rest).1)
  {
    PrefixSplits(|body|);
    var n := Digits(|body|, 4);
    assert Digits(|body|, 8) + body + rest == Zeros(4) + [] + (n + body + rest);
    FrameStep(Zeros(4), [], n + body + rest);
    FrameStep(n, body, rest);
    hide *;
    assert [[]] + ([body] + ReadFrames(rest).0) == [[], body] + ReadFrames(rest).0;
  }

  /** The framed reader sees an empty frame and then the body, for every packet, and nothing is left over. */
  lemma {:induction false} ClientStream(bodies: seq<Bytes>)
    requires forall i | 0 <= i < |bodies| :: |bodies[i]| < 0x1_0000_0000
    ensures ReadFrames(Written(bodies)) == (Interleaved(bodies), [])
  {
    if bodies == [] {
    } else {
      ClientStream(bodies[1..]);
      TwoFrames(bodies[0], Written(bodies[1..]));
      hide ReadFrames;
      hide Digits;
    }
  }

  lemma HandledFirst(frame: Bytes, frames: seq<Bytes>)
    ensures Handled([frame] + frames) == (if |frame| < 25 then [] else [frame]) + Handled(frames)
  {
    assert ([frame] + frames)[1..] == frames;
  }

  lemma {:induction false} EmptyFramesDropped(bodies: seq<Bytes>)
    ensures Handled(Interleaved(bodies)) == Handled(bodies)
  {
    if bodies == [] {
    } else {
      var body, rest := bodies[0], bodies[1..];
      EmptyFramesDropped(rest);
      assert bodies == [body] + rest;
      assert Interleaved(bodies) == [[]] + ([body] + Interleaved(rest));
      hide Interleaved;
      hide Handled;
      HandledFirst([], [body] + Interleaved(rest));
      HandledFirst(body, Interleaved(rest));
      HandledFirst(body, rest);
    }
  }

  predicate NoneShort(bodies: seq<Bytes>) {
    forall i | 0 <= i < |bodies| :: |bodies[i]| >= 25
  }

  /** Nothing is lost exactly if no body is below 25 bytes. */
  lemma {:induction false} HandledExactly(bodies: seq<Bytes>)
    ensures Handled(bodies) == bodies <==> NoneShort(bodies)
    ensures |Handled(bodies)| <= |bodies|
  {
    if bodies == [] {
    } else {
      HandledExactly(bodies[1..]);
      assert bodies == [bodies[0]] + bodies[1..];
      assert NoneShort(bodies) <==> |bodies[0]| >= 25 && NoneShort(bodies[1..]);
    }
  }

  datatype Outgoing = Outgoing(packet: Packet, authId: Id, authToken: Token)

  function Bodies(ks: seq<Outgoing>): seq<Bytes> {
    if ks == [] then [] else [Body(ks[0].packet, ks[0].authId, ks[0].authToken)] + Bodies(ks[1..])
  }

  /** The stream of the packets that the client does not refuse to write. */
  function Stream(ks: seq<Outgoing>): Bytes
    requires forall i | 0 <= i < |ks| :: Payload(ks[i].packet, ks[i].authId, ks[i].authToken).Ok?
  {
    if ks == [] then [] else Payload(ks[0].packet, ks[0].authId, ks[0].authToken).value + Stream(ks[1..])
  }

  lemma {:induction false} StreamIsWritten(ks: seq<Outgoing>)
    requires forall i | 0 <= i < |ks| :: Payload(ks[i].packet, ks[i].authId, ks[i].authToken).Ok?
    ensures Stream(ks) == Written(Bodies(ks)) && |Bodies(ks)| == |ks|
    ensures forall i | 0 <= i < |ks| ::
      && Bodies(ks)[i] == Body(ks[i].packet, ks[i].authId, ks[i].authToken)
      && 18 <= |Bodies(ks)[i]| <= MAX_MESSAGE_SIZE + 66
  {
    if ks == [] {
    } else {
      StreamIsWritten(ks[1..]);
      assert Bodies(ks)[1..] == Bodies(ks[1..]);
    }
  }

  /** The server handles exactly the packets the client wrote, in order, if and only if none is below 25 bytes. */
  lemma {:induction false} ServerHandlesStream(ks: seq<Outgoing>)
    requires forall i | 0 <= i < |ks| :: Payload(ks[i].packet, ks[i].authId, ks[i].authToken).Ok?
    ensures ReadFrames(Stream(ks)) == (Interleaved(Bodies(ks)), [])
    ensures Handled(ReadFrames(Stream(ks)).0) == Bodies(ks) <==>
      forall i | 0 <= i < |ks| :: !Short(ks[i])
  {
    StreamIsWritten(ks);
    ClientStream(Bodies(ks));
    EmptyFramesDropped(Bodies(ks));
    HandledExactly(Bodies(ks));
  }

  /** One written packet, read on its own: its body is the one frame the server handles. */
  lemma OnePacket(k: Outgoing)
    requires Payload(k.packet, k.authId, k.authToken).Ok? && !Short(k)
    ensures Handled(ReadFrames(Payload(k.packet, k.authId, k.authToken).value).0) ==
      [Body(k.packet, k.authId, k.authToken)]
  {
    var written := Payload(k.packet, k.authId, k.authToken).value;
    hide ReadFrames;
    hide Payload;
    hide Body;
    hide Handled;
    ServerHandlesStream([k]);
    assert Stream([k]) == written + [] == written;
  }

  // ---------- From packets to requests ----------

  function Decoded(frames: seq<Bytes>, verify: (Bytes, Bytes) -> Verification): seq<Result<Request, Reason>> {
    if frames == [] then [] else [HandleData(frames[0], verify)] + Decoded(frames[1..], verify)
  }

  function Meanings(ks: seq<Outgoing>, verify: (Bytes, Bytes) -> Verification): (r: seq<Result<Request, Reason>>)
    ensures |r| == |ks|
  {
    if ks == [] then []
    else
      var k := ks[0];
      [Meaning(k.packet, k.authId, k.authToken, verify(k.authId, k.authToken))] + Meanings(ks[1..], verify)
  }

  predicate Short(k: Outgoing) {
    |Body(k.packet, k.authId, k.authToken)| < 25
  }

  function Long(ks: seq<Outgoing>): seq<Outgoing> {
    if ks == [] then [] else (if Short(ks[0]) then [] else [ks[0]]) + Long(ks[1..])
  }

  lemma {:induction false} LongExactly(ks: seq<Outgoing>)
    ensures |Long(ks)| < |ks| || Long(ks) == ks
    ensures Long(ks) == ks <==> forall i | 0 <= i < |ks| :: !Short(ks[i])
  {
    if ks == [] {
    } else {
      LongExactly(ks[1..]);
      assert ks == [ks[0]] + ks[1..];
      assert (forall i | 0 <= i < |ks| :: !Short(ks[i])) <==>
        !Short(ks[0]) && forall i | 0 <= i < |ks[1..]| :: !Short(ks[1..][i]);
    }
  }

  lemma {:induction false} DecodedBodies(ks: seq<Outgoing>, verify: (Bytes, Bytes) -> Verification)
    ensures Decoded(Handled(Bodies(ks)), verify) == Meanings(Long(ks), verify)
  {
    if ks == [] {
    } else {
      var k := ks[0];
      DecodedBodies(ks[1..], verify);
      RequestRoundTrip(k.packet, k.authId, k.authToken, verify);
      hide Body;
      hide HandleData;
      hide Meaning;
      assert Bodies(ks)[1..] == Bodies(ks[1..]);
      if Short(k) {
        assert Handled(Bodies(ks)) == Handled(Bodies(ks[1..]));
        assert Long(ks) == Long(ks[1..]);
      } else {
        assert Handled(Bodies(ks))[1..] == Handled(Bodies(ks[1..]));
        assert Long(ks)[1..] == Long(ks[1..]);
      }
    }
  }

  /**
   From the packets the client writes, through the byte stream, the framed reader and handle_data,
   the server obtains the meaning of each packet that is not short, in order and nothing else.
   */
  lemma {:induction false} ServerDecodesStream(ks: seq<Outgoing>, verify: (Bytes, Bytes) -> Verification)
    requires forall i | 0 <= i < |ks| :: Payload(ks[i].packet, ks[i].authId, ks[i].authToken).Ok?
    ensures Decoded(Handled(ReadFrames(Stream(ks)).0), verify) == Meanings(Long(ks), verify)
  {
    ServerHandlesStream(ks);
    EmptyFramesDropped(Bodies(ks));
    DecodedBodies(ks, verify);
  }

  /** These are the meanings of all packets sent exactly if none is short. */
  lemma {:induction false} AllDecodedExactly(ks: seq<Outgoing>, verify: (Bytes, Bytes) -> Verification)
    ensures Meanings(Long(ks), verify) == Meanings(ks, verify) <==> forall i | 0 <= i < |ks| :: !Short(ks[i])
  {
    LongExactly(ks);
  }

  // ---------- Segmentation ----------

  /** Reading a stream in two parts gives the same frames as reading it whole. */
  lemma {:induction false} ReadInParts(a: Bytes, b: Bytes)
    ensures ReadFrames(a + b) ==
      (ReadFrames(a).0 + ReadFrames(ReadFrames(a).1 + b).0, ReadFrames(ReadFrames(a).1 + b).1)
    decreases |a|
  {
    if |a| >= 4 && |a| >= 4 + Value(a[..4]) {
      var n := 4 + Value(a[..4]);
      assert (a + b)[..4] == a[..4];
      assert (a + b)[4..n] == a[4..n];
      assert (a + b)[n..] == a[n..] + b;
      ReadInParts(a[n..], b);
      var first, later := ReadFrames(a[n..]).0, ReadFrames(ReadFrames(a).1 + b).0;
      assert [a[4..n]] + (first + later) == [a[4..n]] + first + later;
    } else {
      assert [] + ReadFrames(a + b).0 == ReadFrames(a + b).0;
    }
  }

  /** A reader that is handed the stream in arbitrary chunks. */
  function ReadChunks(buffer: Bytes, chunks: seq<Bytes>): (seq<Bytes>, Bytes)
    decreases |chunks|
  {
    if chunks == [] then ReadFrames(buffer)
    else
      var (frames, rest) := ReadFrames(buffer + chunks[0]);
      var (more, left) := ReadChunks(rest, chunks[1..]);
      (frames + more, left)
  }

  /** The bytes left over hold no complete frame. */
  lemma {:induction false} RestIsIncomplete(s: Bytes)
    ensures ReadFrames(ReadFrames(s).1) == ([], ReadFrames(s).1)
  {
    if |s| < 4 || |s| < 4 + Value(s[..4]) {
    } else {
      RestIsIncomplete(s[4 + Value(s[..4])..]);
    }
  }

  /** However the stream is cut into chunks, the frames are those of the whole stream, and none is left in the rest. */
  lemma {:induction false} ChunkingIrrelevant(buffer: Bytes, chunks: seq<Bytes>)
    ensures ReadChunks(buffer, chunks) == ReadFrames(buffer + Concat(chunks))
    ensures ReadFrames(ReadChunks(buffer, chunks).1) == ([], ReadChunks(buffer, chunks).1)
    decreases |chunks|
  {
    if chunks == [] {
      assert buffer + Concat(chunks) == buffer;
    } else {
      var a := buffer + chunks[0];
      ChunkingIrrelevant(ReadFrames(a).1, chunks[1..]);
      ReadInParts(a, Concat(chunks[1..]));
      assert buffer + Concat(chunks) == a + Concat(chunks[1..]);
    }
    RestIsIncomplete(buffer + Concat(chunks));
  }
}
