/**
 The ratchet and the wire together: a message of a two-party run, written by the sending client,
 carried and stored by the server and parsed by the receiving client, is the message that was sent.
 */
module Transport {
  import opened Basics
  import opened Crypto
  import opened Chain
  import opened Parties
  import opened Turns
  import opened Agreement
  import opened IntCodec
  import opened MessageList
  import Packets
  import Framing

  /** A message with its sender, as the formats carry it: the index is a 64-bit integer. */
  function DataOf(sender: Bytes, e: Envelope): MessageData {
    MessageData(sender, e.publicKey, Wrap64(e.wire.index), e.wire.body.ciphertext, e.wire.body.mac)
  }

  /** The Message object the client makes of it. */
  function EnvelopeOf(m: MessageData): Envelope {
    Envelope(m.publicKey, Wire(m.index as int, Sealed(m.ciphertext, m.hash)))
  }

  predicate Fits(e: Envelope) {
    && |e.publicKey| == KEY_LENGTH && |e.wire.body.mac| == 32
    && 0 <= e.wire.index < TWO_63
  }

  // ---------- Every message of a run fits the formats ----------

  lemma PostSized(p: Primitives, keys: seq<KeyPair>, m: Post)
    requires KeysHold(p, keys) && PostHolds(p, keys, m) && m.envelope.wire.index < TWO_63
    ensures Fits(m.envelope)
  {
    PublicKeySize(p, keys[m.turn + 1]);
  }

  lemma {:induction false} PostFits(p: Primitives, es: seq<Event>, w: World, d: nat)
    requires Leads(p, es, w) && d < |w.mail| && w.mail[d].envelope.wire.index < TWO_63
    ensures Fits(w.mail[d].envelope)
  {
    hide Leads;
    RunHolds(p, es, w);
    hide KeysHold;
    assert PostHolds(p, w.keys, w.mail[d]);
    PostSized(p, w.keys, w.mail[d]);
  }

  // ---------- Sending ----------

  /** SendMessage: the contact's id and the message's payload are the data of a request. */
  function SendRequest(version: Byte, messageId: Packets.Id, contact: Packets.Id, m: MessageData): Packets.Packet {
    Packets.Packet(version, Packets.ClientCode(Packets.SendMessage), messageId, contact + PayloadOf(m))
  }

  /** What the server makes of the request: the receiver, and the row to store. None is a failing match. */
  function Delivery(r: Packets.Request): Option<(Bytes, Stored)> {
    if r.messageType == Some(Packets.SendMessage) && r.sender.Some? && |r.data| >= 16
    then Some((r.data[..16], Stored(r.sender.value, r.data[16..])))
    else None
  }

  /**
   Which frames the server stores as a message, for whom and from whom: exactly those of type 7 with
   credentials that verify, and with a receiver.
   */
  lemma StoredExact(frame: Bytes, verify: (Bytes, Bytes) -> Packets.Verification, receiver: Bytes, row: Stored)
    ensures
      (Packets.HandleData(frame, verify).Ok?
       && Delivery(Packets.HandleData(frame, verify).value) == Some((receiver, row))) <==>
      (|frame| >= 82 && frame[1] == 7 && verify(frame[18..34], frame[34..66]) == Packets.Verified(true)
       && receiver == frame[66..82] && row == Stored(frame[18..34], frame[82..]))
  {
    Packets.AcceptExact(frame, verify);
    if Packets.HandleData(frame, verify).Ok? {
      Packets.AcceptedLayout(frame, verify);
      Packets.CodesExact(frame[1], Packets.SendMessage);
      hide Packets.HandleData;
      if |frame| >= 82 {
        assert frame[66..][..16] == frame[66..82] && frame[66..][16..] == frame[82..];
      }
    }
  }

  /** A send request with both credentials and at most 1 MB of data is written. */
  lemma SendIsWritten(version: Byte, messageId: Packets.Id, contact: Packets.Id, m: MessageData,
                      authId: Packets.Id, authToken: Packets.Token)
    requires authId != Zeros(16) && authToken != Zeros(32) && 16 + |PayloadOf(m)| <= 1048576
    ensures Packets.Payload(SendRequest(version, messageId, contact, m), authId, authToken).Ok?
  {
    Packets.WriteExact(SendRequest(version, messageId, contact, m), authId, authToken);
  }

  /** The server takes from the bytes of a send request the contact, the verified sender and the payload. */
  lemma SendRoundTrip(version: Byte, messageId: Packets.Id, contact: Packets.Id, m: MessageData, authId: Packets.Id,
                      authToken: Packets.Token, verify: (Bytes, Bytes) -> Packets.Verification)
    requires authId != Zeros(16) && authToken != Zeros(32) && 16 + |PayloadOf(m)| <= 1048576
    requires verify(authId, authToken) == Packets.Verified(true)
    ensures var written := Packets.Payload(SendRequest(version, messageId, contact, m), authId, authToken);
      && written.Ok?
      && var frames := Framing.Handled(Framing.ReadFrames(written.value).0);
         && |frames| == 1
         && var r := Packets.HandleData(frames[0], verify);
            r.Ok? && Delivery(r.value) == Some((contact, Stored(authId, PayloadOf(m))))
  {
    hide PayloadOf;
    hide Framing.Handled;
    hide Framing.ReadFrames;
    var k := SendRequest(version, messageId, contact, m);
    SendIsWritten(version, messageId, contact, m, authId, authToken);
    Framing.OnePacket(Framing.Outgoing(k, authId, authToken));
    hide Packets.Payload;
    var data := contact + PayloadOf(m);
    Packets.RequestRoundTrip(k, authId, authToken, verify);
    assert data[..16] == contact && data[16..] == PayloadOf(m);
    hide Packets.HandleData;
    hide Packets.Body;
  }

  // ---------- Receiving ----------

  /** The packet the server pushes to a connected receiver, as it reaches the client. */
  function Push(messageId: Packets.Id, row: Stored): Result<Bytes, Packets.Reason> {
    var body := Packets.CreatePacket(1, Some(Packets.RecvMessage), messageId,
                                     Packets.Binary(row.senderIdHash + row.messageData));
    if body.Ok? then Ok(Packets.Framed(body.value)) else Err(body.error)
  }

  /** What the client makes of a pushed packet. */
  function Pulled(packet: Bytes): Option<Envelope> {
    var k := Packets.ParsePacket(packet);
    if k.Err? then None
    else
      var m := ParseMessageData(k.value.data);
      if m.None? then None else Some(EnvelopeOf(m.value))
  }

  lemma DataRestored(sender: Bytes, e: Envelope)
    requires Fits(e)
    ensures EnvelopeOf(DataOf(sender, e)) == e
    ensures |sender| == 16 ==> WellSized(DataOf(sender, e))
  {
    WrapOf(e.wire.index);
  }

  lemma PushRoundTrip(messageId: Packets.Id, m: MessageData)
    requires WellSized(m)
    ensures var packet := Push(messageId, Stored(m.sender, PayloadOf(m)));
      packet.Ok? && Pulled(packet.value) == Some(EnvelopeOf(m))
  {
    hide PayloadOf;
    hide ParseMessageData;
    Packets.ResponseRoundTrip(Packets.RecvMessage, messageId, Packets.Binary(m.sender + PayloadOf(m)));
    PushedRoundTrip(m);
    hide Packets.ParsePacket;
    hide Packets.CreatePacket;
    hide Packets.Framed;
  }

  // ---------- End to end ----------

  /** A message of a run that is sent over the wire and pushed to its receiver arrives as it was sent. */
  lemma {:induction false} PushedArrives(
    p: Primitives, es: seq<Event>, w: World, d: nat, version: Byte, id: Packets.Id, contact: Packets.Id,
    authId: Packets.Id, authToken: Packets.Token, verify: (Bytes, Bytes) -> Packets.Verification)
    requires Leads(p, es, w) && d < |w.mail| && w.mail[d].envelope.wire.index < TWO_63
    requires 16 + |PayloadOf(DataOf(authId, w.mail[d].envelope))| <= 1048576
    requires authId != Zeros(16) && authToken != Zeros(32) && verify(authId, authToken) == Packets.Verified(true)
    ensures var e := w.mail[d].envelope;
      var written := Packets.Payload(SendRequest(version, id, contact, DataOf(authId, e)), authId, authToken);
      && written.Ok?
      && var frames := Framing.Handled(Framing.ReadFrames(written.value).0);
         && |frames| == 1
         && var r := Packets.HandleData(frames[0], verify);
            && r.Ok? && Delivery(r.value).Some? && Delivery(r.value).value.0 == contact
            && var packet := Push(id, Delivery(r.value).value.1);
               packet.Ok? && Pulled(packet.value) == Some(e)
  {
    hide Leads;
    hide Delivery;
    hide Push;
    hide Pulled;
    hide PayloadOf;
    hide SendRequest;
    hide Packets.Payload;
    hide Packets.HandleData;
    hide Framing.Handled;
    hide Framing.ReadFrames;
    var e := w.mail[d].envelope;
    PostFits(p, es, w, d);
    DataRestored(authId, e);
    SendRoundTrip(version, id, contact, DataOf(authId, e), authId, authToken, verify);
    PushRoundTrip(id, DataOf(authId, e));
  }

  /** The envelopes of the messages `ds`, with their senders. */
  function Listing(w: World, ds: seq<nat>, senders: seq<Packets.Id>): (ms: seq<MessageData>)
    requires |senders| == |ds|
    requires forall i | 0 <= i < |ds| :: ds[i] < |w.mail|
    ensures |ms| == |ds| && forall i | 0 <= i < |ds| :: ms[i] == DataOf(senders[i], w.mail[ds[i]].envelope)
  {
    if ds == [] then []
    else [DataOf(senders[0], w.mail[ds[0]].envelope)] + Listing(w, ds[1..], senders[1..])
  }

  /** Messages of a run that the server stored and lists for their receiver arrive as they were sent, in order. */
  lemma {:induction false} ListedArrive(p: Primitives, es: seq<Event>, w: World, ds: seq<nat>, senders: seq<Packets.Id>)
    requires Leads(p, es, w) && |senders| == |ds|
    requires forall i | 0 <= i < |ds| :: ds[i] < |w.mail| && w.mail[ds[i]].envelope.wire.index < TWO_63
    requires forall i | 0 <= i < |ds| ::
      |PayloadOf(DataOf(senders[i], w.mail[ds[i]].envelope))| + 16 < TWO_63
    ensures var r := ParseRest([], Reduce(StoredRows(Listing(w, ds, senders)), []));
      && r.Parsed? && r.error.None? && |r.messages| == |ds|
      && forall i | 0 <= i < |ds| :: EnvelopeOf(r.messages[i]) == w.mail[ds[i]].envelope
  {
    hide Leads;
    hide PayloadOf;
    hide Reduce;
    hide StoredRows;
    hide ParseRest;
    var ms := Listing(w, ds, senders);
    forall i | 0 <= i < |ds|
      ensures Sendable(ms[i]) && EnvelopeOf(ms[i]) == w.mail[ds[i]].envelope
    {
      PostFits(p, es, w, ds[i]);
      DataRestored(senders[i], w.mail[ds[i]].envelope);
    }
    EachSendable(ms);
    ListExact(Reduce(StoredRows(ms), []), ms);
  }

  lemma {:induction false} EachSendable(ms: seq<MessageData>)
    requires forall i | 0 <= i < |ms| :: Sendable(ms[i])
    ensures AllSendable(ms)
  {
    if ms == [] {
    } else {
      EachSendable(ms[1..]);
    }
  }
}
