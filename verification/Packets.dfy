/**
 The packet format, as the client writes and reads it (client/internal/tcpclient/packet.go) and
 as the server reads and writes it (server/lib/tcp_server/data_handler.ex, utils.ex).
 */
module Packets {
  import opened Basics
  import opened IntCodec

  const MAX_MESSAGE_SIZE := 1024 * 1024

  type Id = b: Bytes | |b| == 16 witness Zeros(16)
  type Token = b: Bytes | |b| == 32 witness Zeros(32)

  datatype PacketType =
    | Ack | Error | Handshake | ReqLogin | ReqSignup | ReqLogout
    | ReqKey | SendMessage | RecvMessage | ReqMessages | ReqPubKey

  // ---------- The client ----------

  /** The client's numbering: an iota block. */
  function ClientCode(t: PacketType): (n: Byte) {
    match t
    case Ack => 0
    case Error => 1
    case Handshake => 2
    case ReqLogin => 3
    case ReqSignup => 4
    case ReqLogout => 5
    case ReqKey => 6
    case SendMessage => 7
    case RecvMessage => 8
    case ReqMessages => 9
    case ReqPubKey => 10
  }

  datatype Packet = Packet(version: Byte, messageType: Byte, messageId: Id, data: Bytes)

  datatype PayloadError = DataTooLong | AuthNotSet | InvalidPacketLength

  predicate CarriesAuth(messageType: Byte) {
    messageType != ClientCode(ReqKey) && messageType != ClientCode(ReqLogin) && messageType != ClientCode(ReqSignup)
  }

  /** What stands between the length prefix and the end of a client packet. */
  function Body(k: Packet, authId: Id, authToken: Token): Bytes {
    [k.version, k.messageType] + k.messageId + (if CarriesAuth(k.messageType) then authId + authToken else []) + k.data
  }

  function Payload(k: Packet, authId: Id, authToken: Token): Result<Bytes, PayloadError> {
    if |k.data| > MAX_MESSAGE_SIZE then Err(DataTooLong)
    else if CarriesAuth(k.messageType) && (authId == Zeros(16) || authToken == Zeros(32)) then Err(AuthNotSet)
    else Ok(Digits(|Body(k, authId, authToken)|, 8) + Body(k, authId, authToken))
  }

  method WritePayload(k: Packet, authId: Id, authToken: Token) returns (r: Result<Bytes, PayloadError>)
    ensures r == Payload(k, authId, authToken)
  {
    if |k.data| > MAX_MESSAGE_SIZE {
      return Err(DataTooLong);
    }
    var message: Bytes := [k.version];
    message := message + [k.messageType];
    message := message + k.messageId;
    if CarriesAuth(k.messageType) {
      if authId == Zeros(16) || authToken == Zeros(32) {
        return Err(AuthNotSet);
      }
      message := message + authId;
      message := message + authToken;
    }
    message := message + k.data;
    assert message == Body(k, authId, authToken);
    var prefix := IntToBytes(|message| as Int64);
    r := Ok(prefix + message);
  }

  /** parsePacket skips the four bytes of the server's frame length. */
  function ParsePacket(data: Bytes): Result<Packet, PayloadError> {
    if |data| < 22 then Err(InvalidPacketLength)
    else Ok(Packet(data[4], data[5], data[6..22], data[22..]))
  }

  // ---------- The server ----------

  function PacketToInt(t: PacketType): Byte {
    match t
    case Ack => 0
    case Error => 1
    case Handshake => 2
    case ReqLogin => 3
    case ReqSignup => 4
    case ReqLogout => 5
    case ReqKey => 6
    case SendMessage => 7
    case RecvMessage => 8
    case ReqMessages => 9
    case ReqPubKey => 10
  }

  function PacketBinToAtom(b: Byte): Option<PacketType> {
    match b
    case 0 => Some(Ack)
    case 1 => Some(Error)
    case 2 => Some(Handshake)
    case 3 => Some(ReqLogin)
    case 4 => Some(ReqSignup)
    case 5 => Some(ReqLogout)
    case 6 => Some(ReqKey)
    case 7 => Some(SendMessage)
    case 8 => Some(RecvMessage)
    case 9 => Some(ReqMessages)
    case 10 => Some(ReqPubKey)
    case _ => None
  }

  datatype ResponseType = Plain | NoAuth | WithAuth

  function GetPacketResponseType(t: Option<PacketType>): ResponseType {
    match t
    case Some(Ack) => Plain
    case Some(Error) => Plain
    case Some(ReqKey) => Plain
    case Some(ReqLogin) => NoAuth
    case Some(ReqSignup) => NoAuth
    case _ => WithAuth
  }

  datatype Reason = InvalidPacket | InvalidNoAuth | InvalidWithAuth | InvalidAuthVerify | TokenLookupFailed
                  | InvalidVersion | InvalidType

  /** The outcome of the token lookup, which is not modelled further. */
  datatype Verification = Verified(ok: bool) | LookupFailed

  datatype Request = Request(messageType: Option<PacketType>, messageId: Id, sender: Option<Bytes>, data: Bytes)

  function ParsePacketData(data: Bytes, responseType: ResponseType, verify: (Bytes, Bytes) -> Verification)
    : Result<(Option<Bytes>, Bytes), Reason>
  {
    match responseType
    case Plain => Ok((None, data))
    case NoAuth => if |data| < 16 then Err(InvalidNoAuth) else Ok((Some(data[..16]), data[16..]))
    case WithAuth =>
      if |data| < 48 then Err(InvalidWithAuth)
      else
        match verify(data[..16], data[16..48])
        case Verified(ok) => if ok then Ok((Some(data[..16]), data[48..])) else Err(InvalidAuthVerify)
        case LookupFailed => Err(TokenLookupFailed)
  }

  /** The decoding half of handle_data: short frames are dropped, then the header and the data are parsed. */
  function HandleData(frame: Bytes, verify: (Bytes, Bytes) -> Verification): Result<Request, Reason> {
    if |frame| < 25 then Err(InvalidPacket)
    else
      var t := PacketBinToAtom(frame[1]);
      match ParsePacketData(frame[18..], GetPacketResponseType(t), verify)
      case Ok((sender, data)) => Ok(Request(t, frame[2..18], sender, data))
      case Err(reason) => Err(reason)
  }

  /** A reply's data, with the bytes that stand for it: an atom's name, a binary, or an external encoding. */
  datatype Term = Atom(bytes: Bytes) | Binary(bytes: Bytes) | Other(bytes: Bytes)

  function CreatePacket(version: int, t: Option<PacketType>, messageId: Bytes, data: Term): Result<Bytes, Reason> {
    if version != 1 then Err(InvalidVersion)
    else if t.None? then Err(InvalidType)
    else Ok([1, PacketToInt(t.value)] + messageId + data.bytes)
  }

  // ---------- When each side refuses ----------

  /**
   The client writes a packet exactly if its data is at most 1 MB and it has the credentials that
   all types but login, signup and key requests (3, 4 and 6) carry; which error it gives otherwise.
   */
  lemma WriteExact(k: Packet, authId: Id, authToken: Token)
    ensures var credentials :=
        k.messageType in {3, 4, 6}
        || (authId != Zeros(16) && authToken != Zeros(32));
      && (Payload(k, authId, authToken).Ok? <==> |k.data| <= 1048576 && credentials)
      && (Payload(k, authId, authToken) == Err(DataTooLong) <==> |k.data| > 1048576)
      && (Payload(k, authId, authToken) == Err(AuthNotSet) <==> |k.data| <= 1048576 && !credentials)
  {
  }

  /** Where everything stands in a packet the client writes: the length of the rest, then the rest. */
  lemma WrittenLayout(k: Packet, authId: Id, authToken: Token)
    requires Payload(k, authId, authToken).Ok?
    ensures var w := Payload(k, authId, authToken).value;
      && |w| >= 26 && Value(w[..8]) == |w| - 8
      && var b := w[8..];
         && b[0] == k.version && b[1] == k.messageType && b[2..18] == k.messageId
         && (if CarriesAuth(k.messageType)
             then |b| >= 66 && b[18..34] == authId && b[34..66] == authToken && b[66..] == k.data
             else b[18..] == k.data)
  {
    var body := Body(k, authId, authToken);
    var w := Payload(k, authId, authToken).value;
    BodySlices(k, authId, authToken);
    hide Body;
    EightByteValue(|body|);
    hide Digits;
    hide Value;
    assert w[..8] == Digits(|body|, 8) && w[8..] == body;
  }

  lemma BodySlices(k: Packet, authId: Id, authToken: Token)
    ensures var b := Body(k, authId, authToken);
      && 18 <= |b| <= 66 + |k.data|
      && b[0] == k.version && b[1] == k.messageType && b[2..18] == k.messageId
      && (if CarriesAuth(k.messageType)
          then |b| >= 66 && b[18..34] == authId && b[34..66] == authToken && b[66..] == k.data
          else b[18..] == k.data)
  {
    var rest := (if CarriesAuth(k.messageType) then authId + authToken else []) + k.data;
    var b := [k.version, k.messageType] + (k.messageId + rest);
    assert Body(k, authId, authToken) == b;
    hide Body;
    HeaderParts(k.version, k.messageType, k.messageId, rest);
    if CarriesAuth(k.messageType) {
      AuthParts(authId, authToken, k.data);
      assert b[18..34] == rest[..16] && b[34..66] == rest[16..48] && b[66..] == rest[48..];
    } else {
      assert rest == k.data;
    }
  }

  /**
   The server accepts a frame exactly if it is long enough for its type and its credentials verify.
   Acknowledgements, errors and key requests (0, 1 and 6) carry none, login and signup (3, 4) an id.
   */
  lemma AcceptExact(frame: Bytes, verify: (Bytes, Bytes) -> Verification)
    ensures HandleData(frame, verify).Ok? <==>
      && |frame| >= 25
      && if frame[1] in {0, 1, 6} then true
         else if frame[1] in {3, 4} then |frame| >= 34
         else |frame| >= 66 && verify(frame[18..34], frame[34..66]) == Verified(true)
  {
    if |frame| >= 66 {
      assert frame[18..][..16] == frame[18..34];
      assert frame[18..][16..48] == frame[34..66];
    }
  }

  /** What an accepted frame holds, by position. */
  lemma AcceptedLayout(frame: Bytes, verify: (Bytes, Bytes) -> Verification)
    requires HandleData(frame, verify).Ok?
    ensures var r := HandleData(frame, verify).value;
      && r.messageType == PacketBinToAtom(frame[1]) && r.messageId == frame[2..18]
      && if frame[1] in {0, 1, 6} then r.sender == None && r.data == frame[18..]
         else |frame| >= 34 && r.sender == Some(frame[18..34])
              && if frame[1] in {3, 4} then r.data == frame[34..]
                 else |frame| >= 66 && r.data == frame[66..]
  {
    if |frame| >= 66 {
      assert frame[18..][48..] == frame[66..];
    }
    if |frame| >= 34 {
      assert frame[18..][..16] == frame[18..34];
      assert frame[18..][16..] == frame[34..];
    }
  }

  /** Which error a refused frame gives. */
  lemma RefusalReason(frame: Bytes, verify: (Bytes, Bytes) -> Verification)
    requires HandleData(frame, verify).Err?
    ensures HandleData(frame, verify).error ==
      if |frame| < 25 then InvalidPacket
      else if frame[1] in {3, 4} then InvalidNoAuth
      else if |frame| < 66 then InvalidWithAuth
      else if verify(frame[18..34], frame[34..66]).LookupFailed? then TokenLookupFailed
      else InvalidAuthVerify
  {
    if |frame| >= 66 {
      assert frame[18..][..16] == frame[18..34];
      assert frame[18..][16..48] == frame[34..66];
    }
  }

  /** The server builds a reply exactly for version 1 and a known type; the client parses any body of 18 bytes. */
  lemma ReplyExact(version: int, t: Option<PacketType>, messageId: Bytes, data: Term, body: Bytes)
    ensures CreatePacket(version, t, messageId, data).Ok? <==> version == 1 && t.Some?
    ensures version != 1 ==> CreatePacket(version, t, messageId, data) == Err(InvalidVersion)
    ensures ParsePacket(Framed(body)).Ok? <==> |body| >= 18
  {
  }

  // ---------- Agreement ----------

  lemma CodesAgree(t: PacketType)
    ensures ClientCode(t) == PacketToInt(t) && PacketBinToAtom(ClientCode(t)) == Some(t)
  {
  }

  /** A type byte is understood exactly if it is the code of some type, and of one type only. */
  lemma CodesExact(b: Byte, t: PacketType)
    ensures PacketBinToAtom(b) == Some(t) <==> ClientCode(t) == b
  {
  }

  /**
   What the server makes of a client packet, given the outcome of looking up its credentials.
   Acknowledgements and errors are the types on which the two sides disagree: the client sends
   credentials that the server takes for data. A type byte without a type reads as none.
   */
  function Meaning(k: Packet, authId: Id, authToken: Token, lookup: Verification): Result<Request, Reason> {
    var t := PacketBinToAtom(k.messageType);
    match t
    case Some(ReqKey) =>
      if |k.data| < 7 then Err(InvalidPacket) else Ok(Request(t, k.messageId, None, k.data))
    case Some(ReqLogin) => LoginMeaning(k)
    case Some(ReqSignup) => LoginMeaning(k)
    case Some(Ack) => Ok(Request(t, k.messageId, None, authId + authToken + k.data))
    case Some(Error) => Ok(Request(t, k.messageId, None, authId + authToken + k.data))
    case _ =>
      match lookup
      case Verified(ok) => if ok then Ok(Request(t, k.messageId, Some(authId), k.data)) else Err(InvalidAuthVerify)
      case LookupFailed => Err(TokenLookupFailed)
  }

  /** Login and signup carry the id at the head of their data. */
  function LoginMeaning(k: Packet): Result<Request, Reason> {
    if |k.data| < 7 then Err(InvalidPacket)
    else if |k.data| < 16 then Err(InvalidNoAuth)
    else Ok(Request(PacketBinToAtom(k.messageType), k.messageId, Some(k.data[..16]), k.data[16..]))
  }

  /** The server reads its meaning from the body of every client packet, whatever its type byte and data. */
  lemma RequestRoundTrip(k: Packet, authId: Id, authToken: Token, verify: (Bytes, Bytes) -> Verification)
    ensures HandleData(Body(k, authId, authToken), verify) == Meaning(k, authId, authToken, verify(authId, authToken))
  {
    var rest := (if CarriesAuth(k.messageType) then authId + authToken else []) + k.data;
    assert Body(k, authId, authToken) == [k.version, k.messageType] + (k.messageId + rest);
    HeaderParts(k.version, k.messageType, k.messageId, rest);
    if CarriesAuth(k.messageType) {
      AuthParts(authId, authToken, k.data);
    } else {
      assert rest == k.data;
    }
  }

  lemma HeaderParts(version: Byte, code: Byte, messageId: Id, rest: Bytes)
    ensures var body := [version, code] + (messageId + rest);
      |body| == 18 + |rest| && body[1] == code && body[2..18] == messageId && body[18..] == rest
  {
  }

  lemma AuthParts(authId: Id, authToken: Token, data: Bytes)
    ensures var rest := authId + authToken + data;
      |rest| == 48 + |data| && rest[..16] == authId && rest[16..48] == authToken && rest[48..] == data
  {
  }

  /** The frame gen_tcp writes in packet mode 4. */
  function Framed(body: Bytes): Bytes {
    Digits(|body|, 4) + body
  }

  /** The client recovers the type, message id and data of every reply the server sends. */
  lemma ResponseRoundTrip(t: PacketType, messageId: Id, data: Term)
    ensures var reply := CreatePacket(1, Some(t), messageId, data);
      reply.Ok? && ParsePacket(Framed(reply.value)) == Ok(Packet(1, ClientCode(t), messageId, data.bytes))
  {
    var reply := CreatePacket(1, Some(t), messageId, data).value;
    var rest := data.bytes;
    assert reply == [1, ClientCode(t)] + (messageId + rest) by { CodesAgree(t); }
    HeaderParts(1, ClientCode(t), messageId, rest);
    FramedParts(reply);
  }

  lemma FramedParts(body: Bytes)
    requires |body| >= 18
    ensures var f := Framed(body);
      |f| == |body| + 4 && f[4] == body[0] && f[5] == body[1] && f[6..22] == body[2..18] && f[22..] == body[18..]
  {
  }
}
