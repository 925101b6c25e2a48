/** The RCCQ request frame, the RCCR response frame, and the member list nested in a response. */
module CommandFrames {
  import opened Wrappers
  import opened ByteStrings
  import opened Fields
  import opened StateCodec
  import Envelopes

  const REQUEST_MAGIC: Bytes := [0x52, 0x43, 0x43, 0x51]
  const RESPONSE_MAGIC: Bytes := [0x52, 0x43, 0x43, 0x52]
  const HEADER_BYTES: nat := 8
  const MAX_FIELDS: nat := 8
  const MAX_COMMAND_BYTES: nat := MAX_STATE_BYTES + Envelopes.MAX_PAYLOAD_BYTES + 1024 * 1024

  datatype RequestError =
    | CommandTooLarge
    | InvalidHeader
    | UnsupportedVersion
    | TooManyFields
    | TruncatedField
    | FieldTooLarge
    | TrailingBytes

  function RequestErrorText(error: RequestError): Bytes {
    match error
    case CommandTooLarge => Text("E2EE command is too large")
    case InvalidHeader => Text("invalid E2EE command header")
    case UnsupportedVersion => Text("unsupported E2EE command version")
    case TooManyFields => Text("too many E2EE command fields")
    case TruncatedField => Text("truncated E2EE command field")
    case FieldTooLarge => Text("E2EE command field is too large")
    case TrailingBytes => Text("E2EE command contains trailing bytes")
  }

  // ---- Requests ----

  function FrameHeader(magic: Bytes, tag: Byte, count: nat): Bytes
    requires |magic| == 4
  {
    magic + U16(Envelopes.PROTOCOL_VERSION) + [tag, U8(count)]
  }

  /** The frame a client sends: the count byte and the lengths narrow as the client's casts do. */
  function EncodeRequest(operation: Byte, fields: seq<Bytes>): Bytes {
    FrameHeader(REQUEST_MAGIC, operation, |fields|) + EncodeFields(fields)
  }

  function DecodeRequest(request: Bytes): Result<(Byte, seq<Bytes>), RequestError> {
    if |request| > MAX_COMMAND_BYTES then
      Err(CommandTooLarge)
    else if |request| < HEADER_BYTES || request[..4] != REQUEST_MAGIC then
      Err(RequestError.InvalidHeader)
    else if ReadU16(request[4..6]) != Envelopes.PROTOCOL_VERSION then
      Err(RequestError.UnsupportedVersion)
    else if request[7] > MAX_FIELDS then
      Err(TooManyFields)
    else
      match ReadFields(request, HEADER_BYTES, request[7], MAX_STATE_BYTES)
      case Err(TooLong) => Err(FieldTooLarge)
      case Err(_) => Err(RequestError.TruncatedField)
      case Ok((fields, end)) =>
        if end != |request| then Err(RequestError.TrailingBytes) else Ok((request[6], fields))
  }

  /** What a frame is refused for, by its length, the count of its fields and the worst of their sizes. */
  function Refusal(length: nat, count: nat, within: bool): Option<RequestError> {
    if length > MAX_COMMAND_BYTES then
      Some(CommandTooLarge)
    else if count > MAX_FIELDS then
      Some(TooManyFields)
    else if !within then
      Some(FieldTooLarge)
    else
      None
  }

  /** What becomes of a well-formed frame, told by the sizes of its fields alone. */
  function Admission(operation: Byte, fields: seq<Bytes>): Result<(Byte, seq<Bytes>), RequestError> {
    match Refusal(HEADER_BYTES + FieldsLength(fields), |fields|, Within(fields, MAX_STATE_BYTES))
    case Some(x) => Err(x)
    case None => Ok((operation, fields))
  }

  lemma HeaderParts(magic: Bytes, tag: Byte, count: nat, body: Bytes)
    requires |magic| == 4
    ensures var e := FrameHeader(magic, tag, count) + body;
            && |e| == HEADER_BYTES + |body|
            && e[..4] == magic && ReadU16(e[4..6]) == Envelopes.PROTOCOL_VERSION
            && e[6] == tag && e[7] == U8(count) && e[HEADER_BYTES..] == body
  {
    U16RoundTrip(Envelopes.PROTOCOL_VERSION);
    assert (FrameHeader(magic, tag, count) + body)[4..6] == U16(Envelopes.PROTOCOL_VERSION);
  }

  /** A client's frame is decoded to what it carries, or refused by size, for every list of fields. */
  lemma DecodeEncoded(operation: Byte, fields: seq<Bytes>)
    requires |fields| < U8_RANGE
    ensures DecodeRequest(EncodeRequest(operation, fields)) == Admission(operation, fields)
  {
    hide FrameHeader, ReadFields, ReadU16, EncodeFields, FieldsLength;
    var request, body := EncodeRequest(operation, fields), EncodeFields(fields);
    HeaderParts(REQUEST_MAGIC, operation, |fields|, body);
    FieldsSize(fields);
    if |request| <= MAX_COMMAND_BYTES && |fields| <= MAX_FIELDS {
      assert body + [] == body;
      ReadFieldsComplete(request, HEADER_BYTES, fields, [], MAX_STATE_BYTES);
    }
  }

  /**
   A request is accepted only as the frame of its operation and fields: at most eight fields, none over
   the limit, and 8 plus the sum of 4 + length is the length of the request.
   */
  lemma EncodeDecoded(request: Bytes)
    requires DecodeRequest(request).Ok?
    ensures var (operation, fields) := DecodeRequest(request).value;
            && request == EncodeRequest(operation, fields)
            && Admission(operation, fields).Ok?
            && |request| == HEADER_BYTES + FieldsLength(fields)
  {
    hide ReadFields, ReadU16, EncodeFields, FieldsLength;
    var (operation, fields) := DecodeRequest(request).value;
    ReadFieldsSound(request, HEADER_BYTES, request[7], MAX_STATE_BYTES);
    FieldsSize(fields);
    ReadU16RoundTrip(request[4..6]);
    assert request == request[..4] + request[4..6] + [request[6], request[7]] + request[8..];
  }

  /** `decode_request` is the exact inverse of the frame encoder, and so a frame has one reading. */
  lemma RequestBijection(request: Bytes, operation: Byte, fields: seq<Bytes>)
    ensures DecodeRequest(request) == Ok((operation, fields)) <==>
            Admission(operation, fields).Ok? && request == EncodeRequest(operation, fields)
  {
    if DecodeRequest(request).Ok? {
      EncodeDecoded(request);
    }
    if |fields| <= MAX_FIELDS {
      DecodeEncoded(operation, fields);
    }
  }

  /**
   The limits compose: an exported state, a valid group id and an encoded envelope always travel in one
   request, and come out of it as they went in.
   */
  lemma LimitsCompose(operation: Byte, m: Storage, groupId: Bytes, envelope: Envelopes.Envelope)
    requires Export(m).Ok? && 0 < |groupId| <= 1024 && envelope.Valid()
    ensures var fields := [Export(m).value, groupId, envelope.Encode()];
            && |EncodeRequest(operation, fields)| <= MAX_COMMAND_BYTES
            && DecodeRequest(EncodeRequest(operation, fields)) == Ok((operation, fields))
  {
    var fields := [Export(m).value, groupId, envelope.Encode()];
    Envelopes.DecodeEncoded(envelope);
    assert fields[1..] == [groupId, envelope.Encode()] && fields[1..][1..] == [envelope.Encode()];
    assert FieldsLength(fields[1..][1..]) == 4 + |fields[2]| + FieldsLength([]);
    assert FieldsLength(fields) == 12 + |fields[0]| + |fields[1]| + |fields[2]|;
    DecodeEncoded(operation, fields);
    EncodeDecoded(EncodeRequest(operation, fields));
  }

  method DecodeRequestLoop(request: Bytes) returns (r: Result<(Byte, seq<Bytes>), RequestError>)
    ensures r == DecodeRequest(request)
  {
    if |request| > MAX_COMMAND_BYTES {
      return Err(CommandTooLarge);
    }
    if |request| < HEADER_BYTES || request[..4] != REQUEST_MAGIC {
      return Err(RequestError.InvalidHeader);
    }
    if ReadU16(request[4..6]) != Envelopes.PROTOCOL_VERSION {
      return Err(RequestError.UnsupportedVersion);
    }
    var fieldCount: nat := request[7];
    if fieldCount > MAX_FIELDS {
      return Err(TooManyFields);
    }
    var fields := ReadFieldsLoop(request, HEADER_BYTES, fieldCount, MAX_STATE_BYTES);
    match fields {
      case Err(TooLong) => return Err(FieldTooLarge);
      case Err(_) => return Err(RequestError.TruncatedField);
      case Ok((values, offset)) =>
        if offset != |request| {
          return Err(RequestError.TrailingBytes);
        }
        return Ok((request[6], values));
    }
  }

  // ---- Responses ----

  function EncodeResponse(status: Byte, fields: seq<Bytes>): Bytes {
    FrameHeader(RESPONSE_MAGIC, status, |fields|) + EncodeFields(fields)
  }

  method EncodeResponseLoop(status: Byte, fields: seq<Bytes>) returns (response: Bytes)
    ensures response == EncodeResponse(status, fields)
  {
    response := RESPONSE_MAGIC;
    response := response + U16(Envelopes.PROTOCOL_VERSION);
    response := response + [status];
    response := response + [U8(|fields|)];
    response := AppendFields(response, fields);
  }

  /** The mirror decoder of a client. */
  function DecodeResponse(response: Bytes): Option<(Byte, seq<Bytes>)> {
    if |response| < HEADER_BYTES || response[..4] != RESPONSE_MAGIC then
      None
    else
      match ReadFields(response, HEADER_BYTES, response[7], U32_RANGE)
      case Err(_) => None
      case Ok((fields, end)) => if end != |response| then None else Some((response[6], fields))
  }

  /** A response that the count byte and the length prefixes can measure loses nothing. */
  lemma ResponseRecovered(status: Byte, fields: seq<Bytes>)
    requires |fields| < U8_RANGE
    requires forall f | f in fields :: |f| < U32_RANGE
    ensures DecodeResponse(EncodeResponse(status, fields)) == Some((status, fields))
  {
    hide FrameHeader, ReadFields, ReadU16, EncodeFields;
    var response, body := EncodeResponse(status, fields), EncodeFields(fields);
    HeaderParts(RESPONSE_MAGIC, status, |fields|, body);
    assert body + [] == body;
    ReadFieldsComplete(response, HEADER_BYTES, fields, [], U32_RANGE);
  }

  // ---- The member list ----

  function EncodeMembers(members: seq<Bytes>): Bytes {
    U32(|members|) + EncodeFields(members)
  }

  function DecodeMembers(payload: Bytes): Option<seq<Bytes>> {
    if |payload| < 4 then
      None
    else
      match ReadFields(payload, 4, ReadU32(payload[..4]), U32_RANGE)
      case Err(_) => None
      case Ok((members, end)) => if end != |payload| then None else Some(members)
  }

  /** A member list that itself fits a length prefix loses nothing. */
  lemma MembersRecovered(members: seq<Bytes>)
    requires |EncodeMembers(members)| < U32_RANGE
    ensures DecodeMembers(EncodeMembers(members)) == Some(members)
  {
    hide ReadFields, EncodeFields;
    var payload := EncodeMembers(members);
    FieldsSize(members);
    FieldsLengthBound(members);
    U32RoundTrip(|members|);
    assert payload[..4] == U32(|members|);
    assert payload[4..] == EncodeFields(members) + [];
    ReadFieldsComplete(payload, 4, members, [], U32_RANGE);
  }

  /**
   A member list is never a state: were its count to spell the state magic, the list would be longer than
   any state may be.  So a client that feeds it back as state is always refused.
   */
  lemma MemberListIsNoState(members: seq<Bytes>)
    ensures Import(EncodeMembers(members)).Err?
  {
    var payload := EncodeMembers(members);
    FieldsSize(members);
    FieldsLengthBound(members);
    U32RoundTrip(|members|);
    assert payload[..4] == U32(|members|);
  }

  lemma {:induction false} FieldsLengthBound(fs: seq<Bytes>)
    ensures FieldsLength(fs) >= 4 * |fs|
    ensures forall f | f in fs :: |f| < FieldsLength(fs)
  {
    if fs == [] {
    } else {
      FieldsLengthBound(fs[1..]);
      assert fs == [fs[0]] + fs[1..];
    }
  }

  method EncodeMembersLoop(members: seq<Bytes>) returns (payload: Bytes)
    ensures payload == EncodeMembers(members)
  {
    payload := U32(|members|);
    payload := AppendFields(payload, members);
  }
}
