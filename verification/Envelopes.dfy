/** The envelope around an MLS message: magic, version, kind, length, payload. */
module Envelopes {
  import opened Wrappers
  import opened ByteStrings

  const MAGIC: Bytes := [0x52, 0x43, 0x4D, 0x4C]
  const HEADER_BYTES: nat := 11
  const PROTOCOL_VERSION: nat := 1
  const MAX_PAYLOAD_BYTES: nat := 16 * 1024 * 1024

  datatype EnvelopeKind = Application | Commit | Welcome

  function KindByte(kind: EnvelopeKind): Byte {
    match kind
    case Application => 1
    case Commit => 2
    case Welcome => 3
  }

  datatype EnvelopeError =
    | InvalidMagic
    | InvalidLength
    | UnsupportedVersion(version: nat)
    | UnknownKind(value: Byte)
    | PayloadTooLarge

  function EnvelopeErrorText(error: EnvelopeError): Bytes {
    match error
    case InvalidMagic => Text("invalid envelope magic")
    case InvalidLength => Text("invalid envelope length")
    case UnsupportedVersion(v) => Text("unsupported protocol version " + Decimal(v))
    case UnknownKind(k) => Text("unknown envelope kind " + Decimal(k))
    case PayloadTooLarge => Text("envelope payload is too large")
  }

  function KindOf(value: Byte): Result<EnvelopeKind, EnvelopeError> {
    match value
    case 1 => Ok(Application)
    case 2 => Ok(Commit)
    case 3 => Ok(Welcome)
    case other => Err(UnknownKind(other))
  }

  /** The fields are private in the source, so every envelope comes from `TryNew` or `Decode`. */
  datatype Envelope = Envelope(version: nat, kind: EnvelopeKind, payload: Bytes) {
    ghost predicate Valid() {
      version == PROTOCOL_VERSION && |payload| <= MAX_PAYLOAD_BYTES
    }

    function Encode(): Bytes {
      MAGIC + U16(version) + [KindByte(kind)] + U32(|payload|) + payload
    }
  }

  function TryNew(kind: EnvelopeKind, payload: Bytes): (r: Result<Envelope, EnvelopeError>)
    ensures r.Ok? <==> |payload| <= MAX_PAYLOAD_BYTES
    ensures r.Ok? ==> r.value.Valid() && r.value.kind == kind && r.value.payload == payload
  {
    if |payload| > MAX_PAYLOAD_BYTES then
      Err(PayloadTooLarge)
    else
      Ok(Envelope(PROTOCOL_VERSION, kind, payload))
  }

  function Decode(encoded: Bytes): (r: Result<Envelope, EnvelopeError>)
    ensures r.Ok? ==> r.value.Valid()
  {
    if |encoded| < HEADER_BYTES then
      Err(InvalidLength)
    else if encoded[..4] != MAGIC then
      Err(InvalidMagic)
    else if ReadU16(encoded[4..6]) != PROTOCOL_VERSION then
      Err(UnsupportedVersion(ReadU16(encoded[4..6])))
    else
      var kind :- KindOf(encoded[6]);
      var payloadLength := ReadU32(encoded[7..11]);
      if payloadLength > MAX_PAYLOAD_BYTES then
        Err(PayloadTooLarge)
      else if |encoded| != HEADER_BYTES + payloadLength then
        Err(InvalidLength)
      else
        Ok(Envelope(PROTOCOL_VERSION, kind, encoded[HEADER_BYTES..]))
  }

  lemma DecodeEncoded(envelope: Envelope)
    requires envelope.Valid()
    ensures Decode(envelope.Encode()) == Ok(envelope)
    ensures |envelope.Encode()| == HEADER_BYTES + |envelope.payload|
  {
    var e := envelope.Encode();
    U16RoundTrip(envelope.version);
    U32RoundTrip(|envelope.payload|);
    assert e[..4] == MAGIC && e[4..6] == U16(envelope.version);
    assert e[7..11] == U32(|envelope.payload|) && e[11..] == envelope.payload;
  }

  lemma EncodeDecoded(encoded: Bytes)
    requires Decode(encoded).Ok?
    ensures Decode(encoded).value.Encode() == encoded
  {
    ReadU16RoundTrip(encoded[4..6]);
    ReadU32RoundTrip(encoded[7..11]);
    assert encoded == encoded[..4] + encoded[4..6] + [encoded[6]] + encoded[7..11] + encoded[11..];
  }

  /** Decoding and encoding are inverse bijections between accepted byte strings and envelopes. */
  lemma EnvelopeBijection(encoded: Bytes, envelope: Envelope)
    requires envelope.Valid()
    ensures Decode(encoded) == Ok(envelope) <==> encoded == envelope.Encode()
  {
    DecodeEncoded(envelope);
    if Decode(encoded).Ok? {
      EncodeDecoded(encoded);
    }
  }
}
