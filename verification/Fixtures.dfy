/** The cross-runtime fixture frame: four length-prefixed fields behind a six-byte header. */
module Fixtures {
  import opened Wrappers
  import opened ByteStrings
  import opened Fields

  const FIXTURE_MAGIC: Bytes := [0x52, 0x43, 0x46, 0x58]
  const FIXTURE_VERSION: nat := 1

  datatype CrossRuntimeFixture = CrossRuntimeFixture(
    groupId: Bytes, providerState: Bytes, firstMessage: Bytes, secondMessage: Bytes)

  function FixtureFields(f: CrossRuntimeFixture): seq<Bytes> {
    [f.groupId, f.providerState, f.firstMessage, f.secondMessage]
  }

  datatype FixtureError =
    | InvalidMagic
    | UnsupportedVersion
    | TruncatedLength
    | TruncatedField
    | TrailingBytes

  /** What the encoder writes, lengths narrowed to u32 as the source narrows them. */
  function FixtureBytes(f: CrossRuntimeFixture): Bytes {
    FIXTURE_MAGIC + U16(FIXTURE_VERSION) + EncodeFields(FixtureFields(f))
  }

  /** A u32 length never exceeds this limit, so `read_field` refuses no field for its length. */
  const NO_LIMIT: nat := U32_RANGE

  function ParseFixture(encoded: Bytes): Result<CrossRuntimeFixture, FixtureError> {
    if |encoded| < 6 || encoded[..4] != FIXTURE_MAGIC then
      Err(InvalidMagic)
    else if ReadU16(encoded[4..6]) != FIXTURE_VERSION then
      Err(UnsupportedVersion)
    else
      match ReadFields(encoded, 6, 4, NO_LIMIT)
      case Err(TruncatedLength) => Err(FixtureError.TruncatedLength)
      case Err(_) => Err(FixtureError.TruncatedField)
      case Ok((fs, end)) =>
        ReadFieldsSound(encoded, 6, 4, NO_LIMIT);
        if end != |encoded| then
          Err(TrailingBytes)
        else
          Ok(CrossRuntimeFixture(fs[0], fs[1], fs[2], fs[3]))
  }

  method Encode(f: CrossRuntimeFixture) returns (encoded: Bytes)
    ensures encoded == FixtureBytes(f)
  {
    encoded := FIXTURE_MAGIC;
    encoded := encoded + U16(FIXTURE_VERSION);
    encoded := AppendFields(encoded, [f.groupId, f.providerState, f.firstMessage, f.secondMessage]);
  }

  /** One field; a length that fits the prefix is never refused. */
  method ReadFixtureField(encoded: Bytes, start: nat) returns (r: Result<(Bytes, nat), FixtureError>)
    requires start <= |encoded|
    ensures r == match ReadField(encoded, start, NO_LIMIT)
                 case Ok(read) => Ok(read)
                 case Err(TruncatedLength) => Err(FixtureError.TruncatedLength)
                 case Err(_) => Err(FixtureError.TruncatedField)
  {
    var lengthEnd := start + 4;
    if lengthEnd > |encoded| {
      return Err(FixtureError.TruncatedLength);
    }
    var fieldEnd := lengthEnd + ReadU32(encoded[start..lengthEnd]);
    if fieldEnd > |encoded| {
      return Err(FixtureError.TruncatedField);
    }
    return Ok((encoded[lengthEnd..fieldEnd], fieldEnd));
  }

  method Decode(encoded: Bytes) returns (r: Result<CrossRuntimeFixture, FixtureError>)
    ensures r == ParseFixture(encoded)
  {
    if |encoded| < 6 || encoded[..4] != FIXTURE_MAGIC {
      return Err(InvalidMagic);
    }
    if ReadU16(encoded[4..6]) != FIXTURE_VERSION {
      return Err(UnsupportedVersion);
    }
    var offset := 6;
    var groupId :- ReadFixtureField(encoded, offset);
    offset := groupId.1;
    var providerState :- ReadFixtureField(encoded, offset);
    offset := providerState.1;
    var firstMessage :- ReadFixtureField(encoded, offset);
    offset := firstMessage.1;
    var secondMessage :- ReadFixtureField(encoded, offset);
    offset := secondMessage.1;
    if offset != |encoded| {
      return Err(TrailingBytes);
    }
    return Ok(CrossRuntimeFixture(groupId.0, providerState.0, firstMessage.0, secondMessage.0));
  }

  ghost predicate Fits(f: CrossRuntimeFixture) {
    forall field | field in FixtureFields(f) :: |field| < U32_RANGE
  }

  lemma DecodeEncoded(f: CrossRuntimeFixture)
    requires Fits(f)
    ensures ParseFixture(FixtureBytes(f)) == Ok(f)
  {
    var encoded, fields := FixtureBytes(f), EncodeFields(FixtureFields(f));
    U16RoundTrip(FIXTURE_VERSION);
    assert encoded[..4] == FIXTURE_MAGIC && encoded[4..6] == U16(FIXTURE_VERSION);
    assert encoded[6..] == fields + [];
    ReadFieldsComplete(encoded, 6, FixtureFields(f), [], NO_LIMIT);
  }

  lemma EncodeDecoded(encoded: Bytes)
    requires ParseFixture(encoded).Ok?
    ensures Fits(ParseFixture(encoded).value) && FixtureBytes(ParseFixture(encoded).value) == encoded
  {
    hide ReadFields, ReadU16, U16;
    ReadFieldsSound(encoded, 6, 4, NO_LIMIT);
    var (fs, end) := ReadFields(encoded, 6, 4, NO_LIMIT).value;
    assert fs == [fs[0], fs[1], fs[2], fs[3]];
    ReadU16RoundTrip(encoded[4..6]);
    assert encoded == encoded[..4] + encoded[4..6] + encoded[6..end];
  }

  /**
   Encoding and decoding are inverse bijections between accepted byte strings and the fixtures whose
   fields the u32 prefixes can measure.
   */
  lemma FixtureBijection(encoded: Bytes, f: CrossRuntimeFixture)
    ensures ParseFixture(encoded) == Ok(f) <==> Fits(f) && encoded == FixtureBytes(f)
  {
    if Fits(f) {
      DecodeEncoded(f);
    }
    if ParseFixture(encoded).Ok? {
      EncodeDecoded(encoded);
    }
  }
}
