/** What becomes of a frame that was cut short, lengthened or altered: each kind of damage has its own refusal. */
module Damage {
  import opened Wrappers
  import opened ByteStrings
  import opened StateCodec
  import Envelopes
  import F = Fields
  import R = CommandFrames
  import X = Fixtures

  // ---- States ----

  /** Behind some records that stand there, the import goes on with them in its map. */
  lemma {:induction false} ImportRun(e: Bytes, offset: nat, rs: seq<Record>, rest: Bytes, count: nat, values: Storage)
    requires offset <= |e| <= MAX_STATE_BYTES && |rs| <= count && |rest| <= |e|
    requires e[offset..] == EncodeRecords(rs) + rest
    requires DistinctKeys(rs) && (forall r | r in rs :: Small(r)) && forall r | r in rs :: r.key !in values
    ensures ImportRecords(e, offset, count, values) ==
            ImportRecords(e, |e| - |rest|, count - |rs|, values + MapOf(rs))
    decreases |rs|
  {
    hide ReadRecord, EncodeRecord, Small;
    if rs == [] {
      assert values + MapOf(rs) == values;
    } else {
      var r, tail := rs[0], rs[1..];
      assert rs == [r] + tail;
      ConcatAssoc(EncodeRecord(r), EncodeRecords(tail), rest);
      ReadHead(e, offset, r, EncodeRecords(tail) + rest);
      HeadKeyFresh(rs);
      MergeHead(values, rs);
      ImportRun(e, offset + |EncodeRecord(r)|, tail, rest, count - 1, values[r.key := r.value]);
    }
  }

  lemma ImportOpens(e: Bytes, n: nat, body: Bytes)
    requires e == Header(n) + body && |e| <= MAX_STATE_BYTES && n <= MAX_STATE_ENTRIES
    ensures Import(e) == ImportRecords(e, STATE_HEADER_BYTES, n, map[]) && e[STATE_HEADER_BYTES..] == body
  {
    hide ImportRecords, ReadU16, ReadU32;
    U16RoundTrip(STATE_FORMAT_VERSION);
    U32RoundTrip(n);
    assert e[..4] == STATE_MAGIC && e[4..6] == U16(STATE_FORMAT_VERSION) && e[6..10] == U32(n);
  }

  lemma RunImported(e: Bytes, rs: seq<Record>, n: nat, rest: Bytes)
    requires e == Header(n) + (EncodeRecords(rs) + rest) && |e| <= MAX_STATE_BYTES
    requires |rs| <= n <= MAX_STATE_ENTRIES && DistinctKeys(rs)
    ensures Import(e) == ImportRecords(e, |e| - |rest|, n - |rs|, MapOf(rs))
    ensures e[|e| - |rest|..] == rest
  {
    hide ImportRecords, EncodeRecords, MapOf;
    RecordSizes(rs);
    ImportOpens(e, n, EncodeRecords(rs) + rest);
    ImportRun(e, STATE_HEADER_BYTES, rs, rest, n, map[]);
    assert map[] + MapOf(rs) == MapOf(rs);
  }

  /** Bytes behind the records counted are refused as trailing. */
  lemma StateExtended(e: Bytes, rs: seq<Record>, tail: Bytes)
    requires IsState(e, rs) && tail != [] && |e + tail| <= MAX_STATE_BYTES
    ensures Import(e + tail) == Err(TrailingBytes)
  {
    hide EncodeRecords, IsState, Import;
    IsFrame(e, rs);
    ConcatAssoc(Header(|rs|), EncodeRecords(rs), tail);
    RunImported(e + tail, rs, |rs|, tail);
  }

  lemma IsFrame(e: Bytes, rs: seq<Record>)
    requires IsState(e, rs)
    ensures e == Header(|rs|) + EncodeRecords(rs) && |rs| <= MAX_STATE_ENTRIES && DistinctKeys(rs)
    ensures |e| <= MAX_STATE_BYTES
  {
  }

  /** A record with the key of one before it is refused as such, whatever follows. */
  lemma KeyRepeated(rs: seq<Record>, r: Record, n: nat, rest: Bytes)
    requires DistinctKeys(rs) && Small(r) && (exists x | x in rs :: x.key == r.key)
    requires |rs| < n <= MAX_STATE_ENTRIES
    requires |Header(n) + (EncodeRecords(rs) + (EncodeRecord(r) + rest))| <= MAX_STATE_BYTES
    ensures Import(Header(n) + (EncodeRecords(rs) + (EncodeRecord(r) + rest))) == Err(DuplicateKey)
  {
    hide EncodeRecords, EncodeRecord, Import, ReadRecord, MapOf;
    var behind := EncodeRecord(r) + rest;
    var e := Header(n) + (EncodeRecords(rs) + behind);
    RunImported(e, rs, n, behind);
    ReadHead(e, |e| - |behind|, r, rest);
    var x :| x in rs && x.key == r.key;
    RecordIffEntry(rs, x);
  }

  /** A record cut short is refused as truncated. */
  lemma RecordCut(e: Bytes, offset: nat, r: Record, n: nat)
    requires offset <= |e| <= MAX_STATE_BYTES && Small(r) && n < |EncodeRecord(r)|
    requires offset + |EncodeRecord(r)| <= MAX_STATE_BYTES
    requires e[offset..] == EncodeRecord(r)[..n]
    ensures ReadRecord(e, offset) == Err(Truncated)
  {
    hide ReadU32, U32;
    var whole := EncodeRecord(r);
    FourParts(U32(|r.key|), U32(|r.value|), r.key, r.value);
    U32RoundTrip(|r.key|);
    U32RoundTrip(|r.value|);
    assert |e| == offset + n;
    assert forall i | 0 <= i < n :: e[offset + i] == e[offset..][i] == whole[i];
    if n >= 4 {
      assert e[offset..offset + 4] == whole[..4];
    }
    if n >= 8 {
      assert e[offset + 4..offset + 8] == whole[4..8];
    }
  }

  /** Where a run of records is cut: some of them are whole, and of the next a part is left. */
  lemma {:induction false} CutWhere(rs: seq<Record>, n: nat) returns (i: nat, k: nat)
    requires n < |EncodeRecords(rs)|
    ensures i < |rs| && k < |EncodeRecord(rs[i])|
    ensures EncodeRecords(rs)[..n] == EncodeRecords(rs[..i]) + EncodeRecord(rs[i])[..k]
  {
    hide EncodeRecord;
    var size := |EncodeRecord(rs[0])|;
    if n < size {
      i, k := 0, n;
    } else {
      i, k := CutWhere(rs[1..], n - size);
      assert rs[..i + 1] == [rs[0]] + rs[1..][..i];
      assert ([rs[0]] + rs[1..][..i])[1..] == rs[1..][..i];
      i := i + 1;
    }
  }

  /** A state cut short is refused as truncated, or for its header if not even that is left. */
  lemma StateCut(e: Bytes, rs: seq<Record>, n: nat)
    requires IsState(e, rs) && n < |e|
    ensures Import(e[..n]) == Err(if n < 10 then InvalidHeader else Truncated)
  {
    if n >= 10 {
      hide EncodeRecord, EncodeRecords, Import, ReadRecord, IsState, MapOf;
      IsFrame(e, rs);
      RecordSizes(rs);
      var i, k := CutWhere(rs, n - 10);
      var part := EncodeRecord(rs[i])[..k];
      assert e[..n] == Header(|rs|) + EncodeRecords(rs)[..n - 10];
      RunImported(e[..n], rs[..i], |rs|, part);
      RecordEnds(rs, i);
      RecordCut(e[..n], n - k, rs[i], k);
    }
  }

  lemma RecordEnds(rs: seq<Record>, i: nat)
    requires i < |rs|
    ensures |EncodeRecords(rs[..i])| + |EncodeRecord(rs[i])| <= |EncodeRecords(rs)|
  {
    hide EncodeRecord;
    assert rs == rs[..i] + ([rs[i]] + rs[i + 1..]);
    EncodeRecordsAppend(rs[..i], [rs[i]] + rs[i + 1..]);
    assert ([rs[i]] + rs[i + 1..])[1..] == rs[i + 1..];
  }

  /** Another magic, another version and too large a count are refused as such, whatever follows. */
  lemma StateHeaderAltered(magic: Bytes, version: nat, n: nat, body: Bytes)
    requires |magic| == 4 && version < U16_RANGE && n < U32_RANGE
    ensures var e := magic + U16(version) + U32(n) + body;
            |e| <= MAX_STATE_BYTES ==>
              && (magic != Text("RCST") ==> Import(e) == Err(InvalidHeader))
              && (magic == Text("RCST") && version != 1 ==> Import(e) == Err(UnsupportedVersion(version)))
              && (magic == Text("RCST") && version == 1 && n > 100_000 ==> Import(e) == Err(TooManyEntries))
  {
    hide ImportRecords, ReadU16, ReadU32;
    var e := magic + U16(version) + U32(n) + body;
    assert Text("RCST") == STATE_MAGIC;
    U16RoundTrip(version);
    U32RoundTrip(n);
    assert e[..4] == magic && e[4..6] == U16(version) && e[6..10] == U32(n);
  }

  // ---- Envelopes ----

  /** An envelope cut short or lengthened is refused for its length. */
  lemma EnvelopeLengthChanged(envelope: Envelopes.Envelope, n: nat, tail: Bytes)
    requires envelope.Valid()
    ensures n < |envelope.Encode()| ==> Envelopes.Decode(envelope.Encode()[..n]) == Err(Envelopes.InvalidLength)
    ensures tail != [] ==> Envelopes.Decode(envelope.Encode() + tail) == Err(Envelopes.InvalidLength)
  {
    hide ReadU16, ReadU32, U32;
    var e := envelope.Encode();
    Envelopes.DecodeEncoded(envelope);
    assert (e + tail)[..4] == e[..4] && (e + tail)[4..6] == e[4..6] && (e + tail)[7..11] == e[7..11];
    if 11 <= n < |e| {
      assert e[..n][..4] == e[..4] && e[..n][4..6] == e[4..6] && e[..n][7..11] == e[7..11];
    }
  }

  /** Another magic, version, kind or too long a payload declared are refused as such, in that order. */
  lemma EnvelopeAltered(magic: Bytes, version: nat, kind: Byte, length: nat, payload: Bytes)
    requires |magic| == 4 && version < U16_RANGE && length < U32_RANGE
    ensures var r := Envelopes.Decode(magic + U16(version) + [kind] + U32(length) + payload);
            if magic != Text("RCML") then r == Err(Envelopes.InvalidMagic)
            else if version != 1 then r == Err(Envelopes.UnsupportedVersion(version))
            else if kind !in {1, 2, 3} then r == Err(Envelopes.UnknownKind(kind))
            else if length > 16_777_216 then r == Err(Envelopes.PayloadTooLarge)
            else r.Ok? <==> |payload| == length
  {
    hide ReadU16, ReadU32, U32, U16;
    var e := magic + U16(version) + [kind] + U32(length) + payload;
    assert Text("RCML") == Envelopes.MAGIC;
    U16RoundTrip(version);
    U32RoundTrip(length);
    assert e[..4] == magic && e[4..6] == U16(version) && e[6] == kind && e[7..11] == U32(length);
  }

  // ---- Runs of fields ----

  /** Behind some fields that stand there, the reader goes on. */
  lemma {:induction false} FieldsRun(b: Bytes, offset: nat, fs: seq<Bytes>, rest: Bytes, count: nat, limit: nat)
    requires offset <= |b| && |fs| <= count && |rest| <= |b|
    requires F.Within(fs, limit) && forall f | f in fs :: |f| < U32_RANGE
    requires b[offset..] == F.EncodeFields(fs) + rest
    ensures var r := F.ReadFields(b, |b| - |rest|, count - |fs|, limit);
            r.Err? ==> F.ReadFields(b, offset, count, limit) == Err(r.error)
    decreases |fs|
  {
    hide F.ReadField, F.EncodeField;
    if fs == [] {
    } else {
      var head, tail := fs[0], fs[1..];
      assert fs == [head] + tail;
      ConcatAssoc(F.EncodeField(head), F.EncodeFields(tail), rest);
      F.ReadFieldComplete(b, offset, head, F.EncodeFields(tail) + rest, limit);
      FieldsRun(b, offset + 4 + |head|, tail, rest, count - 1, limit);
    }
  }

  /** A field cut short: too little is left for its length, or for itself. */
  lemma FieldCut(b: Bytes, offset: nat, f: Bytes, n: nat, limit: nat)
    requires offset <= |b| && |f| < U32_RANGE && |f| <= limit && n < 4 + |f|
    requires b[offset..] == F.EncodeField(f)[..n]
    ensures F.ReadField(b, offset, limit) == Err(if n < 4 then F.TruncatedLength else F.TruncatedField)
  {
    hide ReadU32, U32;
    var whole := F.EncodeField(f);
    U32RoundTrip(|f|);
    assert |b| == offset + n;
    assert forall i | 0 <= i < n :: b[offset + i] == b[offset..][i] == whole[i];
    if n >= 4 {
      assert b[offset..offset + 4] == whole[..4] == U32(|f|);
    }
  }

  /** Which field a cut falls into, and how many bytes of it are left. */
  lemma {:induction false} CutField(fs: seq<Bytes>, n: nat) returns (i: nat, k: nat)
    requires n < |F.EncodeFields(fs)|
    ensures i < |fs| && k < |F.EncodeField(fs[i])| == 4 + |fs[i]|
    ensures F.EncodeFields(fs)[..n] == F.EncodeFields(fs[..i]) + F.EncodeField(fs[i])[..k]
  {
    hide U32;
    var size := 4 + |fs[0]|;
    if n < size {
      i, k := 0, n;
    } else {
      i, k := CutField(fs[1..], n - size);
      assert fs[..i + 1] == [fs[0]] + fs[1..][..i];
      assert ([fs[0]] + fs[1..][..i])[1..] == fs[1..][..i];
      i := i + 1;
    }
  }

  /** A run of fields cut short is refused for the field that the cut falls into. */
  lemma FieldsCut(b: Bytes, offset: nat, fs: seq<Bytes>, n: nat, limit: nat)
    returns (i: nat, k: nat)
    requires F.Within(fs, limit) && forall f | f in fs :: |f| < U32_RANGE
    requires n < |F.EncodeFields(fs)| && offset <= |b| && b[offset..] == F.EncodeFields(fs)[..n]
    ensures i < |fs| && n == F.FieldsLength(fs[..i]) + k && k < 4 + |fs[i]|
    ensures F.ReadFields(b, offset, |fs|, limit) == Err(if k < 4 then F.TruncatedLength else F.TruncatedField)
  {
    hide F.EncodeFields, F.EncodeField, F.ReadField;
    i, k := CutField(fs, n);
    F.FieldsSize(fs[..i]);
    var part := F.EncodeField(fs[i])[..k];
    FieldsRun(b, offset, fs[..i], part, |fs|, limit);
    assert b[|b| - k..] == part;
    FieldCut(b, |b| - k, fs[i], k, limit);
  }

  // ---- Requests ----

  lemma Admitted(operation: Byte, fields: seq<Bytes>)
    requires R.DecodeRequest(R.EncodeRequest(operation, fields)).Ok? && |fields| <= 8
    ensures F.Within(fields, MAX_STATE_BYTES) && forall f | f in fields :: |f| < U32_RANGE
    ensures |R.EncodeRequest(operation, fields)| <= R.MAX_COMMAND_BYTES
  {
    hide R.DecodeRequest, R.EncodeRequest;
    R.DecodeEncoded(operation, fields);
    R.EncodeDecoded(R.EncodeRequest(operation, fields));
  }

  lemma RequestRefused(request: Bytes)
    ensures |request| < 8 ==> R.DecodeRequest(request) == Err(R.RequestError.InvalidHeader)
    ensures
      && 8 <= |request| <= R.MAX_COMMAND_BYTES && request[..4] == R.REQUEST_MAGIC
      && ReadU16(request[4..6]) == Envelopes.PROTOCOL_VERSION && request[7] <= 8
      && F.ReadFields(request, 8, request[7], MAX_STATE_BYTES) in {Err(F.TruncatedLength), Err(F.TruncatedField)} ==>
        R.DecodeRequest(request) == Err(R.RequestError.TruncatedField)
  {
    hide F.ReadFields, ReadU16;
  }

  /** A request cut short is refused for its header or for a truncated field. */
  lemma RequestCut(operation: Byte, fields: seq<Bytes>, n: nat)
    requires R.DecodeRequest(R.EncodeRequest(operation, fields)).Ok? && |fields| <= 8
    requires n < |R.EncodeRequest(operation, fields)|
    ensures R.DecodeRequest(R.EncodeRequest(operation, fields)[..n]) ==
            Err(if n < 8 then R.RequestError.InvalidHeader else R.RequestError.TruncatedField)
  {
    hide R.DecodeRequest, R.FrameHeader, F.ReadFields, ReadU16, F.EncodeFields, F.Within;
    Admitted(operation, fields);
    var request, body := R.EncodeRequest(operation, fields), F.EncodeFields(fields);
    R.HeaderParts(R.REQUEST_MAGIC, operation, |fields|, body);
    var cut := request[..n];
    RequestRefused(cut);
    if n >= 8 {
      assert cut[..4] == request[..4] && cut[4..6] == request[4..6] && cut[8..] == body[..n - 8];
      var i, k := FieldsCut(cut, 8, fields, n - 8, MAX_STATE_BYTES);
    }
  }

  /** Bytes behind the fields counted are refused as trailing. */
  lemma RequestExtended(operation: Byte, fields: seq<Bytes>, tail: Bytes)
    requires R.DecodeRequest(R.EncodeRequest(operation, fields)).Ok? && |fields| <= 8 && tail != []
    requires |R.EncodeRequest(operation, fields) + tail| <= 84_934_656
    ensures R.DecodeRequest(R.EncodeRequest(operation, fields) + tail) == Err(R.RequestError.TrailingBytes)
  {
    hide R.FrameHeader, F.ReadFields, ReadU16, F.EncodeFields;
    var request, body := R.EncodeRequest(operation, fields), F.EncodeFields(fields);
    R.HeaderParts(R.REQUEST_MAGIC, operation, |fields|, body);
    R.DecodeEncoded(operation, fields);
    var longer := request + tail;
    assert longer[..4] == request[..4] && longer[4..6] == request[4..6] && longer[8..] == body + tail;
    F.ReadFieldsComplete(longer, 8, fields, tail, MAX_STATE_BYTES);
  }

  /** Another magic, another version and more than eight fields are refused as such, in that order. */
  lemma RequestAltered(magic: Bytes, version: nat, operation: Byte, count: Byte, body: Bytes)
    requires |magic| == 4 && version < U16_RANGE
    ensures var e := magic + U16(version) + [operation, count] + body;
            |e| <= 84_934_656 ==>
              && (magic != Text("RCCQ") ==> R.DecodeRequest(e) == Err(R.RequestError.InvalidHeader))
              && (magic == Text("RCCQ") && version != 1 ==>
                    R.DecodeRequest(e) == Err(R.RequestError.UnsupportedVersion))
              && (magic == Text("RCCQ") && version == 1 && count > 8 ==> R.DecodeRequest(e) == Err(R.TooManyFields))
  {
    hide F.ReadFields, ReadU16;
    var e := magic + U16(version) + [operation, count] + body;
    assert Text("RCCQ") == R.REQUEST_MAGIC;
    U16RoundTrip(version);
    assert e[..4] == magic && e[4..6] == U16(version) && e[7] == count;
  }

  // ---- Fixtures ----

  lemma FixtureParts(f: X.CrossRuntimeFixture)
    ensures var e := X.FixtureBytes(f);
            && |e| == 6 + |F.EncodeFields(X.FixtureFields(f))|
            && e[..4] == X.FIXTURE_MAGIC && ReadU16(e[4..6]) == X.FIXTURE_VERSION
            && e[6..] == F.EncodeFields(X.FixtureFields(f))
  {
    hide F.EncodeFields, X.FixtureFields;
    U16RoundTrip(X.FIXTURE_VERSION);
    assert X.FixtureBytes(f)[4..6] == U16(X.FIXTURE_VERSION);
  }

  /** A fixture cut short is refused for its magic, for a length or for a field, wherever the cut falls. */
  lemma FixtureCut(f: X.CrossRuntimeFixture, n: nat) returns (i: nat, k: nat)
    requires X.Fits(f) && n < |X.FixtureBytes(f)|
    ensures n < 6 ==> X.ParseFixture(X.FixtureBytes(f)[..n]) == Err(X.InvalidMagic)
    ensures n >= 6 ==> i < 4 && n - 6 == F.FieldsLength(X.FixtureFields(f)[..i]) + k
    ensures n >= 6 ==> k < 4 + |X.FixtureFields(f)[i]|
    ensures n >= 6 ==> X.ParseFixture(X.FixtureBytes(f)[..n]) ==
                       Err(if k < 4 then X.FixtureError.TruncatedLength else X.FixtureError.TruncatedField)
  {
    hide F.ReadFields, ReadU16, F.EncodeFields, X.FixtureBytes;
    FixtureParts(f);
    i, k := 0, 0;
    var e, fields := X.FixtureBytes(f), X.FixtureFields(f);
    var cut := e[..n];
    if n >= 6 {
      assert cut[..4] == e[..4] && cut[4..6] == e[4..6] && cut[6..] == e[6..][..n - 6];
      i, k := FieldsCut(cut, 6, fields, n - 6, X.NO_LIMIT);
    }
  }

  lemma FixtureExtended(f: X.CrossRuntimeFixture, tail: Bytes)
    requires X.Fits(f) && tail != []
    ensures X.ParseFixture(X.FixtureBytes(f) + tail) == Err(X.TrailingBytes)
  {
    hide F.ReadFields, ReadU16, F.EncodeFields, X.FixtureBytes;
    FixtureParts(f);
    var e := X.FixtureBytes(f);
    var longer := e + tail;
    assert longer[..4] == e[..4] && longer[4..6] == e[4..6] && longer[6..] == e[6..] + tail;
    F.ReadFieldsComplete(longer, 6, X.FixtureFields(f), tail, X.NO_LIMIT);
  }

  lemma FixtureAltered(magic: Bytes, version: nat, body: Bytes)
    requires |magic| == 4 && version < U16_RANGE
    ensures var r := X.ParseFixture(magic + U16(version) + body);
            && (magic != Text("RCFX") ==> r == Err(X.InvalidMagic))
            && (magic == Text("RCFX") && version != 1 ==> r == Err(X.UnsupportedVersion))
  {
    hide F.ReadFields, ReadU16;
    var e := magic + U16(version) + body;
    assert Text("RCFX") == X.FIXTURE_MAGIC;
    U16RoundTrip(version);
    assert e[..4] == magic && e[4..6] == U16(version);
  }
}
