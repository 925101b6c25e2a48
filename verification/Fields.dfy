/**
 Runs of byte fields, each behind a big-endian u32 length.  Command requests and responses, the member
 list and the interoperability fixture are all built of these.
 */
module Fields {
  import opened Wrappers
  import opened ByteStrings

  function EncodeField(f: Bytes): Bytes {
    U32(|f|) + f
  }

  function EncodeFields(fs: seq<Bytes>): Bytes {
    if fs == [] then [] else EncodeField(fs[0]) + EncodeFields(fs[1..])
  }

  /** The sum of 4 + length over the fields. */
  function FieldsLength(fs: seq<Bytes>): nat {
    if fs == [] then 0 else 4 + |fs[0]| + FieldsLength(fs[1..])
  }

  datatype FieldError = TruncatedLength | TooLong | TruncatedField

  /** Reads one field of at most `limit` bytes at `offset`; also says where the next one starts. */
  function ReadField(b: Bytes, offset: nat, limit: nat): (r: Result<(Bytes, nat), FieldError>)
    requires offset <= |b|
    ensures r.Ok? ==> offset < r.value.1 <= |b|
  {
    if offset + 4 > |b| then
      Err(TruncatedLength)
    else
      var length := ReadU32(b[offset..offset + 4]);
      if length > limit then
        Err(TooLong)
      else if offset + 4 + length > |b| then
        Err(TruncatedField)
      else
        Ok((b[offset + 4..offset + 4 + length], offset + 4 + length))
  }

  function ReadFields(b: Bytes, offset: nat, count: nat, limit: nat): (r: Result<(seq<Bytes>, nat), FieldError>)
    requires offset <= |b|
    ensures r.Ok? ==> offset <= r.value.1 <= |b|
    decreases count
  {
    if count == 0 then
      Ok(([], offset))
    else
      var (f, next) :- ReadField(b, offset, limit);
      var (fs, end) :- ReadFields(b, next, count - 1, limit);
      Ok(([f] + fs, end))
  }

  predicate Within(fs: seq<Bytes>, limit: nat) {
    forall f | f in fs :: |f| <= limit
  }

  lemma FieldsCons(f: Bytes, fs: seq<Bytes>, limit: nat)
    ensures FieldsLength([f] + fs) == 4 + |f| + FieldsLength(fs)
    ensures Within([f] + fs, limit) <==> |f| <= limit && Within(fs, limit)
  {
    assert ([f] + fs)[1..] == fs;
    assert f in [f] + fs;
    assert forall g | g in fs :: g in [f] + fs;
  }

  lemma {:induction false} FieldsSize(fs: seq<Bytes>)
    ensures |EncodeFields(fs)| == FieldsLength(fs)
    ensures forall f | f in fs :: |f| <= FieldsLength(fs)
  {
    if fs == [] {
    } else {
      FieldsSize(fs[1..]);
      assert fs == [fs[0]] + fs[1..];
    }
  }

  lemma {:induction false} EncodeFieldsAppend(a: seq<Bytes>, b: seq<Bytes>)
    ensures EncodeFields(a + b) == EncodeFields(a) + EncodeFields(b)
  {
    hide EncodeField;
    if a == [] {
      assert a + b == b;
    } else {
      EncodeFieldsAppend(a[1..], b);
      assert (a + b)[1..] == a[1..] + b;
      ConcatAssoc(EncodeField(a[0]), EncodeFields(a[1..]), EncodeFields(b));
    }
  }

  lemma EncodeFieldsSnoc(fs: seq<Bytes>, f: Bytes)
    ensures EncodeFields(fs + [f]) == EncodeFields(fs) + U32(|f|) + f
  {
    EncodeFieldsAppend(fs, [f]);
    assert EncodeFields([f]) == EncodeField(f) + [];
  }

  /** What is read is exactly the bytes it was read from. */
  lemma ReadFieldSound(b: Bytes, offset: nat, limit: nat)
    requires offset <= |b| && ReadField(b, offset, limit).Ok?
    ensures var (f, next) := ReadField(b, offset, limit).value;
            |f| <= limit && |f| < U32_RANGE && b[offset..next] == EncodeField(f)
  {
    var (f, next) := ReadField(b, offset, limit).value;
    ReadU32RoundTrip(b[offset..offset + 4]);
    assert b[offset..next] == b[offset..offset + 4] + b[offset + 4..next];
  }

  lemma {:induction false} ReadFieldsSound(b: Bytes, offset: nat, count: nat, limit: nat)
    requires offset <= |b| && ReadFields(b, offset, count, limit).Ok?
    ensures var (fs, end) := ReadFields(b, offset, count, limit).value;
            && |fs| == count
            && (forall f | f in fs :: |f| <= limit && |f| < U32_RANGE)
            && b[offset..end] == EncodeFields(fs)
    decreases count
  {
    hide ReadField, EncodeField;
    if count == 0 {
    } else {
      ReadFieldSound(b, offset, limit);
      var (f, next) := ReadField(b, offset, limit).value;
      ReadFieldsSound(b, next, count - 1, limit);
      var (fs, end) := ReadFields(b, next, count - 1, limit).value;
      assert ([f] + fs)[1..] == fs;
      assert b[offset..end] == b[offset..next] + b[next..end];
    }
  }

  /** At the bytes of a field, the field is read, or refused for its length. */
  lemma ReadFieldComplete(b: Bytes, offset: nat, f: Bytes, rest: Bytes, limit: nat)
    requires offset <= |b| && |f| < U32_RANGE
    requires b[offset..] == EncodeField(f) + rest
    ensures ReadField(b, offset, limit) == if |f| > limit then Err(TooLong) else Ok((f, offset + 4 + |f|))
    ensures offset + 4 + |f| <= |b| && b[offset + 4 + |f|..] == rest
  {
    var tail := b[offset..];
    U32RoundTrip(|f|);
    assert tail[0..4] == U32(|f|);
    assert tail[4..4 + |f|] == f;
    assert tail[4 + |f|..] == rest;
    assert b[offset..|b|] == tail;
    SubSlice(b, offset, |b|, 0, 4);
    SubSlice(b, offset, |b|, 4, 4 + |f|);
  }

  /** At the bytes of some fields, those fields are read, unless one of them exceeds the limit. */
  lemma {:induction false} ReadFieldsComplete(b: Bytes, offset: nat, fs: seq<Bytes>, rest: Bytes, limit: nat)
    requires offset <= |b|
    requires forall f | f in fs :: |f| < U32_RANGE
    requires b[offset..] == EncodeFields(fs) + rest
    ensures ReadFields(b, offset, |fs|, limit) ==
            if Within(fs, limit) then Ok((fs, |b| - |rest|)) else Err(TooLong)
    decreases |fs|
  {
    if fs == [] {
    } else {
      var head, tail := fs[0], fs[1..];
      assert fs == [head] + tail;
      ConcatAssoc(EncodeField(head), EncodeFields(tail), rest);
      ReadFieldComplete(b, offset, head, EncodeFields(tail) + rest, limit);
      if |head| <= limit {
        ReadFieldsComplete(b, offset + 4 + |head|, tail, rest, limit);
        assert Within(fs, limit) <==> Within(tail, limit);
      }
    }
  }

  /** A counted run of fields has one decomposition, whatever bytes follow. */
  lemma {:induction false} FieldsUnique(a: seq<Bytes>, b: seq<Bytes>, r: Bytes, s: Bytes)
    requires |a| == |b|
    requires forall f | f in a :: |f| < U32_RANGE
    requires forall f | f in b :: |f| < U32_RANGE
    requires EncodeFields(a) + r == EncodeFields(b) + s
    ensures a == b && r == s
  {
    var whole := EncodeFields(a) + r;
    assert whole[0..] == whole;
    ReadFieldsComplete(whole, 0, a, r, U32_RANGE);
    ReadFieldsComplete(whole, 0, b, s, U32_RANGE);
    assert |r| == |s|;
    ConcatCancel(EncodeFields(a), EncodeFields(b), r, s);
  }

  /** Reads a counted run of fields, moving the offset on field by field. */
  method ReadFieldsLoop(b: Bytes, start: nat, count: nat, limit: nat) returns (r: Result<(seq<Bytes>, nat), FieldError>)
    requires start <= |b|
    ensures r == ReadFields(b, start, count, limit)
  {
    var offset := start;
    var fields: seq<Bytes> := [];
    PrependNothing(ReadFields(b, start, count, limit));
    for done := 0 to count
      invariant start <= offset <= |b|
      invariant ReadFields(b, start, count, limit) == Prepend(fields, ReadFields(b, offset, count - done, limit))
    {
      var field := ReadField(b, offset, limit);
      if field.Err? {
        return Err(field.error);
      }
      assert forall fs :: fields + ([field.value.0] + fs) == fields + [field.value.0] + fs;
      fields := fields + [field.value.0];
      offset := field.value.1;
    }
    assert fields + [] == fields;
    return Ok((fields, offset));
  }

  function Prepend(fs: seq<Bytes>, r: Result<(seq<Bytes>, nat), FieldError>): Result<(seq<Bytes>, nat), FieldError> {
    match r
    case Ok((gs, end)) => Ok((fs + gs, end))
    case Err(error) => Err(error)
  }

  lemma PrependNothing(r: Result<(seq<Bytes>, nat), FieldError>)
    ensures Prepend([], r) == r
  {
    if r.Ok? {
      assert [] + r.value.0 == r.value.0;
    }
  }

  /** Appends fields to a buffer, one after another. */
  method AppendFields(buffer: Bytes, fields: seq<Bytes>) returns (encoded: Bytes)
    ensures encoded == buffer + EncodeFields(fields)
  {
    encoded := buffer;
    for i := 0 to |fields|
      invariant encoded == buffer + EncodeFields(fields[..i])
    {
      var field := fields[i];
      assert fields[..i + 1] == fields[..i] + [field];
      EncodeFieldsSnoc(fields[..i], field);
      encoded := encoded + U32(|field|);
      encoded := encoded + field;
    }
    assert fields[..|fields|] == fields;
  }
}
