/**
 The protocol-state buffer: a header and a counted run of length-prefixed records.  `Import` and
 `Export` say what `import_state` and `export_state` compute, errors included; the class performs them
 step by step, and the lemmas say what the two mean together.
 */
module StateCodec {
  import opened Wrappers
  import opened Orders
  import opened ByteStrings

  const STATE_MAGIC: Bytes := [0x52, 0x43, 0x53, 0x54]
  const STATE_HEADER_BYTES: nat := 10
  const STATE_FORMAT_VERSION: nat := 1
  const MAX_STATE_BYTES: nat := 64 * 1024 * 1024
  const MAX_STATE_ENTRIES: nat := 100_000

  /** What the storage lock guards: the key-value memory that OpenMLS works on. */
  type Storage = map<Bytes, Bytes>

  datatype StateError =
    | InvalidHeader
    | UnsupportedVersion(version: nat)
    | StateTooLarge
    | TooManyEntries
    | Truncated
    | TrailingBytes
    | DuplicateKey

  function StateErrorText(error: StateError): Bytes {
    match error
    case InvalidHeader => Text("invalid protocol state header")
    case UnsupportedVersion(v) => Text("unsupported protocol state version " + Decimal(v))
    case StateTooLarge => Text("protocol state is too large")
    case TooManyEntries => Text("protocol state contains too many entries")
    case Truncated => Text("protocol state is truncated")
    case TrailingBytes => Text("protocol state contains trailing bytes")
    case DuplicateKey => Text("protocol state contains a duplicate key")
  }

  // ---- The grammar of a state buffer ----

  datatype Record = Record(key: Bytes, value: Bytes)

  function EncodeRecord(r: Record): Bytes {
    U32(|r.key|) + U32(|r.value|) + r.key + r.value
  }

  function EncodeRecords(rs: seq<Record>): Bytes {
    if rs == [] then [] else EncodeRecord(rs[0]) + EncodeRecords(rs[1..])
  }

  function Header(count: nat): (h: Bytes)
    ensures |h| == STATE_HEADER_BYTES
  {
    STATE_MAGIC + U16(STATE_FORMAT_VERSION) + U32(count)
  }

  function Frame(rs: seq<Record>): Bytes {
    Header(|rs|) + EncodeRecords(rs)
  }

  ghost predicate DistinctKeys(rs: seq<Record>) {
    forall i, j | 0 <= i < j < |rs| :: rs[i].key != rs[j].key
  }

  /** `e` is a well-formed state buffer with the records `rs`, in that order. */
  ghost predicate IsState(e: Bytes, rs: seq<Record>) {
    && |rs| <= MAX_STATE_ENTRIES
    && |e| <= MAX_STATE_BYTES
    && DistinctKeys(rs)
    && e == Frame(rs)
  }

  function MapOf(rs: seq<Record>): Storage {
    if rs == [] then map[] else MapOf(rs[1..])[rs[0].key := rs[0].value]
  }

  predicate ByKey(a: Record, b: Record) {
    BytesLe(a.key, b.key)
  }

  // ---- Reading ----

  function ReadLength(e: Bytes, offset: nat): (r: Result<(nat, nat), StateError>)
    requires offset <= |e|
    ensures r.Ok? ==> r.value.1 <= |e|
  {
    if offset + 4 > |e| then
      Err(Truncated)
    else
      Ok((ReadU32(e[offset..offset + 4]), offset + 4))
  }

  function ReadField(e: Bytes, offset: nat, length: nat): (r: Result<(Bytes, nat), StateError>)
    requires offset <= |e|
    ensures r.Ok? ==> r.value.1 <= |e|
  {
    if offset + length > MAX_STATE_BYTES then
      Err(StateTooLarge)
    else if offset + length > |e| then
      Err(Truncated)
    else
      Ok((e[offset..offset + length], offset + length))
  }

  function ReadRecord(e: Bytes, offset: nat): (r: Result<(Record, nat), StateError>)
    requires offset <= |e|
    ensures r.Ok? ==> r.value.1 <= |e|
  {
    var (keyLength, o1) :- ReadLength(e, offset);
    var (valueLength, o2) :- ReadLength(e, o1);
    var (key, o3) :- ReadField(e, o2, keyLength);
    var (value, o4) :- ReadField(e, o3, valueLength);
    Ok((Record(key, value), o4))
  }

  function ImportRecords(e: Bytes, offset: nat, count: nat, values: Storage): Result<Storage, StateError>
    requires offset <= |e|
    decreases count
  {
    if count == 0 then
      if offset != |e| then Err(TrailingBytes) else Ok(values)
    else
      var (r, next) :- ReadRecord(e, offset);
      if r.key in values then
        Err(DuplicateKey)
      else
        ImportRecords(e, next, count - 1, values[r.key := r.value])
  }

  function Import(e: Bytes): Result<Storage, StateError> {
    if |e| > MAX_STATE_BYTES then
      Err(StateTooLarge)
    else if |e| < STATE_HEADER_BYTES || e[..4] != STATE_MAGIC then
      Err(InvalidHeader)
    else if ReadU16(e[4..6]) != STATE_FORMAT_VERSION then
      Err(UnsupportedVersion(ReadU16(e[4..6])))
    else if ReadU32(e[6..10]) > MAX_STATE_ENTRIES then
      Err(TooManyEntries)
    else
      ImportRecords(e, STATE_HEADER_BYTES, ReadU32(e[6..10]), map[])
  }

  // ---- One record, read and written ----

  ghost predicate Small(r: Record) {
    |r.key| < U32_RANGE && |r.value| < U32_RANGE
  }

  /** A record that is read is exactly the bytes it was read from. */
  lemma ReadRecordSound(e: Bytes, offset: nat)
    requires offset <= |e| && ReadRecord(e, offset).Ok?
    ensures var (r, next) := ReadRecord(e, offset).value;
            Small(r) && offset <= next && e[offset..next] == EncodeRecord(r)
  {
    hide ReadU32, U32;
    var (r, next) := ReadRecord(e, offset).value;
    ReadU32RoundTrip(e[offset..offset + 4]);
    ReadU32RoundTrip(e[offset + 4..offset + 8]);
    var k := offset + 8 + |r.key|;
    assert e[offset..next] == e[offset..offset + 4] + e[offset + 4..offset + 8] + e[offset + 8..k] + e[k..next];
  }

  /** Where a record's bytes stand, that record is read. */
  lemma ReadRecordComplete(e: Bytes, offset: nat, r: Record)
    requires |e| <= MAX_STATE_BYTES && Small(r)
    requires offset + |EncodeRecord(r)| <= |e|
    requires e[offset..offset + |EncodeRecord(r)|] == EncodeRecord(r)
    ensures ReadRecord(e, offset) == Ok((r, offset + |EncodeRecord(r)|))
  {
    hide ReadU32, U32;
    var enc := EncodeRecord(r);
    var next := offset + |enc|;
    var k := 8 + |r.key|;
    FourParts(U32(|r.key|), U32(|r.value|), r.key, r.value);
    U32RoundTrip(|r.key|);
    U32RoundTrip(|r.value|);
    SubSlice(e, offset, next, 0, 4);
    SubSlice(e, offset, next, 4, 8);
    SubSlice(e, offset, next, 8, k);
    SubSlice(e, offset, next, k, |enc|);
  }

  // ---- Runs of records ----

  lemma {:induction false} EncodeRecordsAppend(a: seq<Record>, b: seq<Record>)
    ensures EncodeRecords(a + b) == EncodeRecords(a) + EncodeRecords(b)
  {
    hide EncodeRecord;
    if a == [] {
      assert a + b == b;
    } else {
      EncodeRecordsAppend(a[1..], b);
      assert (a + b)[1..] == a[1..] + b;
      ConcatAssoc(EncodeRecord(a[0]), EncodeRecords(a[1..]), EncodeRecords(b));
    }
  }

  /** Record runs of one length are delimited in only one way, whatever bytes follow them. */
  lemma {:induction false} RecordsUnique(a: seq<Record>, b: seq<Record>, r: Bytes, s: Bytes)
    requires |a| == |b|
    requires forall x | x in a :: Small(x)
    requires forall x | x in b :: Small(x)
    requires EncodeRecords(a) + r == EncodeRecords(b) + s
    ensures a == b && r == s
  {
    if a == [] {
      assert [] + r == r && [] + s == s;
    } else {
      var ra, rb := EncodeRecords(a[1..]) + r, EncodeRecords(b[1..]) + s;
      ConcatAssoc(EncodeRecord(a[0]), EncodeRecords(a[1..]), r);
      ConcatAssoc(EncodeRecord(b[0]), EncodeRecords(b[1..]), s);
      RecordUnique(a[0], b[0], ra, rb);
      RecordsUnique(a[1..], b[1..], r, s);
      assert a == [a[0]] + a[1..] && b == [b[0]] + b[1..];
    }
  }

  lemma RecordUnique(a: Record, b: Record, r: Bytes, s: Bytes)
    requires Small(a) && Small(b)
    requires EncodeRecord(a) + r == EncodeRecord(b) + s
    ensures a == b && r == s
  {
    FourPartsFirst(U32(|a.key|), U32(|a.value|), a.key, a.value, r);
    FourPartsFirst(U32(|b.key|), U32(|b.value|), b.key, b.value, s);
    var at, bt := a.key + (a.value + r), b.key + (b.value + s);
    ConcatCancel(U32(|a.key|), U32(|b.key|), U32(|a.value|) + at, U32(|b.value|) + bt);
    ConcatCancel(U32(|a.value|), U32(|b.value|), at, bt);
    U32RoundTrip(|a.key|);
    U32RoundTrip(|b.key|);
    U32RoundTrip(|a.value|);
    U32RoundTrip(|b.value|);
    ConcatCancel(a.key, b.key, a.value + r, b.value + s);
    ConcatCancel(a.value, b.value, r, s);
  }

  lemma {:induction false} RecordSizes(rs: seq<Record>)
    requires |EncodeRecords(rs)| <= MAX_STATE_BYTES
    ensures forall r | r in rs :: Small(r)
  {
    if rs == [] {
    } else {
      RecordSizes(rs[1..]);
      assert Small(rs[0]);
      assert rs == [rs[0]] + rs[1..];
    }
  }

  // ---- Distinct-key records and the maps they denote ----

  /** The map holds exactly the records. */
  lemma {:induction false} RecordIffEntry(rs: seq<Record>, x: Record)
    requires DistinctKeys(rs)
    ensures x in rs <==> x.key in MapOf(rs) && MapOf(rs)[x.key] == x.value
  {
    if rs == [] {
    } else {
      var tail := rs[1..];
      RecordIffEntry(tail, x);
      assert rs == [rs[0]] + tail;
      if x in tail {
        var i :| 0 <= i < |tail| && tail[i] == x;
        assert rs[i + 1] == x;
      }
    }
  }

  lemma HeadKeyFresh(rs: seq<Record>)
    requires rs != [] && DistinctKeys(rs)
    ensures DistinctKeys(rs[1..]) && forall x | x in rs[1..] :: x in rs && x.key != rs[0].key
  {
    forall x | x in rs[1..]
      ensures x in rs && x.key != rs[0].key
    {
      var i :| 0 <= i < |rs[1..]| && rs[1..][i] == x;
      assert rs[i + 1] == x;
    }
  }

  lemma {:induction false} MapOfSize(rs: seq<Record>)
    requires DistinctKeys(rs)
    ensures |MapOf(rs)| == |rs|
  {
    if rs == [] {
    } else {
      var k, tail := rs[0].key, rs[1..];
      MapOfSize(tail);
      HeadKeyFresh(rs);
      if k in MapOf(tail) {
        RecordIffEntry(tail, Record(k, MapOf(tail)[k]));
      }
      assert MapOf(rs).Keys == MapOf(tail).Keys + {k};
    }
  }

  lemma {:induction false} DistinctMultiplicity(rs: seq<Record>, x: Record)
    requires DistinctKeys(rs)
    ensures multiset(rs)[x] == if x in rs then 1 else 0
  {
    if rs == [] {
    } else {
      var tail := rs[1..];
      assert rs == [rs[0]] + tail;
      DistinctMultiplicity(tail, x);
      if x in tail {
        var i :| 0 <= i < |tail| && tail[i] == x;
        assert rs[i + 1] == x;
      }
    }
  }

  /** A map has one set of records; only their arrangement is free. */
  lemma SameMapSameRecords(a: seq<Record>, b: seq<Record>)
    requires DistinctKeys(a) && DistinctKeys(b)
    requires MapOf(a) == MapOf(b)
    ensures multiset(a) == multiset(b)
  {
    forall x: Record
      ensures multiset(a)[x] == multiset(b)[x]
    {
      DistinctMultiplicity(a, x);
      DistinctMultiplicity(b, x);
      RecordIffEntry(a, x);
      RecordIffEntry(b, x);
    }
  }

  lemma SameRecordsSameMap(a: seq<Record>, b: seq<Record>)
    requires DistinctKeys(a) && DistinctKeys(b)
    requires multiset(a) == multiset(b)
    ensures MapOf(a) == MapOf(b)
  {
    SameElements(a, b);
    forall x: Record
      ensures x.key in MapOf(a) && MapOf(a)[x.key] == x.value <==> x.key in MapOf(b) && MapOf(b)[x.key] == x.value
    {
      RecordIffEntry(a, x);
      RecordIffEntry(b, x);
    }
    EntriesDetermineMap(MapOf(a), MapOf(b));
  }

  lemma EntriesDetermineMap(m: Storage, n: Storage)
    requires forall x: Record :: x.key in m && m[x.key] == x.value <==> x.key in n && n[x.key] == x.value
    ensures m == n
  {
    forall k
      ensures k in m <==> k in n
      ensures k in m && k in n ==> m[k] == n[k]
    {
      if k in m {
        assert Record(k, m[k]).key in n;
      }
      if k in n {
        assert Record(k, n[k]).key in m;
      }
    }
  }

  lemma PermutationKeepsDistinct(a: seq<Record>, b: seq<Record>)
    requires DistinctKeys(a) && multiset(a) == multiset(b)
    ensures DistinctKeys(b)
  {
    SameElements(a, b);
    forall i, j | 0 <= i < j < |b|
      ensures b[i].key != b[j].key
    {
      if b[i].key == b[j].key {
        assert b[i] in b && b[j] in b;
        RecordIffEntry(a, b[i]);
        RecordIffEntry(a, b[j]);
        CountedTwice(b, i, j);
        DistinctMultiplicity(a, b[i]);
      }
    }
  }

  /** The length of an encoding does not depend on the arrangement of its records. */
  lemma {:induction false} PermutationSameLength(a: seq<Record>, b: seq<Record>)
    requires multiset(a) == multiset(b)
    ensures |EncodeRecords(a)| == |EncodeRecords(b)|
    decreases |a|
  {
    SameElements(a, b);
    if a == [] {
    } else {
      assert a[0] in b;
      var i :| 0 <= i < |b| && b[i] == a[0];
      var rest := b[..i] + b[i + 1..];
      LengthWithout(b, i);
      TailMultiset(a);
      RemoveAt(b, i);
      PermutationSameLength(a[1..], rest);
    }
  }

  lemma LengthWithout(b: seq<Record>, i: nat)
    requires i < |b|
    ensures |EncodeRecords(b)| == |EncodeRecord(b[i])| + |EncodeRecords(b[..i] + b[i + 1..])|
  {
    assert b == b[..i] + b[i..];
    EncodeRecordsAppend(b[..i], b[i..]);
    EncodeRecordsAppend(b[..i], b[i + 1..]);
    assert b[i..][1..] == b[i + 1..];
  }

  // ---- The canonical arrangement and `Export` ----

  /** Some listing of a map, one record for each key. */
  ghost function Listing(m: Storage): (rs: seq<Record>)
    ensures DistinctKeys(rs) && MapOf(rs) == m && |rs| == |m|
  {
    if m == map[] then
      []
    else
      var k :| k in m;
      var rest := Listing(m - {k});
      assert (m - {k})[k := m[k]] == m;
      assert ([Record(k, m[k])] + rest)[1..] == rest;
      FreshKey(rest, k);
      [Record(k, m[k])] + rest
  }

  /** A key outside the map of some records is no record's key. */
  lemma FreshKey(rs: seq<Record>, k: Bytes)
    requires DistinctKeys(rs) && k !in MapOf(rs)
    ensures forall r | r in rs :: r.key != k
  {
    forall r | r in rs
      ensures r.key != k
    {
      RecordIffEntry(rs, r);
    }
  }

  lemma ByKeyTotal()
    ensures TotalPreorder(ByKey)
  {
    BytesLeTotal();
  }

  lemma DistinctTieFree(rs: seq<Record>)
    requires DistinctKeys(rs)
    ensures TieFree(rs, ByKey)
  {
    BytesLeTotal();
  }

  /** The records of a map in ascending key order. */
  ghost function Canonical(m: Storage): seq<Record> {
    Sort(Listing(m), ByKey)
  }

  lemma CanonicalMeaning(m: Storage)
    ensures var rs := Canonical(m);
            DistinctKeys(rs) && Sorted(rs, ByKey) && MapOf(rs) == m && |rs| == |m|
  {
    ByKeyTotal();
    SortSorts(Listing(m), ByKey);
    PermutationKeepsDistinct(Listing(m), Canonical(m));
    SameRecordsSameMap(Listing(m), Canonical(m));
  }

  /** Ascending distinct records are the canonical ones, however they were found. */
  lemma CanonicalUnique(m: Storage, rs: seq<Record>)
    requires DistinctKeys(rs) && Sorted(rs, ByKey) && MapOf(rs) == m
    ensures rs == Canonical(m)
  {
    CanonicalMeaning(m);
    SameMapSameRecords(rs, Canonical(m));
    DistinctTieFree(rs);
    DistinctTieFree(Canonical(m));
    SortedUnique(rs, Canonical(m), ByKey);
  }

  /** The records of the map, each key smaller than the next. */
  ghost predicate InKeyOrder(rs: seq<Record>, m: Storage) {
    && |rs| == |m| && (forall r | r in rs :: r.key in m && m[r.key] == r.value)
    && forall i, j | 0 <= i < j < |rs| :: Smaller(rs[i].key, rs[j].key)
  }

  lemma OrderedMap(rs: seq<Record>, m: Storage)
    requires DistinctKeys(rs) && |rs| == |m| && forall r | r in rs :: r.key in m && m[r.key] == r.value
    ensures MapOf(rs) == m
  {
    var n := MapOf(rs);
    MapOfSize(rs);
    forall k | k in n
      ensures k in m && n[k] == m[k]
    {
      RecordIffEntry(rs, Record(k, n[k]));
    }
    assert n.Keys <= m.Keys;
    assert |m.Keys - n.Keys| == 0;
  }

  lemma CanonicalExactly(m: Storage, rs: seq<Record>)
    ensures rs == Canonical(m) <==> InKeyOrder(rs, m)
  {
    CanonicalMeaning(m);
    hide MapOf, Canonical, LexLe, Smaller;
    forall i, j | 0 <= i < j < |rs|
      ensures BytesLe(rs[i].key, rs[j].key) <==> rs[i].key == rs[j].key || Smaller(rs[i].key, rs[j].key)
      ensures Smaller(rs[i].key, rs[j].key) ==> rs[i].key != rs[j].key
    {
      LexExactly(rs[i].key, rs[j].key);
      NotSmaller(rs[i].key);
    }
    if rs == Canonical(m) {
      forall r | r in rs
        ensures r.key in m && m[r.key] == r.value
      {
        RecordIffEntry(rs, r);
      }
    }
    if InKeyOrder(rs, m) {
      OrderedMap(rs, m);
      ByKeySorts(rs);
      CanonicalUnique(m, rs);
    }
  }

  lemma NotSmaller(a: Bytes)
    ensures !Smaller(a, a)
  {
  }

  lemma ByKeySorts(rs: seq<Record>)
    requires forall i, j | 0 <= i < j < |rs| :: BytesLe(rs[i].key, rs[j].key)
    ensures Sorted(rs, ByKey)
  {
    hide LexLe;
  }

  ghost function Export(m: Storage): Result<Bytes, StateError> {
    if |m| > MAX_STATE_ENTRIES then
      Err(TooManyEntries)
    else if |Frame(Canonical(m))| > MAX_STATE_BYTES then
      Err(StateTooLarge)
    else
      Ok(Frame(Canonical(m)))
  }

  /** What is exported, if both limits are kept, is the frame of the records in the order of their keys. */
  lemma ExportExactly(m: Storage, e: Bytes)
    ensures Export(m) == Ok(e) <==>
            && |m| <= MAX_STATE_ENTRIES && |e| <= MAX_STATE_BYTES
            && exists rs :: InKeyOrder(rs, m) && e == Frame(rs)
  {
    hide Frame, InKeyOrder, Canonical;
    CanonicalExactly(m, Canonical(m));
    forall rs | InKeyOrder(rs, m)
      ensures rs == Canonical(m)
    {
      CanonicalExactly(m, rs);
    }
  }

  // ---- `import_state` accepts exactly the grammar ----

  lemma {:induction false} ImportRecordsComplete(e: Bytes, offset: nat, rs: seq<Record>, values: Storage)
    requires offset <= |e| <= MAX_STATE_BYTES
    requires e[offset..] == EncodeRecords(rs)
    requires DistinctKeys(rs)
    requires forall r | r in rs :: r.key !in values
    ensures ImportRecords(e, offset, |rs|, values) == Ok(values + MapOf(rs))
    decreases |rs|
  {
    hide ReadRecord, EncodeRecord;
    if rs == [] {
      assert values + MapOf(rs) == values;
    } else {
      var r, tail := rs[0], rs[1..];
      var next := offset + |EncodeRecord(r)|;
      RecordSizes(rs);
      ReadHead(e, offset, r, EncodeRecords(tail));
      HeadKeyFresh(rs);
      ImportStep(e, offset, |rs|, values);
      ImportRecordsComplete(e, next, tail, values[r.key := r.value]);
      MergeHead(values, rs);
    }
  }

  lemma ImportStep(e: Bytes, offset: nat, count: nat, values: Storage)
    requires offset <= |e| && count > 0
    requires ReadRecord(e, offset).Ok?
    requires ReadRecord(e, offset).value.0.key !in values
    ensures var (r, next) := ReadRecord(e, offset).value;
            ImportRecords(e, offset, count, values) == ImportRecords(e, next, count - 1, values[r.key := r.value])
  {
  }

  lemma ImportStepBack(e: Bytes, offset: nat, count: nat, values: Storage)
    requires offset <= |e| && count > 0
    requires ImportRecords(e, offset, count, values).Ok?
    ensures ReadRecord(e, offset).Ok? && ReadRecord(e, offset).value.0.key !in values
  {
  }

  lemma ReadHead(e: Bytes, offset: nat, r: Record, rest: Bytes)
    requires offset <= |e| <= MAX_STATE_BYTES && Small(r)
    requires e[offset..] == EncodeRecord(r) + rest
    ensures offset + |EncodeRecord(r)| <= |e|
    ensures ReadRecord(e, offset) == Ok((r, offset + |EncodeRecord(r)|))
    ensures e[offset + |EncodeRecord(r)|..] == rest
  {
    var size := |EncodeRecord(r)|;
    assert |e[offset..]| == size + |rest|;
    DropConcat(EncodeRecord(r), rest);
    SubSlice(e, offset, |e|, 0, size);
    SubSlice(e, offset, |e|, size, |e| - offset);
    assert e[offset..|e|] == e[offset..];
    assert rest == (EncodeRecord(r) + rest)[size..size + |rest|];
    ReadRecordComplete(e, offset, r);
  }

  lemma MergeHead(values: Storage, rs: seq<Record>)
    requires rs != [] && DistinctKeys(rs)
    ensures values[rs[0].key := rs[0].value] + MapOf(rs[1..]) == values + MapOf(rs)
  {
    var k, tail := rs[0].key, MapOf(rs[1..]);
    if k in tail {
      RecordIffEntry(rs[1..], Record(k, tail[k]));
      HeadKeyFresh(rs);
    }
  }

  lemma Cons(r: Record, tail: seq<Record>, values: Storage)
    requires r.key !in values && DistinctKeys(tail)
    requires forall x | x in tail :: x.key !in values[r.key := r.value]
    ensures var rs := [r] + tail;
            && DistinctKeys(rs)
            && EncodeRecords(rs) == EncodeRecord(r) + EncodeRecords(tail)
            && (forall x | x in rs :: x.key !in values)
            && values[r.key := r.value] + MapOf(tail) == values + MapOf(rs)
  {
    var rs := [r] + tail;
    assert rs[1..] == tail;
    forall x | x in tail
      ensures x.key !in values && x.key != r.key
    {
    }
    MergeHead(values, rs);
  }

  lemma {:induction false} ImportRecordsSound(e: Bytes, offset: nat, count: nat, values: Storage)
    returns (rs: seq<Record>)
    requires offset <= |e|
    requires ImportRecords(e, offset, count, values).Ok?
    ensures |rs| == count
    ensures e[offset..] == EncodeRecords(rs)
    ensures DistinctKeys(rs)
    ensures forall r | r in rs :: r.key !in values
    ensures ImportRecords(e, offset, count, values).value == values + MapOf(rs)
    decreases count
  {
    hide ReadRecord, EncodeRecord;
    if count == 0 {
      rs := [];
      assert values + MapOf(rs) == values;
    } else {
      ImportStepBack(e, offset, count, values);
      ImportStep(e, offset, count, values);
      ReadRecordSound(e, offset);
      var (r, next) := ReadRecord(e, offset).value;
      var tail := ImportRecordsSound(e, next, count - 1, values[r.key := r.value]);
      rs := [r] + tail;
      Cons(r, tail, values);
      assert e[offset..] == e[offset..next] + e[next..];
    }
  }

  /** Completeness: every buffer of the grammar is accepted, and yields the map of its records. */
  lemma ImportComplete(e: Bytes, rs: seq<Record>)
    requires IsState(e, rs)
    ensures Import(e) == Ok(MapOf(rs))
  {
    U16RoundTrip(STATE_FORMAT_VERSION);
    U32RoundTrip(|rs|);
    assert e[..10] == Header(|rs|);
    assert e[..4] == e[..10][..4] == STATE_MAGIC;
    assert e[4..6] == e[..10][4..6] == U16(STATE_FORMAT_VERSION);
    assert e[6..10] == e[..10][6..10] == U32(|rs|);
    assert e[10..] == EncodeRecords(rs);
    ImportRecordsComplete(e, STATE_HEADER_BYTES, rs, map[]);
    assert map[] + MapOf(rs) == MapOf(rs);
  }

  /** Soundness: an accepted buffer is of the grammar. */
  lemma ImportSound(e: Bytes) returns (rs: seq<Record>)
    requires Import(e).Ok?
    ensures IsState(e, rs) && Import(e).value == MapOf(rs)
  {
    rs := ImportRecordsSound(e, STATE_HEADER_BYTES, ReadU32(e[6..10]), map[]);
    ReadU16RoundTrip(e[4..6]);
    ReadU32RoundTrip(e[6..10]);
    assert e == e[..4] + e[4..6] + e[6..10] + e[10..];
    assert map[] + MapOf(rs) == MapOf(rs);
  }

  /** `import_state` returns Ok(m) exactly on the well-formed buffers whose records denote m. */
  lemma ImportExact(e: Bytes, m: Storage)
    ensures Import(e) == Ok(m) <==> exists rs :: IsState(e, rs) && MapOf(rs) == m
  {
    if Import(e) == Ok(m) {
      var rs := ImportSound(e);
    }
    if rs :| IsState(e, rs) && MapOf(rs) == m {
      ImportComplete(e, rs);
    }
  }

  /** No accepted buffer is a proper prefix or extension of another; and a buffer has one reading. */
  lemma StatesPrefixFree(e: Bytes, rs: seq<Record>, f: Bytes, ss: seq<Record>)
    requires IsState(e, rs) && IsState(f, ss)
    requires e <= f
    ensures e == f && rs == ss
  {
    var extra := f[|e|..];
    assert f == e + extra;
    U32RoundTrip(|rs|);
    U32RoundTrip(|ss|);
    assert f == Header(|rs|) + (EncodeRecords(rs) + extra);
    ConcatCancel(Header(|rs|), Header(|ss|), EncodeRecords(rs) + extra, EncodeRecords(ss));
    assert Header(|rs|)[6..] == U32(|rs|) && Header(|ss|)[6..] == U32(|ss|);
    RecordSizes(rs);
    RecordSizes(ss);
    assert EncodeRecords(ss) == EncodeRecords(ss) + [];
    RecordsUnique(rs, ss, extra, []);
  }

  // ---- Import and export together ----

  /** What is exported is imported again, unchanged. */
  lemma RoundTrip(m: Storage)
    requires Export(m).Ok?
    ensures Import(Export(m).value) == Ok(m)
  {
    CanonicalMeaning(m);
    ImportComplete(Export(m).value, Canonical(m));
  }

  /** Exports are equal exactly when the maps are. */
  lemma ExportInjective(m: Storage, n: Storage)
    requires Export(m).Ok?
    ensures Export(m) == Export(n) <==> m == n
  {
    RoundTrip(m);
    if Export(n).Ok? {
      RoundTrip(n);
    }
  }

  /**
   Exporting what was imported succeeds, keeps the length, and rearranges the records into ascending
   key order; it changes nothing exactly when they already ascended, and doing it again changes nothing.
   */
  lemma NormalForm(e: Bytes, rs: seq<Record>)
    requires IsState(e, rs)
    ensures var normal := Export(MapOf(rs));
            && normal == Ok(Frame(Sort(rs, ByKey)))
            && |normal.value| == |e|
            && IsState(normal.value, Sort(rs, ByKey))
            && (normal.value == e <==> Sorted(rs, ByKey))
            && Import(normal.value) == Import(e) == Ok(MapOf(rs))
  {
    var m, sorted := MapOf(rs), Sort(rs, ByKey);
    ByKeyTotal();
    SortSorts(rs, ByKey);
    PermutationKeepsDistinct(rs, sorted);
    SameRecordsSameMap(rs, sorted);
    CanonicalUnique(m, sorted);
    PermutationSameLength(rs, sorted);
    MapOfSize(rs);
    ImportComplete(e, rs);
    RoundTrip(m);
    assert IsState(Frame(sorted), sorted);
    if Frame(sorted) == e {
      StatesPrefixFree(e, sorted, e, rs);
    }
    if Sorted(rs, ByKey) {
      SortFixesSorted(rs, ByKey);
    }
  }

  // ---- The provider, step by step ----

  /** The two lengths and the two fields of one record, each read moving the offset on. */
  method ReadEntry(encoded: Bytes, start: nat) returns (r: Result<(Record, nat), StateError>)
    requires start <= |encoded|
    ensures r == ReadRecord(encoded, start)
  {
    var offset := start;
    var keyLength, valueLength: nat, key, value;
    var length :- ReadLength(encoded, offset);
    keyLength, offset := length.0, length.1;
    length :- ReadLength(encoded, offset);
    valueLength, offset := length.0, length.1;
    var field :- ReadField(encoded, offset, keyLength);
    key, offset := field.0, field.1;
    field :- ReadField(encoded, offset, valueLength);
    value, offset := field.0, field.1;
    return Ok((Record(key, value), offset));
  }

  /** The counted run of records after the header, which must end where the buffer ends. */
  method ReadEntries(encoded: Bytes, count: nat) returns (r: Result<Storage, StateError>)
    requires STATE_HEADER_BYTES <= |encoded|
    ensures r == ImportRecords(encoded, STATE_HEADER_BYTES, count, map[])
  {
    var offset: nat := STATE_HEADER_BYTES;
    var values: Storage := map[];
    for done := 0 to count
      invariant offset <= |encoded|
      invariant ImportRecords(encoded, offset, count - done, values) ==
                ImportRecords(encoded, STATE_HEADER_BYTES, count, map[])
    {
      var entry := ReadEntry(encoded, offset);
      if entry.Err? {
        return Err(entry.error);
      }
      var Record(key, value) := entry.value.0;
      if key in values {
        return Err(DuplicateKey);
      }
      offset := entry.value.1;
      values := values[key := value];
    }
    if offset != |encoded| {
      return Err(TrailingBytes);
    }
    return Ok(values);
  }

  class ProtocolProvider {
    var values: Storage

    /** A provider with the given memory; `default()` is the empty one. */
    constructor (initial: Storage)
      ensures values == initial
    {
      values := initial;
    }

    static method ImportState(encoded: Bytes) returns (r: Result<ProtocolProvider, StateError>)
      ensures match Import(encoded)
              case Ok(m) => r.Ok? && fresh(r.value) && r.value.values == m
              case Err(x) => r == Err(x)
    {
      if |encoded| > MAX_STATE_BYTES {
        return Err(StateTooLarge);
      }
      if |encoded| < STATE_HEADER_BYTES || encoded[..4] != STATE_MAGIC {
        return Err(InvalidHeader);
      }
      var version := ReadU16(encoded[4..6]);
      if version != STATE_FORMAT_VERSION {
        return Err(UnsupportedVersion(version));
      }
      var entryCount := ReadU32(encoded[6..10]);
      if entryCount > MAX_STATE_ENTRIES {
        return Err(TooManyEntries);
      }
      var values :- ReadEntries(encoded, entryCount);
      var provider := new ProtocolProvider(values);
      return Ok(provider);
    }

    /** The entries of the hash map, in whatever order its iterator yields them. */
    method Entries() returns (entries: seq<Record>)
      ensures DistinctKeys(entries) && MapOf(entries) == values && |entries| == |values|
    {
      entries := [];
      var rest := values.Keys;
      while rest != {}
        invariant rest <= values.Keys
        invariant DistinctKeys(entries)
        invariant forall r | r in entries :: r.key in values && r.key !in rest && values[r.key] == r.value
        invariant |entries| + |rest| == |values|
        decreases rest
      {
        var k :| k in rest;
        assert forall r | r in entries :: r.key != k;
        entries := [Record(k, values[k])] + entries;
        rest := rest - {k};
      }
      OrderedMap(entries, values);
    }

    method ExportState() returns (r: Result<Bytes, StateError>)
      ensures r == Export(values)
    {
      if |values| > MAX_STATE_ENTRIES {
        return Err(TooManyEntries);
      }
      var listed := Entries();
      var entries := SortUnstable(listed);
      PermutationKeepsDistinct(listed, entries);
      SameRecordsSameMap(listed, entries);
      CanonicalUnique(values, entries);

      var encoded := STATE_MAGIC;
      encoded := encoded + U16(STATE_FORMAT_VERSION);
      encoded := encoded + U32(|entries|);
      assert encoded == Header(|entries|) + EncodeRecords(entries[..0]);
      for i := 0 to |entries|
        invariant encoded == Header(|entries|) + EncodeRecords(entries[..i])
        invariant |encoded| <= MAX_STATE_BYTES
      {
        var key, value := entries[i].key, entries[i].value;
        PrefixOfFrame(entries, i, encoded);
        if |key| >= U32_RANGE || |value| >= U32_RANGE {
          return Err(StateTooLarge);
        }
        encoded := encoded + U32(|key|) + U32(|value|) + key + value;
        if |encoded| > MAX_STATE_BYTES {
          return Err(StateTooLarge);
        }
      }
      assert entries[..|entries|] == entries;
      return Ok(encoded);
    }
  }

  /** The library sort: any ascending arrangement; ties are not promised an order. */
  method SortUnstable(entries: seq<Record>) returns (sorted: seq<Record>)
    ensures multiset(sorted) == multiset(entries) && Sorted(sorted, ByKey)
  {
    ByKeyTotal();
    SortSorts(entries, ByKey);
    sorted := Sort(entries, ByKey);
  }

  lemma PrefixOfFrame(rs: seq<Record>, i: nat, written: Bytes)
    requires i < |rs| && written == Header(|rs|) + EncodeRecords(rs[..i])
    ensures var r := rs[i];
            && written + U32(|r.key|) + U32(|r.value|) + r.key + r.value == Header(|rs|) + EncodeRecords(rs[..i + 1])
            && |written| + |EncodeRecord(r)| <= |Frame(rs)|
  {
    var r, before := rs[i], EncodeRecords(rs[..i]);
    assert rs[..i + 1] == rs[..i] + [r];
    EncodeRecordsAppend(rs[..i], [r]);
    assert EncodeRecords([r]) == EncodeRecord(r) + [] == EncodeRecord(r);
    assert rs == rs[..i + 1] + rs[i + 1..];
    EncodeRecordsAppend(rs[..i + 1], rs[i + 1..]);
    ConcatAssoc(Header(|rs|), before, EncodeRecord(r));
    assert written + U32(|r.key|) + U32(|r.value|) + r.key + r.value == written + EncodeRecord(r);
  }
}
