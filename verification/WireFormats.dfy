/** The frames and the limits written out, as other runtimes must write and respect them. */
module WireFormats {
  import opened Wrappers
  import opened ByteStrings
  import opened Fields
  import opened StateCodec
  import CommandFrames
  import Envelopes
  import Fixtures

  /** A state: magic, version, count, and for each record the two lengths, the key and the value. */
  lemma StateBytes(key: Bytes, value: Bytes)
    requires |key| == 2 && |value| == 3
    ensures Frame([]) == Text("RCST") + [0, 1, 0, 0, 0, 0]
    ensures Frame([Record(key, value)]) ==
            Text("RCST") + [0, 1, 0, 0, 0, 1] + [0, 0, 0, 2] + [0, 0, 0, 3] + key + value
    ensures Import(Text("RCST") + [0, 1, 0, 0, 0, 0]) == Ok(map[])
  {
    assert Text("RCST") == STATE_MAGIC;
    var r := Record(key, value);
    assert [r][1..] == [];
    var e := Text("RCST") + [0, 1, 0, 0, 0, 0];
    assert e[..4] == STATE_MAGIC && e[4..6] == [0, 1] && e[6..10] == [0, 0, 0, 0];
  }

  /** An envelope: magic, version, kind, length, payload. */
  lemma EnvelopeBytes(payload: Bytes)
    requires |payload| == 258
    ensures var version := Envelopes.PROTOCOL_VERSION;
            && Envelopes.Envelope(version, Envelopes.Application, payload).Encode() ==
               Text("RCML") + [0, 1, 1, 0, 0, 1, 2] + payload
            && Envelopes.Envelope(version, Envelopes.Commit, payload).Encode() ==
               Text("RCML") + [0, 1, 2, 0, 0, 1, 2] + payload
            && Envelopes.Envelope(version, Envelopes.Welcome, payload).Encode() ==
               Text("RCML") + [0, 1, 3, 0, 0, 1, 2] + payload
  {
    assert Text("RCML") == Envelopes.MAGIC;
  }

  lemma FieldBytes(f: Bytes)
    requires |f| < 256
    ensures EncodeField(f) == [0, 0, 0, |f|] + f
  {
  }

  lemma TwoFields(a: Bytes, b: Bytes)
    requires |a| < 256 && |b| < 256
    ensures EncodeFields([a, b]) == [0, 0, 0, |a|] + a + [0, 0, 0, |b|] + b
  {
    hide EncodeField;
    FieldBytes(a);
    FieldBytes(b);
    assert [a, b][1..] == [b] && [b][1..] == [];
    assert EncodeFields([b]) == EncodeField(b) + [] == EncodeField(b);
    assert EncodeFields([a, b]) == EncodeField(a) + EncodeField(b);
  }

  /** A request: magic, version, operation, count, and each field behind its length. */
  lemma RequestBytes(operation: Byte, a: Bytes, b: Bytes)
    requires |a| == 1 && |b| == 2
    ensures CommandFrames.EncodeRequest(operation, [a, b]) ==
            Text("RCCQ") + [0, 1, operation, 2] + [0, 0, 0, 1] + a + [0, 0, 0, 2] + b
  {
    assert Text("RCCQ") == CommandFrames.REQUEST_MAGIC;
    TwoFields(a, b);
    hide EncodeFields;
  }

  /** A response: magic, version, status, count, and each field behind its length. */
  lemma ResponseBytes(status: Byte, a: Bytes, b: Bytes)
    requires |a| == 1 && |b| == 2
    ensures CommandFrames.EncodeResponse(status, [a, b]) ==
            Text("RCCR") + [0, 1, status, 2] + [0, 0, 0, 1] + a + [0, 0, 0, 2] + b
    ensures CommandFrames.EncodeMembers([a, b]) == [0, 0, 0, 2] + [0, 0, 0, 1] + a + [0, 0, 0, 2] + b
  {
    assert Text("RCCR") == CommandFrames.RESPONSE_MAGIC;
    TwoFields(a, b);
    hide EncodeFields;
  }

  lemma FixtureBytes(a: Bytes, b: Bytes, c: Bytes, d: Bytes)
    requires |a| == 1 && |b| == 2 && |c| == 3 && |d| == 4
    ensures Fixtures.FixtureBytes(Fixtures.CrossRuntimeFixture(a, b, c, d)) ==
            Text("RCFX") + [0, 1] +
            [0, 0, 0, 1] + a + [0, 0, 0, 2] + b + [0, 0, 0, 3] + c + [0, 0, 0, 4] + d
  {
    assert Text("RCFX") == Fixtures.FIXTURE_MAGIC;
    TwoFields(a, b);
    TwoFields(c, d);
    EncodeFieldsAppend([a, b], [c, d]);
    assert [a, b] + [c, d] == [a, b, c, d];
    hide EncodeFields;
  }

  /** The limits of envelopes, states and requests. */
  lemma Limits(kind: Envelopes.EnvelopeKind, payload: Bytes, state: Bytes, request: Bytes)
    ensures Envelopes.TryNew(kind, payload).Ok? <==> |payload| <= 16_777_216
    ensures |state| > 67_108_864 ==> Import(state) == Err(StateTooLarge)
    ensures Import(state).Ok? ==> |Import(state).value| <= 100_000
    ensures |request| > 84_934_656 <==> CommandFrames.DecodeRequest(request) == Err(CommandFrames.CommandTooLarge)
    ensures CommandFrames.DecodeRequest(request).Ok? ==>
              && |CommandFrames.DecodeRequest(request).value.1| <= 8
              && forall f | f in CommandFrames.DecodeRequest(request).value.1 :: |f| <= 67_108_864
  {
    if Import(state).Ok? {
      var rs := ImportSound(state);
      MapOfSize(rs);
    }
    if CommandFrames.DecodeRequest(request).Ok? {
      CommandFrames.EncodeDecoded(request);
    }
    hide ReadFields, ImportRecords;
  }
}
