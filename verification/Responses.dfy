/**
 Responses lose nothing to narrowing.  The code bounds the state, the envelopes, the epochs and the stored
 material itself; what remains is asked of the library's opaque outputs alone.
 */
module Responses {
  import opened Wrappers
  import opened Orders
  import opened ByteStrings
  import opened Fields
  import opened StateCodec
  import opened CommandFrames
  import opened Engines
  import opened Envelopes
  import opened Sessions
  import opened Commands

  // ---- The bounds asked of the library ----

  /** The program's own words around an error take less than what is left below 2^32. */
  const DETAIL_LIMIT: nat := U32_RANGE - 0x4_0000

  ghost predicate Brief<T>(r: Result<T, Bytes>) {
    r.Err? ==> |r.error| <= DETAIL_LIMIT
  }

  ghost predicate Measurable(f: Bytes) {
    |f| < U32_RANGE
  }

  function Contents(members: seq<Member>): seq<Bytes> {
    Map(members, (m: Member) => m.content)
  }

  /**
   Key packages, signatures, digests, plaintexts and error details stay below 2^32 bytes, and so do the leaves of
   a group together, as far as it was loaded from a storage that fits a state.
   */
  ghost predicate Modest(e: Engine) {
    && ModestKeys(e)
    && ModestGroups(e)
    && ModestMessages(e)
  }

  ghost predicate ModestKeys(e: Engine) {
    && (forall r :: Brief(e.newSigner(r)))
    && (forall s, k :: Brief(e.storeSigner(s, k).result))
    && (forall k, p :: Brief(e.sign(k, p)) && (e.sign(k, p).Ok? ==> Measurable(e.sign(k, p).value)))
    && (forall b :: Measurable(e.sha256(b)))
    && (forall s, c, r :: Brief(e.buildKeyPackage(s, c, r).result))
    && (forall b :: Brief(e.serializeKeyPackage(b)))
    && (forall b :: e.serializeKeyPackage(b).Ok? ==> Measurable(e.serializeKeyPackage(b).value))
    && (forall b :: Brief(e.decodeKeyPackage(b)))
    && (forall b :: Brief(e.validateKeyPackage(b)))
  }

  ghost predicate ModestGroups(e: Engine) {
    && (forall s, id :: Brief(e.loadGroup(s, id)))
    && (forall s, id | Export(s).Ok? && e.loadGroup(s, id).Ok? && e.loadGroup(s, id).value.Some? ::
          4 + FieldsLength(Contents(e.loadGroup(s, id).value.value.members)) < U32_RANGE)
    && (forall s, c, id, r :: Brief(e.newGroup(s, c, id, r).result))
    && (forall s, g, k, p, r :: Brief(e.addMembers(s, g, k, p, r).result))
    && (forall s, g, k, i, r :: Brief(e.removeMembers(s, g, k, i, r).result))
    && (forall s, g :: Brief(e.mergePending(s, g).result))
    && (forall s, w :: Brief(e.stageWelcome(s, w).result))
    && (forall s, w :: Brief(e.welcomeIntoGroup(s, w).result))
    && (forall s, g, c :: Brief(e.mergeStaged(s, g, c).result))
  }

  ghost predicate ModestMessages(e: Engine) {
    && (forall b :: Brief(e.serializeMessage(b)))
    && (forall b :: Brief(e.decodeMessage(b)))
    && (forall b :: Brief(e.protocolMessage(b)))
    && (forall s, g, m :: Brief(e.processMessage(s, g, m).result) && ShortPlaintext(e.processMessage(s, g, m).result))
    && (forall s, g, k, p, r :: Brief(e.createMessage(s, g, k, p, r).result))
  }

  ghost predicate ShortPlaintext(r: Result<(Group, Content), Bytes>) {
    r.Ok? && r.value.1.ApplicationMessage? ==> Measurable(r.value.1.plaintext)
  }

  // ---- Error texts ----

  ghost predicate ShortError(x: SessionError) {
    match x
    case Operation(context, detail) => |context| <= 64 && |detail| <= DETAIL_LIMIT
    case State(UnsupportedVersion(v)) => v < U16_RANGE
    case Envelope(UnsupportedVersion(v)) => v < U16_RANGE
    case _ => true
  }

  ghost predicate Short<T>(r: SessionResult<T>) {
    r.Err? ==> ShortError(r.error)
  }

  lemma {:induction false} DecimalLength(n: nat)
    ensures |Decimal(n)| <= n + 1
  {
    if n >= 10 {
      DecimalLength(n / 10);
    }
  }

  lemma ErrorTextFits(x: SessionError)
    requires ShortError(x)
    ensures Measurable(SessionErrorText(x))
  {
    match x {
      case State(UnsupportedVersion(v)) => DecimalLength(v);
      case Envelope(UnsupportedVersion(v)) => DecimalLength(v);
      case Envelope(UnknownKind(k)) => DecimalLength(k);
      case _ =>
    }
  }

  lemma RequestTextFits(x: RequestError)
    ensures Measurable(RequestErrorText(x))
  {
  }

  // ---- The steps that operations share ----

  lemma StateErrorsShort(s: Storage, state: Bytes)
    ensures Short(Stated(Export(s))) && Short(Stated(Import(state)))
  {
    hide Canonical, Frame;
    if Import(state).Err? {
      ImportRecordsVersion(state);
    }
  }

  lemma ImportRecordsVersion(state: Bytes)
    ensures Import(state).Err? && Import(state).error.UnsupportedVersion? ==> Import(state).error.version < U16_RANGE
  {
    if |state| >= STATE_HEADER_BYTES {
      RecordsNoVersion(state, STATE_HEADER_BYTES, ReadU32(state[6..10]), map[]);
    }
  }

  lemma {:induction false} RecordsNoVersion(e: Bytes, offset: nat, count: nat, values: Storage)
    requires offset <= |e|
    ensures var r := ImportRecords(e, offset, count, values); r.Err? ==> !r.error.UnsupportedVersion?
    decreases count
  {
    if count > 0 && ReadRecord(e, offset).Ok? {
      var (r, next) := ReadRecord(e, offset).value;
      RecordsNoVersion(e, next, count - 1, values[r.key := r.value]);
    }
  }

  lemma StepsShort(e: Engine)
    requires Modest(e)
    ensures forall s :: Short(IdentityAndSigner(e, s))
    ensures forall s, id :: Short(LoadGroup(e, s, id))
    ensures forall kind, message :: Short(EncodeMessage(e, kind, message))
    ensures forall encoded, kind :: Short(RequireEnvelope(encoded, kind))
    ensures forall s :: Short(Stated(Export(s)))
  {
    hide Export;
    forall s: Storage
      ensures Short(Stated(Export(s)))
    {
      StateErrorsShort(s, []);
    }
  }

  /** A sent envelope is at most a header longer than the largest payload. */
  lemma SentMeasurable(e: Engine, kind: EnvelopeKind, message: Bytes)
    ensures EncodeMessage(e, kind, message).Ok? ==> Measurable(EncodeMessage(e, kind, message).value)
  {
  }

  lemma {:induction false} EncodedEntryBound(rs: seq<Record>, r: Record)
    requires r in rs
    ensures |r.key| + |r.value| <= |EncodeRecords(rs)|
  {
    if r != rs[0] {
      assert rs == [rs[0]] + rs[1..];
      EncodedEntryBound(rs[1..], r);
    }
  }

  /** What is stored in a state that can be exported is no longer than the state. */
  lemma StoredBound(s: Storage, k: Bytes)
    requires Export(s).Ok? && k in s
    ensures |s[k]| <= MAX_STATE_BYTES
  {
    CanonicalMeaning(s);
    RecordIffEntry(Canonical(s), Record(k, s[k]));
    EncodedEntryBound(Canonical(s), Record(k, s[k]));
  }

  lemma ExportMeasurable(s: Storage)
    ensures Export(s).Ok? ==> Measurable(Export(s).value)
  {
    hide Canonical, Frame;
  }

  lemma MaterialMeasurable(e: Engine, s: Storage)
    requires Modest(e) && Export(s).Ok? && Material(e, s).Ok?
    ensures forall f | f in MaterialFields(Material(e, s).value) :: Measurable(f)
  {
    hide Export;
    StoredBound(s, IDENTITY_KEY);
    StoredBound(s, SIGNATURE_PUBLIC_KEY);
    StoredBound(s, ROOT_PUBLIC_KEY);
  }

  lemma {:induction false} FieldsLengthPermutes(a: seq<Bytes>, b: seq<Bytes>)
    requires multiset(a) == multiset(b)
    ensures FieldsLength(a) == FieldsLength(b)
    decreases |a|
  {
    if a == [] {
      assert |multiset(b)| == |b|;
    } else {
      var i := Orders.Find(b, a[0], a);
      TailMultiset(a);
      RemoveAt(b, i);
      FieldsLengthPermutes(a[1..], b[..i] + b[i + 1..]);
      FieldsLengthWithout(b, i);
    }
  }

  lemma {:induction false} FieldsLengthWithout(b: seq<Bytes>, i: nat)
    requires i < |b|
    ensures FieldsLength(b) == 4 + |b[i]| + FieldsLength(b[..i] + b[i + 1..])
  {
    if i == 0 {
      assert b[..0] + b[1..] == b[1..];
    } else {
      FieldsLengthWithout(b[1..], i - 1);
      assert (b[..i] + b[i + 1..])[1..] == b[1..][..i - 1] + b[1..][i..];
    }
  }

  /** The member payload is as long as the contents of the leaves make it, in whatever order. */
  lemma MembersMeasurable(e: Engine, s: Storage, groupId: Bytes)
    requires ListMembers(e, s, groupId).Ok?
    ensures |EncodeMembers(ListMembers(e, s, groupId).value)| ==
            4 + FieldsLength(Contents(LoadGroup(e, s, groupId).value.members))
    ensures Modest(e) && Export(s).Ok? ==> |EncodeMembers(ListMembers(e, s, groupId).value)| < U32_RANGE
  {
    hide Export;
    var group := LoadGroup(e, s, groupId).value;
    var members := Identities(group.members).value;
    assert members == Contents(group.members);
    FieldsLengthPermutes(members, Sort(members, BytesLe));
    FieldsSize(Sort(members, BytesLe));
  }

  // ---- Operation by operation: the error is short, and so is every opaque output ----

  lemma GenerateShort(e: Engine, s: Storage, random: Random)
    requires Modest(e)
    ensures var r := GenerateKeyPackage(e, s, random).result; Short(r) && (r.Ok? ==> Measurable(r.value))
  {
    StepsShort(e);
    hide IdentityAndSigner;
  }

  lemma SignerShort(e: Engine, s: Storage, k: Signer, random: Random)
    requires Modest(e)
    ensures Short(Lib("create signature key", e.newSigner(random)))
    ensures Short(Lib("store signature key", e.storeSigner(s, k).result))
  {
    hide ModestGroups, ModestMessages;
  }

  lemma MaterialShort(e: Engine, s: Storage)
    ensures Short(Material(e, s))
  {
  }

  lemma InitializeShort(e: Engine, identity: Bytes, root: Option<Bytes>, random: Random)
    requires Modest(e)
    ensures Short(Initialize(e, identity, root, random).result)
  {
    hide Modest, Material, Stated, Export, GenerateKeyPackage, Text;
    SignerShort(e, map[], Signer([], []), random);
    if e.newSigner(random).Ok? {
      var signer := e.newSigner(random).value;
      var rootPublicKey := if root.Some? then root.value else signer.publicKey;
      var s := e.storeSigner(map[], signer).storage
        [IDENTITY_KEY := identity][SIGNATURE_PUBLIC_KEY := signer.publicKey][ROOT_PUBLIC_KEY := rootPublicKey];
      SignerShort(e, map[], signer, random);
      GenerateShort(e, s, random);
      var after := GenerateKeyPackage(e, s, random).storage;
      StateErrorsShort(after, []);
      MaterialShort(e, after);
    }
    hide ShortError;
  }

  lemma CreateShort(e: Engine, s: Storage, groupId: Bytes, random: Random)
    requires Modest(e)
    ensures Short(CreateGroup(e, s, groupId, random).result)
  {
    StepsShort(e);
    hide IdentityAndSigner, Export;
  }

  lemma AddStepsShort(e: Engine)
    requires Modest(e)
    ensures forall b :: Short(Lib("decode key package", e.decodeKeyPackage(b)))
    ensures forall b :: Short(Lib("validate key package", e.validateKeyPackage(b)))
    ensures forall s, g, k, p, r :: Short(Lib("add member", e.addMembers(s, g, k, p, r).result))
    ensures forall s, g :: Short(Lib("merge add commit", e.mergePending(s, g).result))
  {
    hide ModestMessages;
  }

  lemma AddShort(e: Engine, s: Storage, groupId: Bytes, keyPackage: Bytes, random: Random)
    requires Modest(e)
    ensures Short(AddMember(e, s, groupId, keyPackage, random).result)
  {
    hide Modest, Lib, ShortError, IdentityAndSigner, Export, LoadGroup, EncodeMessage, RequireEnvelope, Stated;
    StepsShort(e);
    AddStepsShort(e);
  }

  lemma RemoveStepsShort(e: Engine)
    requires Modest(e)
    ensures forall s, g, k, i, r :: Short(Lib("remove member", e.removeMembers(s, g, k, i, r).result))
    ensures forall s, g :: Short(Lib("merge remove commit", e.mergePending(s, g).result))
    ensures ShortError(InvalidIdentity) && ShortError(MemberNotFound)
  {
    hide ModestKeys, ModestMessages;
  }

  lemma RemoveShort(e: Engine, s: Storage, groupId: Bytes, identity: Bytes, random: Random)
    requires Modest(e)
    ensures Short(RemoveMember(e, s, groupId, identity, random).result)
  {
    hide Modest, Lib, ShortError, IdentityAndSigner, Export, LoadGroup, EncodeMessage, RequireEnvelope, Stated;
    StepsShort(e);
    RemoveStepsShort(e);
  }

  lemma JoinShort(e: Engine, s: Storage, welcome: Bytes)
    requires Modest(e)
    ensures Short(JoinGroup(e, s, welcome).result)
  {
    StepsShort(e);
    hide RequireEnvelope, Export;
  }

  lemma ProcessShort(e: Engine, s: Storage, groupId: Bytes, commit: Bytes)
    requires Modest(e)
    ensures Short(ProcessCommit(e, s, groupId, commit).result)
  {
    hide Modest, Lib, ShortError, RequireEnvelope, Export, LoadGroup, IdentityAndSigner, EncodeMessage, Stated;
    StepsShort(e);
    ProcessStepsShort(e);
  }

  lemma ProcessStepsShort(e: Engine)
    requires Modest(e)
    ensures forall b :: Short(Lib("decode commit", e.decodeMessage(b)))
    ensures forall b :: Short(Lib("convert commit", e.protocolMessage(b)))
    ensures forall s, g, m :: Short(Lib("process commit", e.processMessage(s, g, m).result))
    ensures forall s, g, c :: Short(Lib("merge commit", e.mergeStaged(s, g, c).result))
    ensures ShortError(UnexpectedMessage)
  {
    hide ModestKeys;
  }

  lemma EncryptShort(e: Engine, s: Storage, groupId: Bytes, plaintext: Bytes, random: Random)
    requires Modest(e)
    ensures Short(Encrypt(e, s, groupId, plaintext, random).result)
  {
    StepsShort(e);
    hide IdentityAndSigner, Export, LoadGroup, EncodeMessage;
  }

  lemma DecryptErrorShort(e: Engine, s: Storage, groupId: Bytes, application: Bytes)
    requires Modest(e)
    ensures Short(Decrypt(e, s, groupId, application).result)
  {
    hide Modest, Lib, ShortError, RequireEnvelope, Export, LoadGroup, IdentityAndSigner, EncodeMessage, Stated;
    StepsShort(e);
    DecryptStepsShort(e);
  }

  lemma DecryptStepsShort(e: Engine)
    requires Modest(e)
    ensures forall b :: Short(Lib("decode application message", e.decodeMessage(b)))
    ensures forall b :: Short(Lib("convert application message", e.protocolMessage(b)))
    ensures forall s, g, m :: Short(Lib("decrypt application message", e.processMessage(s, g, m).result))
    ensures ShortError(UnexpectedMessage)
  {
    hide ModestKeys, ModestGroups;
  }

  lemma PlaintextShort(e: Engine, s: Storage, g: Group, message: Bytes)
    requires Modest(e)
    ensures ShortPlaintext(e.processMessage(s, g, message).result)
  {
    hide ModestKeys, ModestGroups;
  }

  lemma DecryptShort(e: Engine, s: Storage, groupId: Bytes, application: Bytes)
    requires Modest(e)
    ensures var r := Decrypt(e, s, groupId, application).result; Short(r) && (r.Ok? ==> Measurable(r.value.plaintext))
  {
    hide Modest, ShortError, RequireEnvelope, Export, LoadGroup;
    DecryptErrorShort(e, s, groupId, application);
    if Decrypt(e, s, groupId, application).result.Ok? {
      var payload := RequireEnvelope(application, EnvelopeKind.Application).value.payload;
      var message := e.protocolMessage(e.decodeMessage(payload).value).value;
      PlaintextShort(e, s, LoadGroup(e, s, groupId).value, message);
    }
  }

  lemma SignShort(e: Engine, s: Storage, payload: Bytes)
    requires Modest(e)
    ensures var r := SignDeviceApproval(e, s, payload); Short(r) && (r.Ok? ==> Measurable(r.value))
  {
    StepsShort(e);
    hide IdentityAndSigner;
  }

  lemma ListShort(e: Engine, s: Storage, groupId: Bytes)
    requires Modest(e)
    ensures Short(ListMembers(e, s, groupId))
  {
    StepsShort(e);
    hide LoadGroup;
  }

  // ---- What is sent needs no bound of the library ----

  lemma AddMeasurable(e: Engine, s: Storage, groupId: Bytes, keyPackage: Bytes, random: Random)
    ensures var r := AddMember(e, s, groupId, keyPackage, random).result;
            r.Ok? ==> Measurable(r.value.state) && Measurable(r.value.commit) && Measurable(r.value.welcome)
  {
    ExportMeasurable(AddMember(e, s, groupId, keyPackage, random).storage);
    hide IdentityAndSigner, Export, LoadGroup, EncodeMessage;
    forall kind, message
      ensures EncodeMessage(e, kind, message).Ok? ==> Measurable(EncodeMessage(e, kind, message).value)
    {
      SentMeasurable(e, kind, message);
    }
  }

  lemma RemoveMeasurable(e: Engine, s: Storage, groupId: Bytes, identity: Bytes, random: Random)
    ensures var r := RemoveMember(e, s, groupId, identity, random).result;
            r.Ok? ==> Measurable(r.value.state) && Measurable(r.value.commit)
  {
    ExportMeasurable(RemoveMember(e, s, groupId, identity, random).storage);
    hide IdentityAndSigner, Export, LoadGroup, EncodeMessage;
    forall kind, message
      ensures EncodeMessage(e, kind, message).Ok? ==> Measurable(EncodeMessage(e, kind, message).value)
    {
      SentMeasurable(e, kind, message);
    }
  }

  lemma EncryptMeasurable(e: Engine, s: Storage, groupId: Bytes, plaintext: Bytes, random: Random)
    ensures var r := Encrypt(e, s, groupId, plaintext, random).result;
            r.Ok? ==> Measurable(r.value.state) && Measurable(r.value.ciphertext)
  {
    ExportMeasurable(Encrypt(e, s, groupId, plaintext, random).storage);
    hide IdentityAndSigner, Export, LoadGroup, EncodeMessage;
    forall kind, message
      ensures EncodeMessage(e, kind, message).Ok? ==> Measurable(EncodeMessage(e, kind, message).value)
    {
      SentMeasurable(e, kind, message);
    }
  }

  // ---- Every field of every outcome ----

  ghost predicate Recoverable(r: SessionResult<seq<Bytes>>) {
    match r
    case Ok(fields) => forall f | f in fields :: Measurable(f)
    case Err(x) => ShortError(x)
  }

  lemma CreateRecoverable(e: Engine, s: Storage, groupId: Bytes, random: Random)
    requires Modest(e)
    ensures Recoverable(Operate(e, s, CREATE_GROUP, [groupId], random).result)
  {
    hide Operate, Modest, CreateGroup, Export, ShortError;
    CreateArm(e, s, groupId, random);
    CreateShort(e, s, groupId, random);
    ExportMeasurable(CreateGroup(e, s, groupId, random).storage);
  }

  lemma AddRecoverable(e: Engine, s: Storage, groupId: Bytes, keyPackage: Bytes, random: Random)
    requires Modest(e)
    ensures Recoverable(Operate(e, s, ADD_MEMBER, [groupId, keyPackage], random).result)
  {
    AddArm(e, s, groupId, keyPackage, random);
    AddShort(e, s, groupId, keyPackage, random);
    AddMeasurable(e, s, groupId, keyPackage, random);
    hide Operate, Modest, AddMember, Export, ShortError;
  }

  lemma JoinRecoverable(e: Engine, s: Storage, welcome: Bytes, random: Random)
    requires Modest(e)
    ensures Recoverable(Operate(e, s, JOIN_GROUP, [welcome], random).result)
  {
    JoinArm(e, s, welcome, random);
    JoinShort(e, s, welcome);
    ExportMeasurable(JoinGroup(e, s, welcome).storage);
    hide Operate, Modest, JoinGroup, Export, ShortError;
  }

  lemma EncryptRecoverable(e: Engine, s: Storage, groupId: Bytes, plaintext: Bytes, random: Random)
    requires Modest(e)
    ensures Recoverable(Operate(e, s, ENCRYPT, [groupId, plaintext], random).result)
  {
    EncryptArm(e, s, groupId, plaintext, random);
    EncryptShort(e, s, groupId, plaintext, random);
    EncryptMeasurable(e, s, groupId, plaintext, random);
    hide Operate, Modest, Encrypt, Export, ShortError;
  }

  lemma DecryptRecoverable(e: Engine, s: Storage, groupId: Bytes, application: Bytes, random: Random)
    requires Modest(e)
    ensures Recoverable(Operate(e, s, DECRYPT, [groupId, application], random).result)
  {
    DecryptArm(e, s, groupId, application, random);
    DecryptShort(e, s, groupId, application);
    ExportMeasurable(Decrypt(e, s, groupId, application).storage);
    hide Operate, Modest, Decrypt, Export, ShortError;
  }

  lemma ProcessRecoverable(e: Engine, s: Storage, groupId: Bytes, commit: Bytes, random: Random)
    requires Modest(e)
    ensures Recoverable(Operate(e, s, PROCESS_COMMIT, [groupId, commit], random).result)
  {
    ProcessArm(e, s, groupId, commit, random);
    ProcessShort(e, s, groupId, commit);
    ExportMeasurable(ProcessCommit(e, s, groupId, commit).storage);
    hide Operate, Modest, ProcessCommit, Export, ShortError;
  }

  lemma RemoveRecoverable(e: Engine, s: Storage, groupId: Bytes, identity: Bytes, random: Random)
    requires Modest(e)
    ensures Recoverable(Operate(e, s, REMOVE_MEMBER, [groupId, identity], random).result)
  {
    RemoveArm(e, s, groupId, identity, random);
    RemoveShort(e, s, groupId, identity, random);
    RemoveMeasurable(e, s, groupId, identity, random);
    hide Operate, Modest, RemoveMember, Export, ShortError;
  }

  lemma SignRecoverable(e: Engine, s: Storage, payload: Bytes, random: Random)
    requires Modest(e)
    ensures Recoverable(Operate(e, s, SIGN_DEVICE_APPROVAL, [payload], random).result)
  {
    SignArm(e, s, payload, random);
    SignShort(e, s, payload);
    hide Operate, Modest, SignDeviceApproval, Export, ShortError;
  }

  lemma ListRecoverable(e: Engine, s: Storage, groupId: Bytes, random: Random)
    requires Modest(e) && Export(s).Ok?
    ensures Recoverable(Operate(e, s, LIST_MEMBERS, [groupId], random).result)
  {
    ListArm(e, s, groupId, random);
    ListShort(e, s, groupId);
    if ListMembers(e, s, groupId).Ok? {
      MembersMeasurable(e, s, groupId);
    }
    hide Operate, Modest, ListMembers, ShortError, EncodeMembers, Export;
  }

  lemma GenerateRecoverable(e: Engine, s: Storage, random: Random)
    requires Modest(e)
    ensures Recoverable(Operate(e, s, GENERATE_KEY_PACKAGE, [], random).result)
  {
    hide Operate, Modest, GenerateKeyPackage, Export, Import;
    GenerateArm(e, s, random);
    GenerateShort(e, s, random);
    var after := GenerateKeyPackage(e, s, random).storage;
    StateErrorsShort(after, []);
    ExportMeasurable(after);
    assert Stated(Export(after)).Err? == Export(after).Err?;
    hide ShortError;
  }

  lemma MaterialRecoverable(e: Engine, s: Storage, random: Random)
    requires Modest(e)
    ensures Recoverable(Operate(e, s, PUBLIC_MATERIAL, [], random).result)
  {
    MaterialArm(e, s, random);
    StateErrorsShort(s, []);
    ExportMeasurable(s);
    if Export(s).Ok? && Material(e, s).Ok? {
      MaterialMeasurable(e, s);
    }
    hide Operate, Modest, Export, MaterialFields;
  }

  lemma OperateRecoverable(e: Engine, s: Storage, operation: Byte, args: seq<Bytes>, random: Random)
    requires Modest(e) && TakesState(operation) && |args| == Arity(operation)
    requires operation == LIST_MEMBERS ==> Export(s).Ok?
    ensures Recoverable(Operate(e, s, operation, args, random).result)
  {
    hide Modest, Operate, Recoverable, Export;
    if |args| == 0 {
      assert args == [];
    } else if |args| == 1 {
      assert args == [args[0]];
    } else {
      assert args == [args[0], args[1]];
    }
    match operation {
      case 2 => GenerateRecoverable(e, s, random);
      case 3 => CreateRecoverable(e, s, args[0], random);
      case 4 => AddRecoverable(e, s, args[0], args[1], random);
      case 5 => JoinRecoverable(e, s, args[0], random);
      case 6 => EncryptRecoverable(e, s, args[0], args[1], random);
      case 7 => DecryptRecoverable(e, s, args[0], args[1], random);
      case 8 => MaterialRecoverable(e, s, random);
      case 9 => ProcessRecoverable(e, s, args[0], args[1], random);
      case 10 => RemoveRecoverable(e, s, args[0], args[1], random);
      case 11 => SignRecoverable(e, s, args[0], random);
      case _ => ListRecoverable(e, s, args[0], random);
    }
  }

  lemma InitializeRecoverable(e: Engine, fields: seq<Bytes>, random: Random)
    requires Modest(e) && 1 <= |fields| <= 2
    ensures Recoverable(InitializeFields(e, fields, random).result)
  {
    var root := if |fields| == 2 then Some(fields[1]) else None;
    InitializeShort(e, fields[0], root, random);
    var o := Initialize(e, fields[0], root, random);
    if o.result.Ok? {
      InitializedMeasurable(e, fields[0], root, random);
    }
    hide Modest, Initialize, ShortError, MaterialFields;
  }

  lemma InitializedMeasurable(e: Engine, identity: Bytes, root: Option<Bytes>, random: Random)
    requires Modest(e) && Initialize(e, identity, root, random).result.Ok?
    ensures var b := Initialize(e, identity, root, random).result.value;
            && Measurable(b.state) && Measurable(b.keyPackage)
            && forall f | f in MaterialFields(b.publicMaterial) :: Measurable(f)
  {
    var o := Initialize(e, identity, root, random);
    var s := InitializedParts(e, identity, root, random);
    hide Modest, Initialize, GenerateKeyPackage, Export, Material, MaterialFields;
    GenerateShort(e, s, random);
    ExportMeasurable(o.storage);
    MaterialMeasurable(e, o.storage);
  }

  /** What INITIALIZE returns comes of the storage it generated the key package in. */
  lemma InitializedParts(e: Engine, identity: Bytes, root: Option<Bytes>, random: Random) returns (s: Storage)
    requires Initialize(e, identity, root, random).result.Ok?
    ensures var o := Initialize(e, identity, root, random);
            && GenerateKeyPackage(e, s, random) == Outcome(o.storage, Ok(o.result.value.keyPackage))
            && Export(o.storage) == Ok(o.result.value.state)
            && Material(e, o.storage) == Ok(o.result.value.publicMaterial)
  {
    hide Material, Export, GenerateKeyPackage, Text;
    var signer := e.newSigner(random).value;
    var rootPublicKey := if root.Some? then root.value else signer.publicKey;
    s := e.storeSigner(map[], signer).storage
      [IDENTITY_KEY := identity][SIGNATURE_PUBLIC_KEY := signer.publicKey][ROOT_PUBLIC_KEY := rootPublicKey];
    assert GenerateKeyPackage(e, s, random).result.Ok?;
  }

  /**
   Responses lose nothing: on any request, for every library whose opaque outputs stay below 2^32 bytes, a
   client's decoder recovers the status and the fields of the outcome.
   */
  lemma ExecutionRecovered(e: Engine, request: Bytes, random: Random)
    requires Modest(e)
    ensures var r := Execute(e, request, random);
            DecodeResponse(Respond(r)) == Some(Answer(r))
  {
    hide Modest, Operate, InitializeFields, ImportSession, DecodeRequest, EncodeResponse, DecodeResponse,
         CommandErrorText;
    match DecodeRequest(request) {
      case Err(x) => RequestMeasurable(x);
      case Ok((operation, fields)) => DispatchMeasurable(e, operation, fields, random);
    }
    ShortFieldsRecovered(e, request, random);
  }

  lemma RequestMeasurable(x: RequestError)
    ensures Measurable(CommandErrorText(Request(x)))
  {
    RequestTextFits(x);
  }

  lemma ImportShort(e: Engine, state: Bytes)
    requires Modest(e)
    ensures Short(ImportSession(e, state))
  {
    StateErrorsShort(map[], state);
    hide Import;
  }

  /** What a command works on came out of a state, and fits one again. */
  lemma ImportedExports(e: Engine, state: Bytes)
    requires ImportSession(e, state).Ok?
    ensures Export(ImportSession(e, state).value).Ok?
  {
    hide Import, Export;
    var rs := ImportSound(state);
    NormalForm(state, rs);
  }

  lemma DispatchMeasurable(e: Engine, operation: Byte, fields: seq<Bytes>, random: Random)
    requires Modest(e)
    ensures forall f | f in Answer(Dispatch(e, operation, fields, random)).1 :: Measurable(f)
  {
    hide Modest, Operate, InitializeFields, ImportSession, Measurable, SessionErrorText, ShortError, Export;
    if operation == INITIALIZE {
      if 1 <= |fields| <= 2 {
        InitializeRecoverable(e, fields, random);
        AnswerMeasurable(InitializeFields(e, fields, random).result);
      }
    } else if TakesState(operation) && |fields| == 1 + Arity(operation) {
      ImportShort(e, fields[0]);
      match ImportSession(e, fields[0]) {
        case Err(x) => ErrorTextFits(x);
        case Ok(s) =>
          ImportedExports(e, fields[0]);
          OperateRecoverable(e, s, operation, fields[1..], random);
          AnswerMeasurable(Operate(e, s, operation, fields[1..], random).result);
      }
    }
    PlainTexts();
  }

  lemma PlainTexts()
    ensures Measurable(CommandErrorText(InvalidFieldCount)) && Measurable(CommandErrorText(UnsupportedCommand))
  {
  }

  lemma AnswerMeasurable(r: SessionResult<seq<Bytes>>)
    requires Recoverable(r)
    ensures forall f | f in Answer(Displayed(r)).1 :: Measurable(f)
  {
    hide SessionErrorText, ShortError, Measurable;
    if r.Err? {
      ErrorTextFits(r.error);
    }
  }

  /** End to end: a decoded LIST_MEMBERS response is the session's sorted member list. */
  lemma MemberListArrives(e: Engine, request: Bytes, state: Bytes, groupId: Bytes, random: Random)
    requires Modest(e) && DecodeRequest(request) == Ok((LIST_MEMBERS, [state, groupId]))
    requires ImportSession(e, state).Ok? && ListMembers(e, ImportSession(e, state).value, groupId).Ok?
    ensures var answer := DecodeResponse(Respond(Execute(e, request, random)));
            && answer.Some? && answer.value.0 == 0 && |answer.value.1| == 1
            && DecodeMembers(answer.value.1[0]) == Some(ListMembers(e, ImportSession(e, state).value, groupId).value)
  {
    hide Modest, ImportSession, ListMembers, DecodeRequest, DecodeResponse, EncodeMembers, DecodeMembers, Respond,
         Execute, Export;
    ExecutionRecovered(e, request, random);
    ImportedExports(e, state);
    ListExecuted(e, request, state, groupId, random);
    MembersMeasurable(e, ImportSession(e, state).value, groupId);
    MembersRecovered(ListMembers(e, ImportSession(e, state).value, groupId).value);
  }

  lemma ListExecuted(e: Engine, request: Bytes, state: Bytes, groupId: Bytes, random: Random)
    requires DecodeRequest(request) == Ok((LIST_MEMBERS, [state, groupId]))
    requires ImportSession(e, state).Ok? && ListMembers(e, ImportSession(e, state).value, groupId).Ok?
    ensures Execute(e, request, random) ==
            Ok([EncodeMembers(ListMembers(e, ImportSession(e, state).value, groupId).value)])
  {
    assert [state, groupId][1..] == [groupId];
    ListArm(e, ImportSession(e, state).value, groupId, random);
    hide Operate, ImportSession, ListMembers, DecodeRequest, EncodeMembers;
  }
}
