/** The stateless command: state in, one operation, state out. */
module Commands {
  import opened Wrappers
  import opened ByteStrings
  import opened StateCodec
  import opened CommandFrames
  import opened Engines
  import opened Sessions
  import opened MlsSessions

  const INITIALIZE: Byte := 1
  const GENERATE_KEY_PACKAGE: Byte := 2
  const CREATE_GROUP: Byte := 3
  const ADD_MEMBER: Byte := 4
  const JOIN_GROUP: Byte := 5
  const ENCRYPT: Byte := 6
  const DECRYPT: Byte := 7
  const PUBLIC_MATERIAL: Byte := 8
  const PROCESS_COMMIT: Byte := 9
  const REMOVE_MEMBER: Byte := 10
  const SIGN_DEVICE_APPROVAL: Byte := 11
  const LIST_MEMBERS: Byte := 12

  datatype CommandError =
    | Request(request: RequestError)
    | InvalidFieldCount
    | UnsupportedCommand
    | Session(session: SessionError)

  function CommandErrorText(error: CommandError): Bytes {
    match error
    case Request(x) => RequestErrorText(x)
    case InvalidFieldCount => Text("invalid E2EE command field count")
    case UnsupportedCommand => Text("unsupported E2EE command")
    case Session(x) => SessionErrorText(x)
  }

  type CommandResult<+T> = Result<T, CommandError>

  function Displayed<T>(r: SessionResult<T>): CommandResult<T> {
    match r
    case Ok(v) => Ok(v)
    case Err(x) => Err(Session(x))
  }

  predicate TakesState(operation: Byte) {
    GENERATE_KEY_PACKAGE <= operation <= LIST_MEMBERS
  }

  /** Whether field 0 of a successful response is the new state. */
  predicate ReturnsState(operation: Byte) {
    INITIALIZE <= operation <= REMOVE_MEMBER
  }

  /** The fields an operation on an existing state requires besides the state. */
  function Arity(operation: Byte): nat
    requires TakesState(operation)
  {
    if operation == GENERATE_KEY_PACKAGE || operation == PUBLIC_MATERIAL then
      0
    else if operation in {CREATE_GROUP, JOIN_GROUP, SIGN_DEVICE_APPROVAL, LIST_MEMBERS} then
      1
    else
      2
  }

  /** A session operation's results as response fields. */
  function Fields<T>(o: Outcome<T>, render: T -> seq<Bytes>): Outcome<seq<Bytes>> {
    match o.result
    case Ok(v) => Outcome(o.storage, Ok(render(v)))
    case Err(x) => Outcome(o.storage, Err(x))
  }

  function MaterialFields(m: PublicMaterial): seq<Bytes> {
    [m.rootPublicKey, m.rootFingerprint, m.credential, m.credentialFingerprint, m.approvalPublicKey]
  }

  /** One operation on a session in memory: the fields it answers with, and the storage it leaves. */
  ghost function Operate(e: Engine, s: Storage, operation: Byte, args: seq<Bytes>, random: Random): Outcome<seq<Bytes>>
    requires TakesState(operation) && |args| == Arity(operation)
  {
    match operation
    case 2 =>
      var (keyPackage, s) :- GenerateKeyPackage(e, s, random);
      var (state, s) :- At(s, Stated(Export(s)));
      Outcome(s, Ok([state, keyPackage]))
    case 3 => Fields(CreateGroup(e, s, args[0], random), (state: Bytes) => [state])
    case 4 =>
      Fields(AddMember(e, s, args[0], args[1], random),
             (a: MemberAdd) => [a.state, a.commit, a.welcome, U64(a.epoch)])
    case 5 => Fields(JoinGroup(e, s, args[0]), (a: Advanced) => [a.state, U64(a.epoch)])
    case 6 => Fields(Encrypt(e, s, args[0], args[1], random), (a: Encrypted) => [a.state, a.ciphertext, U64(a.epoch)])
    case 7 => Fields(Decrypt(e, s, args[0], args[1]), (a: Decrypted) => [a.state, a.plaintext, U64(a.epoch)])
    case 8 =>
      var (material, s) :- At(s, Material(e, s));
      var (state, s) :- At(s, Stated(Export(s)));
      Outcome(s, Ok([state] + MaterialFields(material)))
    case 9 => Fields(ProcessCommit(e, s, args[0], args[1]), (a: Advanced) => [a.state, U64(a.epoch)])
    case 10 =>
      Fields(RemoveMember(e, s, args[0], args[1], random), (a: MemberRemove) => [a.state, a.commit, U64(a.epoch)])
    case 11 => Fields(At(s, SignDeviceApproval(e, s, args[0])), (signature: Bytes) => [signature])
    case _ => Fields(At(s, ListMembers(e, s, args[0])), (members: seq<Bytes>) => [EncodeMembers(members)])
  }

  // ---- The arms, one by one ----

  /** Each arm runs its operation and answers with these fields; these lemmas spare the others the whole dispatch. */
  lemma CreateArm(e: Engine, s: Storage, groupId: Bytes, random: Random)
    ensures var arm, o := Operate(e, s, CREATE_GROUP, [groupId], random), CreateGroup(e, s, groupId, random);
            && arm.storage == o.storage
            && (o.result.Err? ==> arm.result == Err(o.result.error))
            && (o.result.Ok? ==> var v := o.result.value; arm.result == Ok([v]))
  {
    hide GenerateKeyPackage, CreateGroup, AddMember, JoinGroup, Encrypt, Decrypt, ProcessCommit, RemoveMember,
         SignDeviceApproval, ListMembers, Material, Export, EncodeMembers, U64;
  }

  lemma AddArm(e: Engine, s: Storage, groupId: Bytes, keyPackage: Bytes, random: Random)
    ensures var arm, o :=
            Operate(e, s, ADD_MEMBER, [groupId, keyPackage], random), AddMember(e, s, groupId, keyPackage, random);
            && arm.storage == o.storage
            && (o.result.Err? ==> arm.result == Err(o.result.error))
            && (o.result.Ok? ==>
               var v := o.result.value; arm.result == Ok([v.state, v.commit, v.welcome, U64(v.epoch)]))
  {
    hide GenerateKeyPackage, CreateGroup, AddMember, JoinGroup, Encrypt, Decrypt, ProcessCommit, RemoveMember,
         SignDeviceApproval, ListMembers, Material, Export, EncodeMembers, U64;
  }

  lemma JoinArm(e: Engine, s: Storage, welcome: Bytes, random: Random)
    ensures var arm, o := Operate(e, s, JOIN_GROUP, [welcome], random), JoinGroup(e, s, welcome);
            && arm.storage == o.storage
            && (o.result.Err? ==> arm.result == Err(o.result.error))
            && (o.result.Ok? ==> var v := o.result.value; arm.result == Ok([v.state, U64(v.epoch)]))
  {
    hide GenerateKeyPackage, CreateGroup, AddMember, JoinGroup, Encrypt, Decrypt, ProcessCommit, RemoveMember,
         SignDeviceApproval, ListMembers, Material, Export, EncodeMembers, U64;
  }

  lemma EncryptArm(e: Engine, s: Storage, groupId: Bytes, plaintext: Bytes, random: Random)
    ensures var arm, o :=
            Operate(e, s, ENCRYPT, [groupId, plaintext], random), Encrypt(e, s, groupId, plaintext, random);
            && arm.storage == o.storage
            && (o.result.Err? ==> arm.result == Err(o.result.error))
            && (o.result.Ok? ==> var v := o.result.value; arm.result == Ok([v.state, v.ciphertext, U64(v.epoch)]))
  {
    hide GenerateKeyPackage, CreateGroup, AddMember, JoinGroup, Encrypt, Decrypt, ProcessCommit, RemoveMember,
         SignDeviceApproval, ListMembers, Material, Export, EncodeMembers, U64;
  }

  lemma DecryptArm(e: Engine, s: Storage, groupId: Bytes, application: Bytes, random: Random)
    ensures var arm, o := Operate(e, s, DECRYPT, [groupId, application], random), Decrypt(e, s, groupId, application);
            && arm.storage == o.storage
            && (o.result.Err? ==> arm.result == Err(o.result.error))
            && (o.result.Ok? ==> var v := o.result.value; arm.result == Ok([v.state, v.plaintext, U64(v.epoch)]))
  {
    hide GenerateKeyPackage, CreateGroup, AddMember, JoinGroup, Encrypt, Decrypt, ProcessCommit, RemoveMember,
         SignDeviceApproval, ListMembers, Material, Export, EncodeMembers, U64;
  }

  lemma ProcessArm(e: Engine, s: Storage, groupId: Bytes, commit: Bytes, random: Random)
    ensures var arm, o :=
            Operate(e, s, PROCESS_COMMIT, [groupId, commit], random), ProcessCommit(e, s, groupId, commit);
            && arm.storage == o.storage
            && (o.result.Err? ==> arm.result == Err(o.result.error))
            && (o.result.Ok? ==> var v := o.result.value; arm.result == Ok([v.state, U64(v.epoch)]))
  {
    hide GenerateKeyPackage, CreateGroup, AddMember, JoinGroup, Encrypt, Decrypt, ProcessCommit, RemoveMember,
         SignDeviceApproval, ListMembers, Material, Export, EncodeMembers, U64;
  }

  lemma RemoveArm(e: Engine, s: Storage, groupId: Bytes, identity: Bytes, random: Random)
    ensures var arm, o :=
            Operate(e, s, REMOVE_MEMBER, [groupId, identity], random), RemoveMember(e, s, groupId, identity, random);
            && arm.storage == o.storage
            && (o.result.Err? ==> arm.result == Err(o.result.error))
            && (o.result.Ok? ==> var v := o.result.value; arm.result == Ok([v.state, v.commit, U64(v.epoch)]))
  {
    hide GenerateKeyPackage, CreateGroup, AddMember, JoinGroup, Encrypt, Decrypt, ProcessCommit, RemoveMember,
         SignDeviceApproval, ListMembers, Material, Export, EncodeMembers, U64;
  }

  lemma SignArm(e: Engine, s: Storage, payload: Bytes, random: Random)
    ensures var arm, o :=
            Operate(e, s, SIGN_DEVICE_APPROVAL, [payload], random), At(s, SignDeviceApproval(e, s, payload));
            && arm.storage == o.storage
            && (o.result.Err? ==> arm.result == Err(o.result.error))
            && (o.result.Ok? ==> var v := o.result.value; arm.result == Ok([v]))
  {
    hide GenerateKeyPackage, CreateGroup, AddMember, JoinGroup, Encrypt, Decrypt, ProcessCommit, RemoveMember,
         SignDeviceApproval, ListMembers, Material, Export, EncodeMembers, U64;
  }

  lemma ListArm(e: Engine, s: Storage, groupId: Bytes, random: Random)
    ensures var arm, o := Operate(e, s, LIST_MEMBERS, [groupId], random), At(s, ListMembers(e, s, groupId));
            && arm.storage == o.storage
            && (o.result.Err? ==> arm.result == Err(o.result.error))
            && (o.result.Ok? ==> var v := o.result.value; arm.result == Ok([EncodeMembers(v)]))
  {
    hide GenerateKeyPackage, CreateGroup, AddMember, JoinGroup, Encrypt, Decrypt, ProcessCommit, RemoveMember,
         SignDeviceApproval, ListMembers, Material, Export, EncodeMembers, U64;
  }

  lemma GenerateArm(e: Engine, s: Storage, random: Random)
    ensures var arm, o := Operate(e, s, GENERATE_KEY_PACKAGE, [], random), GenerateKeyPackage(e, s, random);
            && arm.storage == o.storage
            && (o.result.Err? ==> arm.result == Err(o.result.error))
            && (o.result.Ok? && Export(o.storage).Err? ==> arm.result == Err(State(Export(o.storage).error)))
            && (o.result.Ok? && Export(o.storage).Ok? ==> arm.result == Ok([Export(o.storage).value, o.result.value]))
  {
    hide GenerateKeyPackage, CreateGroup, AddMember, JoinGroup, Encrypt, Decrypt, ProcessCommit, RemoveMember,
         SignDeviceApproval, ListMembers, Material, Export, EncodeMembers, U64;
  }

  lemma MaterialArm(e: Engine, s: Storage, random: Random)
    ensures var arm, o := Operate(e, s, PUBLIC_MATERIAL, [], random), Material(e, s);
            && arm.storage == s
            && (o.Err? ==> arm.result == Err(o.error))
            && (o.Ok? && Export(s).Err? ==> arm.result == Err(State(Export(s).error)))
            && (o.Ok? && Export(s).Ok? ==> arm.result == Ok([Export(s).value] + MaterialFields(o.value)))
  {
    hide GenerateKeyPackage, CreateGroup, AddMember, JoinGroup, Encrypt, Decrypt, ProcessCommit, RemoveMember,
         SignDeviceApproval, ListMembers, Material, Export, EncodeMembers, U64, MaterialFields;
  }

  ghost function InitializeFields(e: Engine, fields: seq<Bytes>, random: Random): Outcome<seq<Bytes>>
    requires 1 <= |fields| <= 2
  {
    var root := if |fields| == 2 then Some(fields[1]) else None;
    Fields(Initialize(e, fields[0], root, random),
           (b: Bootstrap) => [b.state, b.keyPackage] + MaterialFields(b.publicMaterial))
  }

  ghost function Dispatch(e: Engine, operation: Byte, fields: seq<Bytes>, random: Random): CommandResult<seq<Bytes>> {
    if operation == INITIALIZE then
      if !(1 <= |fields| <= 2) then
        Err(InvalidFieldCount)
      else
        Displayed(InitializeFields(e, fields, random).result)
    else if TakesState(operation) then
      if |fields| != 1 + Arity(operation) then
        Err(InvalidFieldCount)
      else
        var s :- Displayed(ImportSession(e, fields[0]));
        Displayed(Operate(e, s, operation, fields[1..], random).result)
    else
      Err(UnsupportedCommand)
  }

  ghost function Execute(e: Engine, request: Bytes, random: Random): CommandResult<seq<Bytes>> {
    match DecodeRequest(request)
    case Err(x) => Err(Request(x))
    case Ok((operation, fields)) => Dispatch(e, operation, fields, random)
  }

  function Respond(r: CommandResult<seq<Bytes>>): Bytes {
    match r
    case Ok(fields) => EncodeResponse(0, fields)
    case Err(error) => EncodeResponse(1, [CommandErrorText(error)])
  }

  /** What the response frame should tell the client. */
  function Answer(r: CommandResult<seq<Bytes>>): (Byte, seq<Bytes>) {
    match r
    case Ok(fields) => (0, fields)
    case Err(error) => (1, [CommandErrorText(error)])
  }

  lemma OutcomeFieldCount(e: Engine, request: Bytes, random: Random)
    ensures Execute(e, request, random).Ok? ==> 1 <= |Execute(e, request, random).value| <= 7
  {
    match DecodeRequest(request) {
      case Err(_) =>
      case Ok((operation, fields)) =>
        if TakesState(operation) && |fields| == 1 + Arity(operation) && ImportSession(e, fields[0]).Ok? {
          OperateFieldCount(e, ImportSession(e, fields[0]).value, operation, fields[1..], random);
        }
    }
  }

  lemma OperateFieldCount(e: Engine, s: Storage, operation: Byte, args: seq<Bytes>, random: Random)
    requires TakesState(operation) && |args| == Arity(operation)
    ensures var o := Operate(e, s, operation, args, random);
            o.result.Ok? ==> 1 <= |o.result.value| <= 6
  {
    hide GenerateKeyPackage, CreateGroup, AddMember, JoinGroup, Encrypt, Decrypt, ProcessCommit, RemoveMember,
         SignDeviceApproval, ListMembers, Material, Export, EncodeMembers;
  }

  /** No outcome has more fields than the count byte holds, so short fields are all that recovery needs. */
  lemma ShortFieldsRecovered(e: Engine, request: Bytes, random: Random)
    requires forall f | f in Answer(Execute(e, request, random)).1 :: |f| < U32_RANGE
    ensures var r := Execute(e, request, random);
            DecodeResponse(Respond(r)) == Some(Answer(r))
  {
    OutcomeFieldCount(e, request, random);
    var (status, fields) := Answer(Execute(e, request, random));
    ResponseRecovered(status, fields);
  }

  // ---- The command, step by step ----

  method RequireFields(fields: seq<Bytes>, count: nat) returns (r: CommandResult<()>)
    ensures r == if |fields| != count then Err(InvalidFieldCount) else Ok(())
  {
    if |fields| != count {
      return Err(InvalidFieldCount);
    }
    return Ok(());
  }

  method ExecuteDecoded(e: Engine, operation: Byte, fields: seq<Bytes>, random: Random)
    returns (r: CommandResult<seq<Bytes>>)
    ensures r == Dispatch(e, operation, fields, random)
  {
    hide GenerateKeyPackage, CreateGroup, AddMember, JoinGroup, Encrypt, Decrypt, ProcessCommit, RemoveMember,
         SignDeviceApproval, ListMembers, Material, Export, EncodeMembers, Initialize, Import, IdentityAndSigner;
    match operation {
      case 1 =>
        if !(1 <= |fields| <= 2) {
          return Err(InvalidFieldCount);
        }
        var root := if |fields| == 2 then Some(fields[1]) else None;
        var bootstrap := MlsSession.InitializeWithRoot(e, fields[0], root, random);
        if bootstrap.Err? {
          return Err(Session(bootstrap.error));
        }
        var b := bootstrap.value;
        return Ok([b.state, b.keyPackage] + MaterialFields(b.publicMaterial));
      case 2 =>
        var _ :- RequireFields(fields, 1);
        var session :- Imported(e, fields[0]);
        var keyPackage := session.GenerateKeyPackage(random);
        if keyPackage.Err? {
          return Err(Session(keyPackage.error));
        }
        var state := session.ExportState();
        if state.Err? {
          return Err(Session(state.error));
        }
        return Ok([state.value, keyPackage.value]);
      case 3 =>
        var _ :- RequireFields(fields, 2);
        var session :- Imported(e, fields[0]);
        var state := session.CreateGroup(fields[1], random);
        if state.Err? {
          return Err(Session(state.error));
        }
        return Ok([state.value]);
      case 4 =>
        var _ :- RequireFields(fields, 3);
        var session :- Imported(e, fields[0]);
        var added := session.AddMember(fields[1], fields[2], random);
        if added.Err? {
          return Err(Session(added.error));
        }
        return Ok([added.value.state, added.value.commit, added.value.welcome, U64(added.value.epoch)]);
      case 5 =>
        var _ :- RequireFields(fields, 2);
        var session :- Imported(e, fields[0]);
        var joined := session.JoinGroup(fields[1]);
        if joined.Err? {
          return Err(Session(joined.error));
        }
        return Ok([joined.value.state, U64(joined.value.epoch)]);
      case 6 =>
        var _ :- RequireFields(fields, 3);
        var session :- Imported(e, fields[0]);
        var encrypted := session.Encrypt(fields[1], fields[2], random);
        if encrypted.Err? {
          return Err(Session(encrypted.error));
        }
        return Ok([encrypted.value.state, encrypted.value.ciphertext, U64(encrypted.value.epoch)]);
      case 7 =>
        var _ :- RequireFields(fields, 3);
        var session :- Imported(e, fields[0]);
        var decrypted := session.Decrypt(fields[1], fields[2]);
        if decrypted.Err? {
          return Err(Session(decrypted.error));
        }
        return Ok([decrypted.value.state, decrypted.value.plaintext, U64(decrypted.value.epoch)]);
      case 8 =>
        var _ :- RequireFields(fields, 1);
        var session :- Imported(e, fields[0]);
        var material := Material(e, session.provider.values);
        if material.Err? {
          return Err(Session(material.error));
        }
        var state := session.ExportState();
        if state.Err? {
          return Err(Session(state.error));
        }
        return Ok([state.value] + MaterialFields(material.value));
      case 9 =>
        var _ :- RequireFields(fields, 3);
        var session :- Imported(e, fields[0]);
        var advanced := session.ProcessCommit(fields[1], fields[2]);
        if advanced.Err? {
          return Err(Session(advanced.error));
        }
        return Ok([advanced.value.state, U64(advanced.value.epoch)]);
      case 10 =>
        var _ :- RequireFields(fields, 3);
        var session :- Imported(e, fields[0]);
        var removed := session.RemoveMember(fields[1], fields[2], random);
        if removed.Err? {
          return Err(Session(removed.error));
        }
        return Ok([removed.value.state, removed.value.commit, U64(removed.value.epoch)]);
      case 11 =>
        var _ :- RequireFields(fields, 2);
        var session :- Imported(e, fields[0]);
        var signature := SignDeviceApproval(e, session.provider.values, fields[1]);
        if signature.Err? {
          return Err(Session(signature.error));
        }
        return Ok([signature.value]);
      case 12 =>
        var _ :- RequireFields(fields, 2);
        var session :- Imported(e, fields[0]);
        var members := session.ListMembers(fields[1]);
        if members.Err? {
          return Err(Session(members.error));
        }
        var payload := EncodeMembersLoop(members.value);
        return Ok([payload]);
      case _ =>
        return Err(UnsupportedCommand);
    }
  }

  method Imported(e: Engine, state: Bytes) returns (r: CommandResult<MlsSession>)
    ensures match Displayed(ImportSession(e, state))
            case Ok(s) => && r.Ok? && fresh(r.value) && fresh(r.value.provider)
                          && r.value.engine == e && r.value.provider.values == s
            case Err(x) => r == Err(x)
  {
    var session := MlsSession.Import(e, state);
    if session.Err? {
      return Err(Session(session.error));
    }
    return Ok(session.value);
  }

  method ExecuteCommand(e: Engine, request: Bytes, random: Random) returns (response: Bytes)
    ensures response == Respond(Execute(e, request, random))
  {
    var decoded := DecodeRequestLoop(request);
    var outcome: CommandResult<seq<Bytes>>;
    match decoded {
      case Err(x) => outcome := Err(Request(x));
      case Ok((operation, fields)) => outcome := ExecuteDecoded(e, operation, fields, random);
    }
    match outcome {
      case Ok(fields) => response := EncodeResponseLoop(0, fields);
      case Err(error) => response := EncodeResponseLoop(1, [CommandErrorText(error)]);
    }
  }
}
