/**
 The device session.  The functions say what each session operation does to the storage map and what it
 returns, library failures part-way through included; the class performs the operations in place.
 */
module Sessions {
  import opened Wrappers
  import opened Orders
  import opened ByteStrings
  import opened StateCodec
  import opened Engines
  import opened Envelopes

  datatype SessionError =
    | InvalidIdentity
    | InvalidGroupId
    | InvalidRootPublicKey
    | EmptyPlaintext
    | NotInitialized
    | GroupAlreadyExists
    | GroupNotFound
    | MemberNotFound
    | UnsupportedCredential
    | EmptySignaturePayload
    | UnexpectedMessage
    | State(state: StateError)
    | Envelope(envelope: EnvelopeError)
    | Operation(context: string, detail: Bytes)

  function SessionErrorText(error: SessionError): Bytes {
    match error
    case InvalidIdentity => Text("invalid device identity")
    case InvalidGroupId => Text("invalid group id")
    case InvalidRootPublicKey => Text("invalid account root public key")
    case EmptyPlaintext => Text("empty application plaintext")
    case NotInitialized => Text("MLS session is not initialized")
    case GroupAlreadyExists => Text("MLS group already exists")
    case GroupNotFound => Text("MLS group does not exist")
    case MemberNotFound => Text("MLS group member not found")
    case UnsupportedCredential => Text("unsupported MLS credential type")
    case EmptySignaturePayload => Text("empty signature payload")
    case UnexpectedMessage => Text("unexpected MLS message kind")
    case State(x) => StateErrorText(x)
    case Envelope(x) => EnvelopeErrorText(x)
    case Operation(context, detail) => Text("MLS operation failed: " + context + ": ") + detail
  }

  datatype PublicMaterial = PublicMaterial(
    rootPublicKey: Bytes, rootFingerprint: Bytes,
    credential: Bytes, credentialFingerprint: Bytes, approvalPublicKey: Bytes)
  datatype Bootstrap = Bootstrap(keyPackage: Bytes, state: Bytes, publicMaterial: PublicMaterial)
  datatype MemberAdd = MemberAdd(commit: Bytes, welcome: Bytes, epoch: nat, state: Bytes)
  datatype MemberRemove = MemberRemove(commit: Bytes, epoch: nat, state: Bytes)
  datatype Advanced = Advanced(state: Bytes, epoch: nat)
  datatype Encrypted = Encrypted(ciphertext: Bytes, epoch: nat, state: Bytes)
  datatype Decrypted = Decrypted(plaintext: Bytes, epoch: nat, state: Bytes)

  /** What an operation returned, and the storage it left behind whether or not it succeeded. */
  datatype Outcome<+T> = Outcome(storage: Storage, result: Result<T, SessionError>) {
    predicate IsFailure() {
      result.Err?
    }

    function PropagateFailure<U>(): Outcome<U>
      requires result.Err?
    {
      Outcome(storage, Err(result.error))
    }

    function Extract(): (T, Storage)
      requires result.Ok?
    {
      (result.value, storage)
    }
  }

  type SessionResult<+T> = Result<T, SessionError>

  /** A library failure under the name of the step that met it. */
  function Lib<T>(context: string, r: Result<T, Bytes>): SessionResult<T> {
    match r
    case Ok(v) => Ok(v)
    case Err(detail) => Err(Operation(context, detail))
  }

  function Enveloped<T>(r: Result<T, EnvelopeError>): SessionResult<T> {
    match r
    case Ok(v) => Ok(v)
    case Err(x) => Err(SessionError.Envelope(x))
  }

  function Stated<T>(r: Result<T, StateError>): SessionResult<T> {
    match r
    case Ok(v) => Ok(v)
    case Err(x) => Err(State(x))
  }

  // ---- Pure helpers ----

  function ValidateGroupId(groupId: Bytes): SessionResult<()> {
    if groupId == [] || |groupId| > 1024 then Err(InvalidGroupId) else Ok(())
  }

  function RequireEnvelope(encoded: Bytes, kind: EnvelopeKind): SessionResult<Envelopes.Envelope> {
    var envelope :- Enveloped(Decode(encoded));
    if envelope.kind != kind then Err(UnexpectedMessage) else Ok(envelope)
  }

  function EncodeMessage(e: Engine, kind: EnvelopeKind, message: Bytes): SessionResult<Bytes> {
    var payload :- Lib("serialize MLS message", e.serializeMessage(message));
    var envelope :- Enveloped(TryNew(kind, payload));
    Ok(envelope.Encode())
  }

  function IdentityAndSigner(e: Engine, s: Storage): SessionResult<Credential> {
    if IDENTITY_KEY !in s || SIGNATURE_PUBLIC_KEY !in s then
      Err(NotInitialized)
    else
      var public := s[SIGNATURE_PUBLIC_KEY];
      match e.readSigner(s, public)
      case None => Err(NotInitialized)
      case Some(signer) => Ok(Credential(s[IDENTITY_KEY], public, signer))
  }

  function LoadGroup(e: Engine, s: Storage, groupId: Bytes): SessionResult<Group> {
    var _ :- ValidateGroupId(groupId);
    var loaded :- Lib("load group", e.loadGroup(s, groupId));
    match loaded
    case None => Err(GroupNotFound)
    case Some(group) => Ok(group)
  }

  function Material(e: Engine, s: Storage): SessionResult<PublicMaterial> {
    if IDENTITY_KEY !in s || SIGNATURE_PUBLIC_KEY !in s || ROOT_PUBLIC_KEY !in s then
      Err(NotInitialized)
    else
      var root, public := s[ROOT_PUBLIC_KEY], s[SIGNATURE_PUBLIC_KEY];
      var credential := s[IDENTITY_KEY] + [0] + public;
      Ok(PublicMaterial(root, e.sha256(root), credential, e.sha256(credential), public))
  }

  function Identities(members: seq<Member>): (r: SessionResult<seq<Bytes>>)
    ensures r.Ok? <==> forall m | m in members :: m.basic
    ensures r.Ok? ==> |r.value| == |members| && forall i | 0 <= i < |members| :: r.value[i] == members[i].content
    ensures r.Err? ==> r.error == UnsupportedCredential
  {
    if members == [] then
      Ok([])
    else if !members[0].basic then
      Err(UnsupportedCredential)
    else
      var rest :- Identities(members[1..]);
      Ok([members[0].content] + rest)
  }

  ghost function ListMembers(e: Engine, s: Storage, groupId: Bytes): SessionResult<seq<Bytes>> {
    var group :- LoadGroup(e, s, groupId);
    var members :- Identities(group.members);
    Ok(Sort(members, BytesLe))
  }

  function SignDeviceApproval(e: Engine, s: Storage, payload: Bytes): SessionResult<Bytes> {
    if payload == [] then
      Err(EmptySignaturePayload)
    else
      var credential :- IdentityAndSigner(e, s);
      Lib("sign device approval", e.sign(credential.signer, payload))
  }

  ghost function ImportSession(e: Engine, state: Bytes): SessionResult<Storage> {
    var s :- Stated(Import(state));
    var _ :- IdentityAndSigner(e, s);
    Ok(s)
  }

  // ---- Operations on the storage map ----

  function At<T>(s: Storage, r: SessionResult<T>): Outcome<T> {
    Outcome(s, r)
  }

  function Step<T>(context: string, effect: Effect<T>): Outcome<T> {
    Outcome(effect.storage, Lib(context, effect.result))
  }

  function GenerateKeyPackage(e: Engine, s: Storage, random: Random): Outcome<Bytes> {
    var (credential, s) :- At(s, IdentityAndSigner(e, s));
    var (bundle, s) :- Step("create key package", e.buildKeyPackage(s, credential, random));
    At(s, Lib("serialize key package", e.serializeKeyPackage(bundle)))
  }

  ghost function Initialize(e: Engine, identity: Bytes, root: Option<Bytes>, random: Random): Outcome<Bootstrap> {
    if identity == [] || |identity| > 0xFFFF then
      Outcome(map[], Err(InvalidIdentity))
    else
      var (signer, s) :- At(map[], Lib("create signature key", e.newSigner(random)));
      var (_, s) :- Step("store signature key", e.storeSigner(s, signer));
      var rootPublicKey := if root.Some? then root.value else signer.publicKey;
      if |rootPublicKey| != 32 then
        Outcome(s, Err(InvalidRootPublicKey))
      else
        var s :=
            s[IDENTITY_KEY := identity][SIGNATURE_PUBLIC_KEY := signer.publicKey][ROOT_PUBLIC_KEY := rootPublicKey];
        var (keyPackage, s) :- GenerateKeyPackage(e, s, random);
        var (state, s) :- At(s, Stated(Export(s)));
        var (material, s) :- At(s, Material(e, s));
        Outcome(s, Ok(Bootstrap(keyPackage, state, material)))
  }

  ghost function CreateGroup(e: Engine, s: Storage, groupId: Bytes, random: Random): (o: Outcome<Bytes>)
    ensures o.result.Ok? ==> Export(o.storage) == Ok(o.result.value)
  {
    var (_, s) :- At(s, ValidateGroupId(groupId));
    var (existing, s) :- At(s, Lib("load group", e.loadGroup(s, groupId)));
    if existing.Some? then
      Outcome(s, Err(GroupAlreadyExists))
    else
      var (credential, s) :- At(s, IdentityAndSigner(e, s));
      var (_, s) :- Step("create group", e.newGroup(s, credential, groupId, random));
      At(s, Stated(Export(s)))
  }

  ghost function AddMember(e: Engine, s: Storage, groupId: Bytes, keyPackage: Bytes, random: Random)
    : (o: Outcome<MemberAdd>)
    ensures o.result.Ok? ==> Export(o.storage) == Ok(o.result.value.state)
  {
    var (credential, s) :- At(s, IdentityAndSigner(e, s));
    var (decoded, s) :- At(s, Lib("decode key package", e.decodeKeyPackage(keyPackage)));
    var (package, s) :- At(s, Lib("validate key package", e.validateKeyPackage(decoded)));
    var (group, s) :- At(s, LoadGroup(e, s, groupId));
    var (proposed, s) :- Step("add member", e.addMembers(s, group, credential.signer, package, random));
    var (merged, s) :- Step("merge add commit", e.mergePending(s, proposed.group));
    var (commit, s) :- At(s, EncodeMessage(e, EnvelopeKind.Commit, proposed.commit));
    var (welcome, s) :- At(s, EncodeMessage(e, EnvelopeKind.Welcome, proposed.welcome));
    var (state, s) :- At(s, Stated(Export(s)));
    Outcome(s, Ok(MemberAdd(commit, welcome, merged.epoch, state)))
  }

  ghost function RemoveMember(e: Engine, s: Storage, groupId: Bytes, identity: Bytes, random: Random)
    : (o: Outcome<MemberRemove>)
    ensures o.result.Ok? ==> Export(o.storage) == Ok(o.result.value.state)
  {
    if identity == [] then
      Outcome(s, Err(InvalidIdentity))
    else
      var (credential, s) :- At(s, IdentityAndSigner(e, s));
      var (group, s) :- At(s, LoadGroup(e, s, groupId));
      match e.leafIndex(group, identity)
      case None => Outcome(s, Err(MemberNotFound))
      case Some(leaf) =>
        var (proposed, s) :- Step("remove member", e.removeMembers(s, group, credential.signer, leaf, random));
        var (merged, s) :- Step("merge remove commit", e.mergePending(s, proposed.group));
        var (commit, s) :- At(s, EncodeMessage(e, EnvelopeKind.Commit, proposed.commit));
        var (state, s) :- At(s, Stated(Export(s)));
        Outcome(s, Ok(MemberRemove(commit, merged.epoch, state)))
  }

  ghost function JoinGroup(e: Engine, s: Storage, welcome: Bytes): (o: Outcome<Advanced>)
    ensures o.result.Ok? ==> Export(o.storage) == Ok(o.result.value.state)
  {
    var (envelope, s) :- At(s, RequireEnvelope(welcome, EnvelopeKind.Welcome));
    var (message, s) :- At(s, Lib("decode welcome", e.decodeMessage(envelope.payload)));
    match e.extractWelcome(message)
    case None => Outcome(s, Err(UnexpectedMessage))
    case Some(body) =>
      var (staged, s) :- Step("stage welcome", e.stageWelcome(s, body));
      var (group, s) :- Step("join group", e.welcomeIntoGroup(s, staged));
      var (state, s) :- At(s, Stated(Export(s)));
      Outcome(s, Ok(Advanced(state, group.epoch)))
  }

  ghost function ProcessCommit(e: Engine, s: Storage, groupId: Bytes, commit: Bytes): (o: Outcome<Advanced>)
    ensures o.result.Ok? ==> Export(o.storage) == Ok(o.result.value.state)
  {
    var (envelope, s) :- At(s, RequireEnvelope(commit, EnvelopeKind.Commit));
    var (decoded, s) :- At(s, Lib("decode commit", e.decodeMessage(envelope.payload)));
    var (message, s) :- At(s, Lib("convert commit", e.protocolMessage(decoded)));
    var (group, s) :- At(s, LoadGroup(e, s, groupId));
    var (processed, s) :- Step("process commit", e.processMessage(s, group, message));
    match processed.1
    case StagedCommit(staged) =>
      var (merged, s) :- Step("merge commit", e.mergeStaged(s, processed.0, staged));
      var (state, s) :- At(s, Stated(Export(s)));
      Outcome(s, Ok(Advanced(state, merged.epoch)))
    case _ => Outcome(s, Err(UnexpectedMessage))
  }

  ghost function Encrypt(e: Engine, s: Storage, groupId: Bytes, plaintext: Bytes, random: Random)
    : (o: Outcome<Encrypted>)
    ensures o.result.Ok? ==> Export(o.storage) == Ok(o.result.value.state)
  {
    if plaintext == [] then
      Outcome(s, Err(EmptyPlaintext))
    else
      var (credential, s) :- At(s, IdentityAndSigner(e, s));
      var (group, s) :- At(s, LoadGroup(e, s, groupId));
      var created := e.createMessage(s, group, credential.signer, plaintext, random);
      var (message, s) :- Step("encrypt application message", created);
      var (ciphertext, s) :- At(s, EncodeMessage(e, EnvelopeKind.Application, message));
      var (state, s) :- At(s, Stated(Export(s)));
      Outcome(s, Ok(Encrypted(ciphertext, group.epoch, state)))
  }

  ghost function Decrypt(e: Engine, s: Storage, groupId: Bytes, application: Bytes): (o: Outcome<Decrypted>)
    ensures o.result.Ok? ==> Export(o.storage) == Ok(o.result.value.state)
  {
    var (envelope, s) :- At(s, RequireEnvelope(application, EnvelopeKind.Application));
    var (decoded, s) :- At(s, Lib("decode application message", e.decodeMessage(envelope.payload)));
    var (message, s) :- At(s, Lib("convert application message", e.protocolMessage(decoded)));
    var (group, s) :- At(s, LoadGroup(e, s, groupId));
    var (processed, s) :- Step("decrypt application message", e.processMessage(s, group, message));
    match processed.1
    case ApplicationMessage(plaintext) =>
      var (state, s) :- At(s, Stated(Export(s)));
      Outcome(s, Ok(Decrypted(plaintext, e.messageEpoch(message), state)))
    case _ => Outcome(s, Err(UnexpectedMessage))
  }
}
