/**
 What session operations do to a group's roster, for every engine that keeps the laws of groups, and which
 commits a device refuses.
 */
module Convergence {
  import opened Wrappers
  import opened ByteStrings
  import opened StateCodec
  import opened Engines
  import opened Envelopes
  import opened Sessions
  import opened Commands
  import opened Refinement
  import opened GroupLaws

  // ---- What one session operation does to the roster ----

  /** The change an enveloped commit announces. */
  function ChangeOf(m: Meaning, envelope: Bytes): Option<Change> {
    match Decode(envelope)
    case Ok(x) => m.commit(x.payload)
    case Err(_) => None
  }

  function RosterOf(m: Meaning, envelope: Bytes): Option<Roster> {
    match Decode(envelope)
    case Ok(x) => m.welcome(x.payload)
    case Err(_) => None
  }

  lemma EncodedMessage(e: Engine, kind: EnvelopeKind, message: Bytes)
    requires EncodeMessage(e, kind, message).Ok?
    ensures var r := Decode(EncodeMessage(e, kind, message).value);
            && r.Ok? && r.value.kind == kind && e.serializeMessage(message) == Ok(r.value.payload)
  {
    var payload := e.serializeMessage(message).value;
    Envelopes.DecodeEncoded(TryNew(kind, payload).value);
  }

  lemma SentOpens(e: Engine, kind: EnvelopeKind, message: Bytes)
    requires EncodeMessage(e, kind, message).Ok?
    ensures RequireEnvelope(EncodeMessage(e, kind, message).value, kind).Ok?
  {
    EncodedMessage(e, kind, message);
  }

  /** What a session sends is an envelope of the kind that its receivers' gates ask for. */
  lemma AddedMessagesOpen(e: Engine, s: Storage, groupId: Bytes, keyPackage: Bytes, random: Random)
    requires AddMember(e, s, groupId, keyPackage, random).result.Ok?
    ensures var added := AddMember(e, s, groupId, keyPackage, random).result.value;
            && RequireEnvelope(added.commit, EnvelopeKind.Commit).Ok?
            && RequireEnvelope(added.welcome, EnvelopeKind.Welcome).Ok?
  {
    hide EncodeMessage, RequireEnvelope, IdentityAndSigner, LoadGroup, Export;
    var group, signer := LoadGroup(e, s, groupId).value, IdentityAndSigner(e, s).value.signer;
    var package := e.validateKeyPackage(e.decodeKeyPackage(keyPackage).value).value;
    var proposed := e.addMembers(s, group, signer, package, random).result.value;
    SentOpens(e, EnvelopeKind.Commit, proposed.commit);
    SentOpens(e, EnvelopeKind.Welcome, proposed.welcome);
  }

  lemma RemovedMessageOpens(e: Engine, s: Storage, groupId: Bytes, identity: Bytes, random: Random)
    requires RemoveMember(e, s, groupId, identity, random).result.Ok?
    ensures RequireEnvelope(RemoveMember(e, s, groupId, identity, random).result.value.commit, EnvelopeKind.Commit).Ok?
  {
    hide EncodeMessage, RequireEnvelope, IdentityAndSigner, LoadGroup, Export;
    var group, signer := LoadGroup(e, s, groupId).value, IdentityAndSigner(e, s).value.signer;
    var proposed := e.removeMembers(s, group, signer, e.leafIndex(group, identity).value, random).result.value;
    SentOpens(e, EnvelopeKind.Commit, proposed.commit);
  }

  lemma EncryptedMessageOpens(e: Engine, s: Storage, groupId: Bytes, plaintext: Bytes, random: Random)
    requires Encrypt(e, s, groupId, plaintext, random).result.Ok?
    ensures var encrypted := Encrypt(e, s, groupId, plaintext, random).result.value;
            RequireEnvelope(encrypted.ciphertext, EnvelopeKind.Application).Ok?
  {
    hide EncodeMessage, RequireEnvelope, IdentityAndSigner, LoadGroup, Export;
    var group, signer := LoadGroup(e, s, groupId).value, IdentityAndSigner(e, s).value.signer;
    SentOpens(e, EnvelopeKind.Application, e.createMessage(s, group, signer, plaintext, random).result.value);
  }

  lemma LoadGroupMeaning(e: Engine, m: Meaning, s: Storage, groupId: Bytes)
    requires FollowsRfc(e, m) && LoadGroup(e, s, groupId).Ok?
    ensures var g := LoadGroup(e, s, groupId).value;
            g.id == groupId && Loaded(e, s, g)
  {
    hide FollowsRfc;
    LoadLaw(e, m, s, groupId);
  }

  /** What a device asks the group to commit to. */
  datatype Request = Adding(keyPackage: Bytes) | Removing(identity: Bytes)

  /** Whom a request is about. */
  function Subject(m: Meaning, request: Request): Member {
    match request
    case Adding(keyPackage) => m.keyPackage(keyPackage).GetOr(Named([]))
    case Removing(identity) => Named(identity)
  }

  /** The change a request amounts to at an epoch. */
  function Requested(m: Meaning, groupId: Bytes, epoch: nat, request: Request): Change {
    match request
    case Adding(_) => Addition(groupId, epoch, Subject(m, request))
    case Removing(identity) => Removal(groupId, epoch, identity)
  }

  /** The group is loaded after an operation, moved on by what was requested, and others are told just that. */
  ghost predicate Committed(e: Engine, m: Meaning, s: Storage, groupId: Bytes, request: Request,
                            after: Storage, commit: Bytes, epoch: nat)
  {
    var before, loaded := LoadGroup(e, s, groupId), e.loadGroup(after, groupId);
    && before.Ok? && loaded.Ok? && loaded.value.Some?
    && epoch == loaded.value.value.epoch
    && ChangeOf(m, commit) == Some(Requested(m, groupId, before.value.epoch, request))
    && Advances(e, after, before.value, Requested(m, groupId, before.value.epoch, request), loaded.value.value)
  }

  /** A session acts with the key pair in its storage. */
  lemma CredentialGenuine(e: Engine, s: Storage)
    requires IdentityAndSigner(e, s).Ok?
    ensures Genuine(e, s, IdentityAndSigner(e, s).value) && Held(e, s, IdentityAndSigner(e, s).value.signer)
  {
  }

  /** An addition adds the member its key package is for, and its welcome tells the result. */
  lemma AddAdvances(e: Engine, m: Meaning, s: Storage, groupId: Bytes, keyPackage: Bytes, random: Random)
    requires FollowsRfc(e, m) && AddMember(e, s, groupId, keyPackage, random).result.Ok?
    ensures m.keyPackage(keyPackage).Some?
    ensures var o := AddMember(e, s, groupId, keyPackage, random);
            && Committed(e, m, s, groupId, Adding(keyPackage), o.storage, o.result.value.commit, o.result.value.epoch)
            && var after := e.loadGroup(o.storage, groupId).value.value;
               RosterOf(m, o.result.value.welcome) == Some(Roster(groupId, after.epoch, multiset(after.members)))
  {
    hide FollowsRfc, Decode, Export, EncodeMessage, LoadGroup, IdentityAndSigner;
    LoadGroupMeaning(e, m, s, groupId);
    var before := LoadGroup(e, s, groupId).value;
    var credential := IdentityAndSigner(e, s).value;
    var package := e.validateKeyPackage(e.decodeKeyPackage(keyPackage).value).value;
    var adding := e.addMembers(s, before, credential.signer, package, random);
    CredentialGenuine(e, s);
    AddLaw(e, m, s, before, credential.signer, keyPackage, random);
    var merging := e.mergePending(adding.storage, adding.result.value.group);
    EncodedMessage(e, EnvelopeKind.Commit, adding.result.value.commit);
    EncodedMessage(e, EnvelopeKind.Welcome, adding.result.value.welcome);
    assert AddMember(e, s, groupId, keyPackage, random).storage == merging.storage;
  }

  /** A removal removes the member of the identity asked for, which the group has. */
  lemma RemoveAdvances(e: Engine, m: Meaning, s: Storage, groupId: Bytes, identity: Bytes, random: Random)
    requires FollowsRfc(e, m) && RemoveMember(e, s, groupId, identity, random).result.Ok?
    ensures var o := RemoveMember(e, s, groupId, identity, random);
            && Committed(e, m, s, groupId, Removing(identity), o.storage, o.result.value.commit, o.result.value.epoch)
            && Named(identity) in multiset(LoadGroup(e, s, groupId).value.members)
  {
    hide FollowsRfc, Decode, Export, EncodeMessage, LoadGroup, IdentityAndSigner;
    LoadGroupMeaning(e, m, s, groupId);
    var before := LoadGroup(e, s, groupId).value;
    var credential := IdentityAndSigner(e, s).value;
    var removing := e.removeMembers(s, before, credential.signer, e.leafIndex(before, identity).value, random);
    CredentialGenuine(e, s);
    RemoveLaw(e, m, s, before, credential.signer, identity, random);
    var merging := e.mergePending(removing.storage, removing.result.value.group);
    EncodedMessage(e, EnvelopeKind.Commit, removing.result.value.commit);
    assert RemoveMember(e, s, groupId, identity, random).storage == merging.storage;
  }

  lemma ProcessAdvances(e: Engine, m: Meaning, s: Storage, groupId: Bytes, commit: Bytes)
    requires FollowsRfc(e, m) && ProcessCommit(e, s, groupId, commit).result.Ok?
    ensures var o, before := ProcessCommit(e, s, groupId, commit), LoadGroup(e, s, groupId);
            var after := e.loadGroup(o.storage, groupId);
            && before.Ok? && after.Ok? && after.value.Some?
            && o.result.value.epoch == after.value.value.epoch
            && ChangeOf(m, commit).Some?
            && Advances(e, o.storage, before.value, ChangeOf(m, commit).value, after.value.value)
  {
    hide FollowsRfc, Decode, Export, LoadGroup;
    LoadGroupMeaning(e, m, s, groupId);
    var before := LoadGroup(e, s, groupId).value;
    var payload := Decode(commit).value.payload;
    var decoded := e.decodeMessage(payload).value;
    var message := e.protocolMessage(decoded).value;
    ProcessLaw(e, m, s, before, payload, decoded);
    var processing := e.processMessage(s, before, message);
    var merging := e.mergeStaged(processing.storage, processing.result.value.0, processing.result.value.1.staged);
    assert ProcessCommit(e, s, groupId, commit).storage == merging.storage;
  }

  /** A group is created with its creator alone, at epoch 0. */
  lemma CreateStarts(e: Engine, m: Meaning, s: Storage, groupId: Bytes, random: Random)
    requires FollowsRfc(e, m) && CreateGroup(e, s, groupId, random).result.Ok?
    ensures IdentityAndSigner(e, s).Ok? && 0 < |groupId| <= 1024
    ensures var loaded := LoadGroup(e, CreateGroup(e, s, groupId, random).storage, groupId);
            && loaded.Ok? && loaded.value.epoch == 0
            && multiset(loaded.value.members) == multiset{Named(IdentityAndSigner(e, s).value.identity)}
  {
    hide FollowsRfc, IdentityAndSigner, Export;
    CredentialGenuine(e, s);
    NewLaw(e, m, s, IdentityAndSigner(e, s).value, groupId, random);
  }

  lemma JoinLands(e: Engine, m: Meaning, s: Storage, welcome: Bytes)
    requires FollowsRfc(e, m) && JoinGroup(e, s, welcome).result.Ok?
    ensures RosterOf(m, welcome).Some?
    ensures var r := RosterOf(m, welcome).value;
            var after := e.loadGroup(JoinGroup(e, s, welcome).storage, r.group);
            && after.Ok? && after.value.Some?
            && after.value.value.epoch == r.epoch == JoinGroup(e, s, welcome).result.value.epoch
            && multiset(after.value.value.members) == r.members
  {
    hide FollowsRfc, Decode, Export;
    var payload := Decode(welcome).value.payload;
    var decoded := e.decodeMessage(payload).value;
    WelcomeLaw(e, m, s, payload, decoded, e.extractWelcome(decoded).value);
  }

  lemma EncryptKeepsRoster(e: Engine, m: Meaning, s: Storage, groupId: Bytes, plaintext: Bytes, random: Random)
    requires FollowsRfc(e, m) && Encrypt(e, s, groupId, plaintext, random).result.Ok?
    ensures LoadGroup(e, s, groupId).Ok?
    ensures SameRoster(e, Encrypt(e, s, groupId, plaintext, random).storage, LoadGroup(e, s, groupId).value)
    ensures Encrypt(e, s, groupId, plaintext, random).result.value.epoch == LoadGroup(e, s, groupId).value.epoch
  {
    hide FollowsRfc, SameRoster, EncodeMessage, Export, LoadGroup, IdentityAndSigner;
    LoadGroupMeaning(e, m, s, groupId);
    EncryptLaw(e, m, s, LoadGroup(e, s, groupId).value, IdentityAndSigner(e, s).value.signer, plaintext, random);
  }

  lemma DecryptKeepsRoster(e: Engine, m: Meaning, s: Storage, groupId: Bytes, application: Bytes)
    requires FollowsRfc(e, m) && Decrypt(e, s, groupId, application).result.Ok?
    ensures LoadGroup(e, s, groupId).Ok?
    ensures SameRoster(e, Decrypt(e, s, groupId, application).storage, LoadGroup(e, s, groupId).value)
  {
    hide FollowsRfc, SameRoster, Decode, Export, LoadGroup;
    LoadGroupMeaning(e, m, s, groupId);
    var message := e.protocolMessage(e.decodeMessage(Decode(application).value.payload).value).value;
    DecryptLaw(e, m, s, LoadGroup(e, s, groupId).value, message);
  }

  // ---- Refusals ----

  /**
   A commit that is not of the device's epoch is refused, and as the machine rolls back it leaves the
   threaded state exactly as it was.
   */
  lemma StaleCommitRefused(e: Engine, m: Meaning, s: Storage, groupId: Bytes, commit: Bytes, random: Random)
    requires FollowsRfc(e, m)
    requires LoadGroup(e, s, groupId).Ok? && ChangeOf(m, commit).Some?
    requires ChangeOf(m, commit).value.epoch != LoadGroup(e, s, groupId).value.epoch
    ensures var (r, after) := Live(e, s, Command(PROCESS_COMMIT, [groupId, commit], random));
            r.Err? && after == s
  {
    hide FollowsRfc, ProcessCommit, LoadGroup, ChangeOf, LiveRefusal;
    var o := ProcessCommit(e, s, groupId, commit);
    if o.result.Ok? {
      ProcessAdvances(e, m, s, groupId, commit);
    }
  }

  /**
   Another's commit is never applied twice: the storage it leaves is past its epoch, and there and at every
   later epoch the device refuses it and keeps its state.
   */
  lemma RepeatRefused(e: Engine, m: Meaning, s: Storage, groupId: Bytes, commit: Bytes)
    requires FollowsRfc(e, m) && ProcessCommit(e, s, groupId, commit).result.Ok?
    ensures var after := LoadGroup(e, ProcessCommit(e, s, groupId, commit).storage, groupId);
            && LoadGroup(e, s, groupId).Ok? && after.Ok?
            && LoadGroup(e, s, groupId).value.epoch < after.value.epoch
    ensures forall later, again | LoadGroup(e, later, groupId).Ok? &&
              LoadGroup(e, later, groupId).value.epoch > LoadGroup(e, s, groupId).value.epoch ::
              && Live(e, later, Command(PROCESS_COMMIT, [groupId, commit], again)).0.Err?
              && Live(e, later, Command(PROCESS_COMMIT, [groupId, commit], again)).1 == later
  {
    ProcessAdvances(e, m, s, groupId, commit);
    var after := ProcessCommit(e, s, groupId, commit).storage;
    LoadedAfter(e, s, after, groupId);
    hide FollowsRfc, ProcessCommit, ChangeOf, Live, LoadGroup;
    forall later, again | LoadGroup(e, later, groupId).Ok? &&
      LoadGroup(e, later, groupId).value.epoch > LoadGroup(e, s, groupId).value.epoch
      ensures Live(e, later, Command(PROCESS_COMMIT, [groupId, commit], again)).0.Err?
      ensures Live(e, later, Command(PROCESS_COMMIT, [groupId, commit], again)).1 == later
    {
      StaleCommitRefused(e, m, later, groupId, commit, again);
    }
  }

  lemma LoadedAfter(e: Engine, s: Storage, after: Storage, groupId: Bytes)
    requires LoadGroup(e, s, groupId).Ok? && e.loadGroup(after, groupId).Ok? && e.loadGroup(after, groupId).value.Some?
    ensures LoadGroup(e, after, groupId) == Ok(e.loadGroup(after, groupId).value.value)
  {
  }
}
