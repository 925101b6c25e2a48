/** What every session operation keeps, for every lawful engine, whether it succeeds or fails. */
module SessionLaws {
  import opened Wrappers
  import opened ByteStrings
  import opened StateCodec
  import opened CommandFrames
  import opened Engines
  import opened Envelopes
  import opened Sessions
  import opened Commands

  /** The storage has what an import asks for: the identity, its public key and a signer for it. */
  ghost predicate Ready(e: Engine, s: Storage) {
    IdentityAndSigner(e, s).Ok?
  }

  lemma KeptCredential(e: Engine, before: Storage, after: Storage)
    requires Keeps(e, before, after) && Ready(e, before)
    ensures IdentityAndSigner(e, after) == IdentityAndSigner(e, before)
  {
    assert IDENTITY_KEY in after && SIGNATURE_PUBLIC_KEY in after;
  }

  lemma KeptMaterial(e: Engine, before: Storage, after: Storage)
    requires Keeps(e, before, after) && Material(e, before).Ok?
    ensures Material(e, after) == Material(e, before)
  {
    assert IDENTITY_KEY in after && SIGNATURE_PUBLIC_KEY in after && ROOT_PUBLIC_KEY in after;
  }

  lemma KeepsItself(e: Engine, s: Storage)
    ensures Keeps(e, s, s)
  {
  }

  lemma GenerateKeeps(e: Engine, s: Storage, random: Random)
    requires Lawful(e)
    ensures Keeps(e, s, GenerateKeyPackage(e, s, random).storage)
  {
    KeepsItself(e, s);
    hide Keeps, IdentityAndSigner;
  }

  lemma GenerateNeedsReady(e: Engine, s: Storage, random: Random)
    ensures GenerateKeyPackage(e, s, random).result.Ok? ==> Ready(e, s)
  {
  }

  lemma CreateKeeps(e: Engine, s: Storage, groupId: Bytes, random: Random)
    requires Lawful(e)
    ensures Keeps(e, s, CreateGroup(e, s, groupId, random).storage)
  {
    KeepsItself(e, s);
    hide Keeps, IdentityAndSigner, Export;
  }

  lemma AddKeeps(e: Engine, s: Storage, groupId: Bytes, keyPackage: Bytes, random: Random)
    requires Lawful(e)
    ensures Keeps(e, s, AddMember(e, s, groupId, keyPackage, random).storage)
  {
    KeepsItself(e, s);
    hide Keeps, IdentityAndSigner, Export, EncodeMessage, LoadGroup;
    forall g, k, p, r, h
      ensures var t := e.addMembers(s, g, k, p, r).storage;
              Keeps(e, s, e.mergePending(t, h).storage)
    {
      var t := e.addMembers(s, g, k, p, r).storage;
      KeepsTransitive(e, s, t, e.mergePending(t, h).storage);
    }
  }

  lemma RemoveKeeps(e: Engine, s: Storage, groupId: Bytes, identity: Bytes, random: Random)
    requires Lawful(e)
    ensures Keeps(e, s, RemoveMember(e, s, groupId, identity, random).storage)
  {
    KeepsItself(e, s);
    hide Keeps, IdentityAndSigner, Export, EncodeMessage, LoadGroup;
    forall g, k, i, r, h
      ensures var t := e.removeMembers(s, g, k, i, r).storage;
              Keeps(e, s, e.mergePending(t, h).storage)
    {
      var t := e.removeMembers(s, g, k, i, r).storage;
      KeepsTransitive(e, s, t, e.mergePending(t, h).storage);
    }
  }

  lemma JoinKeeps(e: Engine, s: Storage, welcome: Bytes)
    requires Lawful(e)
    ensures Keeps(e, s, JoinGroup(e, s, welcome).storage)
  {
    KeepsItself(e, s);
    hide Keeps, RequireEnvelope, Export;
    forall w, x
      ensures Keeps(e, s, e.welcomeIntoGroup(e.stageWelcome(s, w).storage, x).storage)
    {
      var t := e.stageWelcome(s, w).storage;
      KeepsTransitive(e, s, t, e.welcomeIntoGroup(t, x).storage);
    }
  }

  lemma ProcessKeeps(e: Engine, s: Storage, groupId: Bytes, commit: Bytes)
    requires Lawful(e)
    ensures Keeps(e, s, ProcessCommit(e, s, groupId, commit).storage)
  {
    KeepsItself(e, s);
    hide Keeps, RequireEnvelope, Export, LoadGroup;
    forall g, m, h, c
      ensures Keeps(e, s, e.mergeStaged(e.processMessage(s, g, m).storage, h, c).storage)
    {
      var t := e.processMessage(s, g, m).storage;
      KeepsTransitive(e, s, t, e.mergeStaged(t, h, c).storage);
    }
  }

  lemma EncryptKeeps(e: Engine, s: Storage, groupId: Bytes, plaintext: Bytes, random: Random)
    requires Lawful(e)
    ensures Keeps(e, s, Encrypt(e, s, groupId, plaintext, random).storage)
  {
    KeepsItself(e, s);
    hide Keeps, IdentityAndSigner, Export, EncodeMessage, LoadGroup;
  }

  lemma DecryptKeeps(e: Engine, s: Storage, groupId: Bytes, application: Bytes)
    requires Lawful(e)
    ensures Keeps(e, s, Decrypt(e, s, groupId, application).storage)
  {
    KeepsItself(e, s);
    hide Keeps, RequireEnvelope, Export, LoadGroup;
  }

  /** No operation, failing or not, loses the session's entries or a stored signer. */
  lemma OperationKeeps(e: Engine, s: Storage, operation: Byte, args: seq<Bytes>, random: Random)
    requires Lawful(e) && TakesState(operation) && |args| == Arity(operation)
    ensures Keeps(e, s, Operate(e, s, operation, args, random).storage)
  {
    hide Lawful, Keeps, GenerateKeyPackage, CreateGroup, AddMember, JoinGroup, Encrypt, Decrypt, ProcessCommit,
         RemoveMember, SignDeviceApproval, ListMembers, Material, Export, EncodeMembers;
    match operation {
      case 2 => GenerateKeeps(e, s, random);
      case 3 => CreateKeeps(e, s, args[0], random);
      case 4 => AddKeeps(e, s, args[0], args[1], random);
      case 5 => JoinKeeps(e, s, args[0]);
      case 6 => EncryptKeeps(e, s, args[0], args[1], random);
      case 7 => DecryptKeeps(e, s, args[0], args[1]);
      case 9 => ProcessKeeps(e, s, args[0], args[1]);
      case 10 => RemoveKeeps(e, s, args[0], args[1], random);
      case _ => KeepsItself(e, s);
    }
  }

  /**
   A successful operation answers with the export of the storage it left, in field 0; the two that do
   not, and the one that only reports, leave the storage alone.
   */
  lemma AnswerCarriesState(e: Engine, s: Storage, operation: Byte, args: seq<Bytes>, random: Random)
    requires TakesState(operation) && |args| == Arity(operation)
    ensures var o := Operate(e, s, operation, args, random);
            && (o.result.Ok? && ReturnsState(operation) ==> Export(o.storage) == Ok(o.result.value[0]))
            && (!ReturnsState(operation) || operation == PUBLIC_MATERIAL ==> o.storage == s)
  {
    hide Export, GenerateKeyPackage, CreateGroup, AddMember, JoinGroup, Encrypt, Decrypt, ProcessCommit, RemoveMember,
         ListMembers, SignDeviceApproval, Material, EncodeMembers;
  }

  /** A new session's state is ready to be imported, and its response shows the material it stores. */
  lemma InitializedReady(e: Engine, identity: Bytes, root: Option<Bytes>, random: Random)
    requires Lawful(e) && Initialize(e, identity, root, random).result.Ok?
    ensures var o := Initialize(e, identity, root, random);
            && Ready(e, o.storage)
            && Export(o.storage) == Ok(o.result.value.state)
            && Material(e, o.storage) == Ok(o.result.value.publicMaterial)
            && o.result.value.publicMaterial.rootPublicKey ==
               (if root.Some? then root.value else o.storage[SIGNATURE_PUBLIC_KEY])
            && o.storage[IDENTITY_KEY] == identity
  {
    hide Export, Keeps, GenerateKeyPackage;
    var signer := e.newSigner(random).value;
    var rootPublicKey := if root.Some? then root.value else signer.publicKey;
    var stored := e.storeSigner(map[], signer).storage;
    var s :=
        stored[IDENTITY_KEY := identity][SIGNATURE_PUBLIC_KEY := signer.publicKey][ROOT_PUBLIC_KEY := rootPublicKey];
    SessionKeysDiffer();
    assert s[IDENTITY_KEY] == identity;
    assert s[SIGNATURE_PUBLIC_KEY] == signer.publicKey && s[ROOT_PUBLIC_KEY] == rootPublicKey;
    var after := GenerateKeyPackage(e, s, random).storage;
    assert Initialize(e, identity, root, random).storage == after;
    GenerateKeeps(e, s, random);
    GenerateNeedsReady(e, s, random);
    KeptCredential(e, s, after);
    KeptMaterial(e, s, after);
  }

  // ---- The envelope gate ----

  /** The bytes are an envelope of that kind, within the limit. */
  ghost predicate Framed(bytes: Bytes, kind: EnvelopeKind) {
    exists envelope: Envelopes.Envelope | envelope.Valid() && envelope.kind == kind :: bytes == envelope.Encode()
  }

  lemma GateExactly(bytes: Bytes, kind: EnvelopeKind)
    ensures RequireEnvelope(bytes, kind).Ok? <==> Framed(bytes, kind)
  {
    hide Decode;
    if RequireEnvelope(bytes, kind).Ok? {
      EnvelopeBijection(bytes, Decode(bytes).value);
    }
    if envelope: Envelopes.Envelope :| envelope.Valid() && envelope.kind == kind && bytes == envelope.Encode() {
      EnvelopeBijection(bytes, envelope);
    }
  }

  /**
   The three operations that open an envelope are open to envelopes of their kind and nothing else, so no bytes
   get past two of the gates; at a closed gate the operation returns the gate's error and the storage it was given.
   */
  lemma GateIsExclusive(e: Engine, s: Storage, groupId: Bytes, bytes: Bytes)
    ensures var welcome, commit, application :=
              RequireEnvelope(bytes, EnvelopeKind.Welcome),
              RequireEnvelope(bytes, EnvelopeKind.Commit),
              RequireEnvelope(bytes, EnvelopeKind.Application);
            && (welcome.Ok? <==> Framed(bytes, EnvelopeKind.Welcome))
            && (commit.Ok? <==> Framed(bytes, EnvelopeKind.Commit))
            && (application.Ok? <==> Framed(bytes, EnvelopeKind.Application))
            && !(welcome.Ok? && commit.Ok?) && !(welcome.Ok? && application.Ok?) && !(commit.Ok? && application.Ok?)
            && (welcome.Err? ==> JoinGroup(e, s, bytes) == Outcome(s, Err(welcome.error)))
            && (commit.Err? ==> ProcessCommit(e, s, groupId, bytes) == Outcome(s, Err(commit.error)))
            && (application.Err? ==> Decrypt(e, s, groupId, bytes) == Outcome(s, Err(application.error)))
  {
    GateExactly(bytes, EnvelopeKind.Welcome);
    GateExactly(bytes, EnvelopeKind.Commit);
    GateExactly(bytes, EnvelopeKind.Application);
    hide Decode, Export, LoadGroup, Framed;
  }
}
