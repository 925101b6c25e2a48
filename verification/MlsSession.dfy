/** The session object: its methods write the provider's storage in place, step by step. */
module MlsSessions {
  import opened Wrappers
  import opened Orders
  import opened ByteStrings
  import opened StateCodec
  import opened Engines
  import opened Envelopes
  import opened Sessions

  class MlsSession {
    const engine: Engine
    const provider: ProtocolProvider

    constructor (engine: Engine, provider: ProtocolProvider)
      ensures this.engine == engine && this.provider == provider
    {
      this.engine := engine;
      this.provider := provider;
    }

    static method Import(engine: Engine, state: Bytes) returns (r: SessionResult<MlsSession>)
      ensures match ImportSession(engine, state)
              case Ok(s) => && r.Ok? && fresh(r.value) && fresh(r.value.provider)
                            && r.value.engine == engine && r.value.provider.values == s
              case Err(x) => r == Err(x)
    {
      var provider := ProtocolProvider.ImportState(state);
      if provider.Err? {
        return Err(State(provider.error));
      }
      var session := new MlsSession(engine, provider.value);
      var credential := IdentityAndSigner(engine, session.provider.values);
      if credential.Err? {
        return Err(credential.error);
      }
      return Ok(session);
    }

    static method InitializeWithRoot(engine: Engine, identity: Bytes, root: Option<Bytes>, random: Random)
      returns (r: SessionResult<Bootstrap>)
      ensures r == Initialize(engine, identity, root, random).result
    {
      if identity == [] || |identity| > 0xFFFF {
        return Err(InvalidIdentity);
      }
      var provider := new ProtocolProvider(map[]);
      var signer :- Lib("create signature key", engine.newSigner(random));
      var stored := engine.storeSigner(provider.values, signer);
      provider.values := stored.storage;
      var _ :- Lib("store signature key", stored.result);
      var rootPublicKey := if root.Some? then root.value else signer.publicKey;
      if |rootPublicKey| != 32 {
        return Err(InvalidRootPublicKey);
      }
      provider.values := provider.values[IDENTITY_KEY := identity];
      provider.values := provider.values[SIGNATURE_PUBLIC_KEY := signer.publicKey];
      provider.values := provider.values[ROOT_PUBLIC_KEY := rootPublicKey];
      var session := new MlsSession(engine, provider);
      var keyPackage :- session.GenerateKeyPackage(random);
      var state :- session.ExportState();
      var material :- Material(engine, provider.values);
      return Ok(Bootstrap(keyPackage, state, material));
    }

    method ExportState() returns (r: SessionResult<Bytes>)
      ensures r == Stated(Export(provider.values))
    {
      var exported := provider.ExportState();
      return Stated(exported);
    }

    method GenerateKeyPackage(random: Random) returns (r: SessionResult<Bytes>)
      modifies provider
      ensures Outcome(provider.values, r) == Sessions.GenerateKeyPackage(engine, old(provider.values), random)
    {
      var credential :- IdentityAndSigner(engine, provider.values);
      var built := engine.buildKeyPackage(provider.values, credential, random);
      provider.values := built.storage;
      var bundle :- Lib("create key package", built.result);
      return Lib("serialize key package", engine.serializeKeyPackage(bundle));
    }

    method CreateGroup(groupId: Bytes, random: Random) returns (r: SessionResult<Bytes>)
      modifies provider
      ensures Outcome(provider.values, r) == Sessions.CreateGroup(engine, old(provider.values), groupId, random)
    {
      var _ :- ValidateGroupId(groupId);
      var existing :- Lib("load group", engine.loadGroup(provider.values, groupId));
      if existing.Some? {
        return Err(GroupAlreadyExists);
      }
      var credential :- IdentityAndSigner(engine, provider.values);
      var created := engine.newGroup(provider.values, credential, groupId, random);
      provider.values := created.storage;
      var _ :- Lib("create group", created.result);
      r := ExportState();
    }

    method AddMember(groupId: Bytes, keyPackage: Bytes, random: Random) returns (r: SessionResult<MemberAdd>)
      modifies provider
      ensures Outcome(provider.values, r) ==
              Sessions.AddMember(engine, old(provider.values), groupId, keyPackage, random)
    {
      var credential :- IdentityAndSigner(engine, provider.values);
      var decoded :- Lib("decode key package", engine.decodeKeyPackage(keyPackage));
      var package :- Lib("validate key package", engine.validateKeyPackage(decoded));
      var group :- LoadGroup(engine, provider.values, groupId);
      var added := engine.addMembers(provider.values, group, credential.signer, package, random);
      provider.values := added.storage;
      var proposed :- Lib("add member", added.result);
      var merging := engine.mergePending(provider.values, proposed.group);
      provider.values := merging.storage;
      var merged :- Lib("merge add commit", merging.result);
      var commit :- EncodeMessage(engine, EnvelopeKind.Commit, proposed.commit);
      var welcome :- EncodeMessage(engine, EnvelopeKind.Welcome, proposed.welcome);
      var state :- ExportState();
      return Ok(MemberAdd(commit, welcome, merged.epoch, state));
    }

    method RemoveMember(groupId: Bytes, identity: Bytes, random: Random) returns (r: SessionResult<MemberRemove>)
      modifies provider
      ensures Outcome(provider.values, r) ==
              Sessions.RemoveMember(engine, old(provider.values), groupId, identity, random)
    {
      if identity == [] {
        return Err(InvalidIdentity);
      }
      var credential :- IdentityAndSigner(engine, provider.values);
      var group :- LoadGroup(engine, provider.values, groupId);
      var leaf := engine.leafIndex(group, identity);
      if leaf.None? {
        return Err(MemberNotFound);
      }
      var removed := engine.removeMembers(provider.values, group, credential.signer, leaf.value, random);
      provider.values := removed.storage;
      var proposed :- Lib("remove member", removed.result);
      var merging := engine.mergePending(provider.values, proposed.group);
      provider.values := merging.storage;
      var merged :- Lib("merge remove commit", merging.result);
      var commit :- EncodeMessage(engine, EnvelopeKind.Commit, proposed.commit);
      var state :- ExportState();
      return Ok(MemberRemove(commit, merged.epoch, state));
    }

    method ListMembers(groupId: Bytes) returns (r: SessionResult<seq<Bytes>>)
      ensures r == Sessions.ListMembers(engine, provider.values, groupId)
    {
      var group :- LoadGroup(engine, provider.values, groupId);
      var members :- Identities(group.members);
      var sorted := SortMembers(members);
      return Ok(sorted);
    }

    method JoinGroup(welcome: Bytes) returns (r: SessionResult<Advanced>)
      modifies provider
      ensures Outcome(provider.values, r) == Sessions.JoinGroup(engine, old(provider.values), welcome)
    {
      var envelope :- RequireEnvelope(welcome, EnvelopeKind.Welcome);
      var message :- Lib("decode welcome", engine.decodeMessage(envelope.payload));
      var body := engine.extractWelcome(message);
      if body.None? {
        return Err(UnexpectedMessage);
      }
      var staging := engine.stageWelcome(provider.values, body.value);
      provider.values := staging.storage;
      var staged :- Lib("stage welcome", staging.result);
      var joining := engine.welcomeIntoGroup(provider.values, staged);
      provider.values := joining.storage;
      var group :- Lib("join group", joining.result);
      var state :- ExportState();
      return Ok(Advanced(state, group.epoch));
    }

    method ProcessCommit(groupId: Bytes, commit: Bytes) returns (r: SessionResult<Advanced>)
      modifies provider
      ensures Outcome(provider.values, r) == Sessions.ProcessCommit(engine, old(provider.values), groupId, commit)
    {
      var envelope :- RequireEnvelope(commit, EnvelopeKind.Commit);
      var decoded :- Lib("decode commit", engine.decodeMessage(envelope.payload));
      var message :- Lib("convert commit", engine.protocolMessage(decoded));
      var group :- LoadGroup(engine, provider.values, groupId);
      var processing := engine.processMessage(provider.values, group, message);
      provider.values := processing.storage;
      var processed :- Lib("process commit", processing.result);
      if !processed.1.StagedCommit? {
        return Err(UnexpectedMessage);
      }
      var merging := engine.mergeStaged(provider.values, processed.0, processed.1.staged);
      provider.values := merging.storage;
      var merged :- Lib("merge commit", merging.result);
      var state :- ExportState();
      return Ok(Advanced(state, merged.epoch));
    }

    method Encrypt(groupId: Bytes, plaintext: Bytes, random: Random) returns (r: SessionResult<Encrypted>)
      modifies provider
      ensures Outcome(provider.values, r) == Sessions.Encrypt(engine, old(provider.values), groupId, plaintext, random)
    {
      if plaintext == [] {
        return Err(EmptyPlaintext);
      }
      var credential :- IdentityAndSigner(engine, provider.values);
      var group :- LoadGroup(engine, provider.values, groupId);
      var epoch := group.epoch;
      var created := engine.createMessage(provider.values, group, credential.signer, plaintext, random);
      provider.values := created.storage;
      var message :- Lib("encrypt application message", created.result);
      var ciphertext :- EncodeMessage(engine, EnvelopeKind.Application, message);
      var state :- ExportState();
      return Ok(Encrypted(ciphertext, epoch, state));
    }

    method Decrypt(groupId: Bytes, application: Bytes) returns (r: SessionResult<Decrypted>)
      modifies provider
      ensures Outcome(provider.values, r) == Sessions.Decrypt(engine, old(provider.values), groupId, application)
    {
      var envelope :- RequireEnvelope(application, EnvelopeKind.Application);
      var decoded :- Lib("decode application message", engine.decodeMessage(envelope.payload));
      var message :- Lib("convert application message", engine.protocolMessage(decoded));
      var epoch := engine.messageEpoch(message);
      var group :- LoadGroup(engine, provider.values, groupId);
      var processing := engine.processMessage(provider.values, group, message);
      provider.values := processing.storage;
      var processed :- Lib("decrypt application message", processing.result);
      if !processed.1.ApplicationMessage? {
        return Err(UnexpectedMessage);
      }
      var state :- ExportState();
      return Ok(Decrypted(processed.1.plaintext, epoch, state));
    }
  }

  /** The library sort over identities: any ascending arrangement. */
  method SortMembers(members: seq<Bytes>) returns (sorted: seq<Bytes>)
    ensures sorted == Sort(members, BytesLe)
  {
    sorted := Arranged(members);
    BytesLeTotal();
    SortSorts(members, BytesLe);
    SortedUnique(sorted, Sort(members, BytesLe), BytesLe);
  }

  method Arranged(members: seq<Bytes>) returns (sorted: seq<Bytes>)
    ensures multiset(sorted) == multiset(members) && Sorted(sorted, BytesLe)
  {
    BytesLeTotal();
    SortSorts(members, BytesLe);
    sorted := Sort(members, BytesLe);
  }
}
