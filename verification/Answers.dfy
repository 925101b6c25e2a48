/**
 What a client reads in the answer to a command, end to end: from the request's bytes and the state in it to the
 fields of the response and the state among them.
 */
module Answers {
  import opened Wrappers
  import opened Orders
  import opened ByteStrings
  import opened StateCodec
  import opened CommandFrames
  import opened Engines
  import opened Envelopes
  import opened Sessions
  import opened Commands
  import opened Refinement
  import opened Responses
  import opened SessionLaws
  import opened GroupLaws
  import opened Convergence

  // ---- From a request to its operation ----

  /** The request asks for the operation on a state that imports as `s`. */
  ghost predicate Asks(e: Engine, request: Bytes, operation: Byte, args: seq<Bytes>, s: Storage) {
    && DecodeRequest(request).Ok?
    && var (o, fields) := DecodeRequest(request).value;
       o == operation && |fields| == 1 + |args| && fields[1..] == args && ImportSession(e, fields[0]) == Ok(s)
  }

  /** It is answered with these fields. */
  ghost predicate Answered(e: Engine, request: Bytes, random: Random, fields: seq<Bytes>) {
    Execute(e, request, random) == Ok(fields)
  }

  lemma Executed(e: Engine, request: Bytes, operation: Byte, args: seq<Bytes>, s: Storage, random: Random)
    requires Asks(e, request, operation, args, s) && TakesState(operation) && |args| == Arity(operation)
    ensures Execute(e, request, random) == Displayed(Operate(e, s, operation, args, random).result)
  {
    hide Operate, ImportSession, DecodeRequest;
  }

  /** Field 0 of a state-returning answer imports as the storage the operation left. */
  lemma StateReturned(e: Engine, request: Bytes, operation: Byte, args: seq<Bytes>, s: Storage, random: Random,
                      fields: seq<Bytes>)
    requires Asks(e, request, operation, args, s) && TakesState(operation) && |args| == Arity(operation)
    requires ReturnsState(operation) && Answered(e, request, random, fields)
    ensures var o := Operate(e, s, operation, args, random);
            o.result == Ok(fields) && fields != [] && Import(fields[0]) == Ok(o.storage)
  {
    hide Operate, ImportSession, DecodeRequest, Export, Import, Asks;
    Executed(e, request, operation, args, s, random);
    AnswerCarriesState(e, s, operation, args, random);
    FieldsThere(e, s, operation, args, random);
    RoundTrip(Operate(e, s, operation, args, random).storage);
  }

  lemma FieldsThere(e: Engine, s: Storage, operation: Byte, args: seq<Bytes>, random: Random)
    requires TakesState(operation) && |args| == Arity(operation)
    ensures var o := Operate(e, s, operation, args, random); o.result.Ok? ==> o.result.value != []
  {
    hide Operate;
    OperateFieldCount(e, s, operation, args, random);
  }

  /** Eight bytes that say the epoch, the first weighing most. */
  ghost predicate Says(field: Bytes, epoch: nat) {
    |field| == 8 && BigEndian64(field) == epoch % U64_RANGE
  }

  lemma EpochSaid(epoch: nat)
    ensures Says(U64(epoch), epoch)
  {
    U64Exactly(epoch);
  }

  /** The state in field 0 holds the group, and the last field says the epoch at which it does. */
  ghost predicate EpochTold(e: Engine, groupId: Bytes, fields: seq<Bytes>) {
    && fields != [] && Import(fields[0]).Ok?
    && var loaded := LoadGroup(e, Import(fields[0]).value, groupId);
       loaded.Ok? && Says(fields[|fields| - 1], loaded.value.epoch)
  }

  lemma EpochTelling(e: Engine, groupId: Bytes, fields: seq<Bytes>, after: Storage, epoch: nat)
    requires |fields| > 1 && Import(fields[0]) == Ok(after) && fields[|fields| - 1] == U64(epoch)
    requires LoadGroup(e, after, groupId).Ok? && LoadGroup(e, after, groupId).value.epoch == epoch
    ensures EpochTold(e, groupId, fields)
  {
    hide Import, U64, LoadGroup, Says;
    EpochSaid(epoch);
  }

  /** Whatever is added, the answer's fields are the state, the commit, the welcome and the epoch that result. */
  lemma AddAnswered(e: Engine, m: Meaning, request: Bytes, s: Storage, groupId: Bytes, keyPackage: Bytes,
                    random: Random, fields: seq<Bytes>)
    requires FollowsRfc(e, m) && Asks(e, request, ADD_MEMBER, [groupId, keyPackage], s)
    requires Answered(e, request, random, fields)
    ensures |fields| == 4 && EpochTold(e, groupId, fields)
    ensures var after := Import(fields[0]).value;
            var g := LoadGroup(e, after, groupId).value;
            && Committed(e, m, s, groupId, Adding(keyPackage), after, fields[1], g.epoch)
            && RosterOf(m, fields[2]) == Some(Roster(groupId, g.epoch, multiset(g.members)))
  {
    hide FollowsRfc, Operate, Asks, AddMember, LoadGroup, Import, U64, Committed, RosterOf, EpochTold, Answered;
    StateReturned(e, request, ADD_MEMBER, [groupId, keyPackage], s, random, fields);
    AddArm(e, s, groupId, keyPackage, random);
    AddAdvances(e, m, s, groupId, keyPackage, random);
    var o := AddMember(e, s, groupId, keyPackage, random);
    CommittedLoads(e, m, s, groupId, Adding(keyPackage), o.storage, o.result.value.commit, o.result.value.epoch);
    EpochTelling(e, groupId, fields, o.storage, o.result.value.epoch);
  }

  lemma CommittedLoads(e: Engine, m: Meaning, s: Storage, groupId: Bytes, request: Request, after: Storage,
                       commit: Bytes, epoch: nat)
    requires Committed(e, m, s, groupId, request, after, commit, epoch)
    ensures LoadGroup(e, after, groupId) == Ok(e.loadGroup(after, groupId).value.value)
    ensures LoadGroup(e, after, groupId).value.epoch == epoch
  {
    hide Requested, Advances, ChangeOf;
    LoadedAfter(e, s, after, groupId);
  }

  lemma RemoveAnswered(e: Engine, m: Meaning, request: Bytes, s: Storage, groupId: Bytes, identity: Bytes,
                       random: Random, fields: seq<Bytes>)
    requires FollowsRfc(e, m) && Asks(e, request, REMOVE_MEMBER, [groupId, identity], s)
    requires Answered(e, request, random, fields)
    ensures |fields| == 3 && EpochTold(e, groupId, fields)
    ensures var after := Import(fields[0]).value;
            Committed(e, m, s, groupId, Removing(identity), after, fields[1], LoadGroup(e, after, groupId).value.epoch)
  {
    hide FollowsRfc, Operate, Asks, RemoveMember, LoadGroup, Import, U64, Committed, EpochTold, Answered;
    StateReturned(e, request, REMOVE_MEMBER, [groupId, identity], s, random, fields);
    RemoveArm(e, s, groupId, identity, random);
    RemoveAdvances(e, m, s, groupId, identity, random);
    var o := RemoveMember(e, s, groupId, identity, random);
    CommittedLoads(e, m, s, groupId, Removing(identity), o.storage, o.result.value.commit, o.result.value.epoch);
    EpochTelling(e, groupId, fields, o.storage, o.result.value.epoch);
  }

  lemma ProcessAnswered(e: Engine, m: Meaning, request: Bytes, s: Storage, groupId: Bytes, commit: Bytes,
                        random: Random, fields: seq<Bytes>)
    requires FollowsRfc(e, m) && Asks(e, request, PROCESS_COMMIT, [groupId, commit], s)
    requires Answered(e, request, random, fields)
    ensures |fields| == 2 && EpochTold(e, groupId, fields)
    ensures LoadGroup(e, s, groupId).Ok? && ChangeOf(m, commit).Some?
    ensures var after := Import(fields[0]).value;
            Advances(e, after, LoadGroup(e, s, groupId).value, ChangeOf(m, commit).value,
                     LoadGroup(e, after, groupId).value)
  {
    hide FollowsRfc, Operate, Asks, ProcessCommit, LoadGroup, Import, U64, ChangeOf, EpochTold, Answered, Advances;
    StateReturned(e, request, PROCESS_COMMIT, [groupId, commit], s, random, fields);
    ProcessArm(e, s, groupId, commit, random);
    ProcessAdvances(e, m, s, groupId, commit);
    var o := ProcessCommit(e, s, groupId, commit);
    LoadedAfter(e, s, o.storage, groupId);
    EpochTelling(e, groupId, fields, o.storage, o.result.value.epoch);
  }

  /** A join is answered with a state that holds the group of the welcome, and its epoch. */
  lemma JoinAnswered(e: Engine, m: Meaning, request: Bytes, s: Storage, welcome: Bytes, random: Random,
                     fields: seq<Bytes>)
    requires FollowsRfc(e, m) && Asks(e, request, JOIN_GROUP, [welcome], s)
    requires Answered(e, request, random, fields)
    ensures |fields| == 2 && Import(fields[0]).Ok? && RosterOf(m, welcome).Some?
    ensures var r := RosterOf(m, welcome).value;
            var loaded := e.loadGroup(Import(fields[0]).value, r.group);
            && loaded.Ok? && loaded.value.Some?
            && multiset(loaded.value.value.members) == r.members && loaded.value.value.epoch == r.epoch
            && Says(fields[1], loaded.value.value.epoch)
  {
    hide FollowsRfc, Operate, Asks, JoinGroup, Import, U64, RosterOf, Says;
    StateReturned(e, request, JOIN_GROUP, [welcome], s, random, fields);
    JoinArm(e, s, welcome, random);
    JoinLands(e, m, s, welcome);
    EpochSaid(JoinGroup(e, s, welcome).result.value.epoch);
  }

  /** A creation is answered with a state in which the creator is alone in the group, at epoch 0. */
  lemma CreateAnswered(e: Engine, m: Meaning, request: Bytes, s: Storage, groupId: Bytes, random: Random,
                       fields: seq<Bytes>)
    requires FollowsRfc(e, m) && Asks(e, request, CREATE_GROUP, [groupId], s)
    requires Answered(e, request, random, fields)
    ensures |fields| == 1 && Import(fields[0]).Ok? && IDENTITY_KEY in s
    ensures e.loadGroup(s, groupId) == Ok(None)
    ensures var loaded := LoadGroup(e, Import(fields[0]).value, groupId);
            && loaded.Ok? && loaded.value.epoch == 0
            && multiset(loaded.value.members) == multiset{Named(s[IDENTITY_KEY])}
  {
    hide FollowsRfc, Operate, Asks, CreateGroup, Import, LoadGroup;
    StateReturned(e, request, CREATE_GROUP, [groupId], s, random, fields);
    CreateArm(e, s, groupId, random);
    CreateStarts(e, m, s, groupId, random);
    CreatedAnew(e, s, groupId, random);
  }

  // ---- Merged before it is sent ----

  /** A commit that cannot be put into an envelope is merged all the same: the session is left in the next epoch. */
  lemma MergedThoughUnsent(e: Engine, s: Storage, groupId: Bytes, keyPackage: Bytes, identity: Bytes, random: Random)
    requires IdentityAndSigner(e, s).Ok? && LoadGroup(e, s, groupId).Ok?
    ensures
      var k, g := IdentityAndSigner(e, s).value.signer, LoadGroup(e, s, groupId).value;
      && (e.decodeKeyPackage(keyPackage).Ok? && e.validateKeyPackage(e.decodeKeyPackage(keyPackage).value).Ok? ==>
         var p := e.validateKeyPackage(e.decodeKeyPackage(keyPackage).value).value;
         LeftMerged(e, e.addMembers(s, g, k, p, random), AddMember(e, s, groupId, keyPackage, random)))
      && (e.leafIndex(g, identity).Some? && identity != [] ==>
         var leaf := e.leafIndex(g, identity).value;
         LeftMerged(e, e.removeMembers(s, g, k, leaf, random), RemoveMember(e, s, groupId, identity, random)))
  {
    hide IdentityAndSigner, LoadGroup, Export, EncodeMessage;
  }

  /** Where the library merges its commit, the storage left is that of the merge, whatever comes of the rest. */
  ghost predicate LeftMerged<T>(e: Engine, made: Effect<Proposed>, o: Outcome<T>) {
    if made.result.Err? then
      o.storage == made.storage && o.result.Err?
    else
      o.storage == e.mergePending(made.storage, made.result.value.group).storage
  }

  // ---- A group that is there already ----

  /** Creation succeeds only where no group of that id is stored. */
  lemma CreatedAnew(e: Engine, s: Storage, groupId: Bytes, random: Random)
    requires CreateGroup(e, s, groupId, random).result.Ok?
    ensures 0 < |groupId| <= 1024 && e.loadGroup(s, groupId) == Ok(None)
  {
    hide IdentityAndSigner, Export;
  }

  /**
   For every engine: where a group of that id is stored, CREATE_GROUP answers that it exists, and the storage is
   as it was, on the live session and in the operation itself.
   */
  lemma ExistingGroupRefused(e: Engine, request: Bytes, s: Storage, groupId: Bytes, random: Random)
    requires e.loadGroup(s, groupId).Ok? && e.loadGroup(s, groupId).value.Some? && 0 < |groupId| <= 1024
    ensures CreateGroup(e, s, groupId, random) == Outcome(s, Err(GroupAlreadyExists))
    ensures Asks(e, request, CREATE_GROUP, [groupId], s) ==>
              Execute(e, request, random) == Err(Session(GroupAlreadyExists))
    ensures Live(e, s, Command(CREATE_GROUP, [groupId], random)).0.Err?
    ensures Live(e, s, Command(CREATE_GROUP, [groupId], random)).1 == s
  {
    CreateArm(e, s, groupId, random);
    if Asks(e, request, CREATE_GROUP, [groupId], s) {
      Executed(e, request, CREATE_GROUP, [groupId], s, random);
    }
    hide Operate, Asks, Execute, LiveRefusal, Export, IdentityAndSigner;
  }

  // ---- The member list ----

  /** The list is that of the members' identities, every one of a basic credential, in the order of their bytes. */
  ghost predicate Listed(members: seq<Member>, list: seq<Bytes>) {
    && (forall x | x in members :: x.basic)
    && multiset(list) == multiset(Contents(members))
    && forall i, j | 0 <= i < j < |list| :: list[i] == list[j] || Smaller(list[i], list[j])
  }

  lemma ListedInOrder(members: seq<Member>)
    requires Identities(members).Ok?
    ensures Listed(members, Sort(Identities(members).value, BytesLe))
  {
    var names := Identities(members).value;
    var list := Sort(names, BytesLe);
    assert names == Contents(members);
    BytesLeTotal();
    SortSorts(names, BytesLe);
    hide Sort, Identities, Smaller, LexLe;
    forall i, j | 0 <= i < j < |list|
      ensures list[i] == list[j] || Smaller(list[i], list[j])
    {
      LexExactly(list[i], list[j]);
    }
  }

  /** LIST_MEMBERS answers with the encoded list of the group's members, and with nothing else. */
  lemma ListAnswered(e: Engine, request: Bytes, s: Storage, groupId: Bytes, random: Random, fields: seq<Bytes>)
    returns (list: seq<Bytes>)
    requires Asks(e, request, LIST_MEMBERS, [groupId], s) && Answered(e, request, random, fields)
    ensures LoadGroup(e, s, groupId).Ok? && fields == [EncodeMembers(list)]
    ensures Listed(LoadGroup(e, s, groupId).value.members, list)
  {
    hide Operate, Asks, LoadGroup, EncodeMembers, Listed, Sort;
    Executed(e, request, LIST_MEMBERS, [groupId], s, random);
    ListArm(e, s, groupId, random);
    ListedInOrder(LoadGroup(e, s, groupId).value.members);
    list := ListMembers(e, s, groupId).value;
  }

  /** It is refused for a member whose credential is not basic, and otherwise only for want of the group. */
  lemma ListRefused(e: Engine, s: Storage, groupId: Bytes)
    requires LoadGroup(e, s, groupId).Ok?
    ensures ListMembers(e, s, groupId).Err? <==> exists x | x in LoadGroup(e, s, groupId).value.members :: !x.basic
  {
    hide LoadGroup, Sort;
  }

  // ---- Messages ----

  /** ENCRYPT answers with an envelope that says the plaintext at the group's epoch, and with that epoch. */
  lemma EncryptAnswered(e: Engine, m: Meaning, request: Bytes, s: Storage, groupId: Bytes, plaintext: Bytes,
                        random: Random, fields: seq<Bytes>)
    requires FollowsRfc(e, m) && Conveys(e, m) && Asks(e, request, ENCRYPT, [groupId, plaintext], s)
    requires Answered(e, request, random, fields)
    ensures |fields| == 3 && Import(fields[0]).Ok? && LoadGroup(e, s, groupId).Ok?
    ensures RequireEnvelope(fields[1], EnvelopeKind.Application).Ok?
    ensures var epoch := LoadGroup(e, s, groupId).value.epoch;
            && Says(fields[2], epoch)
            && m.application(Decode(fields[1]).value.payload) == Some(Said(epoch, plaintext))
  {
    hide FollowsRfc, Conveys, Operate, Asks, Answered, Encrypt, LoadGroup, Import, U64, Says, Decode, RequireEnvelope;
    StateReturned(e, request, ENCRYPT, [groupId, plaintext], s, random, fields);
    EncryptArm(e, s, groupId, plaintext, random);
    EncryptSays(e, m, s, groupId, plaintext, random);
    EpochSaid(Encrypt(e, s, groupId, plaintext, random).result.value.epoch);
  }

  lemma EncryptSays(e: Engine, m: Meaning, s: Storage, groupId: Bytes, plaintext: Bytes, random: Random)
    requires FollowsRfc(e, m) && Conveys(e, m) && Encrypt(e, s, groupId, plaintext, random).result.Ok?
    ensures LoadGroup(e, s, groupId).Ok?
    ensures var o := Encrypt(e, s, groupId, plaintext, random).result.value;
            var epoch := LoadGroup(e, s, groupId).value.epoch;
            && o.epoch == epoch && RequireEnvelope(o.ciphertext, EnvelopeKind.Application).Ok?
            && m.application(Decode(o.ciphertext).value.payload) == Some(Said(epoch, plaintext))
  {
    hide FollowsRfc, Conveys, LoadGroup, IdentityAndSigner, Export, EncodeMessage, Decode, RequireEnvelope, Loaded;
    EncryptedMessageOpens(e, s, groupId, plaintext, random);
    LoadGroupMeaning(e, m, s, groupId);
    var g, k := LoadGroup(e, s, groupId).value, IdentityAndSigner(e, s).value.signer;
    CredentialGenuine(e, s);
    TellLaw(e, m, s, g, k, plaintext, random);
    var message := e.createMessage(s, g, k, plaintext, random).result.value;
    EncodedMessage(e, EnvelopeKind.Application, message);
  }

  lemma TellLaw(e: Engine, m: Meaning, s: Storage, g: Group, k: Signer, t: Bytes, r: Random)
    requires Conveys(e, m) && Loaded(e, s, g) && Held(e, s, k)
    ensures Tells(e, m, g, t, e.createMessage(s, g, k, t, r))
  {
  }

  lemma ReadLaw(e: Engine, m: Meaning, s: Storage, g: Group, payload: Bytes, decoded: Bytes)
    requires Conveys(e, m) && Loaded(e, s, g)
    requires e.decodeMessage(payload) == Ok(decoded) && e.protocolMessage(decoded).Ok?
    ensures Reads(e, m, s, g, payload, e.protocolMessage(decoded).value)
  {
  }

  lemma DecryptReads(e: Engine, m: Meaning, s: Storage, groupId: Bytes, application: Bytes)
    requires FollowsRfc(e, m) && Conveys(e, m) && Decrypt(e, s, groupId, application).result.Ok?
    ensures Decode(application).Ok?
    ensures var o := Decrypt(e, s, groupId, application).result.value;
            m.application(Decode(application).value.payload) == Some(Said(o.epoch, o.plaintext))
  {
    hide FollowsRfc, Conveys, LoadGroup, Export, Decode;
    LoadGroupMeaning(e, m, s, groupId);
    var payload := Decode(application).value.payload;
    var decoded := e.decodeMessage(payload).value;
    ReadLaw(e, m, s, LoadGroup(e, s, groupId).value, payload, decoded);
  }

  /** DECRYPT answers with what the message says, and with the epoch it says it at. */
  lemma DecryptAnswered(e: Engine, m: Meaning, request: Bytes, s: Storage, groupId: Bytes, application: Bytes,
                        random: Random, fields: seq<Bytes>)
    requires FollowsRfc(e, m) && Conveys(e, m) && Asks(e, request, DECRYPT, [groupId, application], s)
    requires Answered(e, request, random, fields)
    ensures |fields| == 3 && Import(fields[0]).Ok? && Decode(application).Ok?
    ensures var said := m.application(Decode(application).value.payload);
            said.Some? && fields[1] == said.value.plaintext && Says(fields[2], said.value.epoch)
  {
    hide FollowsRfc, Conveys, Operate, Asks, Answered, Decrypt, LoadGroup, Import, Export, U64, Says, Decode;
    StateReturned(e, request, DECRYPT, [groupId, application], s, random, fields);
    DecryptArm(e, s, groupId, application, random);
    DecryptReads(e, m, s, groupId, application);
    EpochSaid(Decrypt(e, s, groupId, application).result.value.epoch);
  }

  lemma DecryptsOwnEpoch(e: Engine, s: Storage, groupId: Bytes, application: Bytes)
    requires Decrypt(e, s, groupId, application).result.Ok?
    ensures Decode(application).Ok?
    ensures var decoded := e.decodeMessage(Decode(application).value.payload);
            && decoded.Ok? && e.protocolMessage(decoded.value).Ok?
            && Decrypt(e, s, groupId, application).result.value.epoch ==
               e.messageEpoch(e.protocolMessage(decoded.value).value)
  {
    hide LoadGroup, Export, Decode;
  }

  /** Without any law, the epoch that DECRYPT answers with is the message's own. */
  lemma DecryptEpoch(e: Engine, request: Bytes, s: Storage, groupId: Bytes, application: Bytes, random: Random,
                     fields: seq<Bytes>)
    requires Asks(e, request, DECRYPT, [groupId, application], s) && Answered(e, request, random, fields)
    ensures |fields| == 3 && Decode(application).Ok?
    ensures var decoded := e.decodeMessage(Decode(application).value.payload);
            && decoded.Ok? && e.protocolMessage(decoded.value).Ok?
            && Says(fields[2], e.messageEpoch(e.protocolMessage(decoded.value).value))
  {
    hide Operate, Asks, Answered, Decrypt, LoadGroup, Import, Export, U64, Says, Decode;
    StateReturned(e, request, DECRYPT, [groupId, application], s, random, fields);
    DecryptArm(e, s, groupId, application, random);
    DecryptsOwnEpoch(e, s, groupId, application);
    EpochSaid(Decrypt(e, s, groupId, application).result.value.epoch);
  }

  /**
   What one device encrypts is what any device reads: whichever session decrypts the envelope of an ENCRYPT answer
   answers with the very plaintext, and with the same epoch bytes.
   */
  lemma MessageArrives(e: Engine, m: Meaning, request: Bytes, s: Storage, groupId: Bytes, plaintext: Bytes,
                       random: Random, sent: seq<Bytes>, other: Bytes, t: Storage, otherId: Bytes, again: Random,
                       read: seq<Bytes>)
    requires FollowsRfc(e, m) && Conveys(e, m)
    requires Asks(e, request, ENCRYPT, [groupId, plaintext], s) && Answered(e, request, random, sent) && |sent| == 3
    requires Asks(e, other, DECRYPT, [otherId, sent[1]], t) && Answered(e, other, again, read)
    ensures |read| == 3 && read[1] == plaintext && read[2] == sent[2]
  {
    hide FollowsRfc, Conveys, Asks, Answered, LoadGroup, Import, Decode;
    EncryptAnswered(e, m, request, s, groupId, plaintext, random, sent);
    DecryptAnswered(e, m, other, t, otherId, sent[1], again, read);
    SameBytes(sent[2], read[2], LoadGroup(e, s, groupId).value.epoch);
  }

  /** Eight bytes are known by what they say. */
  lemma SameBytes(a: Bytes, b: Bytes, epoch: nat)
    requires Says(a, epoch) && Says(b, epoch)
    ensures a == b
  {
    var x, y := ReadU32(a[..4]), ReadU32(b[..4]);
    var z, w := ReadU32(a[4..]), ReadU32(b[4..]);
    assert BigEndian64(a) == x * U32_RANGE + z && BigEndian64(b) == y * U32_RANGE + w;
    assert x == y && z == w;
    ReadU32RoundTrip(a[..4]);
    ReadU32RoundTrip(b[..4]);
    ReadU32RoundTrip(a[4..]);
    ReadU32RoundTrip(b[4..]);
    assert a == a[..4] + a[4..] && b == b[..4] + b[4..];
  }

  // ---- Signatures, key packages and the public material ----

  /** The signature answered is accepted for the payload given, under the key that PUBLIC_MATERIAL reports. */
  lemma ApprovalAccepted(e: Engine, accepted: Verifier, request: Bytes, s: Storage, payload: Bytes, random: Random,
                         fields: seq<Bytes>)
    requires SignsFor(e, accepted) && Asks(e, request, SIGN_DEVICE_APPROVAL, [payload], s)
    requires Answered(e, request, random, fields)
    ensures |fields| == 1 && SIGNATURE_PUBLIC_KEY in s && accepted(s[SIGNATURE_PUBLIC_KEY], payload, fields[0])
  {
    hide Operate, Asks;
    Executed(e, request, SIGN_DEVICE_APPROVAL, [payload], s, random);
    SignArm(e, s, payload, random);
  }

  /** Five fields: root key, its digest, credential, its digest, and the key that approvals are signed with. */
  ghost predicate MaterialOf(e: Engine, s: Storage, fields: seq<Bytes>) {
    && {IDENTITY_KEY, SIGNATURE_PUBLIC_KEY, ROOT_PUBLIC_KEY} <= s.Keys
    && var credential := s[IDENTITY_KEY] + [0] + s[SIGNATURE_PUBLIC_KEY];
       fields == [s[ROOT_PUBLIC_KEY], e.sha256(s[ROOT_PUBLIC_KEY]), credential, e.sha256(credential),
                  s[SIGNATURE_PUBLIC_KEY]]
  }

  lemma MaterialAnswered(e: Engine, request: Bytes, s: Storage, random: Random, fields: seq<Bytes>)
    requires Asks(e, request, PUBLIC_MATERIAL, [], s) && Answered(e, request, random, fields)
    ensures |fields| == 6 && Import(fields[0]) == Ok(s) && MaterialOf(e, s, fields[1..])
  {
    hide Operate, Asks, Import, Export;
    StateReturned(e, request, PUBLIC_MATERIAL, [], s, random, fields);
    AnswerCarriesState(e, s, PUBLIC_MATERIAL, [], random);
    MaterialArm(e, s, random);
  }

  /** Credentials with keys of one length are of one identity and one key. */
  lemma CredentialKnown(identity: Bytes, key: Bytes, other: Bytes, otherKey: Bytes)
    requires |key| == |otherKey| && identity + [0] + key == other + [0] + otherKey
    ensures identity == other && key == otherKey
  {
    ConcatCancel(identity + [0], other + [0], key, otherKey);
    ConcatCancel(identity, other, [0], [0]);
  }

  lemma IntroduceLaw(e: Engine, m: Meaning, s: Storage, c: Credential, r: Random)
    requires Conveys(e, m) && Genuine(e, s, c)
    ensures Introduces(e, m, c, e.buildKeyPackage(s, c, r))
  {
  }

  lemma GeneratedNames(e: Engine, m: Meaning, s: Storage, random: Random)
    requires Conveys(e, m) && GenerateKeyPackage(e, s, random).result.Ok?
    ensures IDENTITY_KEY in s
    ensures m.keyPackage(GenerateKeyPackage(e, s, random).result.value) == Some(Named(s[IDENTITY_KEY]))
  {
    hide Conveys;
    CredentialGenuine(e, s);
    IntroduceLaw(e, m, s, IdentityAndSigner(e, s).value, random);
  }

  /** A key package answered is for the session's own identity. */
  lemma KeyPackageAnswered(e: Engine, m: Meaning, request: Bytes, s: Storage, random: Random, fields: seq<Bytes>)
    requires Conveys(e, m) && Asks(e, request, GENERATE_KEY_PACKAGE, [], s) && Answered(e, request, random, fields)
    ensures |fields| == 2 && Import(fields[0]).Ok? && IDENTITY_KEY in s
    ensures m.keyPackage(fields[1]) == Some(Named(s[IDENTITY_KEY]))
  {
    hide Conveys, Operate, Asks, Import, Export, GenerateKeyPackage;
    StateReturned(e, request, GENERATE_KEY_PACKAGE, [], s, random, fields);
    GenerateArm(e, s, random);
    GeneratedNames(e, m, s, random);
  }

  /**
   INITIALIZE answers with a state that holds the identity, a key package for it and its public material, under the
   root key given or else the new signer's.
   */
  lemma InitializeAnswered(e: Engine, m: Meaning, request: Bytes, args: seq<Bytes>, random: Random, fields: seq<Bytes>)
    requires Lawful(e) && Conveys(e, m)
    requires DecodeRequest(request) == Ok((INITIALIZE, args)) && Answered(e, request, random, fields)
    ensures 1 <= |args| <= 2 && 0 < |args[0]| <= 0xFFFF && |fields| == 7 && Import(fields[0]).Ok?
    ensures var s := Import(fields[0]).value;
            && ImportSession(e, fields[0]) == Ok(s) && MaterialOf(e, s, fields[2..])
            && s[IDENTITY_KEY] == args[0] && m.keyPackage(fields[1]) == Some(Named(args[0]))
            && |fields[2]| == 32 && fields[2] == (if |args| == 2 then args[1] else fields[6])
  {
    hide Lawful, Conveys, DecodeRequest, Import, Initialize, ImportSession, Export, Ready, Material;
    var root := if |args| == 2 then Some(args[1]) else None;
    var o := Initialize(e, args[0], root, random);
    InitializedReady(e, args[0], root, random);
    InitializedNames(e, m, args[0], root, random);
    InitializedRoot(e, args[0], root, random);
    RoundTrip(o.storage);
    MaterialLaid(e, o.storage);
    ReadyImports(e, o.result.value.state, o.storage);
    assert fields[2..] == MaterialFields(o.result.value.publicMaterial);
  }

  lemma MaterialLaid(e: Engine, s: Storage)
    requires Material(e, s).Ok?
    ensures MaterialOf(e, s, MaterialFields(Material(e, s).value))
  {
  }

  lemma ReadyImports(e: Engine, state: Bytes, s: Storage)
    requires Import(state) == Ok(s) && Ready(e, s)
    ensures ImportSession(e, state) == Ok(s)
  {
    hide Import;
  }

  lemma InitializedNames(e: Engine, m: Meaning, identity: Bytes, root: Option<Bytes>, random: Random)
    requires Conveys(e, m) && Initialize(e, identity, root, random).result.Ok?
    ensures 0 < |identity| <= 0xFFFF
    ensures var o := Initialize(e, identity, root, random);
            m.keyPackage(o.result.value.keyPackage) == Some(Named(identity))
  {
    hide Conveys, Export, GenerateKeyPackage, IdentityAndSigner;
    var signer := e.newSigner(random).value;
    var rootPublicKey := if root.Some? then root.value else signer.publicKey;
    var stored := e.storeSigner(map[], signer).storage;
    var s :=
        stored[IDENTITY_KEY := identity][SIGNATURE_PUBLIC_KEY := signer.publicKey][ROOT_PUBLIC_KEY := rootPublicKey];
    SessionKeysDiffer();
    assert s[IDENTITY_KEY] == identity;
    GeneratedNames(e, m, s, random);
  }

  lemma InitializedRoot(e: Engine, identity: Bytes, root: Option<Bytes>, random: Random)
    requires Lawful(e) && Initialize(e, identity, root, random).result.Ok?
    ensures |Initialize(e, identity, root, random).result.value.publicMaterial.rootPublicKey| == 32
  {
    hide Lawful, Export, GenerateKeyPackage, Keeps;
    var signer := e.newSigner(random).value;
    var rootPublicKey := if root.Some? then root.value else signer.publicKey;
    var stored := e.storeSigner(map[], signer).storage;
    var s :=
        stored[IDENTITY_KEY := identity][SIGNATURE_PUBLIC_KEY := signer.publicKey][ROOT_PUBLIC_KEY := rootPublicKey];
    GenerateKeeps(e, s, random);
    RootKept(e, s, GenerateKeyPackage(e, s, random).storage);
  }

  lemma RootKept(e: Engine, before: Storage, after: Storage)
    requires Keeps(e, before, after) && ROOT_PUBLIC_KEY in before
    ensures ROOT_PUBLIC_KEY in after && after[ROOT_PUBLIC_KEY] == before[ROOT_PUBLIC_KEY]
  {
  }

  // ---- Inputs refused whatever the library does ----

  lemma EmptyInputsRefused(e: Engine, request: Bytes, s: Storage, groupId: Bytes, random: Random)
    ensures Asks(e, request, REMOVE_MEMBER, [groupId, []], s) ==>
              Execute(e, request, random) == Err(Session(InvalidIdentity))
    ensures Asks(e, request, ENCRYPT, [groupId, []], s) ==>
              Execute(e, request, random) == Err(Session(EmptyPlaintext))
    ensures Asks(e, request, SIGN_DEVICE_APPROVAL, [[]], s) ==>
              Execute(e, request, random) == Err(Session(EmptySignaturePayload))
  {
    RemoveArm(e, s, groupId, [], random);
    EncryptArm(e, s, groupId, [], random);
    SignArm(e, s, [], random);
    hide Operate, Asks, Execute;
    if Asks(e, request, REMOVE_MEMBER, [groupId, []], s) {
      Executed(e, request, REMOVE_MEMBER, [groupId, []], s, random);
    }
    if Asks(e, request, ENCRYPT, [groupId, []], s) {
      Executed(e, request, ENCRYPT, [groupId, []], s, random);
    }
    if Asks(e, request, SIGN_DEVICE_APPROVAL, [[]], s) {
      Executed(e, request, SIGN_DEVICE_APPROVAL, [[]], s, random);
    }
  }

  /** Removing an identity that no leaf has is refused as such, and the storage stays as it was. */
  lemma UnknownMemberRefused(e: Engine, request: Bytes, s: Storage, groupId: Bytes, identity: Bytes, random: Random)
    requires identity != [] && IdentityAndSigner(e, s).Ok? && LoadGroup(e, s, groupId).Ok?
    requires e.leafIndex(LoadGroup(e, s, groupId).value, identity).None?
    ensures RemoveMember(e, s, groupId, identity, random) == Outcome(s, Err(MemberNotFound))
    ensures Asks(e, request, REMOVE_MEMBER, [groupId, identity], s) ==>
              Execute(e, request, random) == Err(Session(MemberNotFound))
  {
    RemoveArm(e, s, groupId, identity, random);
    hide Operate, Asks, Execute, IdentityAndSigner, LoadGroup, Export, EncodeMessage;
    if Asks(e, request, REMOVE_MEMBER, [groupId, identity], s) {
      Executed(e, request, REMOVE_MEMBER, [groupId, identity], s, random);
    }
  }

  /** What the library makes of the payload of an envelope of this kind, where it makes something of it. */
  ghost predicate Carries(e: Engine, kind: EnvelopeKind, envelope: Bytes, message: Bytes) {
    && RequireEnvelope(envelope, kind).Ok?
    && var decoded := e.decodeMessage(RequireEnvelope(envelope, kind).value.payload);
       decoded.Ok? && e.protocolMessage(decoded.value) == Ok(message)
  }

  /**
   A welcome envelope without a welcome, a commit envelope without a commit and an application envelope without an
   application message are refused as unexpected; by then the last two have been processed.
   */
  lemma UnexpectedRefused(e: Engine, s: Storage, groupId: Bytes, envelope: Bytes, message: Bytes)
    requires LoadGroup(e, s, groupId).Ok?
    ensures RequireEnvelope(envelope, EnvelopeKind.Welcome).Ok? ==>
              var decoded := e.decodeMessage(RequireEnvelope(envelope, EnvelopeKind.Welcome).value.payload);
              decoded.Ok? && e.extractWelcome(decoded.value).None? ==>
                JoinGroup(e, s, envelope) == Outcome(s, Err(UnexpectedMessage))
    ensures var processed := e.processMessage(s, LoadGroup(e, s, groupId).value, message);
            processed.result.Ok? ==>
              && (Carries(e, EnvelopeKind.Commit, envelope, message) && !processed.result.value.1.StagedCommit? ==>
                    ProcessCommit(e, s, groupId, envelope) == Outcome(processed.storage, Err(UnexpectedMessage)))
              && (Carries(e, EnvelopeKind.Application, envelope, message) &&
                  !processed.result.value.1.ApplicationMessage? ==>
                    Decrypt(e, s, groupId, envelope) == Outcome(processed.storage, Err(UnexpectedMessage)))
  {
    hide LoadGroup, RequireEnvelope, Export;
  }

  /** A group id that names no stored group. */
  ghost predicate Absent(e: Engine, s: Storage, groupId: Bytes) {
    0 < |groupId| <= 1024 && e.loadGroup(s, groupId) == Ok(None)
  }

  /** Without the group, removals, messages and member lists are refused as such, and the storage stays as it was. */
  lemma AbsentGroupRefused(e: Engine, s: Storage, groupId: Bytes, x: Bytes, random: Random)
    requires Absent(e, s, groupId) && IdentityAndSigner(e, s).Ok? && x != []
    ensures RemoveMember(e, s, groupId, x, random) == Outcome(s, Err(GroupNotFound))
    ensures Encrypt(e, s, groupId, x, random) == Outcome(s, Err(GroupNotFound))
    ensures ListMembers(e, s, groupId) == Err(GroupNotFound)
  {
    hide Export, EncodeMessage, IdentityAndSigner;
  }

  /** A session without a stored identity and key pair can neither create, add, remove, send nor sign. */
  lemma UninitializedRefused(e: Engine, s: Storage, groupId: Bytes, x: Bytes, random: Random)
    requires IDENTITY_KEY !in s || SIGNATURE_PUBLIC_KEY !in s || e.readSigner(s, s[SIGNATURE_PUBLIC_KEY]).None?
    requires x != []
    ensures Absent(e, s, groupId) ==> CreateGroup(e, s, groupId, random) == Outcome(s, Err(NotInitialized))
    ensures AddMember(e, s, groupId, x, random) == Outcome(s, Err(NotInitialized))
    ensures RemoveMember(e, s, groupId, x, random) == Outcome(s, Err(NotInitialized))
    ensures Encrypt(e, s, groupId, x, random) == Outcome(s, Err(NotInitialized))
    ensures GenerateKeyPackage(e, s, random) == Outcome(s, Err(NotInitialized))
    ensures SignDeviceApproval(e, s, x) == Err(NotInitialized)
  {
    hide Export, EncodeMessage, LoadGroup;
  }

  /** An identity is refused exactly when it is empty or longer than 65535 bytes. */
  lemma IdentityRefused(e: Engine, request: Bytes, args: seq<Bytes>, random: Random)
    requires DecodeRequest(request) == Ok((INITIALIZE, args)) && 1 <= |args| <= 2
    ensures Execute(e, request, random) == Err(Session(InvalidIdentity)) <==> args[0] == [] || |args[0]| > 65535
  {
    hide DecodeRequest, Export, IdentityAndSigner, Material;
    var root := if |args| == 2 then Some(args[1]) else None;
    IdentityAlone(e, args[0], root, random);
    hide Initialize;
  }

  lemma IdentityAlone(e: Engine, identity: Bytes, root: Option<Bytes>, random: Random)
    ensures Initialize(e, identity, root, random).result == Err(InvalidIdentity) <==>
            identity == [] || |identity| > 65535
  {
    hide Export;
  }

  /** A root key given that is not 32 bytes long is refused, unless the library failed before. */
  lemma RootKeyRefused(e: Engine, request: Bytes, identity: Bytes, root: Bytes, random: Random)
    requires DecodeRequest(request) == Ok((INITIALIZE, [identity, root])) && 0 < |identity| <= 65535 && |root| != 32
    requires e.newSigner(random).Ok? && e.storeSigner(map[], e.newSigner(random).value).result.Ok?
    ensures Execute(e, request, random) == Err(Session(InvalidRootPublicKey))
  {
    hide DecodeRequest, Export, IdentityAndSigner, Material, GenerateKeyPackage;
  }

  /** A state opens a session exactly when it imports and holds an identity and a key pair for its public key. */
  lemma SessionOpensExactly(e: Engine, state: Bytes, s: Storage)
    ensures ImportSession(e, state) == Ok(s) <==>
            && Import(state) == Ok(s) && IDENTITY_KEY in s && SIGNATURE_PUBLIC_KEY in s
            && e.readSigner(s, s[SIGNATURE_PUBLIC_KEY]).Some?
  {
    hide Import;
  }

  /** The fields that each operation takes, its state among them. */
  function FieldsTaken(operation: Byte): set<nat> {
    match operation
    case 1 => {1, 2}
    case 2 => {1}
    case 3 => {2}
    case 4 => {3}
    case 5 => {2}
    case 6 => {3}
    case 7 => {3}
    case 8 => {1}
    case 9 => {3}
    case 10 => {3}
    case 11 => {2}
    case 12 => {2}
    case _ => {}
  }

  /** Any other number of fields is refused as such, and any other operation as unsupported. */
  lemma MiscountRefused(e: Engine, request: Bytes, operation: Byte, fields: seq<Bytes>, random: Random)
    requires DecodeRequest(request) == Ok((operation, fields))
    ensures Execute(e, request, random) == Err(UnsupportedCommand) <==> FieldsTaken(operation) == {}
    ensures Execute(e, request, random) == Err(InvalidFieldCount) <==>
            FieldsTaken(operation) != {} && |fields| !in FieldsTaken(operation)
  {
    hide DecodeRequest, Operate, InitializeFields, ImportSession;
  }

  /** An empty group id, or one of more than 1024 bytes, is refused by every command that names a group. */
  lemma GroupIdRefused(e: Engine, request: Bytes, operation: Byte, args: seq<Bytes>, s: Storage, random: Random)
    requires operation in {CREATE_GROUP, ADD_MEMBER, ENCRYPT, DECRYPT, PROCESS_COMMIT, REMOVE_MEMBER, LIST_MEMBERS}
    requires |args| == Arity(operation) && (args[0] == [] || |args[0]| > 1024)
    requires Asks(e, request, operation, args, s)
    ensures Execute(e, request, random).Err?
  {
    Executed(e, request, operation, args, s, random);
    var id := args[0];
    hide Asks, Execute, Operate, CreateGroup, AddMember, Encrypt, Decrypt, ProcessCommit, RemoveMember, ListMembers;
    if |args| == 1 {
      assert args == [id];
      NotCreatedOrListed(e, s, id, random);
      if operation == CREATE_GROUP {
        CreateArm(e, s, id, random);
      } else {
        ListArm(e, s, id, random);
      }
    } else {
      var x := args[1];
      assert args == [id, x];
      match operation {
        case 4 =>
          AddArm(e, s, id, x, random);
          AddNeedsGroup(e, s, id, x, random);
        case 6 =>
          EncryptArm(e, s, id, x, random);
          EncryptNeedsGroup(e, s, id, x, random);
        case 7 =>
          DecryptArm(e, s, id, x, random);
          DecryptNeedsGroup(e, s, id, x);
        case 9 =>
          ProcessArm(e, s, id, x, random);
          ProcessNeedsGroup(e, s, id, x);
        case _ =>
          RemoveArm(e, s, id, x, random);
          RemoveNeedsGroup(e, s, id, x, random);
      }
    }
  }

  lemma NotCreatedOrListed(e: Engine, s: Storage, groupId: Bytes, random: Random)
    requires groupId == [] || |groupId| > 1024
    ensures CreateGroup(e, s, groupId, random).result.Err? && ListMembers(e, s, groupId).Err?
  {
    hide Export, IdentityAndSigner;
  }

  lemma AddNeedsGroup(e: Engine, s: Storage, groupId: Bytes, keyPackage: Bytes, random: Random)
    ensures AddMember(e, s, groupId, keyPackage, random).result.Ok? ==> LoadGroup(e, s, groupId).Ok?
  {
    hide Export, IdentityAndSigner, EncodeMessage, LoadGroup, Lib;
  }

  lemma RemoveNeedsGroup(e: Engine, s: Storage, groupId: Bytes, identity: Bytes, random: Random)
    ensures RemoveMember(e, s, groupId, identity, random).result.Ok? ==> LoadGroup(e, s, groupId).Ok?
  {
    hide Export, IdentityAndSigner, EncodeMessage, LoadGroup, Lib;
  }

  lemma EncryptNeedsGroup(e: Engine, s: Storage, groupId: Bytes, plaintext: Bytes, random: Random)
    ensures Encrypt(e, s, groupId, plaintext, random).result.Ok? ==> LoadGroup(e, s, groupId).Ok?
  {
    hide Export, IdentityAndSigner, EncodeMessage, LoadGroup, Lib;
  }

  lemma DecryptNeedsGroup(e: Engine, s: Storage, groupId: Bytes, application: Bytes)
    ensures Decrypt(e, s, groupId, application).result.Ok? ==> LoadGroup(e, s, groupId).Ok?
  {
    hide Export, RequireEnvelope, LoadGroup, Lib;
  }

  lemma ProcessNeedsGroup(e: Engine, s: Storage, groupId: Bytes, commit: Bytes)
    ensures ProcessCommit(e, s, groupId, commit).result.Ok? ==> LoadGroup(e, s, groupId).Ok?
  {
    hide Export, RequireEnvelope, LoadGroup, Lib;
  }
}
