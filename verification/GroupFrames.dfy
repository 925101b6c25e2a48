/** What a device does aside from one group, and that it leaves that group as it was. */
module GroupFrames {
  import opened Wrappers
  import opened ByteStrings
  import opened StateCodec
  import opened Engines
  import opened Envelopes
  import opened Sessions
  import opened Commands
  import opened Refinement
  import opened GroupLaws
  import opened Convergence

  /** A command on an existing state that names another group, none, or a welcome to none or another. */
  predicate Aside(m: Meaning, groupId: Bytes, c: Command) {
    && TakesState(c.operation)
    && (|c.args| == Arity(c.operation) ==>
          match c.operation
          case 5 => !(RosterOf(m, c.args[0]).Some? && RosterOf(m, c.args[0]).value.group == groupId)
          case 3 | 4 | 6 | 7 | 9 | 10 => c.args[0] != groupId
          case _ => true)
  }

  ghost predicate SameGroup(e: Engine, s: Storage, after: Storage, id: Bytes) {
    e.loadGroup(after, id) == e.loadGroup(s, id)
  }

  lemma GenerateAside(e: Engine, m: Meaning, s: Storage, id: Bytes, random: Random)
    requires FollowsRfc(e, m)
    ensures SameGroup(e, s, GenerateKeyPackage(e, s, random).storage, id)
  {
    hide Commits, Traffic, IdentityAndSigner;
  }

  lemma CreateAside(e: Engine, m: Meaning, s: Storage, id: Bytes, groupId: Bytes, random: Random)
    requires FollowsRfc(e, m) && groupId != id
    ensures SameGroup(e, s, CreateGroup(e, s, groupId, random).storage, id)
  {
    hide Commits, Traffic, IdentityAndSigner, Export;
  }

  lemma AddAside(e: Engine, m: Meaning, s: Storage, id: Bytes, groupId: Bytes, keyPackage: Bytes, random: Random)
    requires FollowsRfc(e, m) && groupId != id && AddMember(e, s, groupId, keyPackage, random).result.Ok?
    ensures SameGroup(e, s, AddMember(e, s, groupId, keyPackage, random).storage, id)
  {
    hide FollowsRfc, LoadGroup, IdentityAndSigner, Export, EncodeMessage;
    LoadGroupMeaning(e, m, s, groupId);
    var g, k := LoadGroup(e, s, groupId).value, IdentityAndSigner(e, s).value.signer;
    var package := e.validateKeyPackage(e.decodeKeyPackage(keyPackage).value).value;
    var adding := e.addMembers(s, g, k, package, random);
    AddFrame(e, m, s, g, k, package, random);
    MergeFrame(e, m, adding.storage, adding.result.value.group);
  }

  lemma AddFrame(e: Engine, m: Meaning, s: Storage, g: Group, k: Signer, p: Bytes, r: Random)
    requires FollowsRfc(e, m)
    ensures FramesOwn(e, s, g, e.addMembers(s, g, k, p, r))
  {
    hide Commits, Traffic;
  }

  lemma RemoveFrame(e: Engine, m: Meaning, s: Storage, g: Group, k: Signer, i: nat, r: Random)
    requires FollowsRfc(e, m)
    ensures FramesOwn(e, s, g, e.removeMembers(s, g, k, i, r))
  {
    hide Commits, Traffic;
  }

  lemma MergeFrame(e: Engine, m: Meaning, s: Storage, g: Group)
    requires FollowsRfc(e, m)
    ensures SameElsewhere(e, s, e.mergePending(s, g).storage, g.id)
  {
    hide Commits, Traffic;
  }

  lemma ProcessFrame(e: Engine, m: Meaning, s: Storage, g: Group, message: Bytes)
    requires FollowsRfc(e, m)
    ensures FramesProcessed(e, s, g, e.processMessage(s, g, message))
    ensures forall t, h, c :: SameElsewhere(e, t, e.mergeStaged(t, h, c).storage, h.id)
  {
    hide Commits, Traffic;
  }

  lemma CreateMessageFrame(e: Engine, m: Meaning, s: Storage, g: Group, k: Signer, p: Bytes, r: Random)
    requires FollowsRfc(e, m)
    ensures SameElsewhere(e, s, e.createMessage(s, g, k, p, r).storage, g.id)
  {
    hide Commits, Traffic;
  }

  lemma JoinFrame(e: Engine, m: Meaning, s: Storage, w: Bytes, x: Bytes)
    requires FollowsRfc(e, m)
    ensures SameGroups(e, s, e.stageWelcome(s, w).storage)
    ensures FramesJoined(e, s, e.welcomeIntoGroup(s, x))
  {
    hide Commits, Traffic;
  }

  lemma RemoveAside(e: Engine, m: Meaning, s: Storage, id: Bytes, groupId: Bytes, identity: Bytes, random: Random)
    requires FollowsRfc(e, m) && groupId != id && RemoveMember(e, s, groupId, identity, random).result.Ok?
    ensures SameGroup(e, s, RemoveMember(e, s, groupId, identity, random).storage, id)
  {
    hide FollowsRfc, LoadGroup, IdentityAndSigner, Export, EncodeMessage;
    LoadGroupMeaning(e, m, s, groupId);
    var g, k := LoadGroup(e, s, groupId).value, IdentityAndSigner(e, s).value.signer;
    var removing := e.removeMembers(s, g, k, e.leafIndex(g, identity).value, random);
    RemoveFrame(e, m, s, g, k, e.leafIndex(g, identity).value, random);
    MergeFrame(e, m, removing.storage, removing.result.value.group);
  }

  lemma ProcessAside(e: Engine, m: Meaning, s: Storage, id: Bytes, groupId: Bytes, commit: Bytes)
    requires FollowsRfc(e, m) && groupId != id && ProcessCommit(e, s, groupId, commit).result.Ok?
    ensures SameGroup(e, s, ProcessCommit(e, s, groupId, commit).storage, id)
  {
    hide FollowsRfc, LoadGroup, Decode, Export;
    LoadGroupMeaning(e, m, s, groupId);
    var g := LoadGroup(e, s, groupId).value;
    var message := e.protocolMessage(e.decodeMessage(Decode(commit).value.payload).value).value;
    ProcessFrame(e, m, s, g, message);
  }

  lemma EncryptAside(e: Engine, m: Meaning, s: Storage, id: Bytes, groupId: Bytes, plaintext: Bytes, random: Random)
    requires FollowsRfc(e, m) && groupId != id && Encrypt(e, s, groupId, plaintext, random).result.Ok?
    ensures SameGroup(e, s, Encrypt(e, s, groupId, plaintext, random).storage, id)
  {
    hide FollowsRfc, LoadGroup, IdentityAndSigner, Export, EncodeMessage;
    LoadGroupMeaning(e, m, s, groupId);
    var g, k := LoadGroup(e, s, groupId).value, IdentityAndSigner(e, s).value.signer;
    CreateMessageFrame(e, m, s, g, k, plaintext, random);
  }

  lemma DecryptAside(e: Engine, m: Meaning, s: Storage, id: Bytes, groupId: Bytes, application: Bytes)
    requires FollowsRfc(e, m) && groupId != id && Decrypt(e, s, groupId, application).result.Ok?
    ensures SameGroup(e, s, Decrypt(e, s, groupId, application).storage, id)
  {
    hide FollowsRfc, LoadGroup, Decode, Export;
    LoadGroupMeaning(e, m, s, groupId);
    var message := e.protocolMessage(e.decodeMessage(Decode(application).value.payload).value).value;
    ProcessFrame(e, m, s, LoadGroup(e, s, groupId).value, message);
  }

  lemma JoinAside(e: Engine, m: Meaning, s: Storage, id: Bytes, welcome: Bytes)
    requires FollowsRfc(e, m) && JoinGroup(e, s, welcome).result.Ok?
    requires !(RosterOf(m, welcome).Some? && RosterOf(m, welcome).value.group == id)
    ensures SameGroup(e, s, JoinGroup(e, s, welcome).storage, id)
  {
    hide FollowsRfc, Decode, Export;
    var payload := Decode(welcome).value.payload;
    var decoded := e.decodeMessage(payload).value;
    var body := e.extractWelcome(decoded).value;
    WelcomeLaw(e, m, s, payload, decoded, body);
    var staging := e.stageWelcome(s, body);
    JoinFrame(e, m, s, body, []);
    JoinFrame(e, m, staging.storage, body, staging.result.value);
  }

  // ---- Live commands ----

  /** A live command either fails and changes nothing, or is its operation, completed. */
  lemma LiveOperates(e: Engine, s: Storage, c: Command)
    requires TakesState(c.operation) && |c.args| == Arity(c.operation)
    ensures var (r, after) := Live(e, s, c);
            var o := Operate(e, s, c.operation, c.args, c.random);
            if r.Ok? then o.result == Ok(r.value) && after == o.storage else after == s
  {
    hide Operate, LiveRefusal;
  }

  lemma LiveMiscounted(e: Engine, s: Storage, c: Command)
    requires TakesState(c.operation) && |c.args| != Arity(c.operation)
    ensures Live(e, s, c).1 == s
  {
    hide Operate, LiveRefusal;
  }

  /** Whatever is done aside from a group leaves that group as it was. */
  lemma AsideKeepsGroup(e: Engine, m: Meaning, s: Storage, groupId: Bytes, c: Command)
    requires FollowsRfc(e, m) && Aside(m, groupId, c)
    ensures SameGroup(e, s, Live(e, s, c).1, groupId)
  {
    if |c.args| != Arity(c.operation) {
      LiveMiscounted(e, s, c);
    } else {
      LiveOperates(e, s, c);
      if Live(e, s, c).0.Ok? {
        OperatedAside(e, m, s, groupId, c);
      }
    }
    hide FollowsRfc, Live, Operate, Aside;
  }

  lemma OperatedAside(e: Engine, m: Meaning, s: Storage, groupId: Bytes, c: Command)
    requires FollowsRfc(e, m) && Aside(m, groupId, c) && |c.args| == Arity(c.operation)
    requires Operate(e, s, c.operation, c.args, c.random).result.Ok?
    ensures SameGroup(e, s, Operate(e, s, c.operation, c.args, c.random).storage, groupId)
  {
    hide FollowsRfc, Operate, GenerateKeyPackage, CreateGroup, AddMember, JoinGroup, Encrypt, Decrypt, ProcessCommit,
         RemoveMember, SignDeviceApproval, ListMembers, Material, Export, U64, RosterOf;
    var a, r := c.args, c.random;
    if |a| == 0 {
      assert a == [];
    } else if |a| == 1 {
      assert a == [a[0]];
    } else {
      assert a == [a[0], a[1]];
    }
    match c.operation {
      case 2 =>
        GenerateArm(e, s, r);
        GenerateAside(e, m, s, groupId, r);
      case 3 =>
        CreateArm(e, s, a[0], r);
        CreateAside(e, m, s, groupId, a[0], r);
      case 4 =>
        AddArm(e, s, a[0], a[1], r);
        AddAside(e, m, s, groupId, a[0], a[1], r);
      case 5 =>
        JoinArm(e, s, a[0], r);
        JoinAside(e, m, s, groupId, a[0]);
      case 6 =>
        EncryptArm(e, s, a[0], a[1], r);
        EncryptAside(e, m, s, groupId, a[0], a[1], r);
      case 7 =>
        DecryptArm(e, s, a[0], a[1], r);
        DecryptAside(e, m, s, groupId, a[0], a[1]);
      case 8 => MaterialArm(e, s, r);
      case 9 =>
        ProcessArm(e, s, a[0], a[1], r);
        ProcessAside(e, m, s, groupId, a[0], a[1]);
      case 10 =>
        RemoveArm(e, s, a[0], a[1], r);
        RemoveAside(e, m, s, groupId, a[0], a[1], r);
      case 11 => SignArm(e, s, a[0], r);
      case _ => ListArm(e, s, a[0], r);
    }
  }
}
