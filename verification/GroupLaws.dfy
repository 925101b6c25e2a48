/**
 What is assumed of the library about groups: section 12.4.2 of RFC 9420, a commit is applied only at its own
 epoch and moves the group on by one, and that one group's records are none of another's business.
 */
module GroupLaws {
  import opened Wrappers
  import opened ByteStrings
  import opened StateCodec
  import opened Engines

  // ---- What messages mean ----

  datatype Change = Change(group: Bytes, epoch: nat, removed: multiset<Member>, added: multiset<Member>)

  datatype Roster = Roster(group: Bytes, epoch: nat, members: multiset<Member>)

  /** A text said in a group at an epoch. */
  datatype Said = Said(epoch: nat, plaintext: Bytes)

  /** What serialized commits, welcomes, key packages and application messages say, to whoever can read them. */
  datatype Meaning = Meaning(
    commit: Bytes -> Option<Change>, welcome: Bytes -> Option<Roster>, keyPackage: Bytes -> Option<Member>,
    application: Bytes -> Option<Said>)

  function Apply(change: Change, members: multiset<Member>): multiset<Member> {
    members - change.removed + change.added
  }

  /** The member that an identity stands for: that of its basic credential. */
  function Named(identity: Bytes): Member {
    Member(true, identity)
  }

  function Addition(group: Bytes, epoch: nat, member: Member): Change {
    Change(group, epoch, multiset{}, multiset{member})
  }

  function Removal(group: Bytes, epoch: nat, identity: Bytes): Change {
    Change(group, epoch, multiset{Named(identity)}, multiset{})
  }

  // ---- The laws ----

  ghost predicate Loaded(e: Engine, s: Storage, g: Group) {
    e.loadGroup(s, g.id) == Ok(Some(g))
  }

  /** One of the key pairs in the storage. */
  ghost predicate Held(e: Engine, s: Storage, k: Signer) {
    exists public :: e.readSigner(s, public) == Some(k)
  }

  /** The credential's key pair is the one stored under its public key. */
  ghost predicate Genuine(e: Engine, s: Storage, c: Credential) {
    e.readSigner(s, c.publicKey) == Some(c.signer)
  }

  /** `after` is stored, and is `before` moved one epoch on by the change. */
  ghost predicate Advances(e: Engine, s: Storage, before: Group, change: Change, after: Group) {
    && Loaded(e, s, after)
    && after.id == before.id == change.group
    && change.epoch == before.epoch
    && after.epoch == before.epoch + 1
    && multiset(after.members) == Apply(change, multiset(before.members))
  }

  /** The commit just merged locally tells others the same change, and a welcome the result. */
  ghost predicate OwnCommit(e: Engine, m: Meaning, before: Group, change: Change, proposed: Proposed, s: Storage,
                            after: Group)
  {
    && Advances(e, s, before, change, after)
    && (forall p | e.serializeMessage(proposed.commit) == Ok(p) :: m.commit(p) == Some(change))
    && (forall p | e.serializeMessage(proposed.welcome) == Ok(p) ::
          m.welcome(p) == Some(Roster(after.id, after.epoch, multiset(after.members))))
  }

  ghost predicate MergesOwn(e: Engine, m: Meaning, before: Group, change: Change, effect: Effect<Proposed>) {
    effect.result.Ok? ==>
      var merging := e.mergePending(effect.storage, effect.result.value.group);
      merging.result.Ok? ==> OwnCommit(e, m, before, change, effect.result.value, merging.storage, merging.result.value)
  }

  /** Adding a key package adds the member it is for. */
  ghost predicate AddsMember(e: Engine, m: Meaning, g: Group, keyPackage: Bytes, effect: Effect<Proposed>) {
    && m.keyPackage(keyPackage).Some?
    && MergesOwn(e, m, g, Addition(g.id, g.epoch, m.keyPackage(keyPackage).value), effect)
  }

  /** An identity's leaf is that of the member with its basic credential, and removing the leaf removes that member. */
  ghost predicate RemovesMember(e: Engine, m: Meaning, g: Group, identity: Bytes, effect: Effect<Proposed>) {
    && Named(identity) in multiset(g.members)
    && MergesOwn(e, m, g, Removal(g.id, g.epoch, identity), effect)
  }

  ghost predicate MergesOther(e: Engine, m: Meaning, s: Storage, before: Group, payload: Bytes, message: Bytes) {
    var processing := e.processMessage(s, before, message);
    processing.result.Ok? && processing.result.value.1.StagedCommit? ==>
      var merging := e.mergeStaged(processing.storage, processing.result.value.0, processing.result.value.1.staged);
      merging.result.Ok? ==>
        && m.commit(payload).Some?
        && Advances(e, merging.storage, before, m.commit(payload).value, merging.result.value)
  }

  ghost predicate JoinsAs(e: Engine, m: Meaning, s: Storage, payload: Bytes, body: Bytes) {
    var staging := e.stageWelcome(s, body);
    staging.result.Ok? ==>
      var joining := e.welcomeIntoGroup(staging.storage, staging.result.value);
      joining.result.Ok? ==>
        var g := joining.result.value;
        && Loaded(e, joining.storage, g)
        && m.welcome(payload) == Some(Roster(g.id, g.epoch, multiset(g.members)))
  }

  /** A new group has its creator alone, at epoch 0. */
  ghost predicate Creates(e: Engine, c: Credential, id: Bytes, effect: Effect<()>) {
    effect.result.Ok? ==>
      match e.loadGroup(effect.storage, id)
      case Ok(Some(g)) => g.id == id && g.epoch == 0 && multiset(g.members) == multiset{Named(c.identity)}
      case _ => false
  }

  /** Application traffic moves the ratchets, not the epoch or the roster; the group stays stored. */
  ghost predicate SameRoster(e: Engine, s: Storage, g: Group) {
    match e.loadGroup(s, g.id)
    case Ok(Some(h)) => h.id == g.id && h.epoch == g.epoch && multiset(h.members) == multiset(g.members)
    case _ => false
  }

  ghost predicate Commits(e: Engine, m: Meaning) {
    && (forall s, id :: e.loadGroup(s, id).Ok? && e.loadGroup(s, id).value.Some? ==>
       e.loadGroup(s, id).value.value.id == id)
    && (forall s, c, id, r | Genuine(e, s, c) :: Creates(e, c, id, e.newGroup(s, c, id, r)))
    && (forall s, g, k, b, d, p, r |
          && Loaded(e, s, g)
          && Held(e, s, k)
          && e.decodeKeyPackage(b) == Ok(d)
          && e.validateKeyPackage(d) == Ok(p) ::
          AddsMember(e, m, g, b, e.addMembers(s, g, k, p, r)))
    && (forall s, g, k, identity, r | Loaded(e, s, g) && Held(e, s, k) && e.leafIndex(g, identity).Some? ::
          RemovesMember(e, m, g, identity, e.removeMembers(s, g, k, e.leafIndex(g, identity).value, r)))
    && (forall s, g, p, d | Loaded(e, s, g) && e.decodeMessage(p) == Ok(d) && e.protocolMessage(d).Ok? ::
          MergesOther(e, m, s, g, p, e.protocolMessage(d).value))
    && (forall s, p | e.decodeMessage(p).Ok? && e.extractWelcome(e.decodeMessage(p).value).Some? ::
          JoinsAs(e, m, s, p, e.extractWelcome(e.decodeMessage(p).value).value))
  }

  ghost predicate Traffic(e: Engine) {
    && (forall s, g, k, t, r | Loaded(e, s, g) :: SameRoster(e, e.createMessage(s, g, k, t, r).storage, g))
    && (forall s, g, w |
          && Loaded(e, s, g)
          && e.processMessage(s, g, w).result.Ok?
          && e.processMessage(s, g, w).result.value.1.ApplicationMessage? ::
          SameRoster(e, e.processMessage(s, g, w).storage, g))
  }

  /** The groups other than this one are loaded as before. */
  ghost predicate SameElsewhere(e: Engine, s: Storage, after: Storage, id: Bytes) {
    forall other | other != id :: e.loadGroup(after, other) == e.loadGroup(s, other)
  }

  ghost predicate SameGroups(e: Engine, s: Storage, after: Storage) {
    forall id :: e.loadGroup(after, id) == e.loadGroup(s, id)
  }

  ghost predicate FramesOwn(e: Engine, s: Storage, g: Group, effect: Effect<Proposed>) {
    && SameElsewhere(e, s, effect.storage, g.id)
    && (effect.result.Ok? ==> effect.result.value.group.id == g.id)
  }

  ghost predicate FramesProcessed(e: Engine, s: Storage, g: Group, effect: Effect<(Group, Content)>) {
    && SameElsewhere(e, s, effect.storage, g.id)
    && (effect.result.Ok? ==> effect.result.value.0.id == g.id)
  }

  ghost predicate FramesJoined(e: Engine, s: Storage, effect: Effect<Group>) {
    effect.result.Ok? ==> SameElsewhere(e, s, effect.storage, effect.result.value.id)
  }

  ghost predicate FramesRosters(e: Engine) {
    && (forall s, c, id, r :: SameElsewhere(e, s, e.newGroup(s, c, id, r).storage, id))
    && (forall s, g, k, p, r :: FramesOwn(e, s, g, e.addMembers(s, g, k, p, r)))
    && (forall s, g, k, i, r :: FramesOwn(e, s, g, e.removeMembers(s, g, k, i, r)))
    && (forall s, g :: SameElsewhere(e, s, e.mergePending(s, g).storage, g.id))
    && (forall s, g, c :: SameElsewhere(e, s, e.mergeStaged(s, g, c).storage, g.id))
  }

  ghost predicate FramesMessages(e: Engine) {
    && (forall s, c, r :: SameGroups(e, s, e.buildKeyPackage(s, c, r).storage))
    && (forall s, w :: SameGroups(e, s, e.stageWelcome(s, w).storage))
    && (forall s, w :: FramesJoined(e, s, e.welcomeIntoGroup(s, w)))
    && (forall s, g, m :: FramesProcessed(e, s, g, e.processMessage(s, g, m)))
    && (forall s, g, k, p, r :: SameElsewhere(e, s, e.createMessage(s, g, k, p, r).storage, g.id))
  }

  ghost predicate Frames(e: Engine) {
    FramesRosters(e) && FramesMessages(e)
  }

  ghost predicate FollowsRfc(e: Engine, m: Meaning) {
    Commits(e, m) && Traffic(e) && Frames(e)
  }

  // ---- What is said, and who says it ----

  /** A message says what it was created of, at the group's epoch. */
  ghost predicate Tells(e: Engine, m: Meaning, g: Group, plaintext: Bytes, effect: Effect<Bytes>) {
    effect.result.Ok? ==>
      forall p | e.serializeMessage(effect.result.value) == Ok(p) :: m.application(p) == Some(Said(g.epoch, plaintext))
  }

  /** What is read out of a message is what it says. */
  ghost predicate Reads(e: Engine, m: Meaning, s: Storage, g: Group, payload: Bytes, message: Bytes) {
    var processed := e.processMessage(s, g, message).result;
    processed.Ok? && processed.value.1.ApplicationMessage? ==>
      m.application(payload) == Some(Said(e.messageEpoch(message), processed.value.1.plaintext))
  }

  /** A key package built for a credential is that of its identity. */
  ghost predicate Introduces(e: Engine, m: Meaning, c: Credential, effect: Effect<Bytes>) {
    effect.result.Ok? ==>
      forall p | e.serializeKeyPackage(effect.result.value) == Ok(p) :: m.keyPackage(p) == Some(Named(c.identity))
  }

  /** Sections 6 and 10 of RFC 9420: messages and key packages mean what they were made of. */
  ghost predicate Conveys(e: Engine, m: Meaning) {
    && (forall s, g, k, t, r | Loaded(e, s, g) && Held(e, s, k) :: Tells(e, m, g, t, e.createMessage(s, g, k, t, r)))
    && (forall s, g, p, d | Loaded(e, s, g) && e.decodeMessage(p) == Ok(d) && e.protocolMessage(d).Ok? ::
          Reads(e, m, s, g, p, e.protocolMessage(d).value))
    && (forall s, c, r | Genuine(e, s, c) :: Introduces(e, m, c, e.buildKeyPackage(s, c, r)))
  }

  /** Whether a signature is accepted for a payload under a public key. */
  type Verifier = (Bytes, Bytes, Bytes) -> bool

  /** What a stored key pair signs is accepted under the public key it is stored under. */
  ghost predicate SignsFor(e: Engine, accepted: Verifier) {
    forall s, public, p |
      && e.readSigner(s, public).Some?
      && e.sign(e.readSigner(s, public).value, p).Ok? ::
      accepted(public, p, e.sign(e.readSigner(s, public).value, p).value)
  }

  // ---- The laws at one call each, so that the lemmas about sessions need not see them all ----

  lemma LoadLaw(e: Engine, m: Meaning, s: Storage, id: Bytes)
    requires FollowsRfc(e, m) && e.loadGroup(s, id).Ok? && e.loadGroup(s, id).value.Some?
    ensures e.loadGroup(s, id).value.value.id == id && Loaded(e, s, e.loadGroup(s, id).value.value)
  {
  }

  lemma NewLaw(e: Engine, m: Meaning, s: Storage, c: Credential, id: Bytes, r: Random)
    requires FollowsRfc(e, m) && Genuine(e, s, c)
    ensures Creates(e, c, id, e.newGroup(s, c, id, r))
    ensures SameElsewhere(e, s, e.newGroup(s, c, id, r).storage, id)
  {
  }

  lemma AddLaw(e: Engine, m: Meaning, s: Storage, g: Group, k: Signer, b: Bytes, r: Random)
    requires FollowsRfc(e, m) && Loaded(e, s, g) && Held(e, s, k)
    requires e.decodeKeyPackage(b).Ok? && e.validateKeyPackage(e.decodeKeyPackage(b).value).Ok?
    ensures AddsMember(e, m, g, b, e.addMembers(s, g, k, e.validateKeyPackage(e.decodeKeyPackage(b).value).value, r))
  {
  }

  lemma RemoveLaw(e: Engine, m: Meaning, s: Storage, g: Group, k: Signer, identity: Bytes, r: Random)
    requires FollowsRfc(e, m) && Loaded(e, s, g) && Held(e, s, k) && e.leafIndex(g, identity).Some?
    ensures RemovesMember(e, m, g, identity, e.removeMembers(s, g, k, e.leafIndex(g, identity).value, r))
  {
  }

  lemma ProcessLaw(e: Engine, m: Meaning, s: Storage, g: Group, payload: Bytes, decoded: Bytes)
    requires FollowsRfc(e, m) && Loaded(e, s, g)
    requires e.decodeMessage(payload) == Ok(decoded) && e.protocolMessage(decoded).Ok?
    ensures MergesOther(e, m, s, g, payload, e.protocolMessage(decoded).value)
  {
  }

  lemma WelcomeLaw(e: Engine, m: Meaning, s: Storage, payload: Bytes, decoded: Bytes, body: Bytes)
    requires FollowsRfc(e, m)
    requires e.decodeMessage(payload) == Ok(decoded) && e.extractWelcome(decoded) == Some(body)
    ensures JoinsAs(e, m, s, payload, body)
  {
  }

  lemma EncryptLaw(e: Engine, m: Meaning, s: Storage, g: Group, k: Signer, t: Bytes, r: Random)
    requires FollowsRfc(e, m) && Loaded(e, s, g)
    ensures SameRoster(e, e.createMessage(s, g, k, t, r).storage, g)
  {
  }

  lemma DecryptLaw(e: Engine, m: Meaning, s: Storage, g: Group, w: Bytes)
    requires FollowsRfc(e, m) && Loaded(e, s, g)
    requires e.processMessage(s, g, w).result.Ok? && e.processMessage(s, g, w).result.value.1.ApplicationMessage?
    ensures SameRoster(e, e.processMessage(s, g, w).storage, g)
  {
  }
}
