/**
 The OpenMLS library as an arbitrary engine over the storage map.  Every theorem about sessions holds
 for all engines, or for all engines that keep what the session itself stored.
 */
module Engines {
  import opened Wrappers
  import opened ByteStrings
  import opened StateCodec

  /** Whatever the operating system's generator yields to one call. */
  type Random = Bytes

  datatype Signer = Signer(publicKey: Bytes, secret: Bytes)

  /** The identity read from storage together with the key pair it signs with. */
  datatype Credential = Credential(identity: Bytes, publicKey: Bytes, signer: Signer)

  datatype Member = Member(basic: bool, content: Bytes)

  /** A group as loaded into memory; leaves are listed in the order the library iterates them. */
  datatype Group = Group(id: Bytes, epoch: nat, members: seq<Member>, secrets: Bytes)

  datatype Content = StagedCommit(staged: Bytes) | ApplicationMessage(plaintext: Bytes) | OtherContent

  datatype Proposed = Proposed(group: Group, commit: Bytes, welcome: Bytes)

  /** A library call that writes storage, and may have written before it failed. */
  datatype Effect<+T> = Effect(storage: Storage, result: Result<T, Bytes>)

  datatype Engine = Engine(
    newSigner: Random -> Result<Signer, Bytes>,
    storeSigner: (Storage, Signer) -> Effect<()>,
    readSigner: (Storage, Bytes) -> Option<Signer>,
    sign: (Signer, Bytes) -> Result<Bytes, Bytes>,
    sha256: Bytes -> Bytes,
    buildKeyPackage: (Storage, Credential, Random) -> Effect<Bytes>,
    serializeKeyPackage: Bytes -> Result<Bytes, Bytes>,
    decodeKeyPackage: Bytes -> Result<Bytes, Bytes>,
    validateKeyPackage: Bytes -> Result<Bytes, Bytes>,
    loadGroup: (Storage, Bytes) -> Result<Option<Group>, Bytes>,
    newGroup: (Storage, Credential, Bytes, Random) -> Effect<()>,
    addMembers: (Storage, Group, Signer, Bytes, Random) -> Effect<Proposed>,
    leafIndex: (Group, Bytes) -> Option<nat>,
    removeMembers: (Storage, Group, Signer, nat, Random) -> Effect<Proposed>,
    mergePending: (Storage, Group) -> Effect<Group>,
    serializeMessage: Bytes -> Result<Bytes, Bytes>,
    decodeMessage: Bytes -> Result<Bytes, Bytes>,
    extractWelcome: Bytes -> Option<Bytes>,
    stageWelcome: (Storage, Bytes) -> Effect<Bytes>,
    welcomeIntoGroup: (Storage, Bytes) -> Effect<Group>,
    protocolMessage: Bytes -> Result<Bytes, Bytes>,
    messageEpoch: Bytes -> nat,
    processMessage: (Storage, Group, Bytes) -> Effect<(Group, Content)>,
    mergeStaged: (Storage, Group, Bytes) -> Effect<Group>,
    createMessage: (Storage, Group, Signer, Bytes, Random) -> Effect<Bytes>)

  const IDENTITY_KEY: Bytes := Text("redcode/session/identity/v1")
  const SIGNATURE_PUBLIC_KEY: Bytes := Text("redcode/session/signature-public/v1")
  const ROOT_PUBLIC_KEY: Bytes := Text("redcode/session/root-public/v1")

  lemma SessionKeysDiffer()
    ensures IDENTITY_KEY != SIGNATURE_PUBLIC_KEY
    ensures IDENTITY_KEY != ROOT_PUBLIC_KEY
    ensures SIGNATURE_PUBLIC_KEY != ROOT_PUBLIC_KEY
  {
    assert |IDENTITY_KEY| != |SIGNATURE_PUBLIC_KEY|;
    assert |IDENTITY_KEY| != |ROOT_PUBLIC_KEY|;
    assert |SIGNATURE_PUBLIC_KEY| != |ROOT_PUBLIC_KEY|;
  }

  /** Nothing that the session stored under its own keys changed, nor any stored signer. */
  ghost predicate Keeps(e: Engine, before: Storage, after: Storage) {
    && (forall k | k in {IDENTITY_KEY, SIGNATURE_PUBLIC_KEY, ROOT_PUBLIC_KEY} && k in before ::
          k in after && after[k] == before[k])
    && (forall public: Bytes | e.readSigner(before, public).Some? ::
          e.readSigner(after, public) == e.readSigner(before, public))
  }

  lemma KeepsTransitive(e: Engine, a: Storage, b: Storage, c: Storage)
    requires Keeps(e, a, b) && Keeps(e, b, c)
    ensures Keeps(e, a, c)
  {
  }

  /** The assumption on the library: it works beside the session's own entries, never on them. */
  ghost predicate Lawful(e: Engine) {
    && (forall s, c, r :: Keeps(e, s, e.buildKeyPackage(s, c, r).storage))
    && (forall s, c, id, r :: Keeps(e, s, e.newGroup(s, c, id, r).storage))
    && (forall s, g, k, p, r :: Keeps(e, s, e.addMembers(s, g, k, p, r).storage))
    && (forall s, g, k, i, r :: Keeps(e, s, e.removeMembers(s, g, k, i, r).storage))
    && (forall s, g :: Keeps(e, s, e.mergePending(s, g).storage))
    && (forall s, w :: Keeps(e, s, e.stageWelcome(s, w).storage))
    && (forall s, w :: Keeps(e, s, e.welcomeIntoGroup(s, w).storage))
    && (forall s, g, m :: Keeps(e, s, e.processMessage(s, g, m).storage))
    && (forall s, g, c :: Keeps(e, s, e.mergeStaged(s, g, c).storage))
    && (forall s, g, k, p, r :: Keeps(e, s, e.createMessage(s, g, k, p, r).storage))
  }
}
