/**
 A small engine that keeps both laws, and in it a run in which two devices of one room commit at the same
 epoch: from INITIALIZE on, through creation, addition, join and a message read, to the fork and the welcome
 that mends it; and a run in which one removes the other.
 */
module ForkExample {
  import opened Wrappers
  import opened Orders
  import opened ByteStrings
  import opened StateCodec
  import opened Engines
  import opened Envelopes
  import opened Sessions
  import opened Commands
  import opened Refinement
  import opened GroupLaws
  import opened Convergence
  import opened Forks

  // ---- The engine ----

  const ROOM: Bytes := [7]
  const GROUP_KEY: Bytes := [0]

  function SignerKey(public: Bytes): Bytes {
    [1] + public
  }

  /**
   A room is its history: the creator's one-byte identity, and then two bytes for each commit, the second the
   identity that the first says is added or removed.
   */
  predicate IsHistory(history: Bytes) {
    |history| % 2 == 1
  }

  lemma HistoryExtends(history: Bytes, commit: Bytes)
    requires |commit| == 2
    ensures IsHistory(history + commit) <==> IsHistory(history)
    ensures EpochOf(history + commit) == EpochOf(history) + 1
  {
  }

  const REMOVES: Byte := 0
  const ADDS: Byte := 1

  function MembersOf(history: Bytes): seq<Member>
    requires IsHistory(history)
  {
    if |history| == 1 then
      [Named(history)]
    else
      var before, last := history[..|history| - 2], Named([history[|history| - 1]]);
      if history[|history| - 2] == REMOVES then Drop(MembersOf(before), last) else MembersOf(before) + [last]
  }

  /** The list without the first such member. */
  function Drop(members: seq<Member>, x: Member): (r: seq<Member>)
    ensures multiset(r) == multiset(members) - multiset{x}
  {
    if members == [] then
      []
    else
      assert members == [members[0]] + members[1..];
      if members[0] == x then members[1..] else [members[0]] + Drop(members[1..], x)
  }

  function IndexOf(members: seq<Member>, x: Member): (r: Option<nat>)
    ensures r.Some? ==> r.value < |members| && members[r.value] == x
  {
    if members == [] then
      None
    else if members[0] == x then
      Some(0)
    else
      match IndexOf(members[1..], x)
      case None => None
      case Some(i) => Some(i + 1)
  }

  function EpochOf(history: Bytes): nat {
    |history| / 2
  }

  function GroupOf(history: Bytes): Group
    requires IsHistory(history)
  {
    Group(ROOM, EpochOf(history), MembersOf(history), history)
  }

  function NoLibrary<T>(): Result<T, Bytes> {
    Err(Text("unsupported"))
  }

  function Load(s: Storage, id: Bytes): Result<Option<Group>, Bytes> {
    if id == ROOM && GROUP_KEY in s && IsHistory(s[GROUP_KEY]) then Ok(Some(GroupOf(s[GROUP_KEY]))) else Ok(None)
  }

  function Store(s: Storage, history: Bytes): Effect<Group> {
    if IsHistory(history) then Effect(s[GROUP_KEY := history], Ok(GroupOf(history))) else Effect(s, NoLibrary())
  }

  function Merge(s: Storage, g: Group, history: Bytes): Effect<Group> {
    if g.id == ROOM then Store(s, history) else Effect(s, NoLibrary())
  }

  function New(s: Storage, c: Credential, id: Bytes): Effect<()> {
    if id == ROOM && |c.identity| == 1 then Effect(s[GROUP_KEY := c.identity], Ok(())) else Effect(s, NoLibrary())
  }

  /** The group's history with one commit more. */
  function Propose(s: Storage, g: Group, commit: Bytes): (r: Effect<Proposed>)
    ensures r.storage == s
  {
    var history := g.secrets + commit;
    if g.id == ROOM && |commit| == 2 && IsHistory(history) then
      Effect(s, Ok(Proposed(GroupOf(history), history, history)))
    else
      Effect(s, NoLibrary())
  }

  function Add(s: Storage, g: Group, keyPackage: Bytes): (r: Effect<Proposed>)
    ensures r.storage == s
  {
    Propose(s, g, [ADDS] + keyPackage)
  }

  function Remove(s: Storage, g: Group, leaf: nat): (r: Effect<Proposed>)
    ensures r.storage == s
  {
    if leaf < |g.members| then Propose(s, g, [REMOVES] + g.members[leaf].content) else Effect(s, NoLibrary())
  }

  /** What application messages start with; the epoch follows in eight bytes, and then the text. */
  const TRAFFIC: Byte := 0xFF

  predicate IsMessage(b: Bytes) {
    |b| >= 9 && b[0] == TRAFFIC
  }

  function EpochIn(b: Bytes): nat {
    if IsMessage(b) then BigEndian64(b[1..9]) else 0
  }

  function Message(epoch: nat, plaintext: Bytes): Bytes {
    [TRAFFIC] + U64(epoch) + plaintext
  }

  lemma MessageRead(epoch: nat, plaintext: Bytes)
    requires epoch < U64_RANGE
    ensures var b := Message(epoch, plaintext); IsMessage(b) && EpochIn(b) == epoch && b[9..] == plaintext
  {
    U64Exactly(epoch);
    hide U64, BigEndian64;
    assert Message(epoch, plaintext)[1..9] == U64(epoch);
  }

  function Create(s: Storage, g: Group, plaintext: Bytes): Effect<Bytes> {
    if g.epoch < U64_RANGE then Effect(s, Ok(Message(g.epoch, plaintext))) else Effect(s, NoLibrary())
  }

  /** A commit carries the whole history, and extends only the history it was made from. */
  function Process(s: Storage, g: Group, message: Bytes): (r: Effect<(Group, Content)>)
    ensures r.storage == s
  {
    if IsMessage(message) then
      Effect(s, Ok((g, ApplicationMessage(message[9..]))))
    else if g.id == ROOM && |message| == |g.secrets| + 2 && g.secrets <= message then
      Effect(s, Ok((g, StagedCommit(message))))
    else
      Effect(s, NoLibrary())
  }

  const ENGINE: Engine := Engine(
    newSigner := (r: Random) => Ok(Signer(r, r)),
    storeSigner := (s: Storage, k: Signer) => Effect(s[SignerKey(k.publicKey) := k.secret], Ok(())),
    readSigner := (s: Storage, p: Bytes) => if SignerKey(p) in s then Some(Signer(p, s[SignerKey(p)])) else None,
    sign := (k: Signer, p: Bytes) => Ok(k.publicKey + p),
    sha256 := (b: Bytes) => b,
    buildKeyPackage := (s: Storage, c: Credential, r: Random) => Effect(s, Ok(c.identity)),
    serializeKeyPackage := (b: Bytes) => Ok(b),
    decodeKeyPackage := (b: Bytes) => Ok(b),
    validateKeyPackage := (b: Bytes) => Ok(b),
    loadGroup := Load,
    newGroup := (s: Storage, c: Credential, id: Bytes, r: Random) => New(s, c, id),
    addMembers := (s: Storage, g: Group, k: Signer, p: Bytes, r: Random) => Add(s, g, p),
    leafIndex := (g: Group, id: Bytes) => IndexOf(g.members, Named(id)),
    removeMembers := (s: Storage, g: Group, k: Signer, i: nat, r: Random) => Remove(s, g, i),
    mergePending := (s: Storage, g: Group) => Merge(s, g, g.secrets),
    serializeMessage := (b: Bytes) => Ok(b),
    decodeMessage := (b: Bytes) => Ok(b),
    extractWelcome := (b: Bytes) => Some(b),
    stageWelcome := (s: Storage, b: Bytes) => Effect(s, Ok(b)),
    welcomeIntoGroup := (s: Storage, b: Bytes) => Store(s, b),
    protocolMessage := (b: Bytes) => Ok(b),
    messageEpoch := EpochIn,
    processMessage := Process,
    mergeStaged := (s: Storage, g: Group, b: Bytes) => Merge(s, g, b),
    createMessage := (s: Storage, g: Group, k: Signer, p: Bytes, r: Random) => Create(s, g, p))

  function Announced(payload: Bytes): Option<Change> {
    var n := |payload|;
    if n < 3 || !IsHistory(payload) then
      None
    else if payload[n - 2] == REMOVES then
      Some(Removal(ROOM, EpochOf(payload) - 1, [payload[n - 1]]))
    else
      Some(Addition(ROOM, EpochOf(payload) - 1, Named([payload[n - 1]])))
  }

  function Told(payload: Bytes): Option<Roster> {
    if IsHistory(payload) then Some(Roster(ROOM, EpochOf(payload), multiset(MembersOf(payload)))) else None
  }

  function Uttered(payload: Bytes): Option<Said> {
    if IsMessage(payload) then Some(Said(EpochIn(payload), payload[9..])) else None
  }

  const MEANING: Meaning := Meaning(Announced, Told, (b: Bytes) => Some(Named(b)), Uttered)

  lemma MembersExtend(before: Bytes, what: Byte, whom: Byte)
    requires IsHistory(before)
    ensures var after := before + [what, whom];
            && IsHistory(after) && EpochOf(after) == EpochOf(before) + 1
            && Announced(after) == Some(if what == REMOVES then Removal(ROOM, EpochOf(before), [whom])
                                        else Addition(ROOM, EpochOf(before), Named([whom])))
            && multiset(MembersOf(after)) == Apply(Announced(after).value, multiset(MembersOf(before)))
  {
    HistoryExtends(before, [what, whom]);
    hide IsHistory, EpochOf;
    var after := before + [what, whom];
    assert after[..|after| - 2] == before && after[|after| - 2] == what && after[|after| - 1] == whom;
  }

  // ---- The laws ----

  lemma SessionKeysStartWithR()
    ensures IDENTITY_KEY[0] == SIGNATURE_PUBLIC_KEY[0] == ROOT_PUBLIC_KEY[0] == 'r' as int
  {
  }

  lemma StoreKeeps(s: Storage, history: Bytes)
    ensures Keeps(ENGINE, s, s[GROUP_KEY := history])
  {
    SessionKeysStartWithR();
    var after := s[GROUP_KEY := history];
    forall public: Bytes
      ensures ENGINE.readSigner(after, public) == ENGINE.readSigner(s, public)
    {
      assert SignerKey(public)[0] != GROUP_KEY[0];
    }
  }

  lemma WritesKeep(s: Storage, g: Group, c: Credential, id: Bytes, history: Bytes)
    ensures Keeps(ENGINE, s, s)
    ensures Keeps(ENGINE, s, New(s, c, id).storage)
    ensures Keeps(ENGINE, s, Store(s, history).storage)
    ensures Keeps(ENGINE, s, Merge(s, g, history).storage)
  {
    hide MembersOf, IsHistory;
    StoreKeeps(s, c.identity);
    StoreKeeps(s, history);
  }

  lemma LawfulEngine()
    ensures Lawful(ENGINE)
  {
    hide Load, MembersOf, GroupOf, Add, Remove, Process, IsHistory, IndexOf, New, Store, Merge, Keeps;
    var nobody, nothing := Credential([], [], Signer([], [])), Group([], 0, [], []);
    forall s
      ensures Keeps(ENGINE, s, s)
    {
      WritesKeep(s, nothing, nobody, [], []);
    }
    forall s, c, id, r
      ensures Keeps(ENGINE, s, ENGINE.newGroup(s, c, id, r).storage)
    {
      WritesKeep(s, nothing, c, id, []);
    }
    forall s, g
      ensures Keeps(ENGINE, s, ENGINE.mergePending(s, g).storage)
    {
      WritesKeep(s, g, nobody, [], g.secrets);
    }
    forall s, w
      ensures Keeps(ENGINE, s, ENGINE.welcomeIntoGroup(s, w).storage)
    {
      WritesKeep(s, nothing, nobody, [], w);
    }
    forall s, g, c
      ensures Keeps(ENGINE, s, ENGINE.mergeStaged(s, g, c).storage)
    {
      WritesKeep(s, g, nobody, [], c);
    }
  }

  lemma CommitsEngine()
    ensures Commits(ENGINE, MEANING)
  {
    forall s, g, k, b, r | Loaded(ENGINE, s, g)
      ensures AddsMember(ENGINE, MEANING, g, b, ENGINE.addMembers(s, g, k, b, r))
    {
      AddEngine(s, g, k, b, r);
    }
    forall s, g, k, identity, r | Loaded(ENGINE, s, g) && ENGINE.leafIndex(g, identity).Some?
      ensures RemovesMember(ENGINE, MEANING, g, identity,
                            ENGINE.removeMembers(s, g, k, ENGINE.leafIndex(g, identity).value, r))
    {
      RemoveEngine(s, g, k, identity, r);
    }
    forall s, g, p | Loaded(ENGINE, s, g)
      ensures MergesOther(ENGINE, MEANING, s, g, p, p)
    {
      ProcessEngine(s, g, p);
    }
    forall s, c, id, r
      ensures Creates(ENGINE, c, id, ENGINE.newGroup(s, c, id, r))
    {
      NewEngine(s, c, id, r);
    }
    forall s, p
      ensures JoinsAs(ENGINE, MEANING, s, p, p)
    {
      JoinEngine(s, p);
    }
    hide AddsMember, RemovesMember, MergesOther, Creates, JoinsAs, Loaded, IndexOf, Remove, Add, Process;
  }

  /** A commit of the loaded group's own, merged: the room moved on by what it announces. */
  lemma ProposeEngine(s: Storage, g: Group, commit: Bytes, change: Change)
    requires Loaded(ENGINE, s, g)
    requires |commit| == 2 ==> Announced(g.secrets + commit) == Some(change)
    ensures MergesOwn(ENGINE, MEANING, g, change, Propose(s, g, commit))
  {
    if |commit| == 2 {
      assert commit == [commit[0], commit[1]];
      MembersExtend(g.secrets, commit[0], commit[1]);
    }
  }

  lemma AddEngine(s: Storage, g: Group, k: Signer, b: Bytes, r: Random)
    requires Loaded(ENGINE, s, g)
    ensures AddsMember(ENGINE, MEANING, g, b, ENGINE.addMembers(s, g, k, b, r))
  {
    hide MembersOf, MergesOwn;
    if |b| == 1 {
      assert b == [b[0]];
    }
    ProposeEngine(s, g, [ADDS] + b, Addition(g.id, g.epoch, Named(b)));
  }

  lemma RemoveEngine(s: Storage, g: Group, k: Signer, identity: Bytes, r: Random)
    requires Loaded(ENGINE, s, g) && ENGINE.leafIndex(g, identity).Some?
    ensures RemovesMember(ENGINE, MEANING, g, identity,
                          ENGINE.removeMembers(s, g, k, ENGINE.leafIndex(g, identity).value, r))
  {
    hide MembersOf, MergesOwn;
    if |identity| == 1 {
      assert identity == [identity[0]];
    }
    ProposeEngine(s, g, [REMOVES] + identity, Removal(g.id, g.epoch, identity));
  }

  lemma StagedExtends(s: Storage, g: Group, p: Bytes)
    requires Process(s, g, p).result.Ok? && Process(s, g, p).result.value.1.StagedCommit?
    ensures var n := |g.secrets|; |p| == n + 2 && p == g.secrets + [p[n], p[n + 1]]
    ensures Process(s, g, p) == Effect(s, Ok((g, StagedCommit(p))))
  {
  }

  lemma ProcessEngine(s: Storage, g: Group, p: Bytes)
    requires Loaded(ENGINE, s, g)
    ensures MergesOther(ENGINE, MEANING, s, g, p, p)
  {
    LoadedHistory(s, g);
    hide IsHistory, EpochOf, MembersOf, Announced, Process, Loaded, Advances, GroupOf, Merge;
    if Process(s, g, p).result.Ok? && Process(s, g, p).result.value.1.StagedCommit? {
      StagedExtends(s, g, p);
      var n := |g.secrets|;
      MergeAdvances(s, g.secrets, p[n], p[n + 1]);
    }
  }

  /** A history merged is the room moved on by what its last two bytes announce. */
  lemma MergeAdvances(s: Storage, history: Bytes, what: Byte, whom: Byte)
    requires IsHistory(history)
    ensures var g, after := GroupOf(history), history + [what, whom];
            && IsHistory(after) && Announced(after).Some?
            && Merge(s, g, after) == Effect(s[GROUP_KEY := after], Ok(GroupOf(after)))
            && Advances(ENGINE, s[GROUP_KEY := after], g, Announced(after).value, GroupOf(after))
  {
    MembersExtend(history, what, whom);
    hide MembersOf, IsHistory, EpochOf, Announced, Apply;
  }

  lemma LoadedHistory(s: Storage, g: Group)
    requires Loaded(ENGINE, s, g)
    ensures IsHistory(g.secrets) && g == GroupOf(g.secrets)
  {
    hide MembersOf, IsHistory, EpochOf;
  }

  lemma NewEngine(s: Storage, c: Credential, id: Bytes, r: Random)
    ensures Creates(ENGINE, c, id, ENGINE.newGroup(s, c, id, r))
  {
    if id == ROOM && |c.identity| == 1 {
      assert MembersOf(c.identity) == [Named(c.identity)];
    }
  }

  lemma JoinEngine(s: Storage, p: Bytes)
    ensures JoinsAs(ENGINE, MEANING, s, p, p)
  {
  }

  lemma TrafficEngine()
    ensures Traffic(ENGINE)
  {
    hide MembersOf;
  }

  /** Only one key of the storage holds a group, and it holds the room. */
  lemma StoreFrames(s: Storage, history: Bytes)
    ensures SameElsewhere(ENGINE, s, s[GROUP_KEY := history], ROOM)
  {
  }

  lemma MergeFrames(s: Storage, g: Group, history: Bytes)
    ensures SameElsewhere(ENGINE, s, Merge(s, g, history).storage, g.id)
  {
    StoreFrames(s, history);
  }

  lemma FramesRostersEngine()
    ensures FramesRosters(ENGINE)
  {
    assert forall s, id :: SameElsewhere(ENGINE, s, s, id);
    hide SameElsewhere, Load, Merge, MembersOf;
    forall s, c, id, r
      ensures SameElsewhere(ENGINE, s, ENGINE.newGroup(s, c, id, r).storage, id)
    {
      StoreFrames(s, c.identity);
    }
    forall s, g
      ensures SameElsewhere(ENGINE, s, ENGINE.mergePending(s, g).storage, g.id)
    {
      MergeFrames(s, g, g.secrets);
    }
    forall s, g, c
      ensures SameElsewhere(ENGINE, s, ENGINE.mergeStaged(s, g, c).storage, g.id)
    {
      MergeFrames(s, g, c);
    }
  }

  lemma FramesMessagesEngine()
    ensures FramesMessages(ENGINE)
  {
    assert forall s :: SameGroups(ENGINE, s, s);
    assert forall s, id :: SameElsewhere(ENGINE, s, s, id);
    hide SameElsewhere, SameGroups, Load, MembersOf;
    forall s, w
      ensures FramesJoined(ENGINE, s, ENGINE.welcomeIntoGroup(s, w))
    {
      StoreFrames(s, w);
    }
  }

  lemma FollowsRfcEngine()
    ensures FollowsRfc(ENGINE, MEANING)
  {
    CommitsEngine();
    TrafficEngine();
    FramesRostersEngine();
    FramesMessagesEngine();
    hide Commits, Traffic, FramesRosters, FramesMessages;
  }

  lemma ConveysEngine()
    ensures Conveys(ENGINE, MEANING)
  {
    hide Load, MembersOf, IsHistory, IndexOf, Message, IsMessage, EpochIn;
    forall s, g, k, t, r
      ensures Tells(ENGINE, MEANING, g, t, ENGINE.createMessage(s, g, k, t, r))
    {
      if g.epoch < U64_RANGE {
        MessageRead(g.epoch, t);
      }
    }
  }

  /** A signature is the public key and the payload. */
  predicate SignatureAccepted(public: Bytes, payload: Bytes, signature: Bytes) {
    signature == public + payload
  }

  lemma SignsForEngine()
    ensures SignsFor(ENGINE, SignatureAccepted)
  {
  }

  // ---- The storages of the run ----

  const KEY: Bytes := [9, 9, 9, 9, 9, 9, 9, 9, 9, 9, 9, 9, 9, 9, 9, 9, 9, 9, 9, 9, 9, 9, 9, 9, 9, 9, 9, 9, 9, 9, 9, 9]

  /** What INITIALIZE stores for an identity. */
  function Fresh(identity: Byte): Storage {
    map[SignerKey(KEY) := KEY, IDENTITY_KEY := [identity], SIGNATURE_PUBLIC_KEY := KEY, ROOT_PUBLIC_KEY := KEY]
  }

  function FreshRecords(identity: Byte): seq<Record> {
    [Record(SignerKey(KEY), KEY), Record(IDENTITY_KEY, [identity]),
     Record(SIGNATURE_PUBLIC_KEY, KEY), Record(ROOT_PUBLIC_KEY, KEY)]
  }

  /** The same, in the room. */
  function Device(identity: Byte, history: Bytes): Storage {
    Fresh(identity)[GROUP_KEY := history]
  }

  lemma KeysApart()
    ensures var group, signer := GROUP_KEY, SignerKey(KEY);
            && group != signer
            && group !in {IDENTITY_KEY, SIGNATURE_PUBLIC_KEY, ROOT_PUBLIC_KEY}
            && signer !in {IDENTITY_KEY, SIGNATURE_PUBLIC_KEY, ROOT_PUBLIC_KEY}
            && IDENTITY_KEY != SIGNATURE_PUBLIC_KEY && IDENTITY_KEY != ROOT_PUBLIC_KEY
            && SIGNATURE_PUBLIC_KEY != ROOT_PUBLIC_KEY
  {
    SessionKeysStartWithR();
    SessionKeysDiffer();
    assert GROUP_KEY[0] == 0 && SignerKey(KEY)[0] == 1;
  }

  lemma FreshFrame(identity: Byte)
    ensures var rs := FreshRecords(identity);
            DistinctKeys(rs) && MapOf(rs) == Fresh(identity) && |rs| == 4 && |EncodeRecords(rs)| <= 1000
  {
    var rs := FreshRecords(identity);
    KeysApart();
    assert rs[1..][1..] == rs[2..] && rs[2..][1..] == rs[3..] && rs[3..][1..] == [];
    assert |EncodeRecords(rs[3..])| <= 100;
    assert |EncodeRecords(rs[2..])| <= 200;
    assert |EncodeRecords(rs[1..])| <= 300;
    assert MapOf(rs[3..]) == map[ROOT_PUBLIC_KEY := KEY];
    assert MapOf(rs[2..]) == map[SIGNATURE_PUBLIC_KEY := KEY, ROOT_PUBLIC_KEY := KEY];
    assert MapOf(rs[1..]) == map[IDENTITY_KEY := [identity], SIGNATURE_PUBLIC_KEY := KEY, ROOT_PUBLIC_KEY := KEY];
  }

  lemma FreshExports(identity: Byte)
    ensures Export(Fresh(identity)).Ok?
  {
    hide FreshRecords, Fresh, MapOf, DistinctKeys;
    FreshFrame(identity);
    NormalForm(Frame(FreshRecords(identity)), FreshRecords(identity));
  }

  lemma DeviceExports(identity: Byte, history: Bytes)
    requires |history| <= 1000
    ensures Export(Device(identity, history)).Ok?
  {
    var rs := FreshRecords(identity);
    var group := Record(GROUP_KEY, history);
    var all := [group] + rs;
    FreshFrame(identity);
    KeysApart();
    assert all[1..] == rs;
    assert DistinctKeys(all);
    assert |EncodeRecord(group)| <= 1009;
    hide FreshRecords, Fresh;
    NormalForm(Frame(all), all);
  }

  lemma FreshReads(identity: Byte)
    ensures IdentityAndSigner(ENGINE, Fresh(identity)) == Ok(Credential([identity], KEY, Signer(KEY, KEY)))
    ensures LoadGroup(ENGINE, Fresh(identity), ROOM) == Err(GroupNotFound)
  {
    KeysApart();
  }

  lemma DeviceReads(identity: Byte, history: Bytes)
    requires IsHistory(history)
    ensures IdentityAndSigner(ENGINE, Device(identity, history)) == Ok(Credential([identity], KEY, Signer(KEY, KEY)))
    ensures LoadGroup(ENGINE, Device(identity, history), ROOM) == Ok(GroupOf(history))
  {
    KeysApart();
  }

  function Sent(kind: EnvelopeKind, message: Bytes): Bytes {
    Envelopes.Envelope.Envelope(PROTOCOL_VERSION, kind, message).Encode()
  }

  lemma MessageSent(kind: EnvelopeKind, message: Bytes)
    requires |message| <= 1000
    ensures EncodeMessage(ENGINE, kind, message) == Ok(Sent(kind, message))
    ensures Decode(Sent(kind, message)) == Ok(Envelopes.Envelope.Envelope(PROTOCOL_VERSION, kind, message))
  {
    Envelopes.DecodeEncoded(Envelopes.Envelope.Envelope(PROTOCOL_VERSION, kind, message));
  }

  // ---- The operations of the run ----

  lemma Initializes(identity: Byte)
    ensures var o := Initialize(ENGINE, [identity], None, KEY);
            o.storage == Fresh(identity) && o.result.Ok? && o.result.value.keyPackage == [identity]
  {
    KeysApart();
    FreshExports(identity);
    FreshReads(identity);
    var s :=
        map[SignerKey(KEY) := KEY][IDENTITY_KEY := [identity]][SIGNATURE_PUBLIC_KEY := KEY][ROOT_PUBLIC_KEY := KEY];
    assert s == Fresh(identity);
    hide Export, IdentityAndSigner;
    assert GenerateKeyPackage(ENGINE, s, KEY) == Outcome(s, Ok([identity]));
  }

  lemma CreatesRoom(identity: Byte)
    ensures var o := CreateGroup(ENGINE, Fresh(identity), ROOM, []);
            o.storage == Device(identity, [identity]) && o.result.Ok?
  {
    hide Export, IdentityAndSigner, Fresh;
    FreshReads(identity);
    DeviceExports(identity, [identity]);
  }

  lemma Adds(identity: Byte, history: Bytes, member: Byte)
    requires IsHistory(history) && |history| < 900
    ensures var o := AddMember(ENGINE, Device(identity, history), ROOM, [member], []);
            && o.storage == Device(identity, history + [ADDS, member])
            && o.result.Ok?
            && o.result.value.commit == Sent(EnvelopeKind.Commit, history + [ADDS, member])
            && o.result.value.welcome == Sent(EnvelopeKind.Welcome, history + [ADDS, member])
  {
    hide Export, IdentityAndSigner, Fresh, LoadGroup, EncodeMessage, Sent, MembersOf, Device, IsHistory;
    HistoryExtends(history, [ADDS, member]);
    var s, after := Device(identity, history), history + [ADDS, member];
    DeviceReads(identity, history);
    DeviceExports(identity, after);
    MessageSent(EnvelopeKind.Commit, after);
    MessageSent(EnvelopeKind.Welcome, after);
    DeviceMoves(identity, history, after);
    Proposes(s, history, [ADDS, member]);
    assert [ADDS] + [member] == [ADDS, member];
  }

  lemma Removes(identity: Byte, history: Bytes, member: Byte)
    requires IsHistory(history) && |history| < 900 && IndexOf(MembersOf(history), Named([member])).Some?
    ensures var o := RemoveMember(ENGINE, Device(identity, history), ROOM, [member], []);
            && o.storage == Device(identity, history + [REMOVES, member])
            && o.result.Ok?
            && o.result.value.commit == Sent(EnvelopeKind.Commit, history + [REMOVES, member])
  {
    hide Export, IdentityAndSigner, Fresh, LoadGroup, EncodeMessage, Sent, Device, IndexOf, MembersOf, RemoveMember,
         ENGINE, IsHistory;
    HistoryExtends(history, [REMOVES, member]);
    var s, after := Device(identity, history), history + [REMOVES, member];
    RemovalSteps(s, history, member, Signer(KEY, KEY));
    DeviceReads(identity, history);
    DeviceExports(identity, after);
    MessageSent(EnvelopeKind.Commit, after);
    DeviceMoves(identity, history, after);
    RemovedBy(ENGINE, s, ROOM, [member], [], GroupOf(history), Credential([identity], KEY, Signer(KEY, KEY)),
              Proposed(GroupOf(after), after, after), Device(identity, after), Sent(EnvelopeKind.Commit, after));
  }

  /** A removal, each of whose steps succeeds. */
  lemma RemovedBy(e: Engine, s: Storage, groupId: Bytes, identity: Bytes, random: Random, g: Group, c: Credential,
                  p: Proposed, after: Storage, commit: Bytes)
    requires identity != [] && IdentityAndSigner(e, s) == Ok(c) && LoadGroup(e, s, groupId) == Ok(g)
    requires e.leafIndex(g, identity).Some?
    requires e.removeMembers(s, g, c.signer, e.leafIndex(g, identity).value, random) == Effect(s, Ok(p))
    requires e.mergePending(s, p.group) == Effect(after, Ok(p.group))
    requires EncodeMessage(e, EnvelopeKind.Commit, p.commit) == Ok(commit) && Export(after).Ok?
    ensures var o := RemoveMember(e, s, groupId, identity, random);
            o.storage == after && o.result.Ok? && o.result.value.commit == commit
  {
    hide IdentityAndSigner, LoadGroup, EncodeMessage, Export;
  }

  lemma RemovalSteps(s: Storage, history: Bytes, member: Byte, k: Signer)
    requires IsHistory(history) && IndexOf(MembersOf(history), Named([member])).Some?
    ensures IsHistory(history + [REMOVES, member])
    ensures var g, after := GroupOf(history), history + [REMOVES, member];
            && ENGINE.leafIndex(g, [member]).Some?
            && ENGINE.removeMembers(s, g, k, ENGINE.leafIndex(g, [member]).value, []) ==
               Effect(s, Ok(Proposed(GroupOf(after), after, after)))
            && ENGINE.mergePending(s, GroupOf(after)) == Effect(s[GROUP_KEY := after], Ok(GroupOf(after)))
  {
    hide MembersOf, IndexOf, Propose, Merge, IsHistory;
    HistoryExtends(history, [REMOVES, member]);
    Proposes(s, history, [REMOVES, member]);
    assert [REMOVES] + [member] == [REMOVES, member];
  }

  lemma DeviceMoves(identity: Byte, before: Bytes, after: Bytes)
    ensures Device(identity, before)[GROUP_KEY := after] == Device(identity, after)
  {
    hide Fresh;
  }

  lemma Proposes(s: Storage, history: Bytes, commit: Bytes)
    requires IsHistory(history) && |commit| == 2 && IsHistory(history + commit)
    ensures var after := history + commit;
            && Propose(s, GroupOf(history), commit) == Effect(s, Ok(Proposed(GroupOf(after), after, after)))
            && Merge(s, GroupOf(after), after) == Effect(s[GROUP_KEY := after], Ok(GroupOf(after)))
  {
    hide MembersOf;
  }

  /** Joining by a welcome takes over its history, whatever the device had before. */
  lemma JoinsRoom(identity: Byte, before: Storage, history: Bytes)
    requires before[GROUP_KEY := history] == Device(identity, history) && IsHistory(history) && |history| <= 1000
    ensures var o := JoinGroup(ENGINE, before, Sent(EnvelopeKind.Welcome, history));
            o.storage == Device(identity, history) && o.result.Ok?
  {
    hide Export, Fresh, Decode, Sent, MembersOf, Device;
    MessageSent(EnvelopeKind.Welcome, history);
    DeviceExports(identity, history);
  }

  /** A message encrypted in the room is read by whoever is in it. */
  lemma Reads(sender: Byte, reader: Byte, history: Bytes, plaintext: Bytes)
    requires IsHistory(history) && |history| <= 500 && 0 < |plaintext| < 500
    ensures var sent := Encrypt(ENGINE, Device(sender, history), ROOM, plaintext, []);
            && sent.result.Ok? && sent.storage == Device(sender, history)
            && var read := Decrypt(ENGINE, Device(reader, history), ROOM, sent.result.value.ciphertext);
               read.result.Ok? && read.result.value.plaintext == plaintext && read.storage == Device(reader, history)
  {
    hide Export, IdentityAndSigner, Fresh, LoadGroup, Decode, EncodeMessage, Sent, MembersOf, Device;
    var message := Message(EpochOf(history), plaintext);
    DeviceReads(sender, history);
    DeviceReads(reader, history);
    DeviceExports(sender, history);
    DeviceExports(reader, history);
    MessageSent(EnvelopeKind.Application, message);
    MessageRead(EpochOf(history), plaintext);
  }

  // ---- Two in a room ----

  /** The room with both devices in it. */
  const BOTH: Bytes := [1, ADDS, 2]

  /** From nothing, one creates the room and adds the other, who joins: they agree. */
  lemma TwoInARoom()
    ensures Lawful(ENGINE) && FollowsRfc(ENGINE, MEANING)
    ensures var a := Initialize(ENGINE, [1], None, KEY);
            var b := Initialize(ENGINE, [2], None, KEY);
            var created := CreateGroup(ENGINE, a.storage, ROOM, []);
            && a.result.Ok? && b.result.Ok? && created.result.Ok?
            && var added := AddMember(ENGINE, created.storage, ROOM, b.result.value.keyPackage, []);
               && added.result.Ok? && added.storage == Device(1, BOTH)
               && var joined := JoinGroup(ENGINE, b.storage, added.result.value.welcome);
                  joined.result.Ok? && joined.storage == Device(2, BOTH)
  {
    hide Lawful, FollowsRfc, Initialize, CreateGroup, AddMember, JoinGroup, Device, Fresh, Sent;
    LawfulEngine();
    FollowsRfcEngine();
    Initializes(1);
    Initializes(2);
    CreatesRoom(1);
    Adds(1, [1], 2);
    assert [1] + [ADDS, 2] == BOTH;
    JoinsFresh(2, BOTH);
  }

  lemma JoinsFresh(identity: Byte, history: Bytes)
    requires IsHistory(history) && |history| <= 1000
    ensures var o := JoinGroup(ENGINE, Fresh(identity), Sent(EnvelopeKind.Welcome, history));
            o.storage == Device(identity, history) && o.result.Ok?
  {
    hide JoinGroup, Sent;
    JoinsRoom(identity, Fresh(identity), history);
  }

  lemma BothNamed()
    ensures IsHistory(BOTH) && IsHistory(BOTH + [REMOVES, 2])
    ensures MembersOf(BOTH) == [Named([1]), Named([2])]
    ensures IndexOf(MembersOf(BOTH), Named([2])).Some?
    ensures MembersOf(BOTH + [REMOVES, 2]) == [Named([1])]
  {
    assert BOTH[..1] == [1];
    var gone := BOTH + [REMOVES, 2];
    assert gone[..3] == BOTH;
    assert [1][0] != [2][0];
    var members := [Named([1]), Named([2])];
    assert members[1..] == [Named([2])] && members[1..][1..] == [];
  }

  /** In the room one writes and the other reads, and then one removes the other and is alone in its list. */
  lemma ReadAndRemoved()
    ensures var sent := Encrypt(ENGINE, Device(1, BOTH), ROOM, [42], []);
            && sent.result.Ok?
            && var read := Decrypt(ENGINE, Device(2, BOTH), ROOM, sent.result.value.ciphertext);
               read.result.Ok? && read.result.value.plaintext == [42]
    ensures ListMembers(ENGINE, Device(1, BOTH), ROOM) == Ok([[1], [2]])
    ensures var removed := RemoveMember(ENGINE, Device(1, BOTH), ROOM, [2], []);
            removed.result.Ok? && ListMembers(ENGINE, removed.storage, ROOM) == Ok([[1]])
  {
    hide Encrypt, Decrypt, RemoveMember, ListMembers, Device, MembersOf, IndexOf, IsHistory, Sort, Identities;
    BothNamed();
    Reads(1, 2, BOTH, [42]);
    Removes(1, BOTH, 2);
    HistoryExtends(BOTH, [REMOVES, 2]);
    ListsTwo();
    Lists(1, BOTH);
    Lists(1, BOTH + [REMOVES, 2]);
  }

  lemma Lists(identity: Byte, history: Bytes)
    requires IsHistory(history) && Identities(MembersOf(history)).Ok?
    ensures ListMembers(ENGINE, Device(identity, history), ROOM) ==
            Ok(Sort(Identities(MembersOf(history)).value, BytesLe))
  {
    hide LoadGroup, Device, MembersOf, IsHistory, Identities, Sort;
    DeviceReads(identity, history);
  }

  lemma ListsTwo()
    ensures Identities([Named([1]), Named([2])]) == Ok([[1], [2]]) && Sort([[1], [2]], BytesLe) == [[1], [2]]
    ensures Identities([Named([1])]) == Ok([[1]]) && Sort([[1]], BytesLe) == [[1]]
  {
    assert BytesLe([1], [2]);
    BytesLeTotal();
    hide Sort, BytesLe;
    var members, names: seq<Bytes> := [Named([1]), Named([2])], [[1], [2]];
    assert members[1..] == [Named([2])];
    SortFixesSorted(names, BytesLe);
    SortFixesSorted([[1]], BytesLe);
  }

  // ---- The fork ----

  lemma AddCommits(identity: Byte, history: Bytes, member: Byte)
    requires IsHistory(history) && |history| < 900
    ensures CommitsTo(ENGINE, Device(identity, history), ROOM, Adding([member]), [],
                      Sent(EnvelopeKind.Commit, history + [ADDS, member]), Device(identity, history + [ADDS, member]))
  {
    hide AddMember, Device, Sent;
    Adds(identity, history, member);
  }

  const APART: Bytes := [1, ADDS, 2, ADDS, 3]
  const ASUNDER: Bytes := [1, ADDS, 2, ADDS, 4]

  lemma Branches()
    ensures IsHistory(BOTH) && IsHistory(APART) && IsHistory(ASUNDER)
    ensures BOTH + [ADDS, 3] == APART && BOTH + [ADDS, 4] == ASUNDER
  {
  }

  ghost predicate Refuses(s: Storage, commit: Bytes) {
    forall again ::
      var (r, after) := Live(ENGINE, s, Command(PROCESS_COMMIT, [ROOM, commit], again));
      r.Err? && after == s
  }

  /** The two storages left when each has added someone to the same room. */
  lemma Parted()
    ensures LoadGroup(ENGINE, Device(1, APART), ROOM) == Ok(GroupOf(APART))
    ensures LoadGroup(ENGINE, Device(2, ASUNDER), ROOM) == Ok(GroupOf(ASUNDER))
    ensures GroupOf(APART).epoch == GroupOf(ASUNDER).epoch
    ensures multiset(GroupOf(APART).members) != multiset(GroupOf(ASUNDER).members)
    ensures Refuses(Device(1, APART), Sent(EnvelopeKind.Commit, ASUNDER))
    ensures Refuses(Device(2, ASUNDER), Sent(EnvelopeKind.Commit, APART))
  {
    hide FollowsRfc, LoadGroup, Live, Device, Sent, CommitsTo, MembersOf;
    Branches();
    FollowsRfcEngine();
    AddCommits(1, BOTH, 3);
    AddCommits(2, BOTH, 4);
    DeviceReads(1, BOTH);
    DeviceReads(2, BOTH);
    DeviceReads(1, APART);
    DeviceReads(2, ASUNDER);
    assert [3][0] != [4][0];
    ForkExactly(ENGINE, MEANING, ROOM, Device(1, BOTH), Device(2, BOTH), Adding([3]), Adding([4]), [], [],
                Sent(EnvelopeKind.Commit, APART), Sent(EnvelopeKind.Commit, ASUNDER),
                Device(1, APART), Device(2, ASUNDER));
  }

  /**
   Then each adds someone, at the same epoch: they stand at equal epochs with different members, and refuse
   each other's commit through PROCESS_COMMIT with their state as it was.  A welcome still brings one over.
   */
  lemma CommitsAtOneEpochFork()
    ensures var a := AddMember(ENGINE, Device(1, BOTH), ROOM, [3], []);
            var b := AddMember(ENGINE, Device(2, BOTH), ROOM, [4], []);
            && a.result.Ok? && b.result.Ok?
            && LoadGroup(ENGINE, a.storage, ROOM) == Ok(GroupOf(APART))
            && LoadGroup(ENGINE, b.storage, ROOM) == Ok(GroupOf(ASUNDER))
            && GroupOf(APART).epoch == GroupOf(ASUNDER).epoch
            && multiset(GroupOf(APART).members) != multiset(GroupOf(ASUNDER).members)
            && Refuses(a.storage, b.result.value.commit) && Refuses(b.storage, a.result.value.commit)
            && var mended := JoinGroup(ENGINE, a.storage, b.result.value.welcome);
               mended.result.Ok? && LoadGroup(ENGINE, mended.storage, ROOM) == Ok(GroupOf(ASUNDER))
  {
    hide AddMember, JoinGroup, LoadGroup, Refuses, Device, Sent, GroupOf;
    Branches();
    Adds(1, BOTH, 3);
    Adds(2, BOTH, 4);
    Parted();
    DeviceReads(1, ASUNDER);
    JoinsDevice(1, APART, ASUNDER);
  }

  lemma JoinsDevice(identity: Byte, before: Bytes, history: Bytes)
    requires IsHistory(history) && |history| <= 1000
    ensures var o := JoinGroup(ENGINE, Device(identity, before), Sent(EnvelopeKind.Welcome, history));
            o.storage == Device(identity, history) && o.result.Ok?
  {
    hide JoinGroup, Sent;
    assert Device(identity, before)[GROUP_KEY := history] == Device(identity, history);
    JoinsRoom(identity, Device(identity, before), history);
  }
}
