/**
 All devices of one group and the log of their commits, over every run: own commits by immediate merge,
 others' by PROCESS_COMMIT in any order and any number of times, joins by welcome, traffic between, and
 whatever else the devices do aside from the group.
 */
module GroupRuns {
  import opened Wrappers
  import opened Orders
  import opened ByteStrings
  import opened StateCodec
  import opened Engines
  import opened Sessions
  import opened Commands
  import opened Refinement
  import opened GroupLaws
  import opened Convergence
  import opened GroupFrames

  /**
   The storage each device threads, what the delivery service has let through, one commit an epoch, and what
   each commit was asked for.
   */
  datatype World = World(devices: map<nat, Storage>, commits: seq<Bytes>, welcomes: seq<Bytes>, requests: seq<Request>)

  datatype Event =
    | Adds(device: nat, keyPackage: Bytes, random: Random)
    | Removes(device: nat, identity: Bytes, random: Random)
    | Delivers(device: nat, index: nat, random: Random)
    | Joins(device: nat, index: nat, random: Random)
    | Encrypts(device: nat, plaintext: Bytes, random: Random)
    | Decrypts(device: nat, application: Bytes, random: Random)
    | DoesAside(device: nat, command: Command)

  ghost predicate AtEpoch(e: Engine, s: Storage, groupId: Bytes, epoch: nat) {
    LoadGroup(e, s, groupId).Ok? && LoadGroup(e, s, groupId).value.epoch == epoch
  }

  /** Only a device at the newest epoch may commit; any commit may be delivered, stale ones included. */
  ghost predicate Possible(e: Engine, m: Meaning, groupId: Bytes, w: World, event: Event) {
    && event.device in w.devices
    && (event.Adds? || event.Removes? ==> AtEpoch(e, w.devices[event.device], groupId, |w.commits|))
    && (event.Delivers? ==> event.index < |w.commits|)
    && (event.Joins? ==> event.index < |w.welcomes|)
    && (event.DoesAside? ==> Aside(m, groupId, event.command))
  }

  function CommandOf(groupId: Bytes, w: World, event: Event): Command
    requires event.Delivers? ==> event.index < |w.commits|
    requires event.Joins? ==> event.index < |w.welcomes|
  {
    match event
    case Adds(_, keyPackage, random) => Command(ADD_MEMBER, [groupId, keyPackage], random)
    case Removes(_, identity, random) => Command(REMOVE_MEMBER, [groupId, identity], random)
    case Delivers(_, index, random) => Command(PROCESS_COMMIT, [groupId, w.commits[index]], random)
    case Joins(_, index, random) => Command(JOIN_GROUP, [w.welcomes[index]], random)
    case Encrypts(_, plaintext, random) => Command(ENCRYPT, [groupId, plaintext], random)
    case Decrypts(_, application, random) => Command(DECRYPT, [groupId, application], random)
    case DoesAside(_, command) => command
  }

  /** A successful addition or removal puts its commit, field 1, on the log; field 2 of an addition is its welcome. */
  ghost function After(e: Engine, m: Meaning, groupId: Bytes, w: World, event: Event): World
    requires Possible(e, m, groupId, w, event)
  {
    var (r, s) := Live(e, w.devices[event.device], CommandOf(groupId, w, event));
    var devices := w.devices[event.device := s];
    match event
    case Adds(_, keyPackage, _) =>
      if r.Ok? && |r.value| > 2 then
        World(devices, w.commits + [r.value[1]], w.welcomes + [r.value[2]], w.requests + [Adding(keyPackage)])
      else
        w.(devices := devices)
    case Removes(_, identity, _) =>
      if r.Ok? && |r.value| > 1 then
        World(devices, w.commits + [r.value[1]], w.welcomes, w.requests + [Removing(identity)])
      else
        w.(devices := devices)
    case _ => w.(devices := devices)
  }

  ghost predicate Run(e: Engine, m: Meaning, groupId: Bytes, w: World, events: seq<Event>, end: World)
    decreases |events|
  {
    if events == [] then
      end == w
    else
      && Possible(e, m, groupId, w, events[0])
      && Run(e, m, groupId, After(e, m, groupId, w, events[0]), events[1..], end)
  }

  // ---- The invariant ----

  /** The members after the first `n` requests: the first ones, and those added since, without those removed. */
  function RosterAt(m: Meaning, base: multiset<Member>, requests: seq<Request>, n: nat): multiset<Member>
    requires n <= |requests|
  {
    if n == 0 then
      base
    else
      Apply(Requested(m, [], 0, requests[n - 1]), RosterAt(m, base, requests, n - 1))
  }

  ghost predicate InStep(e: Engine, m: Meaning, groupId: Bytes, base: multiset<Member>, requests: seq<Request>,
                         s: Storage)
  {
    match e.loadGroup(s, groupId)
    case Ok(Some(g)) => g.epoch <= |requests| && multiset(g.members) == RosterAt(m, base, requests, g.epoch)
    case _ => true
  }

  ghost predicate CommitAt(m: Meaning, groupId: Bytes, commits: seq<Bytes>, requests: seq<Request>, i: nat)
    requires i < |commits| && i < |requests|
  {
    ChangeOf(m, commits[i]) == Some(Requested(m, groupId, i, requests[i]))
  }

  ghost predicate WelcomeTrue(m: Meaning, groupId: Bytes, base: multiset<Member>, requests: seq<Request>,
                              welcome: Bytes)
  {
    match RosterOf(m, welcome)
    case Some(r) => r.group == groupId && r.epoch <= |requests| && r.members == RosterAt(m, base, requests, r.epoch)
    case None => false
  }

  ghost predicate Inv(e: Engine, m: Meaning, groupId: Bytes, base: multiset<Member>, w: World) {
    && |w.requests| == |w.commits|
    && (forall i | 0 <= i < |w.commits| :: CommitAt(m, groupId, w.commits, w.requests, i))
    && (forall x | x in w.welcomes :: WelcomeTrue(m, groupId, base, w.requests, x))
    && (forall d | d in w.devices :: InStep(e, m, groupId, base, w.requests, w.devices[d]))
  }

  lemma {:induction false} RosterExtends(m: Meaning, base: multiset<Member>, requests: seq<Request>,
                                         more: seq<Request>, n: nat)
    requires n <= |requests|
    ensures RosterAt(m, base, requests + more, n) == RosterAt(m, base, requests, n)
  {
    hide Apply, Requested;
    if n == 0 {
    } else {
      RosterExtends(m, base, requests, more, n - 1);
      assert (requests + more)[n - 1] == requests[n - 1];
    }
  }

  lemma InStepExtends(e: Engine, m: Meaning, groupId: Bytes, base: multiset<Member>, requests: seq<Request>,
                      more: seq<Request>, s: Storage)
    requires InStep(e, m, groupId, base, requests, s)
    ensures InStep(e, m, groupId, base, requests + more, s)
  {
    match e.loadGroup(s, groupId) {
      case Ok(Some(g)) => RosterExtends(m, base, requests, more, g.epoch);
      case _ =>
    }
  }

  lemma WelcomeExtends(m: Meaning, groupId: Bytes, base: multiset<Member>, requests: seq<Request>, more: seq<Request>,
                       welcome: Bytes)
    requires WelcomeTrue(m, groupId, base, requests, welcome)
    ensures WelcomeTrue(m, groupId, base, requests + more, welcome)
  {
    RosterExtends(m, base, requests, more, RosterOf(m, welcome).value.epoch);
  }

  // ---- What the commands of a run amount to ----

  lemma AddedFields(e: Engine, s: Storage, groupId: Bytes, keyPackage: Bytes, random: Random)
    ensures var (r, after) := Live(e, s, Command(ADD_MEMBER, [groupId, keyPackage], random));
            var o := AddMember(e, s, groupId, keyPackage, random);
            if r.Ok? then
              && o.result.Ok? && after == o.storage && |r.value| > 2
              && r.value[1] == o.result.value.commit && r.value[2] == o.result.value.welcome
            else
              after == s
  {
    hide Live, Operate, AddMember;
    LiveOperates(e, s, Command(ADD_MEMBER, [groupId, keyPackage], random));
    AddArm(e, s, groupId, keyPackage, random);
  }

  lemma RemovedFields(e: Engine, s: Storage, groupId: Bytes, identity: Bytes, random: Random)
    ensures var (r, after) := Live(e, s, Command(REMOVE_MEMBER, [groupId, identity], random));
            var o := RemoveMember(e, s, groupId, identity, random);
            if r.Ok? then
              o.result.Ok? && after == o.storage && |r.value| > 1 && r.value[1] == o.result.value.commit
            else
              after == s
  {
    hide Live, Operate, RemoveMember;
    LiveOperates(e, s, Command(REMOVE_MEMBER, [groupId, identity], random));
    RemoveArm(e, s, groupId, identity, random);
  }

  lemma ProcessedStorage(e: Engine, s: Storage, groupId: Bytes, commit: Bytes, random: Random)
    ensures var (r, after) := Live(e, s, Command(PROCESS_COMMIT, [groupId, commit], random));
            var o := ProcessCommit(e, s, groupId, commit);
            if r.Ok? then o.result.Ok? && after == o.storage else after == s
  {
    hide Live, Operate, ProcessCommit;
    LiveOperates(e, s, Command(PROCESS_COMMIT, [groupId, commit], random));
    ProcessArm(e, s, groupId, commit, random);
  }

  lemma JoinedStorage(e: Engine, s: Storage, welcome: Bytes, random: Random)
    ensures var (r, after) := Live(e, s, Command(JOIN_GROUP, [welcome], random));
            var o := JoinGroup(e, s, welcome);
            if r.Ok? then o.result.Ok? && after == o.storage else after == s
  {
    hide Live, Operate, JoinGroup;
    LiveOperates(e, s, Command(JOIN_GROUP, [welcome], random));
    JoinArm(e, s, welcome, random);
  }

  lemma EncryptedStorage(e: Engine, s: Storage, groupId: Bytes, plaintext: Bytes, random: Random)
    ensures var (r, after) := Live(e, s, Command(ENCRYPT, [groupId, plaintext], random));
            var o := Encrypt(e, s, groupId, plaintext, random);
            if r.Ok? then o.result.Ok? && after == o.storage else after == s
  {
    hide Live, Operate, Encrypt;
    LiveOperates(e, s, Command(ENCRYPT, [groupId, plaintext], random));
    EncryptArm(e, s, groupId, plaintext, random);
  }

  lemma DecryptedStorage(e: Engine, s: Storage, groupId: Bytes, application: Bytes, random: Random)
    ensures var (r, after) := Live(e, s, Command(DECRYPT, [groupId, application], random));
            var o := Decrypt(e, s, groupId, application);
            if r.Ok? then o.result.Ok? && after == o.storage else after == s
  {
    hide Live, Operate, Decrypt;
    LiveOperates(e, s, Command(DECRYPT, [groupId, application], random));
    DecryptArm(e, s, groupId, application, random);
  }

  // ---- Each event keeps the invariant ----

  /** Moving on by the request of one's own epoch keeps a device in step. */
  lemma AdvanceInStep(e: Engine, m: Meaning, groupId: Bytes, base: multiset<Member>, requests: seq<Request>,
                      before: Group, s: Storage, after: Group)
    requires before.id == groupId && before.epoch < |requests|
    requires multiset(before.members) == RosterAt(m, base, requests, before.epoch)
    requires Advances(e, s, before, Requested(m, groupId, before.epoch, requests[before.epoch]), after)
    ensures InStep(e, m, groupId, base, requests, s)
    ensures multiset(after.members) == RosterAt(m, base, requests, after.epoch)
  {
  }

  lemma SameRosterInStep(e: Engine, m: Meaning, groupId: Bytes, base: multiset<Member>, requests: seq<Request>,
                         s: Storage, before: Group)
    requires before.id == groupId && before.epoch <= |requests|
    requires multiset(before.members) == RosterAt(m, base, requests, before.epoch)
    requires SameRoster(e, s, before)
    ensures InStep(e, m, groupId, base, requests, s)
  {
  }

  /** The group a device in step has loaded. */
  lemma InStepGroup(e: Engine, m: Meaning, groupId: Bytes, base: multiset<Member>, requests: seq<Request>, s: Storage)
    requires FollowsRfc(e, m) && InStep(e, m, groupId, base, requests, s) && LoadGroup(e, s, groupId).Ok?
    ensures var g := LoadGroup(e, s, groupId).value;
            && g.id == groupId && g.epoch <= |requests|
            && multiset(g.members) == RosterAt(m, base, requests, g.epoch)
  {
    hide FollowsRfc;
    LoadGroupMeaning(e, m, s, groupId);
  }

  /** A commit made at the newest epoch and merged at once is the next of the log. */
  lemma CommitExtends(e: Engine, m: Meaning, groupId: Bytes, base: multiset<Member>, w: World, s: Storage,
                      request: Request, after: Storage, commit: Bytes, epoch: nat)
    requires FollowsRfc(e, m) && |w.requests| == |w.commits|
    requires InStep(e, m, groupId, base, w.requests, s) && AtEpoch(e, s, groupId, |w.commits|)
    requires Committed(e, m, s, groupId, request, after, commit, epoch)
    ensures var requests := w.requests + [request];
            && CommitAt(m, groupId, w.commits + [commit], requests, |w.commits|)
            && InStep(e, m, groupId, base, requests, after)
            && var g := e.loadGroup(after, groupId).value.value;
               g.epoch == |requests| && multiset(g.members) == RosterAt(m, base, requests, |requests|)
  {
    hide FollowsRfc, LoadGroup, ChangeOf, Requested;
    var before, requests := LoadGroup(e, s, groupId).value, w.requests + [request];
    InStepGroup(e, m, groupId, base, w.requests, s);
    RosterExtends(m, base, w.requests, [request], |w.requests|);
    assert requests[|w.requests|] == request && (w.commits + [commit])[|w.commits|] == commit;
    AdvanceInStep(e, m, groupId, base, requests, before, after, e.loadGroup(after, groupId).value.value);
  }

  /** One device's new storage, and the log and welcomes extended: what is left to show for the whole world. */
  lemma WorldStep(e: Engine, m: Meaning, groupId: Bytes, base: multiset<Member>, w: World, device: nat, s: Storage,
                  commit: Bytes, request: Request, welcomed: seq<Bytes>)
    requires Inv(e, m, groupId, base, w)
    requires CommitAt(m, groupId, w.commits + [commit], w.requests + [request], |w.commits|)
    requires forall x | x in welcomed :: WelcomeTrue(m, groupId, base, w.requests + [request], x)
    requires InStep(e, m, groupId, base, w.requests + [request], s)
    ensures Inv(e, m, groupId, base,
                World(w.devices[device := s], w.commits + [commit], w.welcomes + welcomed, w.requests + [request]))
  {
    hide InStep, WelcomeTrue, ChangeOf, Requested;
    var log, requests := w.commits + [commit], w.requests + [request];
    forall i | 0 <= i < |log|
      ensures CommitAt(m, groupId, log, requests, i)
    {
      if i < |w.commits| {
        assert log[i] == w.commits[i] && requests[i] == w.requests[i] && CommitAt(m, groupId, w.commits, w.requests, i);
      }
    }
    forall x | x in w.welcomes + welcomed
      ensures WelcomeTrue(m, groupId, base, requests, x)
    {
      if x in w.welcomes {
        WelcomeExtends(m, groupId, base, w.requests, [request], x);
      }
    }
    forall d | d in w.devices
      ensures InStep(e, m, groupId, base, requests, w.devices[d])
    {
      InStepExtends(e, m, groupId, base, w.requests, [request], w.devices[d]);
    }
  }

  /** Only one device's storage is in question. */
  lemma QuietStep(e: Engine, m: Meaning, groupId: Bytes, base: multiset<Member>, w: World, device: nat, s: Storage)
    requires Inv(e, m, groupId, base, w) && InStep(e, m, groupId, base, w.requests, s)
    ensures Inv(e, m, groupId, base, w.(devices := w.devices[device := s]))
  {
    hide InStep, WelcomeTrue, CommitAt;
  }

  lemma AddKeepsInv(e: Engine, m: Meaning, groupId: Bytes, base: multiset<Member>, w: World, event: Event)
    requires FollowsRfc(e, m) && Inv(e, m, groupId, base, w) && Possible(e, m, groupId, w, event) && event.Adds?
    ensures Inv(e, m, groupId, base, After(e, m, groupId, w, event))
  {
    hide FollowsRfc, InStep, WelcomeTrue, CommitAt, Live, AddMember, AtEpoch, LoadGroup, Aside, RosterOf;
    var s := w.devices[event.device];
    AddedFields(e, s, groupId, event.keyPackage, event.random);
    var (r, after) := Live(e, s, CommandOf(groupId, w, event));
    if r.Ok? {
      var added, request :=
          AddMember(e, s, groupId, event.keyPackage, event.random).result.value, Adding(event.keyPackage);
      AddAdvances(e, m, s, groupId, event.keyPackage, event.random);
      CommitExtends(e, m, groupId, base, w, s, request, after, added.commit, added.epoch);
      WelcomeTold(e, m, groupId, base, w.requests + [request], after, added.welcome);
      WorldStep(e, m, groupId, base, w, event.device, after, added.commit, request, [added.welcome]);
    } else {
      QuietStep(e, m, groupId, base, w, event.device, s);
    }
  }

  lemma WelcomeTold(e: Engine, m: Meaning, groupId: Bytes, base: multiset<Member>, requests: seq<Request>, s: Storage,
                    welcome: Bytes)
    requires e.loadGroup(s, groupId).Ok? && e.loadGroup(s, groupId).value.Some?
    requires var g := e.loadGroup(s, groupId).value.value;
             && g.epoch == |requests| && multiset(g.members) == RosterAt(m, base, requests, |requests|)
             && RosterOf(m, welcome) == Some(Roster(groupId, g.epoch, multiset(g.members)))
    ensures WelcomeTrue(m, groupId, base, requests, welcome)
  {
    hide RosterOf;
  }

  lemma RemoveKeepsInv(e: Engine, m: Meaning, groupId: Bytes, base: multiset<Member>, w: World, event: Event)
    requires FollowsRfc(e, m) && Inv(e, m, groupId, base, w) && Possible(e, m, groupId, w, event) && event.Removes?
    ensures Inv(e, m, groupId, base, After(e, m, groupId, w, event))
  {
    hide FollowsRfc, InStep, WelcomeTrue, CommitAt, Live, RemoveMember, AtEpoch, LoadGroup, Aside;
    var s := w.devices[event.device];
    RemovedFields(e, s, groupId, event.identity, event.random);
    var (r, after) := Live(e, s, CommandOf(groupId, w, event));
    if r.Ok? {
      var removed, request :=
          RemoveMember(e, s, groupId, event.identity, event.random).result.value, Removing(event.identity);
      RemoveAdvances(e, m, s, groupId, event.identity, event.random);
      CommitExtends(e, m, groupId, base, w, s, request, after, removed.commit, removed.epoch);
      WorldStep(e, m, groupId, base, w, event.device, after, removed.commit, request, []);
      assert w.welcomes + [] == w.welcomes;
    } else {
      QuietStep(e, m, groupId, base, w, event.device, s);
    }
  }

  lemma DeliverKeepsInv(e: Engine, m: Meaning, groupId: Bytes, base: multiset<Member>, w: World, event: Event)
    requires FollowsRfc(e, m) && Inv(e, m, groupId, base, w) && Possible(e, m, groupId, w, event) && event.Delivers?
    ensures Inv(e, m, groupId, base, After(e, m, groupId, w, event))
  {
    hide FollowsRfc, WelcomeTrue, Live, ProcessCommit, LoadGroup, ChangeOf, AtEpoch, Aside, Requested;
    var s, commit := w.devices[event.device], w.commits[event.index];
    ProcessedStorage(e, s, groupId, commit, event.random);
    assert CommitAt(m, groupId, w.commits, w.requests, event.index);
    var (r, next) := Live(e, s, CommandOf(groupId, w, event));
    if r.Ok? {
      var o := ProcessCommit(e, s, groupId, commit);
      ProcessAdvances(e, m, s, groupId, commit);
      InStepGroup(e, m, groupId, base, w.requests, s);
      var before, after := LoadGroup(e, s, groupId).value, e.loadGroup(o.storage, groupId).value.value;
      RequestedEpoch(m, groupId, event.index, w.requests[event.index]);
      AdvanceInStep(e, m, groupId, base, w.requests, before, o.storage, after);
    }
    QuietStep(e, m, groupId, base, w, event.device, next);
  }

  lemma RequestedEpoch(m: Meaning, groupId: Bytes, epoch: nat, request: Request)
    ensures Requested(m, groupId, epoch, request).epoch == epoch
    ensures Requested(m, groupId, epoch, request).group == groupId
  {
  }

  lemma JoinKeepsInv(e: Engine, m: Meaning, groupId: Bytes, base: multiset<Member>, w: World, event: Event)
    requires FollowsRfc(e, m) && Inv(e, m, groupId, base, w) && Possible(e, m, groupId, w, event) && event.Joins?
    ensures Inv(e, m, groupId, base, After(e, m, groupId, w, event))
  {
    hide FollowsRfc, CommitAt, Live, JoinGroup, LoadGroup, RosterOf, AtEpoch, Aside;
    var s, welcome := w.devices[event.device], w.welcomes[event.index];
    JoinedStorage(e, s, welcome, event.random);
    assert WelcomeTrue(m, groupId, base, w.requests, welcome);
    var (r, after) := Live(e, s, CommandOf(groupId, w, event));
    if r.Ok? {
      JoinLands(e, m, s, welcome);
    }
    QuietStep(e, m, groupId, base, w, event.device, after);
  }

  lemma TrafficKeepsInv(e: Engine, m: Meaning, groupId: Bytes, base: multiset<Member>, w: World, event: Event)
    requires FollowsRfc(e, m) && Inv(e, m, groupId, base, w) && Possible(e, m, groupId, w, event)
    requires event.Encrypts? || event.Decrypts?
    ensures Inv(e, m, groupId, base, After(e, m, groupId, w, event))
  {
    hide FollowsRfc, CommitAt, WelcomeTrue, Live, Encrypt, Decrypt, InStep, SameRoster, LoadGroup, AtEpoch, Aside;
    var s := w.devices[event.device];
    var (r, after) := Live(e, s, CommandOf(groupId, w, event));
    if event.Encrypts? {
      EncryptedStorage(e, s, groupId, event.plaintext, event.random);
      if r.Ok? {
        EncryptKeepsRoster(e, m, s, groupId, event.plaintext, event.random);
      }
    } else {
      DecryptedStorage(e, s, groupId, event.application, event.random);
      if r.Ok? {
        DecryptKeepsRoster(e, m, s, groupId, event.application);
      }
    }
    if r.Ok? {
      InStepGroup(e, m, groupId, base, w.requests, s);
      SameRosterInStep(e, m, groupId, base, w.requests, after, LoadGroup(e, s, groupId).value);
    }
    QuietStep(e, m, groupId, base, w, event.device, after);
  }

  lemma AsideKeepsInv(e: Engine, m: Meaning, groupId: Bytes, base: multiset<Member>, w: World, event: Event)
    requires FollowsRfc(e, m) && Inv(e, m, groupId, base, w) && Possible(e, m, groupId, w, event) && event.DoesAside?
    ensures Inv(e, m, groupId, base, After(e, m, groupId, w, event))
  {
    hide FollowsRfc, CommitAt, WelcomeTrue, Live, AtEpoch, Aside;
    var s := w.devices[event.device];
    AsideKeepsGroup(e, m, s, groupId, event.command);
    QuietStep(e, m, groupId, base, w, event.device, Live(e, s, event.command).1);
  }

  lemma {:induction false} RunKeepsInv(e: Engine, m: Meaning, groupId: Bytes, base: multiset<Member>,
                                       w: World, events: seq<Event>, end: World)
    requires FollowsRfc(e, m) && Inv(e, m, groupId, base, w) && Run(e, m, groupId, w, events, end)
    ensures Inv(e, m, groupId, base, end)
    decreases |events|
  {
    hide FollowsRfc, Inv, After, Possible;
    if events == [] {
    } else {
      var event := events[0];
      match event {
        case Adds(_, _, _) => AddKeepsInv(e, m, groupId, base, w, event);
        case Removes(_, _, _) => RemoveKeepsInv(e, m, groupId, base, w, event);
        case Delivers(_, _, _) => DeliverKeepsInv(e, m, groupId, base, w, event);
        case Joins(_, _, _) => JoinKeepsInv(e, m, groupId, base, w, event);
        case DoesAside(_, _) => AsideKeepsInv(e, m, groupId, base, w, event);
        case _ => TrafficKeepsInv(e, m, groupId, base, w, event);
      }
      RunKeepsInv(e, m, groupId, base, After(e, m, groupId, w, event), events[1..], end);
    }
  }

  // ---- Convergence ----

  lemma SameMembersSameIdentities(a: seq<Member>, b: seq<Member>)
    requires multiset(a) == multiset(b)
    ensures Identities(a).Ok? <==> Identities(b).Ok?
    ensures Identities(a).Ok? ==> multiset(Identities(a).value) == multiset(Identities(b).value)
  {
    SameElements(a, b);
    if Identities(a).Ok? {
      var content := (x: Member) => x.content;
      MapPermutes(a, b, content);
      assert Identities(a).value == Map(a, content) && Identities(b).value == Map(b, content);
    }
  }

  /** The list does not depend on the order in which the library iterates the leaves. */
  lemma MemberListForgetsLeafOrder(e: Engine, s: Storage, t: Storage, groupId: Bytes)
    requires LoadGroup(e, s, groupId).Ok? && LoadGroup(e, t, groupId).Ok?
    requires multiset(LoadGroup(e, s, groupId).value.members) == multiset(LoadGroup(e, t, groupId).value.members)
    ensures ListMembers(e, s, groupId) == ListMembers(e, t, groupId)
  {
    hide LoadGroup;
    var a, b := LoadGroup(e, s, groupId).value.members, LoadGroup(e, t, groupId).value.members;
    SameMembersSameIdentities(a, b);
    if Identities(a).Ok? {
      BytesLeTotal();
      SortForgetsOrder(Identities(a).value, Identities(b).value, BytesLe);
    }
  }

  /**
   After every run in which one commit passes per epoch, two devices at equal epochs hold the same members
   and answer LIST_MEMBERS with the same bytes.
   */
  lemma DevicesConverge(e: Engine, m: Meaning, groupId: Bytes, base: multiset<Member>,
                        start: World, events: seq<Event>, end: World, d: nat, f: nat, p: Random, q: Random)
    requires FollowsRfc(e, m) && Inv(e, m, groupId, base, start) && Run(e, m, groupId, start, events, end)
    requires d in end.devices && f in end.devices
    requires LoadGroup(e, end.devices[d], groupId).Ok?
    requires AtEpoch(e, end.devices[f], groupId, LoadGroup(e, end.devices[d], groupId).value.epoch)
    ensures multiset(LoadGroup(e, end.devices[d], groupId).value.members) ==
            multiset(LoadGroup(e, end.devices[f], groupId).value.members)
    ensures Operate(e, end.devices[d], LIST_MEMBERS, [groupId], p).result ==
            Operate(e, end.devices[f], LIST_MEMBERS, [groupId], q).result
  {
    hide FollowsRfc, Run, LoadGroup, ListMembers, Operate;
    RunKeepsInv(e, m, groupId, base, start, events, end);
    var s, t := end.devices[d], end.devices[f];
    assert InStep(e, m, groupId, base, end.requests, s) && InStep(e, m, groupId, base, end.requests, t);
    InStepGroup(e, m, groupId, base, end.requests, s);
    InStepGroup(e, m, groupId, base, end.requests, t);
    MemberListForgetsLeafOrder(e, s, t, groupId);
    ListArm(e, s, groupId, p);
    ListArm(e, t, groupId, q);
  }

  // ---- From creation ----

  /** A world in which one device has just created the group and no other has it starts the invariant. */
  lemma CreationStarts(e: Engine, m: Meaning, groupId: Bytes, w: World, creator: nat, s: Storage, random: Random)
    requires FollowsRfc(e, m) && CreateGroup(e, s, groupId, random).result.Ok?
    requires w.commits == [] && w.welcomes == [] && w.requests == []
    requires creator in w.devices && w.devices[creator] == CreateGroup(e, s, groupId, random).storage
    requires forall d | d in w.devices && d != creator :: LoadGroup(e, w.devices[d], groupId) == Err(GroupNotFound)
    ensures IdentityAndSigner(e, s).Ok?
    ensures Inv(e, m, groupId, multiset{Named(IdentityAndSigner(e, s).value.identity)}, w)
  {
    hide FollowsRfc, CreateGroup, IdentityAndSigner, ValidateGroupId;
    CreateStarts(e, m, s, groupId, random);
  }

  function NamesAfter(m: Meaning, request: Request, names: multiset<Bytes>): multiset<Bytes> {
    var subject := Subject(m, request);
    match request
    case Adding(_) => if subject.basic then names + multiset{subject.content} else names
    case Removing(_) => names - multiset{subject.content}
  }

  /** The identities of the creator and of those added, without those removed. */
  function NamesAt(m: Meaning, creator: Bytes, requests: seq<Request>, n: nat): multiset<Bytes>
    requires n <= |requests|
  {
    if n == 0 then multiset{creator} else NamesAfter(m, requests[n - 1], NamesAt(m, creator, requests, n - 1))
  }

  ghost predicate NamesMember(names: multiset<Bytes>, roster: multiset<Member>, x: Member) {
    x.basic ==> roster[x] == names[x.content]
  }

  lemma RequestNames(m: Meaning, request: Request, names: multiset<Bytes>, roster: multiset<Member>, x: Member)
    requires NamesMember(names, roster, x)
    ensures NamesMember(NamesAfter(m, request, names), Apply(Requested(m, [], 0, request), roster), x)
  {
    var subject := Subject(m, request);
    assert subject.basic && x.basic ==> (x == subject <==> x.content == subject.content);
  }

  lemma {:induction false} RosterNames(m: Meaning, creator: Bytes, requests: seq<Request>, n: nat, x: Member)
    requires n <= |requests|
    ensures NamesMember(NamesAt(m, creator, requests, n), RosterAt(m, multiset{Named(creator)}, requests, n), x)
  {
    hide Apply, Requested, NamesAfter;
    if n == 0 {
      assert x == Named(creator) <==> x.basic && x.content == creator;
    } else {
      RosterNames(m, creator, requests, n - 1, x);
      var roster, names := RosterAt(m, multiset{Named(creator)}, requests, n - 1), NamesAt(m, creator, requests, n - 1);
      RequestNames(m, requests[n - 1], names, roster, x);
      hide NamesMember;
    }
  }

  /** The first `n` requests added only members with basic credentials. */
  ghost predicate BasicOnly(m: Meaning, requests: seq<Request>, n: nat)
    requires n <= |requests|
  {
    forall i | 0 <= i < n :: Subject(m, requests[i]).basic
  }

  ghost predicate AllBasic(roster: multiset<Member>) {
    forall x | x in roster :: x.basic
  }

  /** No request removes a member of another credential. */
  lemma RequestBasic(m: Meaning, request: Request, roster: multiset<Member>)
    ensures AllBasic(Apply(Requested(m, [], 0, request), roster)) <==>
            AllBasic(roster) && Subject(m, request).basic
  {
    var subject, after := Subject(m, request), Apply(Requested(m, [], 0, request), roster);
    forall x: Member | !x.basic
      ensures x in after <==> x in roster || x == subject
    {
      assert after[x] == roster[x] + if x == subject then 1 else 0;
    }
  }

  lemma BasicOnlyStep(m: Meaning, requests: seq<Request>, n: nat)
    requires 0 < n <= |requests|
    ensures BasicOnly(m, requests, n) <==> BasicOnly(m, requests, n - 1) && Subject(m, requests[n - 1]).basic
  {
    hide Subject;
  }

  lemma {:induction false} OthersStay(m: Meaning, creator: Bytes, requests: seq<Request>, n: nat)
    requires n <= |requests|
    ensures BasicOnly(m, requests, n) <==> AllBasic(RosterAt(m, multiset{Named(creator)}, requests, n))
  {
    hide Apply, Requested, Subject;
    if n == 0 {
    } else {
      hide AllBasic, BasicOnly;
      OthersStay(m, creator, requests, n - 1);
      BasicOnlyStep(m, requests, n);
      RequestBasic(m, requests[n - 1], RosterAt(m, multiset{Named(creator)}, requests, n - 1));
    }
  }

  lemma {:induction false} IdentityCount(members: seq<Member>, identity: Bytes)
    requires Identities(members).Ok?
    ensures multiset(Identities(members).value)[identity] == multiset(members)[Named(identity)]
  {
    if members == [] {
    } else {
      var first, rest := members[0], Identities(members[1..]).value;
      IdentityCount(members[1..], identity);
      assert Identities(members).value == [first.content] + rest && first.basic;
      hide Identities;
      assert members == [first] + members[1..];
      assert multiset(members) == multiset{first} + multiset(members[1..]);
      assert multiset([first.content] + rest) == multiset{first.content} + multiset(rest);
      assert first == Named(identity) <==> first.content == identity;
    }
  }

  /**
   After every run that starts with a creation, each device that has the group lists its members if and only if
   all those added before its epoch had basic credentials; the list then is, in ascending order, the creator and
   those added before its epoch, without those removed before it.
   */
  lemma ListIsHistory(e: Engine, m: Meaning, groupId: Bytes, creator: Bytes, start: World, events: seq<Event>,
                      end: World, d: nat)
    requires FollowsRfc(e, m) && Run(e, m, groupId, start, events, end)
    requires Inv(e, m, groupId, multiset{Named(creator)}, start)
    requires d in end.devices && LoadGroup(e, end.devices[d], groupId).Ok?
    ensures LoadGroup(e, end.devices[d], groupId).value.epoch <= |end.requests|
    ensures var epoch, listed :=
              LoadGroup(e, end.devices[d], groupId).value.epoch, ListMembers(e, end.devices[d], groupId);
            && (listed.Ok? <==> BasicOnly(m, end.requests, epoch))
            && (listed.Ok? ==>
                  Sorted(listed.value, BytesLe) && multiset(listed.value) == NamesAt(m, creator, end.requests, epoch))
            && (listed.Err? ==> listed.error == UnsupportedCredential)
  {
    hide FollowsRfc, Run, LoadGroup, NamesAt, RosterAt, BasicOnly;
    RunKeepsInv(e, m, groupId, multiset{Named(creator)}, start, events, end);
    var s := end.devices[d];
    assert InStep(e, m, groupId, multiset{Named(creator)}, end.requests, s);
    InStepGroup(e, m, groupId, multiset{Named(creator)}, end.requests, s);
    var g := LoadGroup(e, s, groupId).value;
    OthersStay(m, creator, end.requests, g.epoch);
    assert forall x :: x in g.members <==> x in multiset(g.members);
    if BasicOnly(m, end.requests, g.epoch) {
      var listed := Identities(g.members).value;
      forall identity
        ensures multiset(listed)[identity] == NamesAt(m, creator, end.requests, g.epoch)[identity]
      {
        IdentityCount(g.members, identity);
        RosterNames(m, creator, end.requests, g.epoch, Named(identity));
      }
      BytesLeTotal();
      SortSorts(listed, BytesLe);
    }
  }
}
