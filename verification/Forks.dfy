/**
 Two commits at one epoch.  A device merges its own commit before anyone has accepted it, so two devices that
 commit at the same epoch refuse each other's commit from then on; they agree about the members exactly when
 they asked for the same change.  For every engine that keeps the laws of groups.
 */
module Forks {
  import opened Wrappers
  import opened ByteStrings
  import opened StateCodec
  import opened Engines
  import opened Sessions
  import opened Commands
  import opened Refinement
  import opened GroupLaws
  import opened Convergence

  /** The request was committed to on this storage, successfully, with this commit and this storage left. */
  ghost predicate CommitsTo(e: Engine, s: Storage, groupId: Bytes, request: Request, random: Random, commit: Bytes,
                            after: Storage)
  {
    match request
    case Adding(keyPackage) =>
      var o := AddMember(e, s, groupId, keyPackage, random);
      o.result.Ok? && commit == o.result.value.commit && after == o.storage
    case Removing(identity) =>
      var o := RemoveMember(e, s, groupId, identity, random);
      o.result.Ok? && commit == o.result.value.commit && after == o.storage
  }

  lemma CommitMoves(e: Engine, m: Meaning, s: Storage, groupId: Bytes, request: Request, random: Random,
                    commit: Bytes, after: Storage)
    requires FollowsRfc(e, m) && CommitsTo(e, s, groupId, request, random, commit, after)
    ensures LoadGroup(e, s, groupId).Ok?
    ensures var before := LoadGroup(e, s, groupId).value;
            var change := Requested(m, groupId, before.epoch, request);
            && ChangeOf(m, commit) == Some(change)
            && LoadGroup(e, after, groupId).Ok?
            && Advances(e, after, before, change, LoadGroup(e, after, groupId).value)
            && change.removed <= multiset(before.members)
  {
    hide FollowsRfc, AddMember, RemoveMember, ChangeOf, LoadGroup, Advances, Requested;
    match request {
      case Adding(keyPackage) => AddAdvances(e, m, s, groupId, keyPackage, random);
      case Removing(identity) => RemoveAdvances(e, m, s, groupId, identity, random);
    }
    LoadedAfter(e, s, after, groupId);
    NothingElseRemoved(m, groupId, LoadGroup(e, s, groupId).value, request);
  }

  lemma NothingElseRemoved(m: Meaning, groupId: Bytes, before: Group, request: Request)
    requires request.Removing? ==> Named(request.identity) in multiset(before.members)
    ensures Requested(m, groupId, before.epoch, request).removed <= multiset(before.members)
  {
  }

  /** Once past its epoch, a device refuses a commit for good, however much it has moved on since. */
  lemma PassedCommitRefused(e: Engine, m: Meaning, s: Storage, groupId: Bytes, request: Request, random: Random,
                            commit: Bytes, after: Storage, later: Storage, again: Random)
    requires FollowsRfc(e, m) && CommitsTo(e, s, groupId, request, random, commit, after)
    requires LoadGroup(e, s, groupId).Ok? && LoadGroup(e, later, groupId).Ok?
    requires LoadGroup(e, s, groupId).value.epoch < LoadGroup(e, later, groupId).value.epoch
    ensures var (r, left) := Live(e, later, Command(PROCESS_COMMIT, [groupId, commit], again));
            r.Err? && left == later
  {
    hide FollowsRfc, CommitsTo, ChangeOf, LoadGroup, Live;
    CommitMoves(e, m, s, groupId, request, random, commit, after);
    StaleCommitRefused(e, m, later, groupId, commit, again);
  }

  /**
   A device's own commit, an addition or a removal, is merged already: the device stands past it, and there and
   at every later epoch refuses it when it comes back.
   */
  lemma OwnCommitRefused(e: Engine, m: Meaning, s: Storage, groupId: Bytes, request: Request, random: Random,
                         commit: Bytes, after: Storage)
    requires FollowsRfc(e, m) && CommitsTo(e, s, groupId, request, random, commit, after)
    ensures LoadGroup(e, s, groupId).Ok? && LoadGroup(e, after, groupId).Ok?
    ensures LoadGroup(e, s, groupId).value.epoch < LoadGroup(e, after, groupId).value.epoch
    ensures forall later, again | LoadGroup(e, later, groupId).Ok? &&
              LoadGroup(e, later, groupId).value.epoch >= LoadGroup(e, after, groupId).value.epoch ::
              && Live(e, later, Command(PROCESS_COMMIT, [groupId, commit], again)).0.Err?
              && Live(e, later, Command(PROCESS_COMMIT, [groupId, commit], again)).1 == later
  {
    hide FollowsRfc, CommitsTo, ChangeOf, LoadGroup, Live;
    CommitMoves(e, m, s, groupId, request, random, commit, after);
    forall later, again | LoadGroup(e, later, groupId).Ok? &&
      LoadGroup(e, later, groupId).value.epoch >= LoadGroup(e, after, groupId).value.epoch
      ensures Live(e, later, Command(PROCESS_COMMIT, [groupId, commit], again)).0.Err?
      ensures Live(e, later, Command(PROCESS_COMMIT, [groupId, commit], again)).1 == later
    {
      PassedCommitRefused(e, m, s, groupId, request, random, commit, after, later, again);
    }
  }

  /** Changes of one roster have the same result exactly when they are the same change. */
  lemma RequestsDiffer(m: Meaning, groupId: Bytes, epoch: nat, roster: multiset<Member>, p: Request, q: Request)
    requires Requested(m, groupId, epoch, p).removed <= roster && Requested(m, groupId, epoch, q).removed <= roster
    ensures Apply(Requested(m, groupId, epoch, p), roster) == Apply(Requested(m, groupId, epoch, q), roster) <==>
            p.Adding? == q.Adding? && Subject(m, p) == Subject(m, q)
  {
    var x, y := Subject(m, p), Subject(m, q);
    var a, b := Apply(Requested(m, groupId, epoch, p), roster), Apply(Requested(m, groupId, epoch, q), roster);
    assert a[x] == if p.Adding? then roster[x] + 1 else roster[x] - 1;
    assert b[y] == if q.Adding? then roster[y] + 1 else roster[y] - 1;
    assert x != y ==> b[x] == roster[x];
  }

  /**
   Two devices of one group, at one epoch and with the same members, that both commit: each then refuses the
   other's commit, at once and at every later epoch, leaving its state as it was; they stand at equal epochs,
   and with the same members exactly when both asked for the same addition or the same removal.
   */
  lemma ForkExactly(e: Engine, m: Meaning, groupId: Bytes, s: Storage, t: Storage, p: Request, q: Request,
                    x: Random, y: Random, commitP: Bytes, commitQ: Bytes, afterP: Storage, afterQ: Storage)
    requires FollowsRfc(e, m)
    requires CommitsTo(e, s, groupId, p, x, commitP, afterP) && CommitsTo(e, t, groupId, q, y, commitQ, afterQ)
    requires LoadGroup(e, s, groupId).Ok? && LoadGroup(e, t, groupId).Ok?
    requires LoadGroup(e, s, groupId).value.epoch == LoadGroup(e, t, groupId).value.epoch
    requires multiset(LoadGroup(e, s, groupId).value.members) == multiset(LoadGroup(e, t, groupId).value.members)
    ensures LoadGroup(e, afterP, groupId).Ok? && LoadGroup(e, afterQ, groupId).Ok?
    ensures LoadGroup(e, afterP, groupId).value.epoch == LoadGroup(e, afterQ, groupId).value.epoch
    ensures multiset(LoadGroup(e, afterP, groupId).value.members) ==
            multiset(LoadGroup(e, afterQ, groupId).value.members) <==>
            p.Adding? == q.Adding? && Subject(m, p) == Subject(m, q)
    ensures forall later, again | LoadGroup(e, later, groupId).Ok? &&
              LoadGroup(e, later, groupId).value.epoch >= LoadGroup(e, afterP, groupId).value.epoch ::
              && Live(e, later, Command(PROCESS_COMMIT, [groupId, commitQ], again)).0.Err?
              && Live(e, later, Command(PROCESS_COMMIT, [groupId, commitQ], again)).1 == later
              && Live(e, later, Command(PROCESS_COMMIT, [groupId, commitP], again)).0.Err?
              && Live(e, later, Command(PROCESS_COMMIT, [groupId, commitP], again)).1 == later
  {
    hide FollowsRfc, CommitsTo, ChangeOf, LoadGroup, Live, Requested;
    CommitMoves(e, m, s, groupId, p, x, commitP, afterP);
    CommitMoves(e, m, t, groupId, q, y, commitQ, afterQ);
    var before := LoadGroup(e, s, groupId).value;
    RequestsDiffer(m, groupId, before.epoch, multiset(before.members), p, q);
    forall later, again | LoadGroup(e, later, groupId).Ok? &&
      LoadGroup(e, later, groupId).value.epoch >= LoadGroup(e, afterP, groupId).value.epoch
      ensures Live(e, later, Command(PROCESS_COMMIT, [groupId, commitQ], again)).0.Err?
      ensures Live(e, later, Command(PROCESS_COMMIT, [groupId, commitQ], again)).1 == later
      ensures Live(e, later, Command(PROCESS_COMMIT, [groupId, commitP], again)).0.Err?
      ensures Live(e, later, Command(PROCESS_COMMIT, [groupId, commitP], again)).1 == later
    {
      PassedCommitRefused(e, m, t, groupId, q, y, commitQ, afterQ, later, again);
      PassedCommitRefused(e, m, s, groupId, p, x, commitP, afterP, later, again);
    }
  }
}
