/**
 What the gate writes out, told from its inputs alone: each accepted or blocking finding stands at one place of the
 reports, every place where one is due is accounted for once, and both lists keep the order of the reports.
 */
module GateOutcome {
  import opened Wrappers
  import opened JsonText
  import opened SupplyChain
  import opened GateVerdict

  // ---- Places in the reports ----

  /** A group or a license of a package of a module. */
  datatype Place = Place(moduleAt: nat, packageAt: nat, kind: Kind, index: nat)

  /** The order of the reports; a package's groups come before its licenses. */
  ghost predicate Before(a: Place, b: Place) {
    || a.moduleAt < b.moduleAt
    || (a.moduleAt == b.moduleAt && a.packageAt < b.packageAt)
    || (a.moduleAt == b.moduleAt && a.packageAt == b.packageAt && a.kind == Vulnerability && b.kind == License)
    || (a.moduleAt == b.moduleAt && a.packageAt == b.packageAt && a.kind == b.kind && a.index < b.index)
  }

  /** From `low` up to but not including `high`. */
  ghost predicate Within(a: Place, low: Place, high: Place) {
    (a == low || Before(low, a)) && Before(a, high)
  }

  /** A severe group stands there, or a license of a package that is not the project's own. */
  ghost predicate StandsIn(policy: Policy, m: Module, p: Package, at: Place, f: Finding) {
    match at.kind
    case Vulnerability =>
      && at.index < |p.groups| && Severe(policy, p.groups[at.index])
      && f.key == Key(Vulnerability, m.name, p.ecosystem, p.name, p.version, p.groups[at.index].id)
      && f.severity == p.groups[at.index].severity
    case License =>
      && at.index < |p.licenses| && !OwnComponent(policy, m, p)
      && f.key == Key(License, m.name, p.ecosystem, p.name, p.version, p.licenses[at.index])
      && f.severity == None
  }

  ghost predicate Stands(policy: Policy, modules: seq<Module>, at: Place, f: Finding) {
    && at.moduleAt < |modules| && at.packageAt < |modules[at.moduleAt].packages|
    && StandsIn(policy, modules[at.moduleAt], modules[at.moduleAt].packages[at.packageAt], at, f)
  }

  ghost predicate Ascending(at: seq<Place>) {
    forall i, j | 0 <= i < j < |at| :: Before(at[i], at[j])
  }

  ghost predicate AllStand(policy: Policy, modules: seq<Module>, at: seq<Place>, fs: seq<Finding>) {
    |at| == |fs| && forall i | 0 <= i < |at| :: Stands(policy, modules, at[i], fs[i])
  }

  ghost predicate AllWithin(at: seq<Place>, low: Place, high: Place) {
    forall a | a in at :: Within(a, low, high)
  }

  /** Wherever a finding stands in the range is listed. */
  ghost predicate Covers(policy: Policy, modules: seq<Module>, at: seq<Place>, low: Place, high: Place) {
    forall a, f | Within(a, low, high) && Stands(policy, modules, a, f) :: a in at
  }

  /** These are the findings of the range, in order. */
  ghost predicate Laid(policy: Policy, modules: seq<Module>, at: seq<Place>, fs: seq<Finding>, low: Place, high: Place)
  {
    && AllStand(policy, modules, at, fs) && Ascending(at)
    && AllWithin(at, low, high) && Covers(policy, modules, at, low, high)
  }

  // ---- Ranges side by side ----

  lemma RangesJoin(a: Place, low: Place, mid: Place, high: Place)
    requires (low == mid || Before(low, mid)) && (mid == high || Before(mid, high))
    ensures Within(a, low, high) <==> Within(a, low, mid) || Within(a, mid, high)
  {
  }

  lemma RangesFollow(a: Place, b: Place, low: Place, mid: Place, high: Place)
    requires Within(a, low, mid) && Within(b, mid, high)
    ensures Before(a, b)
  {
  }

  lemma AscendingAppend(at: seq<Place>, bt: seq<Place>, low: Place, mid: Place, high: Place)
    requires Ascending(at) && Ascending(bt) && AllWithin(at, low, mid) && AllWithin(bt, mid, high)
    ensures Ascending(at + bt)
  {
    hide Before, Within;
    var both := at + bt;
    forall i, j | 0 <= i < j < |both|
      ensures Before(both[i], both[j])
    {
      if i < |at| && j >= |at| {
        assert both[i] == at[i] && both[j] == bt[j - |at|];
        RangesFollow(at[i], bt[j - |at|], low, mid, high);
      }
    }
  }

  lemma LaidAppend(policy: Policy, modules: seq<Module>, at: seq<Place>, fs: seq<Finding>, bt: seq<Place>,
                   gs: seq<Finding>, low: Place, mid: Place, high: Place)
    requires Laid(policy, modules, at, fs, low, mid) && Laid(policy, modules, bt, gs, mid, high)
    requires (low == mid || Before(low, mid)) && (mid == high || Before(mid, high))
    ensures Laid(policy, modules, at + bt, fs + gs, low, high)
  {
    hide Stands, Before, Within, Ascending;
    AscendingAppend(at, bt, low, mid, high);
    forall a
      ensures Within(a, low, high) <==> Within(a, low, mid) || Within(a, mid, high)
    {
      RangesJoin(a, low, mid, high);
    }
  }

  // ---- The findings as they are collected ----

  lemma OneGroup(policy: Policy, modules: seq<Module>, i: nat, j: nat, k: nat) returns (at: seq<Place>)
    requires i < |modules| && j < |modules[i].packages| && k < |modules[i].packages[j].groups|
    ensures var m := modules[i];
            var p := m.packages[j];
            var g := p.groups[k];
            var fs := if Gated(policy, g.severity) then
                        [Finding(Key(Vulnerability, m.name, p.ecosystem, p.name, p.version, g.id), g.severity)]
                      else
                        [];
            Laid(policy, modules, at, fs, Place(i, j, Vulnerability, k), Place(i, j, Vulnerability, k + 1))
  {
    at := if Gated(policy, modules[i].packages[j].groups[k].severity) then [Place(i, j, Vulnerability, k)] else [];
  }

  lemma {:induction false} GroupsLaid(policy: Policy, modules: seq<Module>, i: nat, j: nat, k: nat)
    returns (at: seq<Place>)
    requires i < |modules| && j < |modules[i].packages| && k <= |modules[i].packages[j].groups|
    requires var m, p := modules[i], modules[i].packages[j]; Vulnerabilities(policy, m, p, p.groups[k..]).Ok?
    ensures var m, p := modules[i], modules[i].packages[j];
            Laid(policy, modules, at, Vulnerabilities(policy, m, p, p.groups[k..]).value,
                 Place(i, j, Vulnerability, k), Place(i, j, License, 0))
    decreases |modules[i].packages[j].groups| - k
  {
    var m, p := modules[i], modules[i].packages[j];
    if k == |p.groups| {
      at := [];
    } else {
      hide Laid, Gated;
      var first := OneGroup(policy, modules, i, j, k);
      assert p.groups[k..][1..] == p.groups[k + 1..];
      var rest := GroupsLaid(policy, modules, i, j, k + 1);
      var g := p.groups[k];
      var fs := if Gated(policy, g.severity) then
                  [Finding(Key(Vulnerability, m.name, p.ecosystem, p.name, p.version, g.id), g.severity)]
                else
                  [];
      var gs := Vulnerabilities(policy, m, p, p.groups[k + 1..]).value;
      assert Vulnerabilities(policy, m, p, p.groups[k..]).value == fs + gs;
      LaidAppend(policy, modules, first, fs, rest, gs, Place(i, j, Vulnerability, k),
                 Place(i, j, Vulnerability, k + 1), Place(i, j, License, 0));
      at := first + rest;
    }
  }

  lemma LicensesLaid(policy: Policy, modules: seq<Module>, i: nat, j: nat) returns (at: seq<Place>)
    requires i < |modules| && j < |modules[i].packages|
    ensures Laid(policy, modules, at, LicenseViolations(policy, modules[i], modules[i].packages[j]),
                 Place(i, j, License, 0), Place(i, j + 1, Vulnerability, 0))
  {
    var m, p := modules[i], modules[i].packages[j];
    OwnComponentExactly(policy, m, p);
    hide OwnComponent, IsProjectComponent, Severe;
    at := if IsProjectComponent(policy, m, p) then [] else seq(|p.licenses|, (n: nat) => Place(i, j, License, n));
    forall a, f | Within(a, Place(i, j, License, 0), Place(i, j + 1, Vulnerability, 0)) && Stands(policy, modules, a, f)
      ensures a in at
    {
      assert a == at[a.index];
    }
  }

  lemma {:induction false} PackagesLaid(policy: Policy, modules: seq<Module>, i: nat, j: nat)
    returns (at: seq<Place>)
    requires i < |modules| && j <= |modules[i].packages|
    requires ModuleFindings(policy, modules[i], modules[i].packages[j..]).Ok?
    ensures Laid(policy, modules, at, ModuleFindings(policy, modules[i], modules[i].packages[j..]).value,
                 Place(i, j, Vulnerability, 0), Place(i + 1, 0, Vulnerability, 0))
    decreases |modules[i].packages| - j
  {
    var m := modules[i];
    if j == |m.packages| {
      at := [];
    } else {
      hide Laid, Vulnerabilities, LicenseViolations;
      var p := m.packages[j];
      assert m.packages[j..][1..] == m.packages[j + 1..];
      assert p.groups[0..] == p.groups;
      var vs, ls := Vulnerabilities(policy, m, p, p.groups).value, LicenseViolations(policy, m, p);
      var rest := ModuleFindings(policy, m, m.packages[j + 1..]).value;
      var a := GroupsLaid(policy, modules, i, j, 0);
      var b := LicensesLaid(policy, modules, i, j);
      var c := PackagesLaid(policy, modules, i, j + 1);
      var start, next, end :=
          Place(i, j, Vulnerability, 0), Place(i, j + 1, Vulnerability, 0), Place(i + 1, 0, Vulnerability, 0);
      LaidAppend(policy, modules, a, vs, b, ls, start, Place(i, j, License, 0), next);
      LaidAppend(policy, modules, a + b, vs + ls, c, rest, start, next, end);
      at := a + b + c;
    }
  }

  lemma {:induction false} ModulesLaid(policy: Policy, modules: seq<Module>, commit: Units, i: nat)
    returns (at: seq<Place>)
    requires i <= |modules| && AllFindings(policy, modules[i..], commit).Ok?
    ensures Laid(policy, modules, at, AllFindings(policy, modules[i..], commit).value,
                 Place(i, 0, Vulnerability, 0), Place(|modules|, 0, Vulnerability, 0))
    decreases |modules| - i
  {
    if i == |modules| {
      at := [];
    } else {
      hide Laid, ModuleFindings, CheckIdentities;
      var m := modules[i];
      assert modules[i..][1..] == modules[i + 1..];
      assert m.packages[0..] == m.packages;
      var found := ModuleFindings(policy, m, m.packages).value;
      var rest := AllFindings(policy, modules[i + 1..], commit).value;
      var a := PackagesLaid(policy, modules, i, 0);
      var b := ModulesLaid(policy, modules, commit, i + 1);
      LaidAppend(policy, modules, a, found, b, rest, Place(i, 0, Vulnerability, 0),
                 Place(i + 1, 0, Vulnerability, 0), Place(|modules|, 0, Vulnerability, 0));
      at := a + b;
    }
  }

  /** Every place at which a finding stands. */
  ghost predicate Everywhere(policy: Policy, modules: seq<Module>, at: seq<Place>) {
    forall a, f | Stands(policy, modules, a, f) :: a in at
  }

  /** The findings collected are those that stand somewhere, each place once, in the order of the reports. */
  lemma FindingsLaid(policy: Policy, modules: seq<Module>, commit: Units) returns (at: seq<Place>)
    requires AllFindings(policy, modules, commit).Ok?
    ensures |at| == |AllFindings(policy, modules, commit).value|
    ensures AllStand(policy, modules, at, AllFindings(policy, modules, commit).value)
    ensures Ascending(at) && Everywhere(policy, modules, at)
  {
    assert modules[0..] == modules;
    at := ModulesLaid(policy, modules, commit, 0);
    assert |at| == |AllFindings(policy, modules, commit).value|;
    hide AllFindings, Ascending, AllStand, StandsIn;
    forall a, f | Stands(policy, modules, a, f)
      ensures Within(a, Place(0, 0, Vulnerability, 0), Place(|modules|, 0, Vulnerability, 0))
    {
    }
  }

  // ---- The two lists of the outcome ----

  /** One of the findings, with its place. */
  ghost predicate Placed(at: seq<Place>, fs: seq<Finding>, a: Place, f: Finding) {
    |at| == |fs| && exists j :: 0 <= j < |fs| && at[j] == a && fs[j] == f
  }

  /** The findings without an exception, at these places. */
  ghost predicate Stopped(exceptions: seq<Exception>, at: seq<Place>, fs: seq<Finding>, stopped: seq<Place>,
                          blocking: seq<Finding>)
  {
    && |stopped| == |blocking| && Ascending(stopped)
    && forall i | 0 <= i < |stopped| ::
         Placed(at, fs, stopped[i], blocking[i]) && !Excepted(exceptions, blocking[i].key)
  }

  /** The findings with an exception, each with one that has its key, at these places. */
  ghost predicate Taken(exceptions: seq<Exception>, at: seq<Place>, fs: seq<Finding>, taken: seq<Place>,
                        accepted: seq<Accepted>)
  {
    && |taken| == |accepted| && Ascending(taken)
    && forall i | 0 <= i < |taken| ::
         && Placed(at, fs, taken[i], accepted[i].finding)
         && accepted[i].exception in exceptions && accepted[i].exception.key == accepted[i].finding.key
  }

  /** Every finding is in one of the two lists, by whether its key has an exception. */
  ghost predicate Sorted(exceptions: seq<Exception>, at: seq<Place>, fs: seq<Finding>, taken: seq<Place>,
                         stopped: seq<Place>)
    requires |at| == |fs|
  {
    forall j | 0 <= j < |fs| :: at[j] in if Excepted(exceptions, fs[j].key) then taken else stopped
  }

  lemma AscendingSnoc(at: seq<Place>, some: seq<Place>, a: Place)
    requires Ascending(at + [a]) && Ascending(some) && forall x | x in some :: x in at
    ensures Ascending(some + [a])
  {
    hide Before;
    forall x | x in at
      ensures Before(x, a)
    {
      var j :| 0 <= j < |at| && at[j] == x;
      assert (at + [a])[j] == x && (at + [a])[|at|] == a;
    }
  }

  lemma MatchExcepted(exceptions: seq<Exception>, k: Key)
    ensures FirstMatch(exceptions, k, 0).Some? <==> Excepted(exceptions, k)
  {
  }

  lemma PlacedSnoc(at: seq<Place>, fs: seq<Finding>, a: Place, f: Finding)
    requires |at| == |fs|
    ensures Placed(at + [a], fs + [f], a, f)
    ensures forall x, g | Placed(at, fs, x, g) :: x in at && Placed(at + [a], fs + [f], x, g)
  {
    var bt, gs := at + [a], fs + [f];
    assert bt[|at|] == a && gs[|at|] == f;
    forall x, g | Placed(at, fs, x, g)
      ensures x in at && Placed(bt, gs, x, g)
    {
      var j :| 0 <= j < |fs| && at[j] == x && fs[j] == g;
      assert bt[j] == x && gs[j] == g;
    }
  }

  lemma TakenKept(exceptions: seq<Exception>, at: seq<Place>, fs: seq<Finding>, taken: seq<Place>,
                  accepted: seq<Accepted>, a: Place, f: Finding)
    requires |at| == |fs| && Taken(exceptions, at, fs, taken, accepted)
    ensures Taken(exceptions, at + [a], fs + [f], taken, accepted)
  {
    PlacedSnoc(at, fs, a, f);
    hide Placed, Ascending;
  }

  lemma TakenSnoc(exceptions: seq<Exception>, at: seq<Place>, fs: seq<Finding>, taken: seq<Place>,
                  accepted: seq<Accepted>, a: Place, f: Finding, x: Exception)
    requires |at| == |fs| && Ascending(at + [a]) && Taken(exceptions, at, fs, taken, accepted)
    requires x in exceptions && x.key == f.key
    ensures Taken(exceptions, at + [a], fs + [f], taken + [a], accepted + [Accepted(f, x)])
  {
    PlacedSnoc(at, fs, a, f);
    hide Placed, Ascending;
    AscendingSnoc(at, taken, a);
  }

  lemma StoppedSnoc(exceptions: seq<Exception>, at: seq<Place>, fs: seq<Finding>, stopped: seq<Place>,
                    blocking: seq<Finding>, a: Place, f: Finding)
    requires |at| == |fs| && Ascending(at + [a]) && Stopped(exceptions, at, fs, stopped, blocking)
    ensures Stopped(exceptions, at + [a], fs + [f], stopped, blocking)
    ensures !Excepted(exceptions, f.key) ==>
              Stopped(exceptions, at + [a], fs + [f], stopped + [a], blocking + [f])
  {
    PlacedSnoc(at, fs, a, f);
    hide Placed, Ascending, Excepted;
    AscendingSnoc(at, stopped, a);
  }

  lemma SortedSnoc(exceptions: seq<Exception>, at: seq<Place>, fs: seq<Finding>, taken: seq<Place>,
                   stopped: seq<Place>, a: Place, f: Finding)
    requires |at| == |fs| && Sorted(exceptions, at, fs, taken, stopped)
    ensures if Excepted(exceptions, f.key) then
              Sorted(exceptions, at + [a], fs + [f], taken + [a], stopped)
            else
              Sorted(exceptions, at + [a], fs + [f], taken, stopped + [a])
  {
    hide Excepted;
  }

  lemma AscendingInit(at: seq<Place>)
    requires at != [] && Ascending(at)
    ensures Ascending(at[..|at| - 1])
  {
    hide Before;
  }

  lemma {:induction false} Split(exceptions: seq<Exception>, at: seq<Place>, fs: seq<Finding>)
    returns (taken: seq<Place>, stopped: seq<Place>)
    requires |at| == |fs| && Ascending(at)
    ensures var r := RouteAll(exceptions, NOTHING, fs);
            && Taken(exceptions, at, fs, taken, r.accepted) && Stopped(exceptions, at, fs, stopped, r.blocking)
            && Sorted(exceptions, at, fs, taken, stopped)
    decreases |fs|
  {
    if fs == [] {
      taken, stopped := [], [];
    } else {
      var n := |fs| - 1;
      var bt, gs, a, f := at[..n], fs[..n], at[n], fs[n];
      hide RouteAll, Taken, Stopped, Sorted, Ascending, FirstMatch, Excepted, CountOf;
      AscendingInit(at);
      assert at == bt + [a] && fs == gs + [f];
      taken, stopped := Split(exceptions, bt, gs);
      var r := RouteAll(exceptions, NOTHING, gs);
      Extend(exceptions, NOTHING, gs, f);
      MatchExcepted(exceptions, f.key);
      SortedSnoc(exceptions, bt, gs, taken, stopped, a, f);
      StoppedSnoc(exceptions, bt, gs, stopped, r.blocking, a, f);
      match FirstMatch(exceptions, f.key, 0)
      case Some(i) =>
        TakenSnoc(exceptions, bt, gs, taken, r.accepted, a, f, exceptions[i]);
        taken := taken + [a];
      case None =>
        TakenKept(exceptions, bt, gs, taken, r.accepted, a, f);
        stopped := stopped + [a];
    }
  }

  /** These accepted findings stand at these places, each with an exception that has its key. */
  ghost predicate AcceptedAt(policy: Policy, exceptions: seq<Exception>, modules: seq<Module>, taken: seq<Place>,
                             accepted: seq<Accepted>)
  {
    && |taken| == |accepted| && Ascending(taken)
    && forall i | 0 <= i < |taken| ::
         && Stands(policy, modules, taken[i], accepted[i].finding)
         && accepted[i].exception in exceptions && accepted[i].exception.key == accepted[i].finding.key
  }

  /** These blocking findings stand at these places, and have no exception. */
  ghost predicate BlockingAt(policy: Policy, exceptions: seq<Exception>, modules: seq<Module>, stopped: seq<Place>,
                             blocking: seq<Finding>)
  {
    && |stopped| == |blocking| && Ascending(stopped)
    && forall i | 0 <= i < |stopped| ::
         Stands(policy, modules, stopped[i], blocking[i]) && !Excepted(exceptions, blocking[i].key)
  }

  /** Every finding that stands somewhere is in one of the two lists. */
  ghost predicate Accounted(policy: Policy, exceptions: seq<Exception>, modules: seq<Module>, taken: seq<Place>,
                            stopped: seq<Place>)
  {
    forall a, f | Stands(policy, modules, a, f) :: a in if Excepted(exceptions, f.key) then taken else stopped
  }

  lemma PlacedStands(policy: Policy, modules: seq<Module>, at: seq<Place>, fs: seq<Finding>)
    requires AllStand(policy, modules, at, fs)
    ensures forall a, f | Placed(at, fs, a, f) :: Stands(policy, modules, a, f)
  {
    hide Stands;
  }

  /** A place has one finding. */
  lemma OneFinding(policy: Policy, modules: seq<Module>, at: Place, f: Finding, g: Finding)
    requires Stands(policy, modules, at, f) && Stands(policy, modules, at, g)
    ensures f == g
  {
    hide Severe, OwnComponent;
  }

  lemma SortedAccounts(policy: Policy, exceptions: seq<Exception>, modules: seq<Module>, at: seq<Place>,
                       fs: seq<Finding>, taken: seq<Place>, stopped: seq<Place>)
    requires AllStand(policy, modules, at, fs) && Everywhere(policy, modules, at)
    requires Sorted(exceptions, at, fs, taken, stopped)
    ensures Accounted(policy, exceptions, modules, taken, stopped)
  {
    hide Stands, Excepted;
    forall a, f | Stands(policy, modules, a, f)
      ensures a in if Excepted(exceptions, f.key) then taken else stopped
    {
      var j :| 0 <= j < |at| && at[j] == a;
      OneFinding(policy, modules, a, f, fs[j]);
    }
  }

  lemma CollectedRouted(policy: Policy, exceptions: seq<Exception>, today: string, modules: seq<Module>,
                        commit: Units)
    requires Evaluate(policy, exceptions, today, modules, commit).Ok?
    ensures AllFindings(policy, modules, commit).Ok?
    ensures var t := RouteAll(exceptions, NOTHING, AllFindings(policy, modules, commit).value);
            var r := Evaluate(policy, exceptions, today, modules, commit).value;
            r.accepted == t.accepted && r.blocking == t.blocking
  {
    hide AllFindings, RouteAll, ValidateFrom, Summaries;
  }

  /**
   The outcome's two lists, entry by entry: in the order of the reports they have the findings that stand there,
   those with an exception in one and those without in the other, and none is missing or there twice.
   */
  lemma OutcomeExactly(policy: Policy, exceptions: seq<Exception>, today: string, modules: seq<Module>, commit: Units)
    returns (taken: seq<Place>, stopped: seq<Place>)
    requires Evaluate(policy, exceptions, today, modules, commit).Ok?
    ensures var r := Evaluate(policy, exceptions, today, modules, commit).value;
            && AcceptedAt(policy, exceptions, modules, taken, r.accepted)
            && BlockingAt(policy, exceptions, modules, stopped, r.blocking)
            && Accounted(policy, exceptions, modules, taken, stopped)
  {
    hide AllFindings, RouteAll, Evaluate, Ascending, AllStand, Everywhere, Sorted, Accounted, Excepted, Stands, Placed;
    CollectedRouted(policy, exceptions, today, modules, commit);
    var fs := AllFindings(policy, modules, commit).value;
    var at := FindingsLaid(policy, modules, commit);
    taken, stopped := Split(exceptions, at, fs);
    PlacedStands(policy, modules, at, fs);
    SortedAccounts(policy, exceptions, modules, at, fs, taken, stopped);
  }
}
