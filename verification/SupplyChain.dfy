/**
 The supply-chain gate: what a module's report, SBOM and lockfile must agree on, which findings are gated,
 and how each is routed to the first exception that names it.
 */
module SupplyChain {
  import opened Wrappers
  import opened Orders
  import opened JsonText
  import opened Expiry

  // ---- Inputs, as parsed ----

  datatype Kind = Vulnerability | License

  /** The six fields by which an exception names a finding. */
  datatype Key = Key(kind: Kind, moduleName: Units, ecosystem: Units, package: Units, version: Units, finding: Units)

  datatype Exception = Exception(key: Key, owner: Units, reason: Units, expiresAt: string)

  /** `severity` is None where it is not a finite number. */
  datatype Group = Group(id: Units, severity: Option<real>)

  datatype Package = Package(ecosystem: Units, name: Units, version: Units, groups: seq<Group>, licenses: seq<Units>)

  datatype Component = Component(name: Units, version: Units, purl: Units)

  datatype ProjectComponent = ProjectComponent(moduleName: Units, ecosystem: Units, name: Units, version: Units)

  /** One policy module with its report, its SBOM, and what its lockfile lists if it could be read. */
  datatype Module = Module(
    name: Units, packages: seq<Package>,
    sbomSchemaValid: bool, components: seq<Component>, sbomCommit: Option<Units>,
    lockIdentities: Option<seq<Units>>)

  datatype Policy = Policy(
    projectComponents: seq<ProjectComponent>, blockUnknownSeverity: bool, blockCvssAtOrAbove: real,
    maxValidityDays: JsValue)

  datatype GateError =
    | InvalidPolicy
    | InexactField(index: nat)
    | InvalidExpiry(index: nat, expiry: ExpiryError)
    | NoPackages
    | IncompletePackage
    | DuplicatePackage
    | InvalidSbomSchema
    | NoComponents
    | IncompleteComponent
    | DuplicateComponent
    | ReportSbomMismatch
    | LockfileUnreadable
    | LockfileIncomplete
    | LockfileNotCovered
    | SbomNotBound
    | NoStableId
    | UnusedExceptions(indices: seq<nat>)

  // ---- Exceptions ----

  const ASTERISK: CodeUnit := 0x2A
  const QUESTION: CodeUnit := 0x3F

  predicate ExactToken(t: Units) {
    t != [] && !WhiteSpace(t[0]) && ASTERISK !in t && QUESTION !in t
  }

  predicate FieldsExact(x: Exception) {
    && ExactToken(x.key.moduleName) && ExactToken(x.key.ecosystem) && ExactToken(x.key.package)
    && ExactToken(x.key.version) && ExactToken(x.key.finding) && ExactToken(x.owner) && ExactToken(x.reason)
  }

  function ValidateFrom(exceptions: seq<Exception>, index: nat, today: string, max: JsValue): Result<(), GateError>
    requires index <= |exceptions|
    decreases |exceptions| - index
  {
    if index == |exceptions| then
      Ok(())
    else if !FieldsExact(exceptions[index]) then
      Err(InexactField(index))
    else
      match ValidateExceptionExpiry(exceptions[index].expiresAt, today, max)
      case Err(x) => Err(InvalidExpiry(index, x))
      case Ok(_) => ValidateFrom(exceptions, index + 1, today, max)
  }

  // ---- The identities of one module ----

  function Identity(name: Units, version: Units): Units {
    name + [0x40] + version
  }

  /** The elements of a Set built of a list, in order of first insertion. */
  function Deduplicated(ids: seq<Units>): (r: seq<Units>)
    ensures forall x :: x in r <==> x in ids
    ensures NoRepetition(r)
  {
    if ids == [] then
      []
    else
      var last := ids[|ids| - 1];
      var r := Deduplicated(ids[..|ids| - 1]);
      assert ids == ids[..|ids| - 1] + [last];
      if last in r then r else r + [last]
  }

  function Strings(ids: seq<Units>): Json {
    Array(Map(ids, (x: Units) => String(x)))
  }

  /** The gate compares lists by their JSON texts. */
  predicate SameText(a: seq<Units>, b: seq<Units>) {
    Show(Strings(a)) == Show(Strings(b))
  }

  function PackageIdentities(packages: seq<Package>): seq<Units> {
    Map(packages, (p: Package) => Identity(p.name, p.version))
  }

  function ComponentIdentities(components: seq<Component>): seq<Units> {
    Map(components, (c: Component) => Identity(c.name, c.version))
  }

  predicate PackagesComplete(packages: seq<Package>) {
    forall p | p in packages :: p.ecosystem != [] && p.name != [] && p.version != []
  }

  predicate ComponentsComplete(components: seq<Component>) {
    forall c | c in components :: c.name != [] && c.version != [] && c.purl != []
  }

  /** "undefined" */
  const UNDEFINED: Units := [0x75, 0x6E, 0x64, 0x65, 0x66, 0x69, 0x6E, 0x65, 0x64]

  predicate LockComplete(ids: seq<Units>) {
    ids != [] && forall x | x in ids :: !Includes(x, UNDEFINED)
  }

  function CheckIdentities(m: Module, commit: Units): Result<(), GateError> {
    if m.packages == [] then
      Err(NoPackages)
    else if !PackagesComplete(m.packages) then
      Err(IncompletePackage)
    else
      var reported := PackageIdentities(m.packages);
      if |ElementsOf(reported)| != |reported| then
        Err(DuplicatePackage)
      else if !m.sbomSchemaValid then
        Err(InvalidSbomSchema)
      else if m.components == [] then
        Err(NoComponents)
      else if !ComponentsComplete(m.components) then
        Err(IncompleteComponent)
      else
        var listed := ComponentIdentities(m.components);
        if |ElementsOf(listed)| != |listed| then
          Err(DuplicateComponent)
        else if !SameText(Sort(reported, UnitsLe), Sort(listed, UnitsLe)) then
          Err(ReportSbomMismatch)
        else
          match m.lockIdentities
          case None => Err(LockfileUnreadable)
          case Some(locked) =>
            if !LockComplete(locked) then
              Err(LockfileIncomplete)
            else if !SameText(Sort(reported, UnitsLe), Sort(Deduplicated(locked), UnitsLe)) then
              Err(LockfileNotCovered)
            else if m.sbomCommit != Some(commit) then
              Err(SbomNotBound)
            else
              Ok(())
  }

  lemma SameTextSame(a: seq<Units>, b: seq<Units>)
    ensures SameText(a, b) <==> a == b
  {
    if SameText(a, b) {
      ShowInjective(Strings(a), Strings(b));
      var f := (x: Units) => String(x);
      assert |a| == |Strings(a).items| == |b|;
      forall i | 0 <= i < |a|
        ensures a[i] == b[i]
      {
        assert Strings(a).items[i] == String(a[i]) && Strings(b).items[i] == String(b[i]);
      }
    }
  }

  /** Sorted lists without repetition are equal exactly when they have the same elements. */
  lemma SortedSameSet(a: seq<Units>, b: seq<Units>)
    requires NoRepetition(a) && NoRepetition(b)
    ensures Sort(a, UnitsLe) == Sort(b, UnitsLe) <==> ElementsOf(a) == ElementsOf(b)
  {
    if Sort(a, UnitsLe) == Sort(b, UnitsLe) {
      SameElements(a, Sort(a, UnitsLe));
      SameElements(b, Sort(b, UnitsLe));
    }
    if ElementsOf(a) == ElementsOf(b) {
      forall x
        ensures x in a <==> x in b
      {
        assert x in a <==> x in ElementsOf(a);
        assert x in b <==> x in ElementsOf(b);
      }
      SameSetSameMultiset(a, b);
      UnitsLeTotal();
      SortForgetsOrder(a, b, UnitsLe);
    }
  }

  /** Readable, non-empty, complete and bound to the commit: what the identity checks ask besides coverage. */
  ghost predicate Complete(m: Module, commit: Units) {
    && m.packages != [] && m.components != [] && m.sbomSchemaValid && m.sbomCommit == Some(commit)
    && (forall p | p in m.packages :: p.ecosystem != [] && p.name != [] && p.version != [])
    && (forall c | c in m.components :: c.name != [] && c.version != [] && c.purl != [])
    && m.lockIdentities.Some? && m.lockIdentities.value != []
    && forall x | x in m.lockIdentities.value :: !Includes(x, Ascii("undefined"))
  }

  /** Some package of the report has this name and version. */
  ghost predicate Reported(m: Module, x: Units) {
    exists p | p in m.packages :: x == p.name + Ascii("@") + p.version
  }

  ghost predicate InSbom(m: Module, x: Units) {
    exists c | c in m.components :: x == c.name + Ascii("@") + c.version
  }

  /** Report, SBOM and lockfile name the same identities, the first two without repeating any. */
  ghost predicate ThreeWayCovered(m: Module) {
    && (forall i, j | 0 <= i < j < |m.packages| ::
          m.packages[i].name + Ascii("@") + m.packages[i].version !=
          m.packages[j].name + Ascii("@") + m.packages[j].version)
    && (forall i, j | 0 <= i < j < |m.components| ::
          m.components[i].name + Ascii("@") + m.components[i].version !=
          m.components[j].name + Ascii("@") + m.components[j].version)
    && m.lockIdentities.Some?
    && forall x :: (x in m.lockIdentities.value <==> Reported(m, x)) && (Reported(m, x) <==> InSbom(m, x))
  }

  lemma IdentityText(name: Units, version: Units)
    ensures Identity(name, version) == name + Ascii("@") + version
  {
    assert Ascii("@") == [0x40];
  }

  lemma ReportedExactly(m: Module)
    ensures forall x :: x in PackageIdentities(m.packages) <==> Reported(m, x)
    ensures NoRepetition(PackageIdentities(m.packages)) <==>
            forall i, j | 0 <= i < j < |m.packages| ::
              m.packages[i].name + Ascii("@") + m.packages[i].version !=
              m.packages[j].name + Ascii("@") + m.packages[j].version
  {
    hide Identity, Ascii;
    var ids := PackageIdentities(m.packages);
    forall i | 0 <= i < |m.packages|
      ensures ids[i] == m.packages[i].name + Ascii("@") + m.packages[i].version
    {
      IdentityText(m.packages[i].name, m.packages[i].version);
    }
    forall x
      ensures x in ids <==> Reported(m, x)
    {
      if x in ids {
        var i :| 0 <= i < |ids| && ids[i] == x;
        assert m.packages[i] in m.packages;
      }
      if p :| p in m.packages && x == p.name + Ascii("@") + p.version {
        var i :| 0 <= i < |m.packages| && m.packages[i] == p;
        assert ids[i] == x;
      }
    }
  }

  lemma InSbomExactly(m: Module)
    ensures forall x :: x in ComponentIdentities(m.components) <==> InSbom(m, x)
    ensures NoRepetition(ComponentIdentities(m.components)) <==>
            forall i, j | 0 <= i < j < |m.components| ::
              m.components[i].name + Ascii("@") + m.components[i].version !=
              m.components[j].name + Ascii("@") + m.components[j].version
  {
    hide Identity, Ascii;
    var ids := ComponentIdentities(m.components);
    forall i | 0 <= i < |m.components|
      ensures ids[i] == m.components[i].name + Ascii("@") + m.components[i].version
    {
      IdentityText(m.components[i].name, m.components[i].version);
    }
    forall x
      ensures x in ids <==> InSbom(m, x)
    {
      if x in ids {
        var i :| 0 <= i < |ids| && ids[i] == x;
        assert m.components[i] in m.components;
      }
      if c :| c in m.components && x == c.name + Ascii("@") + c.version {
        var i :| 0 <= i < |m.components| && m.components[i] == c;
        assert ids[i] == x;
      }
    }
  }

  lemma CompleteExactly(m: Module, commit: Units)
    ensures Complete(m, commit) <==>
            && m.packages != [] && PackagesComplete(m.packages)
            && m.sbomSchemaValid && m.components != [] && ComponentsComplete(m.components)
            && m.lockIdentities.Some? && LockComplete(m.lockIdentities.value)
            && m.sbomCommit == Some(commit)
  {
    assert Ascii("undefined") == UNDEFINED;
    hide Includes, Ascii;
  }

  lemma CoveredExactly(m: Module)
    ensures var reported, listed := PackageIdentities(m.packages), ComponentIdentities(m.components);
            ThreeWayCovered(m) <==>
            && NoRepetition(reported) && NoRepetition(listed)
            && m.lockIdentities.Some?
            && ElementsOf(reported) == ElementsOf(listed) == ElementsOf(m.lockIdentities.value)
  {
    ReportedExactly(m);
    InSbomExactly(m);
    hide PackageIdentities, ComponentIdentities, NoRepetition, Reported, InSbom, Ascii;
    var reported, listed := PackageIdentities(m.packages), ComponentIdentities(m.components);
    if m.lockIdentities.Some? {
      var locked := m.lockIdentities.value;
      SameElementsSameSet(reported, listed);
      SameElementsSameSet(listed, locked);
      SameElementsSameSet(reported, locked);
    }
  }

  lemma SameElementsSameSet(a: seq<Units>, b: seq<Units>)
    ensures ElementsOf(a) == ElementsOf(b) <==> forall x :: x in a <==> x in b
  {
    assert forall x :: x in ElementsOf(a) <==> x in a;
    assert forall x :: x in ElementsOf(b) <==> x in b;
  }

  /** A module passes the identity checks exactly when it is complete and covered three ways. */
  lemma CoverageExact(m: Module, commit: Units)
    ensures CheckIdentities(m, commit).Ok? <==> Complete(m, commit) && ThreeWayCovered(m)
  {
    var reported, listed := PackageIdentities(m.packages), ComponentIdentities(m.components);
    hide Sort, Deduplicated, SameText, PackageIdentities, ComponentIdentities, NoRepetition,
         LockComplete, PackagesComplete, ComponentsComplete, Complete, ThreeWayCovered;
    CompleteExactly(m, commit);
    CoveredExactly(m);
    ElementsCount(reported);
    ElementsCount(listed);
    SameTextSame(Sort(reported, UnitsLe), Sort(listed, UnitsLe));
    if NoRepetition(reported) && NoRepetition(listed) {
      SortedSameSet(reported, listed);
    }
    if m.lockIdentities.Some? {
      var locked := Deduplicated(m.lockIdentities.value);
      SameTextSame(Sort(reported, UnitsLe), Sort(locked, UnitsLe));
      DeduplicatedSame(m.lockIdentities.value);
      if NoRepetition(reported) {
        SortedSameSet(reported, locked);
      }
    }
  }

  lemma DeduplicatedSame(ids: seq<Units>)
    ensures NoRepetition(Deduplicated(ids)) && ElementsOf(Deduplicated(ids)) == ElementsOf(ids)
  {
  }

  // ---- Gated findings ----

  datatype Finding = Finding(key: Key, severity: Option<real>)

  predicate Gated(policy: Policy, severity: Option<real>) {
    match severity
    case None => policy.blockUnknownSeverity
    case Some(n) => n >= policy.blockCvssAtOrAbove
  }

  function Vulnerabilities(policy: Policy, m: Module, p: Package, groups: seq<Group>): Result<seq<Finding>, GateError> {
    if groups == [] then
      Ok([])
    else if groups[0].id == [] then
      Err(NoStableId)
    else
      var g := groups[0];
      var rest :- Vulnerabilities(policy, m, p, groups[1..]);
      if Gated(policy, g.severity) then
        Ok([Finding(Key(Vulnerability, m.name, p.ecosystem, p.name, p.version, g.id), g.severity)] + rest)
      else
        Ok(rest)
  }

  predicate IsProjectComponent(policy: Policy, m: Module, p: Package) {
    ProjectComponent(m.name, p.ecosystem, p.name, p.version) in policy.projectComponents
  }

  function LicenseViolations(policy: Policy, m: Module, p: Package): seq<Finding> {
    if IsProjectComponent(policy, m, p) then
      []
    else
      Map(p.licenses, (l: Units) => Finding(Key(License, m.name, p.ecosystem, p.name, p.version, l), None))
  }

  /** The findings of a module that must be routed, vulnerabilities before licenses package by package. */
  function ModuleFindings(policy: Policy, m: Module, packages: seq<Package>): Result<seq<Finding>, GateError> {
    if packages == [] then
      Ok([])
    else
      var vulnerabilities :- Vulnerabilities(policy, m, packages[0], packages[0].groups);
      var rest :- ModuleFindings(policy, m, packages[1..]);
      Ok(vulnerabilities + LicenseViolations(policy, m, packages[0]) + rest)
  }

  function AllFindings(policy: Policy, modules: seq<Module>, commit: Units): Result<seq<Finding>, GateError> {
    if modules == [] then
      Ok([])
    else
      var _ :- CheckIdentities(modules[0], commit);
      var findings :- ModuleFindings(policy, modules[0], modules[0].packages);
      var rest :- AllFindings(policy, modules[1..], commit);
      Ok(findings + rest)
  }

  // ---- Routing ----

  datatype Accepted = Accepted(finding: Finding, exception: Exception)

  datatype Tally = Tally(used: set<nat>, accepted: seq<Accepted>, blocking: seq<Finding>)

  const NOTHING: Tally := Tally({}, [], [])

  function FirstMatch(exceptions: seq<Exception>, key: Key, from: nat): (r: Option<nat>)
    requires from <= |exceptions|
    ensures r.Some? ==> from <= r.value < |exceptions| && exceptions[r.value].key == key
    ensures r.Some? ==> forall i | from <= i < r.value :: exceptions[i].key != key
    ensures r.None? ==> forall i | from <= i < |exceptions| :: exceptions[i].key != key
    decreases |exceptions| - from
  {
    if from == |exceptions| then
      None
    else if exceptions[from].key == key then
      Some(from)
    else
      FirstMatch(exceptions, key, from + 1)
  }

  function Route(exceptions: seq<Exception>, t: Tally, f: Finding): Tally {
    match FirstMatch(exceptions, f.key, 0)
    case Some(i) => Tally(t.used + {i}, t.accepted + [Accepted(f, exceptions[i])], t.blocking)
    case None => t.(blocking := t.blocking + [f])
  }

  function RouteAll(exceptions: seq<Exception>, t: Tally, fs: seq<Finding>): Tally
    decreases |fs|
  {
    if fs == [] then t else RouteAll(exceptions, Route(exceptions, t, fs[0]), fs[1..])
  }

  lemma {:induction false} RouteAllAppend(exceptions: seq<Exception>, t: Tally, fs: seq<Finding>, gs: seq<Finding>)
    ensures RouteAll(exceptions, t, fs + gs) == RouteAll(exceptions, RouteAll(exceptions, t, fs), gs)
    decreases |fs|
  {
    if fs == [] {
      assert fs + gs == gs;
    } else {
      assert (fs + gs)[1..] == fs[1..] + gs;
      RouteAllAppend(exceptions, Route(exceptions, t, fs[0]), fs[1..], gs);
    }
  }

  function UnusedFrom(exceptions: seq<Exception>, used: set<nat>, from: nat): (r: seq<nat>)
    requires from <= |exceptions|
    ensures forall i :: i in r <==> from <= i < |exceptions| && i !in used
    decreases |exceptions| - from
  {
    if from == |exceptions| then
      []
    else if from in used then
      UnusedFrom(exceptions, used, from + 1)
    else
      [from] + UnusedFrom(exceptions, used, from + 1)
  }

  datatype Verdict = Pass | Fail

  /** What the summary records of one module. */
  datatype Summary = Summary(name: Units, packages: nat, components: nat, vulnerabilities: nat, licenses: nat)

  datatype Outcome = Outcome(modules: seq<Summary>, accepted: seq<Accepted>, blocking: seq<Finding>, verdict: Verdict)

  function CountOf(kind: Kind, fs: seq<Finding>): nat {
    if fs == [] then 0 else (if fs[0].key.kind == kind then 1 else 0) + CountOf(kind, fs[1..])
  }

  function Summarize(m: Module, found: seq<Finding>): Summary {
    Summary(m.name, |m.packages|, |m.components|, CountOf(Vulnerability, found), CountOf(License, found))
  }

  function Summaries(policy: Policy, modules: seq<Module>): seq<Summary> {
    if modules == [] then
      []
    else
      match ModuleFindings(policy, modules[0], modules[0].packages)
      case Err(_) => []
      case Ok(found) => [Summarize(modules[0], found)] + Summaries(policy, modules[1..])
  }

  function Conclude(exceptions: seq<Exception>, summaries: seq<Summary>, t: Tally): Result<Outcome, GateError> {
    var unused := UnusedFrom(exceptions, t.used, 0);
    if unused != [] then
      Err(UnusedExceptions(unused))
    else
      Ok(Outcome(summaries, t.accepted, t.blocking, if t.blocking == [] then Pass else Fail))
  }

  /** The whole gate. */
  function Evaluate(policy: Policy, exceptions: seq<Exception>, today: string, modules: seq<Module>, commit: Units)
    : Result<Outcome, GateError>
  {
    match ValidateMaxValidityDays(policy.maxValidityDays)
    case Err(_) => Err(InvalidPolicy)
    case Ok(_) =>
      var _ :- ValidateFrom(exceptions, 0, today, policy.maxValidityDays);
      var findings :- AllFindings(policy, modules, commit);
      Conclude(exceptions, Summaries(policy, modules), RouteAll(exceptions, NOTHING, findings))
  }

  // ---- What routing amounts to ----

  ghost function KeysOf(exceptions: seq<Exception>): set<Key> {
    set x | x in exceptions :: x.key
  }

  ghost function FindingKeys(fs: seq<Finding>): set<Key> {
    set f | f in fs :: f.key
  }

  ghost predicate DistinctExceptions(exceptions: seq<Exception>) {
    forall i, j | 0 <= i < j < |exceptions| :: exceptions[i].key != exceptions[j].key
  }

  /** The index that findings with this key are routed to. */
  ghost predicate RoutedTo(exceptions: seq<Exception>, fs: seq<Finding>, i: nat) {
    exists f | f in fs :: FirstMatch(exceptions, f.key, 0) == Some(i)
  }

  lemma {:induction false} UsedExactly(exceptions: seq<Exception>, t: Tally, fs: seq<Finding>, i: nat)
    ensures i in RouteAll(exceptions, t, fs).used <==> i in t.used || RoutedTo(exceptions, fs, i)
    decreases |fs|
  {
    if fs == [] {
    } else {
      assert fs == [fs[0]] + fs[1..];
      var next := Route(exceptions, t, fs[0]);
      UsedExactly(exceptions, next, fs[1..], i);
      assert RoutedTo(exceptions, fs, i) <==>
             FirstMatch(exceptions, fs[0].key, 0) == Some(i) || RoutedTo(exceptions, fs[1..], i);
    }
  }

  lemma {:induction false} BlockingExactly(exceptions: seq<Exception>, t: Tally, fs: seq<Finding>, f: Finding)
    ensures f in RouteAll(exceptions, t, fs).blocking <==>
            f in t.blocking || (f in fs && f.key !in KeysOf(exceptions))
    decreases |fs|
  {
    if fs == [] {
    } else {
      assert fs == [fs[0]] + fs[1..];
      MatchIffKey(exceptions, fs[0].key);
      BlockingExactly(exceptions, Route(exceptions, t, fs[0]), fs[1..], f);
    }
  }

  lemma MatchIffKey(exceptions: seq<Exception>, key: Key)
    ensures FirstMatch(exceptions, key, 0).Some? <==> key in KeysOf(exceptions)
  {
    if key in KeysOf(exceptions) {
      var x :| x in exceptions && x.key == key;
      var i :| 0 <= i < |exceptions| && exceptions[i] == x;
    }
  }

  /** An exception is used exactly when some finding has its key and no earlier exception has. */
  lemma UsedMeaning(exceptions: seq<Exception>, fs: seq<Finding>, i: nat)
    requires i < |exceptions|
    ensures i in RouteAll(exceptions, NOTHING, fs).used <==>
            && exceptions[i].key in FindingKeys(fs)
            && forall j | 0 <= j < i :: exceptions[j].key != exceptions[i].key
  {
    UsedExactly(exceptions, NOTHING, fs, i);
    if RoutedTo(exceptions, fs, i) {
      var f :| f in fs && FirstMatch(exceptions, f.key, 0) == Some(i);
      assert f.key in FindingKeys(fs);
    }
    if exceptions[i].key in FindingKeys(fs) && forall j | 0 <= j < i :: exceptions[j].key != exceptions[i].key {
      var f :| f in fs && f.key == exceptions[i].key;
      assert FirstMatch(exceptions, f.key, 0) == Some(i);
    }
  }

  /** A second exception for the same key can never be used, so the gate always aborts on it. */
  lemma DuplicateAborts(exceptions: seq<Exception>, summaries: seq<Summary>, fs: seq<Finding>, i: nat, j: nat)
    requires i < j < |exceptions| && exceptions[i].key == exceptions[j].key
    ensures var r := Conclude(exceptions, summaries, RouteAll(exceptions, NOTHING, fs));
            r.Err? && r.error.UnusedExceptions? && j in r.error.indices
  {
    UsedMeaning(exceptions, fs, j);
  }

  lemma EmptyWithoutElements(s: seq<nat>)
    ensures s == [] <==> forall i :: i !in s
  {
    if s != [] {
      assert s[0] in s;
    }
  }

  /** No exception is left over exactly when their keys are distinct and all of them are found. */
  lemma AllUsedExactly(exceptions: seq<Exception>, fs: seq<Finding>)
    ensures UnusedFrom(exceptions, RouteAll(exceptions, NOTHING, fs).used, 0) == [] <==>
            DistinctExceptions(exceptions) && KeysOf(exceptions) <= FindingKeys(fs)
  {
    var used := RouteAll(exceptions, NOTHING, fs).used;
    var unused := UnusedFrom(exceptions, used, 0);
    EmptyWithoutElements(unused);
    forall i: nat | i < |exceptions|
      ensures i in used <==>
              && exceptions[i].key in FindingKeys(fs)
              && forall j | 0 <= j < i :: exceptions[j].key != exceptions[i].key
    {
      UsedMeaning(exceptions, fs, i);
    }
    hide RouteAll, FindingKeys;
    if unused == [] {
      forall i: nat | i < |exceptions|
        ensures i in used
      {
        assert i !in unused;
      }
    }
    if DistinctExceptions(exceptions) && KeysOf(exceptions) <= FindingKeys(fs) {
      forall i: nat | i < |exceptions|
        ensures i in used
      {
        assert exceptions[i].key in KeysOf(exceptions);
      }
    }
  }

  lemma NothingBlocked(exceptions: seq<Exception>, fs: seq<Finding>)
    ensures RouteAll(exceptions, NOTHING, fs).blocking == [] <==> FindingKeys(fs) <= KeysOf(exceptions)
  {
    var blocking := RouteAll(exceptions, NOTHING, fs).blocking;
    forall f: Finding
      ensures f in blocking <==> f in fs && f.key !in KeysOf(exceptions)
    {
      BlockingExactly(exceptions, NOTHING, fs, f);
    }
    hide RouteAll, KeysOf;
    if blocking != [] {
      var f := blocking[0];
      assert f in blocking && f.key in FindingKeys(fs);
    } else {
      forall k | k in FindingKeys(fs)
        ensures k in KeysOf(exceptions)
      {
        var f :| f in fs && f.key == k;
        assert f !in blocking;
      }
    }
  }

  /** With the findings collected, the gate completes and passes by the two sets of keys. */
  lemma PassByKeys(policy: Policy, exceptions: seq<Exception>, today: string, modules: seq<Module>, commit: Units)
    requires ValidateMaxValidityDays(policy.maxValidityDays).Ok?
    requires ValidateFrom(exceptions, 0, today, policy.maxValidityDays).Ok?
    requires AllFindings(policy, modules, commit).Ok?
    ensures var fs := AllFindings(policy, modules, commit).value;
            var r := Evaluate(policy, exceptions, today, modules, commit);
            && (r.Ok? <==> KeysOf(exceptions) <= FindingKeys(fs) && DistinctExceptions(exceptions))
            && (r.Ok? && r.value.verdict == Pass <==>
               FindingKeys(fs) == KeysOf(exceptions) && DistinctExceptions(exceptions))
  {
    var fs := AllFindings(policy, modules, commit).value;
    AllUsedExactly(exceptions, fs);
    NothingBlocked(exceptions, fs);
  }

  // ---- Conservation ----

  function FindingOf(): Accepted -> Finding {
    (a: Accepted) => a.finding
  }

  /** Every gated finding is accepted or blocking, once, and accepted ones carry an exception with their key. */
  lemma {:induction false} RoutingConserves(exceptions: seq<Exception>, t: Tally, fs: seq<Finding>)
    ensures var r := RouteAll(exceptions, t, fs);
            && multiset(Map(r.accepted, FindingOf())) + multiset(r.blocking) ==
               multiset(Map(t.accepted, FindingOf())) + multiset(t.blocking) + multiset(fs)
            && |r.accepted| + |r.blocking| == |t.accepted| + |t.blocking| + |fs|
            && ((forall a | a in t.accepted :: a.exception in exceptions && a.exception.key == a.finding.key) ==>
                forall a | a in r.accepted :: a.exception in exceptions && a.exception.key == a.finding.key)
    decreases |fs|
  {
    if fs == [] {
    } else {
      var next := Route(exceptions, t, fs[0]);
      assert fs == [fs[0]] + fs[1..];
      RoutingConserves(exceptions, next, fs[1..]);
      if FirstMatch(exceptions, fs[0].key, 0).Some? {
        var a := next.accepted[|t.accepted|];
        MapAppend(t.accepted, [a], FindingOf());
        assert Map([a], FindingOf()) == [fs[0]];
      }
    }
  }

  lemma {:induction false} CountAppend(kind: Kind, fs: seq<Finding>, gs: seq<Finding>)
    ensures CountOf(kind, fs + gs) == CountOf(kind, fs) + CountOf(kind, gs)
  {
    if fs == [] {
      assert fs + gs == gs;
    } else {
      assert (fs + gs)[1..] == fs[1..] + gs;
      CountAppend(kind, fs[1..], gs);
    }
  }

  lemma {:induction false} RoutingCounts(kind: Kind, exceptions: seq<Exception>, t: Tally, fs: seq<Finding>)
    ensures var r := RouteAll(exceptions, t, fs);
            CountOf(kind, Map(r.accepted, FindingOf())) + CountOf(kind, r.blocking) ==
            CountOf(kind, Map(t.accepted, FindingOf())) + CountOf(kind, t.blocking) + CountOf(kind, fs)
    decreases |fs|
  {
    if fs == [] {
    } else {
      var next := Route(exceptions, t, fs[0]);
      RoutingCounts(kind, exceptions, next, fs[1..]);
      CountAppend(kind, t.blocking, [fs[0]]);
      CountAppend(kind, Map(t.accepted, FindingOf()), [fs[0]]);
      if FirstMatch(exceptions, fs[0].key, 0).Some? {
        var a := next.accepted[|t.accepted|];
        MapAppend(t.accepted, [a], FindingOf());
        assert Map([a], FindingOf()) == [fs[0]];
      }
    }
  }

  function Counted(kind: Kind, summaries: seq<Summary>): nat {
    if summaries == [] then
      0
    else
      var first := summaries[0];
      (if kind == Vulnerability then first.vulnerabilities else first.licenses) + Counted(kind, summaries[1..])
  }

  lemma {:induction false} CountersSum(kind: Kind, policy: Policy, modules: seq<Module>, commit: Units)
    requires AllFindings(policy, modules, commit).Ok?
    ensures |Summaries(policy, modules)| == |modules|
    ensures Counted(kind, Summaries(policy, modules)) == CountOf(kind, AllFindings(policy, modules, commit).value)
  {
    hide CheckIdentities, ModuleFindings;
    if modules == [] {
    } else {
      var found := ModuleFindings(policy, modules[0], modules[0].packages).value;
      var rest := AllFindings(policy, modules[1..], commit).value;
      CountersSum(kind, policy, modules[1..], commit);
      CountAppend(kind, found, rest);
    }
  }

  /** Across a run, accepted plus blocking findings of each kind are what the modules' counters say. */
  lemma CountersBalance(policy: Policy, exceptions: seq<Exception>, today: string, modules: seq<Module>,
                        commit: Units, kind: Kind)
    requires Evaluate(policy, exceptions, today, modules, commit).Ok?
    ensures var r := Evaluate(policy, exceptions, today, modules, commit).value;
            && |r.modules| == |modules|
            && CountOf(kind, Map(r.accepted, FindingOf())) + CountOf(kind, r.blocking) == Counted(kind, r.modules)
  {
    var fs := AllFindings(policy, modules, commit).value;
    CountersSum(kind, policy, modules, commit);
    RoutingCounts(kind, exceptions, NOTHING, fs);
  }

  // ---- The gate as a program ----

  /** Not empty, not starting with white space, and without asterisk or question mark. */
  ghost predicate Exact(t: Units) {
    t != [] && !WhiteSpace(t[0]) && forall i | 0 <= i < |t| :: t[i] != '*' as int && t[i] != '?' as int
  }

  ghost predicate ExactFields(x: Exception) {
    forall t | t in [x.key.moduleName, x.key.ecosystem, x.key.package, x.key.version, x.key.finding, x.owner, x.reason]
      :: Exact(t)
  }

  /** Every field is exact, and the expiry lies 0 to the permitted number of days after today. */
  ghost predicate Holds(x: Exception, today: string, max: JsValue) {
    && ExactFields(x)
    && IntegerFromTo(max, 1, 90)
    && NamesRealDate(x.expiresAt) && NamesRealDate(today)
    && 0 <= DayNamed(x.expiresAt) - DayNamed(today)
    && (DayNamed(x.expiresAt) - DayNamed(today)) as real <= max.value
  }

  lemma ExactExactly(t: Units)
    ensures ExactToken(t) <==> Exact(t)
  {
    hide WhiteSpace;
  }

  lemma FieldsExactly(x: Exception)
    ensures ExactFields(x) <==> FieldsExact(x)
  {
    hide Exact, ExactToken;
    var fields := [x.key.moduleName, x.key.ecosystem, x.key.package, x.key.version, x.key.finding, x.owner, x.reason];
    forall t
      ensures ExactToken(t) <==> Exact(t)
    {
      ExactExactly(t);
    }
    assert fields[0] in fields && fields[1] in fields && fields[2] in fields && fields[3] in fields;
    assert fields[4] in fields && fields[5] in fields && fields[6] in fields;
  }

  lemma HoldsExactly(x: Exception, today: string, max: JsValue)
    ensures Holds(x, today, max) <==> FieldsExact(x) && ValidateExceptionExpiry(x.expiresAt, today, max).Ok?
  {
    WindowExact(x.expiresAt, today, max);
    FieldsExactly(x);
    hide ExactFields, FieldsExact, NamesRealDate, DayNamed, ValidateExceptionExpiry, IntegerFromTo;
  }

  /** The first exception that does not hold is the one reported: for a field of it, or else for its expiry. */
  lemma {:induction false} FirstBadReported(exceptions: seq<Exception>, index: nat, i: nat, today: string, max: JsValue)
    requires index <= i < |exceptions| && !Holds(exceptions[i], today, max)
    requires forall j | index <= j < i :: Holds(exceptions[j], today, max)
    ensures var r, expiry :=
              ValidateFrom(exceptions, index, today, max),
              ValidateExceptionExpiry(exceptions[i].expiresAt, today, max);
            if ExactFields(exceptions[i]) then
              expiry.Err? && r == Err(InvalidExpiry(i, expiry.error))
            else
              r == Err(InexactField(i))
    decreases i - index
  {
    hide FieldsExact, ExactFields, ValidateExceptionExpiry, Holds;
    HoldsExactly(exceptions[index], today, max);
    FieldsExactly(exceptions[index]);
    if index < i {
      FirstBadReported(exceptions, index + 1, i, today, max);
    }
  }

  /** The list is valid exactly when every exception holds. */
  lemma {:induction false} ValidExactly(exceptions: seq<Exception>, index: nat, today: string, max: JsValue)
    requires index <= |exceptions|
    ensures ValidateFrom(exceptions, index, today, max).Ok? <==>
            forall i | index <= i < |exceptions| :: Holds(exceptions[i], today, max)
    decreases |exceptions| - index
  {
    hide FieldsExact, ValidateExceptionExpiry, Holds;
    if index == |exceptions| {
    } else {
      HoldsExactly(exceptions[index], today, max);
      ValidExactly(exceptions, index + 1, today, max);
    }
  }

  class Gate {
    const policy: Policy
    const exceptions: seq<Exception>
    const commit: Units
    var usedExceptions: set<nat>
    var blocking: seq<Finding>
    var accepted: seq<Accepted>
    var moduleSummaries: seq<Summary>

    ghost function State(): Tally
      reads this
    {
      Tally(usedExceptions, accepted, blocking)
    }

    constructor (policy: Policy, exceptions: seq<Exception>, commit: Units)
      ensures this.policy == policy && this.exceptions == exceptions && this.commit == commit
      ensures State() == NOTHING && moduleSummaries == []
    {
      this.policy, this.exceptions, this.commit := policy, exceptions, commit;
      usedExceptions, blocking, accepted, moduleSummaries := {}, [], [], [];
    }

    method ValidateExceptions(today: string) returns (r: Result<(), GateError>)
      ensures r == ValidateFrom(exceptions, 0, today, policy.maxValidityDays)
    {
      var index := 0;
      while index < |exceptions|
        invariant index <= |exceptions|
        invariant ValidateFrom(exceptions, 0, today, policy.maxValidityDays) ==
                  ValidateFrom(exceptions, index, today, policy.maxValidityDays)
      {
        var item := exceptions[index];
        if !FieldsExact(item) {
          return Err(InexactField(index));
        }
        var checked := ValidateExceptionExpiry(item.expiresAt, today, policy.maxValidityDays);
        if checked.Err? {
          return Err(InvalidExpiry(index, checked.error));
        }
        index := index + 1;
      }
      return Ok(());
    }

    method RouteFinding(f: Finding)
      modifies `usedExceptions, `blocking, `accepted
      ensures State() == Route(exceptions, old(State()), f)
    {
      var i := 0;
      while i < |exceptions| && exceptions[i].key != f.key
        invariant i <= |exceptions|
        invariant FirstMatch(exceptions, f.key, 0) == FirstMatch(exceptions, f.key, i)
      {
        i := i + 1;
      }
      if i < |exceptions| {
        usedExceptions := usedExceptions + {i};
        accepted := accepted + [Accepted(f, exceptions[i])];
      } else {
        blocking := blocking + [f];
      }
    }

    method RouteVulnerabilities(m: Module, p: Package) returns (r: Result<nat, GateError>)
      modifies `usedExceptions, `blocking, `accepted
      ensures match Vulnerabilities(policy, m, p, p.groups)
              case Err(e) => r == Err(e)
              case Ok(found) =>
                && r == Ok(CountOf(Vulnerability, found)) && CountOf(License, found) == 0
                && State() == RouteAll(exceptions, old(State()), found)
    {
      hide RouteAll, Route, CountOf, FirstMatch, Gated;
      var count, i := 0, 0;
      ghost var found: seq<Finding> := [];
      FromTheStart(p.groups, Vulnerabilities(policy, m, p, p.groups));
      NothingRouted(exceptions, State());
      while i < |p.groups|
        invariant i <= |p.groups|
        invariant count == CountOf(Vulnerability, found) && CountOf(License, found) == 0
        invariant State() == RouteAll(exceptions, old(State()), found)
        invariant match Vulnerabilities(policy, m, p, p.groups[i..])
                  case Err(e) => Vulnerabilities(policy, m, p, p.groups) == Err(e)
                  case Ok(rest) => Vulnerabilities(policy, m, p, p.groups) == Ok(found + rest)
      {
        var g := p.groups[i];
        assert p.groups[i..][1..] == p.groups[i + 1..];
        if g.id == [] {
          return Err(NoStableId);
        }
        if Gated(policy, g.severity) {
          var f := Finding(Key(Vulnerability, m.name, p.ecosystem, p.name, p.version, g.id), g.severity);
          count := count + 1;
          RouteFinding(f);
          Extend(exceptions, old(State()), found, f);
          found := found + [f];
          Regroup(found, f, Vulnerabilities(policy, m, p, p.groups[i + 1..]));
        }
        i := i + 1;
      }
      assert found + [] == found;
      return Ok(count);
    }

    method RouteLicenses(m: Module, p: Package) returns (count: nat)
      modifies `usedExceptions, `blocking, `accepted
      ensures var found := LicenseViolations(policy, m, p);
              && count == CountOf(License, found) && CountOf(Vulnerability, found) == 0
              && State() == RouteAll(exceptions, old(State()), found)
    {
      count := 0;
      if !IsProjectComponent(policy, m, p) {
        ghost var found := LicenseViolations(policy, m, p);
        for i := 0 to |p.licenses|
          invariant count == CountOf(License, found[..i]) && CountOf(Vulnerability, found[..i]) == 0
          invariant State() == RouteAll(exceptions, old(State()), found[..i])
        {
          var f := Finding(Key(License, m.name, p.ecosystem, p.name, p.version, p.licenses[i]), None);
          count := count + 1;
          RouteFinding(f);
          Extend(exceptions, old(State()), found[..i], f);
          assert found[..i + 1] == found[..i] + [f];
        }
        assert found[..|p.licenses|] == found;
      }
    }

    method EvaluateModule(m: Module) returns (r: Result<(), GateError>)
      modifies this
      ensures match CheckIdentities(m, commit)
              case Err(e) => r == Err(e)
              case Ok(_) =>
                match ModuleFindings(policy, m, m.packages)
                case Err(e) => r == Err(e)
                case Ok(found) =>
                  && r == Ok(())
                  && State() == RouteAll(exceptions, old(State()), found)
                  && moduleSummaries == old(moduleSummaries) + [Summarize(m, found)]
    {
      hide CheckIdentities, Vulnerabilities, LicenseViolations, RouteAll;
      var checked := CheckIdentities(m, commit);
      if checked.Err? {
        return Err(checked.error);
      }
      var vulnerabilityCount, licenseViolationCount, i := 0, 0, 0;
      ghost var found: seq<Finding> := [];
      NothingRouted(exceptions, State());
      FromTheStart(m.packages, ModuleFindings(policy, m, m.packages));
      while i < |m.packages|
        invariant i <= |m.packages|
        invariant vulnerabilityCount == CountOf(Vulnerability, found)
        invariant licenseViolationCount == CountOf(License, found)
        invariant State() == RouteAll(exceptions, old(State()), found) && moduleSummaries == old(moduleSummaries)
        invariant match ModuleFindings(policy, m, m.packages[i..])
                  case Err(e) => ModuleFindings(policy, m, m.packages) == Err(e)
                  case Ok(rest) => ModuleFindings(policy, m, m.packages) == Ok(found + rest)
      {
        var p := m.packages[i];
        assert m.packages[i..][1..] == m.packages[i + 1..];
        var vulnerabilities := RouteVulnerabilities(m, p);
        if vulnerabilities.Err? {
          return Err(vulnerabilities.error);
        }
        var licenses := RouteLicenses(m, p);
        ghost var vs, ls := Vulnerabilities(policy, m, p, p.groups).value, LicenseViolations(policy, m, p);
        Extended(exceptions, old(State()), found, vs, ls);
        Reassociate(found, vs, ls, ModuleFindings(policy, m, m.packages[i + 1..]));
        vulnerabilityCount := vulnerabilityCount + vulnerabilities.value;
        licenseViolationCount := licenseViolationCount + licenses;
        found := found + vs + ls;
        i := i + 1;
      }
      assert found + [] == found;
      var summary := Summary(m.name, |m.packages|, |m.components|, vulnerabilityCount, licenseViolationCount);
      moduleSummaries := moduleSummaries + [summary];
      return Ok(());
    }

    method EvaluateModules(modules: seq<Module>) returns (r: Result<(), GateError>)
      requires State() == NOTHING && moduleSummaries == []
      modifies this
      ensures match AllFindings(policy, modules, commit)
              case Err(e) => r == Err(e)
              case Ok(found) =>
                && r == Ok(())
                && State() == RouteAll(exceptions, NOTHING, found)
                && moduleSummaries == Summaries(policy, modules)
    {
      hide CheckIdentities, ModuleFindings, RouteAll;
      var i := 0;
      ghost var found: seq<Finding> := [];
      NothingRouted(exceptions, NOTHING);
      FromTheStart(modules, AllFindings(policy, modules, commit));
      while i < |modules|
        invariant i <= |modules|
        invariant State() == RouteAll(exceptions, NOTHING, found)
        invariant match AllFindings(policy, modules[i..], commit)
                  case Err(e) => AllFindings(policy, modules, commit) == Err(e)
                  case Ok(rest) =>
                    && AllFindings(policy, modules, commit) == Ok(found + rest)
                    && Summaries(policy, modules) == moduleSummaries + Summaries(policy, modules[i..])
      {
        assert modules[i..][1..] == modules[i + 1..];
        var examined := EvaluateModule(modules[i]);
        if examined.Err? {
          return Err(examined.error);
        }
        ghost var fs := ModuleFindings(policy, modules[i], modules[i].packages).value;
        RouteAllAppend(exceptions, NOTHING, found, fs);
        ghost var rest, after := AllFindings(policy, modules[i + 1..], commit), Summaries(policy, modules[i + 1..]);
        assert rest.Ok? ==> found + (fs + rest.value) == found + fs + rest.value;
        assert moduleSummaries + after ==
               moduleSummaries[..|moduleSummaries| - 1] + ([Summarize(modules[i], fs)] + after);
        found := found + fs;
        i := i + 1;
      }
      assert found + [] == found && moduleSummaries + [] == moduleSummaries;
      return Ok(());
    }

    /** The whole program: validate, examine every module, refuse left-over exceptions, conclude. */
    method Run(today: string, modules: seq<Module>) returns (r: Result<Outcome, GateError>)
      requires State() == NOTHING && moduleSummaries == []
      modifies this
      ensures r == Evaluate(policy, exceptions, today, modules, commit)
      ensures r.Ok? ==>
                && accepted == r.value.accepted && blocking == r.value.blocking
                && moduleSummaries == r.value.modules
    {
      hide ValidateFrom, AllFindings, Summaries, RouteAll, ValidateMaxValidityDays;
      if ValidateMaxValidityDays(policy.maxValidityDays).Err? {
        return Err(InvalidPolicy);
      }
      var valid := ValidateExceptions(today);
      if valid.Err? {
        return Err(valid.error);
      }
      var examined := EvaluateModules(modules);
      if examined.Err? {
        return Err(examined.error);
      }
      var unused := UnusedFrom(exceptions, usedExceptions, 0);
      if unused != [] {
        return Err(UnusedExceptions(unused));
      }
      return Ok(Outcome(moduleSummaries, accepted, blocking, if blocking == [] then Pass else Fail));
    }
  }

  lemma FromTheStart<T>(items: seq<T>, r: Result<seq<Finding>, GateError>)
    ensures items[0..] == items
    ensures r.Ok? ==> [] + r.value == r.value
  {
  }

  lemma NothingRouted(exceptions: seq<Exception>, t: Tally)
    ensures RouteAll(exceptions, t, []) == t && forall kind :: CountOf(kind, []) == 0
  {
  }

  lemma Extend(exceptions: seq<Exception>, t: Tally, found: seq<Finding>, f: Finding)
    ensures RouteAll(exceptions, t, found + [f]) == Route(exceptions, RouteAll(exceptions, t, found), f)
    ensures forall kind :: CountOf(kind, found + [f]) == CountOf(kind, found) + if f.key.kind == kind then 1 else 0
  {
    RouteAllAppend(exceptions, t, found, [f]);
    forall kind
      ensures CountOf(kind, found + [f]) == CountOf(kind, found) + if f.key.kind == kind then 1 else 0
    {
      CountAppend(kind, found, [f]);
    }
  }

  lemma Regroup(found: seq<Finding>, f: Finding, rest: Result<seq<Finding>, GateError>)
    requires found != [] && found[|found| - 1] == f
    ensures rest.Ok? ==> found[..|found| - 1] + ([f] + rest.value) == found + rest.value
  {
  }

  lemma Reassociate(found: seq<Finding>, vs: seq<Finding>, ls: seq<Finding>, rest: Result<seq<Finding>, GateError>)
    ensures rest.Ok? ==> found + (vs + ls + rest.value) == found + vs + ls + rest.value
  {
  }

  lemma Extended(exceptions: seq<Exception>, t: Tally, found: seq<Finding>, vs: seq<Finding>, ls: seq<Finding>)
    ensures RouteAll(exceptions, t, found + vs + ls) ==
            RouteAll(exceptions, RouteAll(exceptions, RouteAll(exceptions, t, found), vs), ls)
    ensures forall kind ::
              CountOf(kind, found + vs + ls) == CountOf(kind, found) + CountOf(kind, vs) + CountOf(kind, ls)
  {
    RouteAllAppend(exceptions, t, found, vs);
    RouteAllAppend(exceptions, t, found + vs, ls);
    forall kind
      ensures CountOf(kind, found + vs + ls) == CountOf(kind, found) + CountOf(kind, vs) + CountOf(kind, ls)
    {
      CountAppend(kind, found, vs);
      CountAppend(kind, found + vs, ls);
    }
  }
}
