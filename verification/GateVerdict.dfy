/**
 The verdict of the supply-chain gate, told from its inputs alone: which findings need an exception, what the
 summary counts, and when the gate completes and passes.
 */
module GateVerdict {
  import opened JsonText
  import opened Expiry
  import opened SupplyChain

  // ---- Which findings need an exception ----

  /** At or above the threshold, or unknown where the policy blocks that. */
  ghost predicate Severe(policy: Policy, g: Group) {
    || (g.severity.None? && policy.blockUnknownSeverity)
    || (g.severity.Some? && policy.blockCvssAtOrAbove <= g.severity.value)
  }

  /** The policy counts the package among the project's own components. */
  ghost predicate OwnComponent(policy: Policy, m: Module, p: Package) {
    exists c | c in policy.projectComponents ::
      c.moduleName == m.name && c.ecosystem == p.ecosystem && c.name == p.name && c.version == p.version
  }

  ghost predicate DueFor(policy: Policy, m: Module, p: Package, k: Key) {
    && k.moduleName == m.name && k.ecosystem == p.ecosystem && k.package == p.name && k.version == p.version
    && match k.kind
       case Vulnerability => exists g | g in p.groups :: Severe(policy, g) && k.finding == g.id
       case License => !OwnComponent(policy, m, p) && k.finding in p.licenses
  }

  ghost predicate DueIn(policy: Policy, m: Module, packages: seq<Package>, k: Key) {
    exists p | p in packages :: DueFor(policy, m, p, k)
  }

  /** Some module reports, for some package, a severe group or a license violation with this key. */
  ghost predicate Due(policy: Policy, modules: seq<Module>, k: Key) {
    exists m | m in modules :: DueIn(policy, m, m.packages, k)
  }

  /** Every vulnerability group of every package has an id. */
  ghost predicate StableIds(packages: seq<Package>) {
    forall p, g | p in packages && g in p.groups :: g.id != []
  }

  lemma {:induction false} VulnerabilitiesExactly(policy: Policy, m: Module, p: Package, groups: seq<Group>)
    ensures Vulnerabilities(policy, m, p, groups).Ok? <==> forall g | g in groups :: g.id != []
    ensures var r := Vulnerabilities(policy, m, p, groups);
            r.Ok? ==> forall k: Key ::
              k in FindingKeys(r.value) <==>
              exists g | g in groups ::
                Severe(policy, g) && k == Key(Vulnerability, m.name, p.ecosystem, p.name, p.version, g.id)
    decreases |groups|
  {
    if groups == [] {
    } else {
      var rest := Vulnerabilities(policy, m, p, groups[1..]);
      VulnerabilitiesExactly(policy, m, p, groups[1..]);
      assert groups == [groups[0]] + groups[1..];
      var r := Vulnerabilities(policy, m, p, groups);
      if r.Ok? {
        var g := groups[0];
        assert Gated(policy, g.severity) <==> Severe(policy, g);
        assert FindingKeys(r.value) ==
               FindingKeys(rest.value) +
               if Severe(policy, g) then {Key(Vulnerability, m.name, p.ecosystem, p.name, p.version, g.id)} else {};
      }
    }
  }

  lemma OwnComponentExactly(policy: Policy, m: Module, p: Package)
    ensures IsProjectComponent(policy, m, p) <==> OwnComponent(policy, m, p)
  {
    if c :| c in policy.projectComponents && c.moduleName == m.name && c.ecosystem == p.ecosystem &&
            c.name == p.name && c.version == p.version {
      assert c == ProjectComponent(m.name, p.ecosystem, p.name, p.version);
    }
  }

  lemma LicensesExactly(policy: Policy, m: Module, p: Package, k: Key)
    ensures k in FindingKeys(LicenseViolations(policy, m, p)) <==>
            k.kind == License && DueFor(policy, m, p, k)
  {
    OwnComponentExactly(policy, m, p);
    hide OwnComponent, IsProjectComponent;
    var fs := LicenseViolations(policy, m, p);
    if f :| f in fs && f.key == k {
      var i :| 0 <= i < |fs| && fs[i] == f;
      assert k.finding == p.licenses[i];
    }
    if k.kind == License && DueFor(policy, m, p, k) {
      var i :| 0 <= i < |p.licenses| && p.licenses[i] == k.finding;
      assert fs[i].key == k && fs[i] in fs;
    }
  }

  lemma KeysAppend(a: seq<Finding>, b: seq<Finding>)
    ensures FindingKeys(a + b) == FindingKeys(a) + FindingKeys(b)
  {
  }

  lemma PackageExactly(policy: Policy, m: Module, p: Package, k: Key)
    requires Vulnerabilities(policy, m, p, p.groups).Ok?
    ensures k in FindingKeys(Vulnerabilities(policy, m, p, p.groups).value + LicenseViolations(policy, m, p)) <==>
            DueFor(policy, m, p, k)
  {
    var vulnerabilities, licenses := Vulnerabilities(policy, m, p, p.groups).value, LicenseViolations(policy, m, p);
    VulnerabilitiesExactly(policy, m, p, p.groups);
    LicensesExactly(policy, m, p, k);
    KeysAppend(vulnerabilities, licenses);
    hide Vulnerabilities, LicenseViolations, FindingKeys, Severe, OwnComponent;
    if k.kind == Vulnerability && DueFor(policy, m, p, k) {
      var g :| g in p.groups && Severe(policy, g) && k.finding == g.id;
      assert k == Key(Vulnerability, m.name, p.ecosystem, p.name, p.version, g.id);
    }
  }

  lemma StableCons(packages: seq<Package>)
    requires packages != []
    ensures StableIds(packages) <==>
            (forall g | g in packages[0].groups :: g.id != []) && StableIds(packages[1..])
  {
    assert packages == [packages[0]] + packages[1..];
    assert packages[0] in packages && forall p | p in packages[1..] :: p in packages;
  }

  lemma DueInCons(policy: Policy, m: Module, packages: seq<Package>, k: Key)
    requires packages != []
    ensures DueIn(policy, m, packages, k) <==>
            DueFor(policy, m, packages[0], k) || DueIn(policy, m, packages[1..], k)
  {
    hide DueFor;
    assert packages == [packages[0]] + packages[1..];
  }

  lemma {:induction false} ModuleExactly(policy: Policy, m: Module, packages: seq<Package>)
    ensures ModuleFindings(policy, m, packages).Ok? <==> StableIds(packages)
    ensures ModuleFindings(policy, m, packages).Ok? ==>
              forall k :: k in FindingKeys(ModuleFindings(policy, m, packages).value) <==> DueIn(policy, m, packages, k)
    decreases |packages|
  {
    hide FindingKeys, DueFor, StableIds, DueIn, Vulnerabilities, LicenseViolations;
    if packages == [] {
      NothingDue(policy, m);
    } else {
      var p, tail := packages[0], packages[1..];
      VulnerabilitiesExactly(policy, m, p, p.groups);
      ModuleExactly(policy, m, tail);
      StableCons(packages);
      if ModuleFindings(policy, m, packages).Ok? {
        var first := Vulnerabilities(policy, m, p, p.groups).value + LicenseViolations(policy, m, p);
        var rest := ModuleFindings(policy, m, tail).value;
        KeysAppend(first, rest);
        forall k
          ensures k in FindingKeys(first + rest) <==> DueIn(policy, m, packages, k)
        {
          PackageExactly(policy, m, p, k);
          DueInCons(policy, m, packages, k);
        }
      }
    }
  }

  lemma NothingDue(policy: Policy, m: Module)
    ensures StableIds([]) && FindingKeys([]) == {} && forall k :: !DueIn(policy, m, [], k)
  {
  }

  /** What a module must satisfy for its findings to be collected. */
  ghost predicate Sound(m: Module, commit: Units) {
    Complete(m, commit) && ThreeWayCovered(m) && StableIds(m.packages)
  }

  lemma DueCons(policy: Policy, modules: seq<Module>, k: Key)
    requires modules != []
    ensures Due(policy, modules, k) <==>
            DueIn(policy, modules[0], modules[0].packages, k) || Due(policy, modules[1..], k)
  {
    hide DueIn;
    assert modules == [modules[0]] + modules[1..];
  }

  lemma SoundCons(modules: seq<Module>, commit: Units)
    requires modules != []
    ensures (forall m | m in modules :: Sound(m, commit)) <==>
            Sound(modules[0], commit) && forall m | m in modules[1..] :: Sound(m, commit)
  {
    hide Sound;
    assert modules == [modules[0]] + modules[1..];
    assert modules[0] in modules && forall m | m in modules[1..] :: m in modules;
  }

  /** The findings are collected exactly when every module is sound, and their keys are exactly the due ones. */
  lemma {:induction false} FindingsExactly(policy: Policy, modules: seq<Module>, commit: Units)
    ensures AllFindings(policy, modules, commit).Ok? <==> forall m | m in modules :: Sound(m, commit)
    ensures AllFindings(policy, modules, commit).Ok? ==>
              forall k :: k in FindingKeys(AllFindings(policy, modules, commit).value) <==> Due(policy, modules, k)
    decreases |modules|
  {
    hide FindingKeys, StableIds, DueIn, Due, ModuleFindings, Complete, ThreeWayCovered, CheckIdentities;
    if modules == [] {
      NoModules(policy);
    } else {
      var m, tail := modules[0], modules[1..];
      assert modules == [m] + tail;
      SoundCons(modules, commit);
      CoverageExact(m, commit);
      ModuleExactly(policy, m, m.packages);
      FindingsExactly(policy, tail, commit);
      if AllFindings(policy, modules, commit).Ok? {
        var first, rest := ModuleFindings(policy, m, m.packages).value, AllFindings(policy, tail, commit).value;
        KeysAppend(first, rest);
        forall k
          ensures k in FindingKeys(first + rest) <==> Due(policy, modules, k)
        {
          DueCons(policy, modules, k);
        }
      }
    }
  }

  lemma NoModules(policy: Policy)
    ensures FindingKeys([]) == {} && forall k :: !Due(policy, [], k)
  {
  }

  // ---- The verdict ----

  /** Some exception has this key. */
  ghost predicate Excepted(exceptions: seq<Exception>, k: Key) {
    exists x | x in exceptions :: x.key == k
  }

  /** The inputs are in order: the policy maximum, every exception, every module. */
  ghost predicate InOrder(policy: Policy, exceptions: seq<Exception>, today: string, modules: seq<Module>,
                          commit: Units)
  {
    && IntegerFromTo(policy.maxValidityDays, 1, 90)
    && (forall x | x in exceptions :: Holds(x, today, policy.maxValidityDays))
    && (forall m | m in modules :: Sound(m, commit))
  }

  /**
   The gate completes exactly when its inputs are in order, no two exceptions share a key and every exception is
   due; it passes exactly when, moreover, everything due is excepted.
   */
  lemma PassExactly(policy: Policy, exceptions: seq<Exception>, today: string, modules: seq<Module>, commit: Units)
    ensures var r := Evaluate(policy, exceptions, today, modules, commit);
            && (r.Ok? <==>
               && InOrder(policy, exceptions, today, modules, commit) && DistinctExceptions(exceptions)
               && forall k | Excepted(exceptions, k) :: Due(policy, modules, k))
            && (r.Ok? && r.value.verdict == Pass <==>
               && InOrder(policy, exceptions, today, modules, commit) && DistinctExceptions(exceptions)
               && forall k :: Excepted(exceptions, k) <==> Due(policy, modules, k))
  {
    hide AllFindings, FindingKeys, Sound, Due, Holds, ValidateFrom, DistinctExceptions, Conclude, RouteAll, Summaries,
         ValidateMaxValidityDays, IntegerFromTo;
    MaximumExact(policy.maxValidityDays);
    ValidExactly(exceptions, 0, today, policy.maxValidityDays);
    FindingsExactly(policy, modules, commit);
    AllHoldEverywhere(exceptions, today, policy.maxValidityDays);
    if InOrder(policy, exceptions, today, modules, commit) {
      PassByKeys(policy, exceptions, today, modules, commit);
    }
    forall k
      ensures k in KeysOf(exceptions) <==> Excepted(exceptions, k)
    {
    }
  }

  lemma AllHoldEverywhere(exceptions: seq<Exception>, today: string, max: JsValue)
    ensures (forall i | 0 <= i < |exceptions| :: Holds(exceptions[i], today, max)) <==>
            forall x | x in exceptions :: Holds(x, today, max)
  {
    hide Holds;
  }

  // ---- What the gate is refused for ----

  /** Its key is not due, or an exception before it has the same key. */
  ghost predicate LeftOver(policy: Policy, exceptions: seq<Exception>, modules: seq<Module>, i: int) {
    && 0 <= i < |exceptions|
    && (Due(policy, modules, exceptions[i].key) ==> exists j :: 0 <= j < i && exceptions[j].key == exceptions[i].key)
  }

  ghost predicate Rising(r: seq<nat>) {
    forall i, j | 0 <= i < j < |r| :: r[i] < r[j]
  }

  lemma {:induction false} UnusedAscends(exceptions: seq<Exception>, used: set<nat>, from: nat)
    requires from <= |exceptions|
    ensures Rising(UnusedFrom(exceptions, used, from))
    decreases |exceptions| - from
  {
    if from < |exceptions| {
      UnusedAscends(exceptions, used, from + 1);
      var rest := UnusedFrom(exceptions, used, from + 1);
      assert forall i | 0 <= i < |rest| :: rest[i] in rest;
      assert Rising([from] + rest);
    }
  }

  /** With its inputs in order the gate is refused only for exceptions left over, and reports them all, ascending. */
  lemma UnusedExactly(policy: Policy, exceptions: seq<Exception>, today: string, modules: seq<Module>, commit: Units)
    requires InOrder(policy, exceptions, today, modules, commit)
    ensures var r := Evaluate(policy, exceptions, today, modules, commit);
            r.Err? ==>
              && r.error.UnusedExceptions? && Rising(r.error.indices)
              && forall i :: i in r.error.indices <==> LeftOver(policy, exceptions, modules, i)
  {
    hide AllFindings, FindingKeys, Sound, Due, Holds, ValidateFrom, RouteAll, Summaries, ValidateMaxValidityDays,
         IntegerFromTo, UnusedFrom;
    MaximumExact(policy.maxValidityDays);
    ValidExactly(exceptions, 0, today, policy.maxValidityDays);
    FindingsExactly(policy, modules, commit);
    AllHoldEverywhere(exceptions, today, policy.maxValidityDays);
    var fs := AllFindings(policy, modules, commit).value;
    var used := RouteAll(exceptions, NOTHING, fs).used;
    UnusedAscends(exceptions, used, 0);
    forall i: nat | i < |exceptions|
      ensures i !in used <==> LeftOver(policy, exceptions, modules, i)
    {
      UsedMeaning(exceptions, fs, i);
    }
  }

  // ---- The summary ----

  ghost function SevereAmong(policy: Policy, groups: seq<Group>): nat {
    if groups == [] then 0 else (if Severe(policy, groups[0]) then 1 else 0) + SevereAmong(policy, groups[1..])
  }

  /** How many groups of these packages are severe. */
  ghost function SevereCount(policy: Policy, packages: seq<Package>): nat {
    if packages == [] then 0 else SevereAmong(policy, packages[0].groups) + SevereCount(policy, packages[1..])
  }

  /** How many licenses of these packages are in violation, the project's own components apart. */
  ghost function ViolationCount(policy: Policy, m: Module, packages: seq<Package>): nat {
    if packages == [] then
      0
    else
      (if OwnComponent(policy, m, packages[0]) then 0 else |packages[0].licenses|) +
      ViolationCount(policy, m, packages[1..])
  }

  lemma {:induction false} VulnerabilitiesCounted(policy: Policy, m: Module, p: Package, groups: seq<Group>)
    requires Vulnerabilities(policy, m, p, groups).Ok?
    ensures var fs := Vulnerabilities(policy, m, p, groups).value;
            CountOf(Vulnerability, fs) == SevereAmong(policy, groups) && CountOf(License, fs) == 0
    decreases |groups|
  {
    if groups == [] {
    } else {
      VulnerabilitiesCounted(policy, m, p, groups[1..]);
      var fs, rest := Vulnerabilities(policy, m, p, groups).value, Vulnerabilities(policy, m, p, groups[1..]).value;
      assert Gated(policy, groups[0].severity) <==> Severe(policy, groups[0]);
      if Gated(policy, groups[0].severity) {
        assert fs[1..] == rest;
      }
    }
  }

  lemma {:induction false} LicensesCounted(fs: seq<Finding>)
    requires forall f | f in fs :: f.key.kind == License
    ensures CountOf(License, fs) == |fs| && CountOf(Vulnerability, fs) == 0
  {
    if fs != [] {
      assert fs == [fs[0]] + fs[1..];
      LicensesCounted(fs[1..]);
    }
  }

  lemma {:induction false} ModuleCounted(policy: Policy, m: Module, packages: seq<Package>)
    requires ModuleFindings(policy, m, packages).Ok?
    ensures var fs := ModuleFindings(policy, m, packages).value;
            && CountOf(Vulnerability, fs) == SevereCount(policy, packages)
            && CountOf(License, fs) == ViolationCount(policy, m, packages)
    decreases |packages|
  {
    hide Severe, OwnComponent, IsProjectComponent, Vulnerabilities;
    if packages == [] {
    } else {
      var p, tail := packages[0], packages[1..];
      ModuleCounted(policy, m, tail);
      var found, licenses := Vulnerabilities(policy, m, p, p.groups).value, LicenseViolations(policy, m, p);
      VulnerabilitiesCounted(policy, m, p, p.groups);
      LicensesCounted(licenses);
      OwnComponentExactly(policy, m, p);
      var rest := ModuleFindings(policy, m, tail).value;
      CountAppend(Vulnerability, found + licenses, rest);
      CountAppend(License, found + licenses, rest);
      CountAppend(Vulnerability, found, licenses);
      CountAppend(License, found, licenses);
    }
  }

  /** What the summary of a module records. */
  ghost predicate Summarized(policy: Policy, m: Module, s: Summary) {
    && s.name == m.name && s.packages == |m.packages| && s.components == |m.components|
    && s.vulnerabilities == SevereCount(policy, m.packages)
    && s.licenses == ViolationCount(policy, m, m.packages)
  }

  lemma {:induction false} SummariesExactly(policy: Policy, modules: seq<Module>, commit: Units)
    requires AllFindings(policy, modules, commit).Ok?
    ensures |Summaries(policy, modules)| == |modules|
    ensures forall i | 0 <= i < |modules| :: Summarized(policy, modules[i], Summaries(policy, modules)[i])
  {
    hide CheckIdentities, ModuleFindings, SevereCount, ViolationCount, CountOf;
    if modules == [] {
    } else {
      SummariesExactly(policy, modules[1..], commit);
      ModuleCounted(policy, modules[0], modules[0].packages);
      assert Summarized(policy, modules[0], Summaries(policy, modules)[0]);
      hide Summarized;
    }
  }

  /** A summary that is written has one entry a module, in order, each with that module's numbers. */
  lemma SummaryExactly(policy: Policy, exceptions: seq<Exception>, today: string, modules: seq<Module>, commit: Units)
    requires Evaluate(policy, exceptions, today, modules, commit).Ok?
    ensures var written := Evaluate(policy, exceptions, today, modules, commit).value.modules;
            && |written| == |modules|
            && forall i | 0 <= i < |modules| :: Summarized(policy, modules[i], written[i])
  {
    hide Summarized, Summaries, ValidateFrom, RouteAll;
    SummariesExactly(policy, modules, commit);
  }
}
