/**
 The provenance verifier: four subjects, one per category, each with a checksum sidecar that must list
 exactly the declared artifacts.  Files, the hash, UTF-8 decoding and the attestation tool are inputs.
 */
module Provenance {
  import opened Wrappers
  import opened Orders
  import opened ByteStrings
  import JsonText

  datatype Artifact = Artifact(name: string, digest: string)

  datatype Subject = Subject(
    category: string, sidecarFile: string, sidecarSha256: string, bundleFile: string, bundleSha256: string,
    artifacts: seq<Artifact>)

  /** One entry of the attestation tool's answer; what is absent there is empty here. */
  datatype Statement = Statement(timestamps: nat, predicateType: string, subjects: seq<Artifact>)

  datatype Surroundings = Surroundings(
    files: map<string, Bytes>, decode: Bytes -> string, hash: Bytes -> string,
    attestations: (string, string) -> Option<seq<Statement>>)

  datatype Manifest = Manifest(
    schema: string, repository: string, signerWorkflow: string, sourceCommit: string, trustedRootFile: string,
    subjects: seq<Subject>)

  /** The attestation tool is also told the manifest's repository, workflow, commit and trusted root. */
  datatype Host = Host(
    files: map<string, Bytes>, decode: Bytes -> string, hash: Bytes -> string,
    attest: (Manifest, string, string) -> Option<seq<Statement>>)

  datatype ProvenanceError =
    | InvalidSchema
    | InvalidRepository
    | WorkflowMismatch
    | InvalidCommit
    | EmptyTrustedRoot
    | WrongSubjectCount
    | UnknownOrRepeatedCategory
    | UnsafeFileName
    | FileMissing
    | DigestMismatch
    | NoArtifacts
    | InvalidOrRepeatedArtifact
    | InvalidSidecarFormat
    | InvalidSidecarLine
    | EntryCountMismatch
    | ArtifactNotBound
    | AttestationRejected
    | CategoriesMissing

  const CATEGORIES: seq<string> := ["h5", "android", "api-x86_64", "api-arm64"]
  const REQUIRED: set<string> := {"h5", "android", "api-x86_64", "api-arm64"}
  const PREDICATE_TYPE := "https://slsa.dev/provenance/v1"

  // ---- Names and digests ----

  predicate HexChar(c: char) {
    '0' <= c <= '9' || 'a' <= c <= 'f'
  }

  predicate NameChar(c: char) {
    '0' <= c <= '9' || 'a' <= c <= 'z' || 'A' <= c <= 'Z' || c in "._-"
  }

  predicate IsDigest(s: string) {
    |s| == 64 && forall i | 0 <= i < |s| :: HexChar(s[i])
  }

  predicate IsName(s: string) {
    s != "" && forall i | 0 <= i < |s| :: NameChar(s[i])
  }

  predicate SafeFile(file: string, suffix: string) {
    IsName(file) && |suffix| <= |file| && file[|file| - |suffix|..] == suffix
  }

  predicate Valid(a: Artifact) {
    IsName(a.name) && IsDigest(a.digest)
  }

  // ---- Lines ----

  predicate Space(c: char) {
    JsonText.WhiteSpace(c as int)
  }

  function TrimStart(s: string): string {
    if s != "" && Space(s[0]) then TrimStart(s[1..]) else s
  }

  function TrimEnd(s: string): string {
    if s != "" && Space(s[|s| - 1]) then TrimEnd(s[..|s| - 1]) else s
  }

  function Split(s: string): (lines: seq<string>)
    ensures lines != []
  {
    if s == "" then
      [""]
    else
      var lines := Split(s[1..]);
      if s[0] == '\n' then [""] + lines else [[s[0]] + lines[0]] + lines[1..]
  }

  function Lines(content: string): seq<string> {
    Split(TrimEnd(TrimStart(content)))
  }

  function Joined(lines: seq<string>): string {
    if |lines| == 0 then "" else if |lines| == 1 then lines[0] else lines[0] + "\n" + Joined(lines[1..])
  }

  lemma {:induction false} SplitLine(line: string, rest: string)
    requires '\n' !in line
    ensures Split(line) == [line]
    ensures Split(line + "\n" + rest) == [line] + Split(rest)
  {
    if line == "" {
      assert (line + "\n" + rest)[1..] == rest;
    } else {
      SplitLine(line[1..], rest);
      assert (line + "\n" + rest)[1..] == line[1..] + "\n" + rest;
      assert line == [line[0]] + line[1..];
    }
  }

  lemma {:induction false} SplitJoined(lines: seq<string>)
    requires lines != [] && forall l | l in lines :: '\n' !in l
    ensures Split(Joined(lines)) == lines
  {
    if |lines| == 1 {
      SplitLine(lines[0], "");
    } else {
      SplitLine(lines[0], Joined(lines[1..]));
      SplitJoined(lines[1..]);
      assert lines == [lines[0]] + lines[1..];
    }
  }

  // ---- The sidecar ----

  function LineOf(a: Artifact): string {
    a.digest + "  " + a.name
  }

  function ParseLine(line: string): (r: Option<Artifact>)
    ensures r.Some? ==> Valid(r.value) && LineOf(r.value) == line
  {
    if |line| > 66 && IsDigest(line[..64]) && line[64..66] == "  " && IsName(line[66..]) then
      Some(Artifact(line[66..], line[..64]))
    else
      None
  }

  lemma ParseLineOf(a: Artifact)
    requires Valid(a)
    ensures ParseLine(LineOf(a)) == Some(a)
    ensures '\n' !in LineOf(a) && '\r' !in LineOf(a)
  {
    var line := LineOf(a);
    assert line[..64] == a.digest && line[64..66] == "  " && line[66..] == a.name;
    forall i | 0 <= i < |line|
      ensures line[i] != '\n' && line[i] != '\r'
    {
      assert i < 64 ==> HexChar(a.digest[i]);
      assert i >= 66 ==> NameChar(a.name[i - 66]);
    }
  }

  function Collect(lines: seq<string>, found: map<string, string>): Result<map<string, string>, ProvenanceError>
    decreases |lines|
  {
    if lines == [] then
      Ok(found)
    else
      match ParseLine(lines[0])
      case None => Err(InvalidSidecarLine)
      case Some(a) =>
        if a.name in found then Err(InvalidSidecarLine) else Collect(lines[1..], found[a.name := a.digest])
  }

  predicate HasReturn(lines: seq<string>) {
    exists line | line in lines :: '\r' in line
  }

  function ParseSidecar(content: string): Result<map<string, string>, ProvenanceError> {
    var lines := Lines(content);
    if HasReturn(lines) then Err(InvalidSidecarFormat) else Collect(lines, map[])
  }

  method ReadSidecar(content: string) returns (r: Result<map<string, string>, ProvenanceError>)
    ensures r == ParseSidecar(content)
  {
    var result: map<string, string> := map[];
    var lines := Lines(content);
    if HasReturn(lines) {
      return Err(InvalidSidecarFormat);
    }
    var i := 0;
    while i < |lines|
      invariant i <= |lines|
      invariant Collect(lines, map[]) == Collect(lines[i..], result)
    {
      var matched := ParseLine(lines[i]);
      assert lines[i..][1..] == lines[i + 1..];
      if matched.None? || matched.value.name in result {
        return Err(InvalidSidecarLine);
      }
      result := result[matched.value.name := matched.value.digest];
      i := i + 1;
    }
    return Ok(result);
  }

  // ---- What a list of artifacts maps ----

  ghost predicate DistinctNames(artifacts: seq<Artifact>) {
    forall i, j | 0 <= i < j < |artifacts| :: artifacts[i].name != artifacts[j].name
  }

  ghost function NameSet(artifacts: seq<Artifact>): set<string> {
    set a | a in artifacts :: a.name
  }

  ghost predicate Maps(m: map<string, string>, artifacts: seq<Artifact>) {
    && m.Keys == NameSet(artifacts)
    && forall a | a in artifacts :: a.name in m && m[a.name] == a.digest
  }

  lemma DistinctCount(artifacts: seq<Artifact>)
    requires DistinctNames(artifacts)
    ensures |NameSet(artifacts)| == |artifacts|
  {
    var names := Map(artifacts, (a: Artifact) => a.name);
    ElementsCount(names);
    assert NameSet(artifacts) == ElementsOf(names) by {
      forall name
        ensures name in NameSet(artifacts) <==> name in names
      {
        if a :| a in artifacts && a.name == name {
          var i :| 0 <= i < |artifacts| && artifacts[i] == a;
          assert names[i] == name;
        }
        if name in names {
          var i :| 0 <= i < |names| && names[i] == name;
          assert artifacts[i] in artifacts;
        }
      }
    }
  }

  /** Distinctly named lists with the same map are rearrangements of each other. */
  lemma SameMapSameArtifacts(m: map<string, string>, a: seq<Artifact>, b: seq<Artifact>)
    requires DistinctNames(a) && DistinctNames(b) && Maps(m, a) && Maps(m, b)
    ensures multiset(a) == multiset(b)
  {
    forall x
      ensures x in a <==> x in b
    {
      if x in a {
        InBoth(m, a, b, x);
      }
      if x in b {
        InBoth(m, b, a, x);
      }
    }
    DistinctElements(a);
    DistinctElements(b);
    SameSetSameMultiset(a, b);
  }

  lemma InBoth(m: map<string, string>, a: seq<Artifact>, b: seq<Artifact>, x: Artifact)
    requires Maps(m, a) && Maps(m, b) && x in a
    ensures x in b
  {
    assert x.name in NameSet(b);
    var y :| y in b && y.name == x.name;
  }

  lemma DistinctElements(a: seq<Artifact>)
    requires DistinctNames(a)
    ensures NoRepetition(a)
  {
    forall i, j | 0 <= i < j < |a|
      ensures a[i] != a[j]
    {
      var p, q := a[i].name, a[j].name;
    }
  }

  function LinesOf(artifacts: seq<Artifact>): seq<string> {
    Map(artifacts, LineOf)
  }

  /** The names the lines give are new, that is, neither repeated nor already found. */
  ghost predicate NewNames(artifacts: seq<Artifact>, found: map<string, string>) {
    DistinctNames(artifacts) && forall a | a in artifacts :: a.name !in found
  }

  ghost predicate AllValid(artifacts: seq<Artifact>) {
    forall a | a in artifacts :: Valid(a)
  }

  ghost predicate Extends(m: map<string, string>, found: map<string, string>, artifacts: seq<Artifact>) {
    && m.Keys == found.Keys + NameSet(artifacts)
    && (forall k | k in found :: k in m && m[k] == found[k])
    && forall a | a in artifacts :: a.name in m && m[a.name] == a.digest
  }

  /** Lines of new, valid artifacts are collected into the map that has them too. */
  lemma {:induction false} CollectComplete(artifacts: seq<Artifact>, found: map<string, string>)
    requires AllValid(artifacts) && NewNames(artifacts, found)
    ensures var r := Collect(LinesOf(artifacts), found); r.Ok? && Extends(r.value, found, artifacts)
    decreases |artifacts|
  {
    hide ParseLine, IsName, IsDigest, LineOf;
    if artifacts == [] {
    } else {
      var a, tail := artifacts[0], artifacts[1..];
      assert artifacts == [a] + tail;
      assert AllValid(tail) && Valid(a) && a in artifacts;
      ParseLineOf(a);
      MapTail(artifacts, LineOf);
      var next := found[a.name := a.digest];
      NewNamesCons(artifacts, found);
      hide NewNames, Extends, AllValid;
      CollectComplete(tail, next);
      ExtendsCons(Collect(LinesOf(tail), next).value, found, artifacts);
    }
  }

  lemma ExtendsCons(m: map<string, string>, found: map<string, string>, artifacts: seq<Artifact>)
    requires artifacts != [] && artifacts[0].name !in found
    requires Extends(m, found[artifacts[0].name := artifacts[0].digest], artifacts[1..])
    ensures Extends(m, found, artifacts)
  {
    var a, tail := artifacts[0], artifacts[1..];
    var next := found[a.name := a.digest];
    assert artifacts == [a] + tail;
    assert NameSet(artifacts) == NameSet(tail) + {a.name};
    assert a.name in next && m[a.name] == next[a.name];
    forall k | k in found
      ensures k in m && m[k] == found[k]
    {
      assert k in next;
    }
  }

  /** Lines that are collected are those of new, valid artifacts. */
  lemma {:induction false} CollectSound(lines: seq<string>, found: map<string, string>)
    returns (artifacts: seq<Artifact>)
    requires Collect(lines, found).Ok?
    ensures AllValid(artifacts) && NewNames(artifacts, found) && LinesOf(artifacts) == lines
    decreases |lines|
  {
    hide IsName, IsDigest, LineOf;
    if lines == [] {
      artifacts := [];
    } else {
      var a := ParseLine(lines[0]).value;
      var tail := CollectSound(lines[1..], found[a.name := a.digest]);
      artifacts := [a] + tail;
      MapTail(artifacts, LineOf);
      assert artifacts[1..] == tail;
      assert lines == [lines[0]] + lines[1..];
    }
  }

  /** A sidecar reads as a map exactly when its lines are those of valid, distinctly named artifacts with that map. */
  lemma SidecarExactly(content: string, artifacts: seq<Artifact>)
    requires AllValid(artifacts) && DistinctNames(artifacts)
    ensures multiset(Lines(content)) == multiset(LinesOf(artifacts)) <==>
            ParseSidecar(content).Ok? && Maps(ParseSidecar(content).value, artifacts)
  {
    hide Lines, Collect, LineOf, Valid, Maps, DistinctNames, Map;
    var lines := Lines(content);
    if multiset(lines) == multiset(LinesOf(artifacts)) {
      var order := Rearranged(lines, artifacts);
      SidecarComplete(content, order);
      RearrangedMaps(ParseSidecar(content).value, order, artifacts);
    }
    if ParseSidecar(content).Ok? && Maps(ParseSidecar(content).value, artifacts) {
      var order := SidecarSound(content);
      SameMapSameArtifacts(ParseSidecar(content).value, order, artifacts);
      MapPermutes(order, artifacts, LineOf);
    }
  }

  lemma SidecarComplete(content: string, artifacts: seq<Artifact>)
    requires AllValid(artifacts) && DistinctNames(artifacts) && Lines(content) == LinesOf(artifacts)
    ensures ParseSidecar(content).Ok? && Maps(ParseSidecar(content).value, artifacts)
  {
    hide Lines;
    CollectComplete(artifacts, map[]);
    forall line | line in LinesOf(artifacts)
      ensures '\r' !in line
    {
      var i :| 0 <= i < |artifacts| && line == LinesOf(artifacts)[i];
      ParseLineOf(artifacts[i]);
    }
  }

  lemma SidecarSound(content: string) returns (artifacts: seq<Artifact>)
    requires ParseSidecar(content).Ok?
    ensures AllValid(artifacts) && DistinctNames(artifacts) && Lines(content) == LinesOf(artifacts)
    ensures Maps(ParseSidecar(content).value, artifacts)
  {
    hide Lines;
    artifacts := CollectSound(Lines(content), map[]);
    CollectComplete(artifacts, map[]);
  }

  /** Rearranged lines are the lines of rearranged artifacts. */
  lemma Rearranged(lines: seq<string>, artifacts: seq<Artifact>) returns (order: seq<Artifact>)
    requires AllValid(artifacts) && multiset(lines) == multiset(LinesOf(artifacts))
    requires DistinctNames(artifacts)
    ensures multiset(order) == multiset(artifacts) && lines == LinesOf(order)
    ensures AllValid(order) && DistinctNames(order)
  {
    hide DistinctNames, Valid;
    var read := (line: string) => match ParseLine(line) case Some(a) => a case None => Artifact("", line);
    order := Map(lines, read);
    MapPermutes(lines, LinesOf(artifacts), read);
    forall i | 0 <= i < |artifacts|
      ensures read(LineOf(artifacts[i])) == artifacts[i]
    {
      assert artifacts[i] in artifacts;
      ParseLineOf(artifacts[i]);
    }
    assert Map(LinesOf(artifacts), read) == artifacts;
    SameElements(lines, LinesOf(artifacts));
    forall i | 0 <= i < |lines|
      ensures LineOf(order[i]) == lines[i]
    {
      assert lines[i] in LinesOf(artifacts);
      var j :| 0 <= j < |artifacts| && LinesOf(artifacts)[j] == lines[i];
    }
    SameElements(order, artifacts);
    RearrangedNames(order, artifacts);
  }

  lemma RearrangedNames(a: seq<Artifact>, b: seq<Artifact>)
    requires multiset(a) == multiset(b) && DistinctNames(b)
    ensures DistinctNames(a)
  {
    var nameOf := (x: Artifact) => x.name;
    MapPermutes(a, b, nameOf);
    var p, q := Map(a, nameOf), Map(b, nameOf);
    forall i, j | 0 <= i < j < |a|
      ensures a[i].name != a[j].name
    {
      if p[i] == p[j] {
        CountedTwice(p, i, j);
        NoDuplicatesCount(q, p[j]);
      }
      assert p[i] == a[i].name && p[j] == a[j].name;
    }
  }

  lemma RearrangedMaps(m: map<string, string>, a: seq<Artifact>, b: seq<Artifact>)
    requires multiset(a) == multiset(b) && Maps(m, a)
    ensures Maps(m, b)
  {
    SameElements(a, b);
    assert NameSet(a) == NameSet(b);
  }

  /** What a checksum tool writes: one line each, every one ended. */
  function Written(artifacts: seq<Artifact>): string {
    Joined(LinesOf(artifacts)) + "\n"
  }

  lemma {:induction false} JoinedEnds(artifacts: seq<Artifact>)
    requires artifacts != [] && AllValid(artifacts)
    ensures var t := Joined(LinesOf(artifacts)); t != "" && !Space(t[0]) && !Space(t[|t| - 1])
  {
    var a := artifacts[0];
    assert a in artifacts && HexChar(a.digest[0]);
    MapTail(artifacts, LineOf);
    if |artifacts| == 1 {
      assert NameChar(a.name[|a.name| - 1]);
    } else {
      JoinedEnds(artifacts[1..]);
    }
  }

  /** Whatever valid, distinctly named artifacts a checksum tool lists, the sidecar reads back as their map. */
  lemma WrittenReadsBack(artifacts: seq<Artifact>)
    requires artifacts != [] && AllValid(artifacts) && DistinctNames(artifacts)
    ensures var r := ParseSidecar(Written(artifacts)); r.Ok? && Maps(r.value, artifacts)
  {
    hide Valid, LineOf, ParseSidecar, DistinctNames, Maps;
    var t := Joined(LinesOf(artifacts));
    JoinedEnds(artifacts);
    var w := t + "\n";
    assert w[0] == t[0] && TrimStart(w) == w;
    assert w[..|w| - 1] == t && TrimEnd(w) == TrimEnd(t) == t;
    forall line | line in LinesOf(artifacts)
      ensures '\n' !in line
    {
      var i :| 0 <= i < |artifacts| && line == LinesOf(artifacts)[i];
      ParseLineOf(artifacts[i]);
    }
    SplitJoined(LinesOf(artifacts));
    SidecarComplete(w, artifacts);
  }

  // ---- One subject ----

  predicate DigestHolds(bytes: Bytes, expected: string, w: Surroundings) {
    IsDigest(expected) && w.hash(bytes) == expected
  }

  function Expect(artifacts: seq<Artifact>, expected: map<string, string>): Result<map<string, string>, ProvenanceError>
    decreases |artifacts|
  {
    if artifacts == [] then
      Ok(expected)
    else if !IsName(artifacts[0].name) then
      Err(UnsafeFileName)
    else if !IsDigest(artifacts[0].digest) || artifacts[0].name in expected then
      Err(InvalidOrRepeatedArtifact)
    else
      Expect(artifacts[1..], expected[artifacts[0].name := artifacts[0].digest])
  }

  /** The sidecar's map against the declared one: the number of entries, then each declared entry. */
  predicate Bound(observed: map<string, string>, artifacts: seq<Artifact>) {
    forall i | 0 <= i < |artifacts| ::
      artifacts[i].name in observed && observed[artifacts[i].name] == artifacts[i].digest
  }

  predicate BindsSidecar(statement: Statement, s: Subject, digest: string) {
    && statement.timestamps > 0
    && statement.predicateType == PREDICATE_TYPE
    && Artifact(s.sidecarFile, digest) in statement.subjects
  }

  predicate Attested(answer: Option<seq<Statement>>, s: Subject, digest: string) {
    answer.Some? && exists statement | statement in answer.value :: BindsSidecar(statement, s, digest)
  }

  function CheckSubject(s: Subject, w: Surroundings): Result<(), ProvenanceError> {
    if !SafeFile(s.sidecarFile, ".sha256") || !SafeFile(s.bundleFile, ".jsonl") then
      Err(UnsafeFileName)
    else if s.sidecarFile !in w.files || s.bundleFile !in w.files then
      Err(FileMissing)
    else if
      || !DigestHolds(w.files[s.sidecarFile], s.sidecarSha256, w)
      || !DigestHolds(w.files[s.bundleFile], s.bundleSha256, w)
    then
      Err(DigestMismatch)
    else if s.artifacts == [] then
      Err(NoArtifacts)
    else
      var expected :- Expect(s.artifacts, map[]);
      var observed :- ParseSidecar(w.decode(w.files[s.sidecarFile]));
      if |observed| != |expected| then
        Err(EntryCountMismatch)
      else if !Bound(observed, s.artifacts) then
        Err(ArtifactNotBound)
      else if !Attested(w.attestations(s.sidecarFile, s.bundleFile), s, w.hash(w.files[s.sidecarFile])) then
        Err(AttestationRejected)
      else
        Ok(())
  }

  /** What a verified subject means, without maps or counting: its sidecar's lines are its artifacts', rearranged. */
  ghost predicate Holds(s: Subject, w: Surroundings) {
    && SafeFile(s.sidecarFile, ".sha256") && SafeFile(s.bundleFile, ".jsonl")
    && s.sidecarFile in w.files && DigestHolds(w.files[s.sidecarFile], s.sidecarSha256, w)
    && s.bundleFile in w.files && DigestHolds(w.files[s.bundleFile], s.bundleSha256, w)
    && s.artifacts != [] && AllValid(s.artifacts) && DistinctNames(s.artifacts)
    && multiset(Lines(w.decode(w.files[s.sidecarFile]))) == multiset(LinesOf(s.artifacts))
    && Attested(w.attestations(s.sidecarFile, s.bundleFile), s, s.sidecarSha256)
  }

  lemma {:induction false} ExpectExactly(artifacts: seq<Artifact>, expected: map<string, string>)
    ensures Expect(artifacts, expected).Ok? <==> AllValid(artifacts) && NewNames(artifacts, expected)
    ensures Expect(artifacts, expected).Ok? ==> Extends(Expect(artifacts, expected).value, expected, artifacts)
    decreases |artifacts|
  {
    hide IsName, IsDigest;
    if artifacts == [] {
    } else {
      var a, tail := artifacts[0], artifacts[1..];
      assert artifacts == [a] + tail;
      var next := expected[a.name := a.digest];
      ExpectExactly(tail, next);
      NewNamesCons(artifacts, expected);
      AllValidCons(artifacts);
      hide NewNames, Extends, AllValid;
      if a.name !in expected && Expect(tail, next).Ok? {
        ExtendsCons(Expect(tail, next).value, expected, artifacts);
      }
    }
  }

  lemma AllValidCons(artifacts: seq<Artifact>)
    requires artifacts != []
    ensures AllValid(artifacts) <==> Valid(artifacts[0]) && AllValid(artifacts[1..])
  {
    assert artifacts == [artifacts[0]] + artifacts[1..];
    assert artifacts[0] in artifacts;
  }

  lemma NewNamesCons(artifacts: seq<Artifact>, found: map<string, string>)
    requires artifacts != []
    ensures NewNames(artifacts, found) <==>
            artifacts[0].name !in found && NewNames(artifacts[1..], found[artifacts[0].name := artifacts[0].digest])
  {
    var a, tail := artifacts[0], artifacts[1..];
    var next := found[a.name := a.digest];
    assert artifacts == [a] + tail;
    if NewNames(artifacts, found) {
      assert a in artifacts;
      forall x | x in tail
        ensures x.name !in next
      {
        var j :| 0 <= j < |tail| && tail[j] == x;
        assert artifacts[0].name != artifacts[j + 1].name;
      }
      forall i, j | 0 <= i < j < |tail|
        ensures tail[i].name != tail[j].name
      {
        assert artifacts[i + 1].name != artifacts[j + 1].name;
      }
    }
    if a.name !in found && NewNames(tail, next) {
      forall i, j | 0 <= i < j < |artifacts|
        ensures artifacts[i].name != artifacts[j].name
      {
        assert artifacts[j] == tail[j - 1] && tail[j - 1] in tail;
        assert i > 0 ==> artifacts[i] == tail[i - 1];
      }
    }
  }

  /** Distinct names, as many entries and every declared entry present: then there is nothing else. */
  lemma CountedInclusion(observed: map<string, string>, artifacts: seq<Artifact>)
    requires DistinctNames(artifacts)
    ensures |observed| == |artifacts| && Bound(observed, artifacts) <==> Maps(observed, artifacts)
  {
    DistinctCount(artifacts);
    assert |observed.Keys| == |observed|;
    if |observed| == |artifacts| && Bound(observed, artifacts) {
      forall a | a in artifacts
        ensures a.name in observed && observed[a.name] == a.digest
      {
        var i :| 0 <= i < |artifacts| && artifacts[i] == a;
      }
      assert NameSet(artifacts) <= observed.Keys;
      SubsetOfSameSize(NameSet(artifacts), observed.Keys);
    }
    if Maps(observed, artifacts) {
      forall i | 0 <= i < |artifacts|
        ensures artifacts[i].name in observed && observed[artifacts[i].name] == artifacts[i].digest
      {
        assert artifacts[i] in artifacts;
      }
    }
  }

  lemma SubsetOfSameSize<T>(a: set<T>, b: set<T>)
    requires a <= b && |a| == |b|
    ensures a == b
  {
    assert b == a + (b - a);
    assert |b| == |a| + |b - a|;
  }

  /** A subject is accepted exactly when it holds. */
  lemma SubjectExactly(s: Subject, w: Surroundings)
    ensures CheckSubject(s, w).Ok? <==> Holds(s, w)
  {
    hide ParseSidecar, Expect, SafeFile, DigestHolds, Bound, Attested, Lines, LinesOf, DistinctNames, AllValid, Maps;
    ExpectExactly(s.artifacts, map[]);
    if s.sidecarFile in w.files && AllValid(s.artifacts) && DistinctNames(s.artifacts) {
      var content := w.decode(w.files[s.sidecarFile]);
      SidecarExactly(content, s.artifacts);
      ExpectedCount(s.artifacts);
      if ParseSidecar(content).Ok? {
        CountedInclusion(ParseSidecar(content).value, s.artifacts);
      }
    }
    if s.sidecarFile in w.files {
      DigestIs(w.files[s.sidecarFile], s.sidecarSha256, w);
    }
  }

  lemma DigestIs(bytes: Bytes, expected: string, w: Surroundings)
    ensures DigestHolds(bytes, expected, w) ==> w.hash(bytes) == expected
  {
  }

  lemma ExpectedCount(artifacts: seq<Artifact>)
    requires AllValid(artifacts) && DistinctNames(artifacts)
    ensures Expect(artifacts, map[]).Ok? && |Expect(artifacts, map[]).value| == |artifacts|
  {
    hide Expect, AllValid, DistinctNames;
    ExpectExactly(artifacts, map[]);
    assert NewNames(artifacts, map[]);
    var m := Expect(artifacts, map[]).value;
    DistinctCount(artifacts);
    assert m.Keys == NameSet(artifacts);
    assert |m.Keys| == |m|;
  }

  method VerifySubject(s: Subject, w: Surroundings) returns (r: Result<(), ProvenanceError>)
    ensures r == CheckSubject(s, w)
  {
    hide ParseSidecar, Attested, SafeFile, DigestHolds;
    if !SafeFile(s.sidecarFile, ".sha256") || !SafeFile(s.bundleFile, ".jsonl") {
      return Err(UnsafeFileName);
    }
    if s.sidecarFile !in w.files || s.bundleFile !in w.files {
      return Err(FileMissing);
    }
    var sidecarBytes, bundleBytes := w.files[s.sidecarFile], w.files[s.bundleFile];
    if !DigestHolds(sidecarBytes, s.sidecarSha256, w) || !DigestHolds(bundleBytes, s.bundleSha256, w) {
      return Err(DigestMismatch);
    }
    if s.artifacts == [] {
      return Err(NoArtifacts);
    }
    var expected: map<string, string> := map[];
    var i := 0;
    while i < |s.artifacts|
      invariant i <= |s.artifacts|
      invariant Expect(s.artifacts, map[]) == Expect(s.artifacts[i..], expected)
    {
      var a := s.artifacts[i];
      assert s.artifacts[i..][1..] == s.artifacts[i + 1..];
      if !IsName(a.name) {
        return Err(UnsafeFileName);
      }
      if !IsDigest(a.digest) || a.name in expected {
        return Err(InvalidOrRepeatedArtifact);
      }
      expected := expected[a.name := a.digest];
      i := i + 1;
    }
    var observed := ReadSidecar(w.decode(sidecarBytes));
    if observed.Err? {
      return Err(observed.error);
    }
    if |observed.value| != |expected| {
      return Err(EntryCountMismatch);
    }
    for k := 0 to |s.artifacts|
      invariant Bound(observed.value, s.artifacts[..k])
    {
      var a := s.artifacts[k];
      if a.name !in observed.value || observed.value[a.name] != a.digest {
        return Err(ArtifactNotBound);
      }
    }
    assert s.artifacts[..|s.artifacts|] == s.artifacts;
    if !Attested(w.attestations(s.sidecarFile, s.bundleFile), s, w.hash(sidecarBytes)) {
      return Err(AttestationRejected);
    }
    return Ok(());
  }

  // ---- The four subjects ----

  function VerifyFrom(subjects: seq<Subject>, required: set<string>, w: Surroundings)
    : Result<set<string>, ProvenanceError>
    decreases |subjects|
  {
    if subjects == [] then
      Ok(required)
    else if subjects[0].category !in required then
      Err(UnknownOrRepeatedCategory)
    else
      var _ :- CheckSubject(subjects[0], w);
      VerifyFrom(subjects[1..], required - {subjects[0].category}, w)
  }

  function Verify(subjects: seq<Subject>, w: Surroundings): Result<(), ProvenanceError> {
    if |subjects| != |REQUIRED| then
      Err(WrongSubjectCount)
    else
      var left :- VerifyFrom(subjects, REQUIRED, w);
      if |left| != 0 then Err(CategoriesMissing) else Ok(())
  }

  method VerifySubjects(subjects: seq<Subject>, w: Surroundings) returns (r: Result<(), ProvenanceError>)
    ensures r == Verify(subjects, w)
  {
    hide CheckSubject;
    var requiredCategories := REQUIRED;
    if |subjects| != |requiredCategories| {
      return Err(WrongSubjectCount);
    }
    var i := 0;
    while i < |subjects|
      invariant i <= |subjects|
      invariant VerifyFrom(subjects, REQUIRED, w) == VerifyFrom(subjects[i..], requiredCategories, w)
    {
      var subject := subjects[i];
      assert subjects[i..][1..] == subjects[i + 1..];
      if subject.category !in requiredCategories {
        return Err(UnknownOrRepeatedCategory);
      }
      requiredCategories := requiredCategories - {subject.category};
      var checked := VerifySubject(subject, w);
      if checked.Err? {
        return Err(checked.error);
      }
      i := i + 1;
    }
    if |requiredCategories| != 0 {
      return Err(CategoriesMissing);
    }
    return Ok(());
  }

  function CategoriesOf(subjects: seq<Subject>): seq<string> {
    Map(subjects, (s: Subject) => s.category)
  }

  ghost predicate AllHold(subjects: seq<Subject>, w: Surroundings) {
    forall s | s in subjects :: Holds(s, w)
  }

  /** The subjects take distinct categories out of the required ones. */
  ghost predicate Drawn(subjects: seq<Subject>, required: set<string>) {
    && (forall i | 0 <= i < |subjects| :: subjects[i].category in required)
    && (forall i, j | 0 <= i < j < |subjects| :: subjects[i].category != subjects[j].category)
  }

  lemma DrawnCons(subjects: seq<Subject>, required: set<string>)
    requires subjects != []
    ensures Drawn(subjects, required) <==>
            subjects[0].category in required && Drawn(subjects[1..], required - {subjects[0].category})
  {
    var tail, rest := subjects[1..], required - {subjects[0].category};
    if Drawn(subjects, required) {
      forall i | 0 <= i < |tail|
        ensures tail[i].category in rest
      {
        assert subjects[0].category != subjects[i + 1].category;
      }
      forall i, j | 0 <= i < j < |tail|
        ensures tail[i].category != tail[j].category
      {
        assert subjects[i + 1].category != subjects[j + 1].category;
      }
    }
    if subjects[0].category in required && Drawn(tail, rest) {
      forall i | 0 <= i < |subjects|
        ensures subjects[i].category in required
      {
        assert i > 0 ==> subjects[i] == tail[i - 1];
      }
      forall i, j | 0 <= i < j < |subjects|
        ensures subjects[i].category != subjects[j].category
      {
        assert subjects[j] == tail[j - 1];
        assert i > 0 ==> subjects[i] == tail[i - 1];
      }
    }
  }

  lemma {:induction false} LoopExactly(subjects: seq<Subject>, required: set<string>, w: Surroundings)
    ensures var r := VerifyFrom(subjects, required, w);
            && (r.Ok? <==> Drawn(subjects, required) && AllHold(subjects, w))
            && (r.Ok? ==> |r.value| == |required| - |subjects|)
            && !(r.Err? && r.error == CategoriesMissing)
    decreases |subjects|
  {
    hide CheckSubject, Holds, Drawn;
    if subjects == [] {
      NoneDrawn(required);
    } else {
      SubjectExactly(subjects[0], w);
      SubjectError(subjects[0], w);
      LoopExactly(subjects[1..], required - {subjects[0].category}, w);
      DrawnCons(subjects, required);
      assert subjects == [subjects[0]] + subjects[1..];
    }
  }

  lemma NoneDrawn(required: set<string>)
    ensures Drawn([], required)
  {
  }

  lemma SubjectError(s: Subject, w: Surroundings)
    ensures var r := CheckSubject(s, w); !(r.Err? && r.error == CategoriesMissing)
  {
    hide SafeFile, DigestHolds, Bound, Attested, Lines, HasReturn;
    ExpectError(s.artifacts, map[]);
    if s.sidecarFile in w.files {
      CollectError(Lines(w.decode(w.files[s.sidecarFile])), map[]);
    }
  }

  lemma {:induction false} ExpectError(artifacts: seq<Artifact>, expected: map<string, string>)
    ensures var r := Expect(artifacts, expected); !(r.Err? && r.error == CategoriesMissing)
    decreases |artifacts|
  {
    if artifacts == [] {
    } else {
      ExpectError(artifacts[1..], expected[artifacts[0].name := artifacts[0].digest]);
    }
  }

  lemma {:induction false} CollectError(lines: seq<string>, found: map<string, string>)
    ensures var r := Collect(lines, found); !(r.Err? && r.error == CategoriesMissing)
    decreases |lines|
  {
    if lines == [] {
    } else if ParseLine(lines[0]).Some? {
      var a := ParseLine(lines[0]).value;
      CollectError(lines[1..], found[a.name := a.digest]);
    }
  }

  /** As many different elements as a set of that size has, all from it: then a listing of the set. */
  lemma ListsAll<T>(cs: seq<T>, all: seq<T>, required: set<T>)
    requires NoRepetition(all)
    requires forall c :: c in required <==> c in all
    requires |cs| == |required|
    ensures (forall i | 0 <= i < |cs| :: cs[i] in required) && NoRepetition(cs) <==>
            multiset(cs) == multiset(all)
  {
    if (forall i | 0 <= i < |cs| :: cs[i] in required) && NoRepetition(cs) {
      var seen := set c | c in cs;
      ElementsCount(cs);
      SubsetOfSameSize(seen, required);
      forall c
        ensures c in cs <==> c in all
      {
        assert c in cs <==> c in seen;
      }
      SameSetSameMultiset(cs, all);
    }
    if multiset(cs) == multiset(all) {
      SameElements(cs, all);
      forall i, j | 0 <= i < j < |cs|
        ensures cs[i] != cs[j]
      {
        NoDuplicatesCount(all, cs[i]);
        if cs[i] == cs[j] {
          CountedTwice(cs, i, j);
        }
      }
    }
  }

  lemma TheCategories()
    ensures |REQUIRED| == 4 == |CATEGORIES|
    ensures NoRepetition(CATEGORIES)
    ensures forall c :: c in REQUIRED <==> c in CATEGORIES
  {
    assert |"h5"| == 2 && |"android"| == 7 && |"api-x86_64"| == 10 && |"api-arm64"| == 9;
  }

  /** Four drawn from four are the four, in some order. */
  lemma DrawnAll(subjects: seq<Subject>, all: seq<string>, required: set<string>)
    requires NoRepetition(all)
    requires forall c :: c in required <==> c in all
    requires |subjects| == |required|
    ensures Drawn(subjects, required) <==> multiset(CategoriesOf(subjects)) == multiset(all)
  {
    var cs := CategoriesOf(subjects);
    assert forall i | 0 <= i < |subjects| :: cs[i] == subjects[i].category;
    ListsAll(cs, all, required);
  }

  /**
   The loop finishes exactly when the subjects' categories are the four required ones, in any order, and
   every subject holds.
   */
  lemma SubjectsExactly(subjects: seq<Subject>, w: Surroundings)
    ensures Verify(subjects, w).Ok? <==>
            multiset(CategoriesOf(subjects)) == multiset(CATEGORIES) && AllHold(subjects, w)
  {
    hide VerifyFrom, Drawn, AllHold;
    TheCategories();
    if |subjects| == |REQUIRED| {
      LoopExactly(subjects, REQUIRED, w);
      DrawnAll(subjects, CATEGORIES, REQUIRED);
    }
    if multiset(CategoriesOf(subjects)) == multiset(CATEGORIES) {
      SameElements(CategoriesOf(subjects), CATEGORIES);
    }
  }

  /** The check that no category is left can never fail: the count taken before the loop already decides it. */
  lemma NoCategoryLeft(subjects: seq<Subject>, w: Surroundings)
    ensures var r := Verify(subjects, w); !(r.Err? && r.error == CategoriesMissing)
  {
    hide VerifyFrom, Drawn, AllHold;
    LoopExactly(subjects, REQUIRED, w);
  }

  // ---- The manifest ----

  const SCHEMA := "redcode-e2ee-provenance-evidence/v1"
  const WORKFLOW_PATH := "/.github/workflows/release-artifacts.yml"

  /** An owner and a name, each of name characters, with one slash between. */
  predicate IsRepository(s: string) {
    exists i | 0 <= i < |s| :: s[i] == '/' && IsName(s[..i]) && IsName(s[i + 1..])
  }

  predicate IsCommit(s: string) {
    |s| == 40 && forall i | 0 <= i < |s| :: HexChar(s[i])
  }

  function CheckHeader(manifest: Manifest, host: Host): Result<(), ProvenanceError> {
    if manifest.schema != SCHEMA then
      Err(InvalidSchema)
    else if !IsRepository(manifest.repository) then
      Err(InvalidRepository)
    else if manifest.signerWorkflow != manifest.repository + WORKFLOW_PATH then
      Err(WorkflowMismatch)
    else if !IsCommit(manifest.sourceCommit) then
      Err(InvalidCommit)
    else if !SafeFile(manifest.trustedRootFile, ".jsonl") then
      Err(UnsafeFileName)
    else if manifest.trustedRootFile !in host.files then
      Err(FileMissing)
    else if |host.files[manifest.trustedRootFile]| < 1 then
      Err(EmptyTrustedRoot)
    else
      Ok(())
  }

  function Around(manifest: Manifest, host: Host): Surroundings {
    Surroundings(host.files, host.decode, host.hash,
                 (sidecar: string, bundle: string) => host.attest(manifest, sidecar, bundle))
  }

  function VerifyManifest(manifest: Manifest, host: Host): Result<(), ProvenanceError> {
    var _ :- CheckHeader(manifest, host);
    Verify(manifest.subjects, Around(manifest, host))
  }

  method VerifyProvenance(manifest: Manifest, host: Host) returns (r: Result<(), ProvenanceError>)
    ensures r == VerifyManifest(manifest, host)
  {
    hide Verify;
    var header := CheckHeader(manifest, host);
    if header.Err? {
      return Err(header.error);
    }
    r := VerifySubjects(manifest.subjects, Around(manifest, host));
  }

  ghost predicate HeaderHolds(manifest: Manifest, host: Host) {
    && manifest.schema == SCHEMA
    && IsRepository(manifest.repository) && manifest.signerWorkflow == manifest.repository + WORKFLOW_PATH
    && IsCommit(manifest.sourceCommit)
    && SafeFile(manifest.trustedRootFile, ".jsonl")
    && manifest.trustedRootFile in host.files && host.files[manifest.trustedRootFile] != []
  }

  /**
   The verifier finishes exactly when the manifest's header holds, its subjects' categories are the four
   required ones, in any order, and every subject holds.
   */
  lemma VerifiedExactly(manifest: Manifest, host: Host)
    ensures VerifyManifest(manifest, host).Ok? <==>
            && HeaderHolds(manifest, host)
            && multiset(CategoriesOf(manifest.subjects)) == multiset(CATEGORIES)
            && AllHold(manifest.subjects, Around(manifest, host))
  {
    hide Verify, AllHold, CategoriesOf, IsRepository, IsCommit, SafeFile;
    SubjectsExactly(manifest.subjects, Around(manifest, host));
  }
}
