/**
 When the provenance verifier finishes, told of the manifest, the files and the attestation tool's answers alone:
 every pattern, name and threshold is written out.
 */
module ProvenanceVerdict {
  import opened Wrappers
  import opened Provenance

  // ---- Names and digests ----

  const UPPER := "ABCDEFGHIJKLMNOPQRSTUVWXYZ"
  const LOWER := "abcdefghijklmnopqrstuvwxyz"

  ghost predicate Permitted(c: char) {
    c in UPPER || c in LOWER || c in "0123456789" || c in "._-"
  }

  ghost predicate NameText(s: string) {
    s != "" && forall i | 0 <= i < |s| :: Permitted(s[i])
  }

  ghost predicate HexText(s: string, length: nat) {
    |s| == length && forall i | 0 <= i < |s| :: s[i] in "0123456789abcdef"
  }

  /** A name that ends so. */
  ghost predicate Named(file: string, suffix: string) {
    NameText(file) && exists stem :: file == stem + suffix
  }

  lemma UpperExactly(c: char)
    ensures c in UPPER <==> 'A' <= c <= 'Z'
  {
    if 'A' <= c <= 'Z' {
      assert c == UPPER[c as int - 'A' as int];
    }
  }

  lemma LowerExactly(c: char)
    ensures c in LOWER <==> 'a' <= c <= 'z'
  {
    if 'a' <= c <= 'z' {
      assert c == LOWER[c as int - 'a' as int];
    }
  }

  lemma NameCharExactly(c: char)
    ensures NameChar(c) <==> Permitted(c)
  {
    UpperExactly(c);
    LowerExactly(c);
    hide UPPER, LOWER;
    if '0' <= c <= '9' {
      assert c == "0123456789"[c as int - '0' as int];
    }
  }

  lemma HexCharExactly(c: char)
    ensures HexChar(c) <==> c in "0123456789abcdef"
  {
    if '0' <= c <= '9' {
      assert c == "0123456789abcdef"[c as int - '0' as int];
    }
    if 'a' <= c <= 'f' {
      assert c == "0123456789abcdef"[c as int - 'a' as int + 10];
    }
  }

  lemma TextsExactly(s: string)
    ensures IsName(s) <==> NameText(s)
    ensures IsDigest(s) <==> HexText(s, 64)
    ensures IsCommit(s) <==> HexText(s, 40)
  {
    hide NameChar, HexChar, Permitted;
    forall i | 0 <= i < |s|
      ensures NameChar(s[i]) <==> Permitted(s[i])
      ensures HexChar(s[i]) <==> s[i] in "0123456789abcdef"
    {
      NameCharExactly(s[i]);
      HexCharExactly(s[i]);
    }
  }

  lemma NamedExactly(file: string, suffix: string)
    ensures SafeFile(file, suffix) <==> Named(file, suffix)
  {
    TextsExactly(file);
    hide IsName, NameText;
    if SafeFile(file, suffix) {
      assert file == file[..|file| - |suffix|] + suffix;
    }
  }

  lemma RepositoryExactly(s: string)
    ensures IsRepository(s) <==> exists owner, name :: NameText(owner) && NameText(name) && s == owner + "/" + name
  {
    hide IsName, NameText;
    if i :| 0 <= i < |s| && s[i] == '/' && IsName(s[..i]) && IsName(s[i + 1..]) {
      TextsExactly(s[..i]);
      TextsExactly(s[i + 1..]);
      assert s == s[..i] + "/" + s[i + 1..];
    }
    if owner, name :| NameText(owner) && NameText(name) && s == owner + "/" + name {
      TextsExactly(owner);
      TextsExactly(name);
      assert s[..|owner|] == owner && s[|owner|] == '/' && s[|owner| + 1..] == name;
    }
  }

  // ---- The lines of a sidecar ----

  ghost predicate AllSpace(s: string) {
    forall i | 0 <= i < |s| :: Space(s[i])
  }

  /** White space at neither end. */
  ghost predicate Trimmed(s: string) {
    s != "" ==> !Space(s[0]) && !Space(s[|s| - 1])
  }

  /** White space, the lines with a line feed between each two, and white space. */
  ghost predicate LinesAre(content: string, lines: seq<string>) {
    && lines != [] && (forall line | line in lines :: '\n' !in line)
    && Trimmed(Joined(lines))
    && exists before, after | AllSpace(before) && AllSpace(after) :: content == before + Joined(lines) + after
  }

  lemma {:induction false} TrimStartParts(s: string) returns (before: string)
    ensures AllSpace(before) && s == before + TrimStart(s)
    ensures TrimStart(s) != "" ==> !Space(TrimStart(s)[0])
  {
    hide Space;
    if s != "" && Space(s[0]) {
      var rest := TrimStartParts(s[1..]);
      before := [s[0]] + rest;
    } else {
      before := "";
    }
  }

  lemma {:induction false} TrimEndParts(s: string) returns (after: string)
    ensures AllSpace(after) && s == TrimEnd(s) + after
    ensures TrimEnd(s) != "" ==> !Space(TrimEnd(s)[|TrimEnd(s)| - 1])
  {
    hide Space;
    if s != "" && Space(s[|s| - 1]) {
      var rest := TrimEndParts(s[..|s| - 1]);
      after := rest + [s[|s| - 1]];
    } else {
      after := "";
    }
  }

  lemma {:induction false} TrimStartOf(before: string, s: string)
    requires AllSpace(before) && (s != "" ==> !Space(s[0]))
    ensures TrimStart(before + s) == s
  {
    hide Space;
    if before == "" {
      assert before + s == s;
    } else {
      assert (before + s)[1..] == before[1..] + s;
      TrimStartOf(before[1..], s);
    }
  }

  lemma {:induction false} TrimEndOf(s: string, after: string)
    requires AllSpace(after) && (s != "" ==> !Space(s[|s| - 1]))
    ensures TrimEnd(s + after) == s
  {
    hide Space;
    if after == "" {
      assert s + after == s;
    } else {
      var n := |after| - 1;
      assert (s + after)[..|s| + n] == s + after[..n];
      TrimEndOf(s, after[..n]);
    }
  }

  lemma AllSpaceTrims(s: string)
    requires AllSpace(s)
    ensures TrimStart(s) == ""
  {
    TrimStartOf(s, "");
    assert s + "" == s;
  }

  lemma JoinedCons(first: string, rest: seq<string>)
    requires rest != []
    ensures Joined([first] + rest) == first + "\n" + Joined(rest)
  {
    assert ([first] + rest)[1..] == rest;
  }

  lemma JoinedOne(line: string)
    ensures Joined([line]) == line
  {
  }

  lemma JoinedHead(c: char, lines: seq<string>)
    requires lines != []
    ensures Joined([[c] + lines[0]] + lines[1..]) == [c] + Joined(lines)
  {
    hide Joined;
    var line, rest := lines[0], lines[1..];
    assert lines == [line] + rest;
    if rest == [] {
      assert [[c] + line] + rest == [[c] + line] && lines == [line];
      JoinedOne([c] + line);
      JoinedOne(line);
    } else {
      JoinedCons([c] + line, rest);
      JoinedCons(line, rest);
      assert [c] + line + "\n" + Joined(rest) == [c] + (line + "\n" + Joined(rest));
    }
  }

  lemma {:induction false} SplitParts(s: string)
    ensures Joined(Split(s)) == s && forall line | line in Split(s) :: '\n' !in line
  {
    if s != "" {
      hide Joined;
      SplitParts(s[1..]);
      var lines := Split(s[1..]);
      assert s == [s[0]] + s[1..];
      assert lines == [lines[0]] + lines[1..];
      if s[0] == '\n' {
        JoinedCons("", lines);
      } else {
        JoinedHead(s[0], lines);
      }
    }
  }

  /** A sidecar has these lines exactly when it is they, joined, between white space. */
  lemma LinesExactly(content: string, lines: seq<string>)
    ensures Lines(content) == lines <==> LinesAre(content, lines)
  {
    hide Space, Split, Joined, TrimStart, TrimEnd;
    if Lines(content) == lines {
      var start := TrimStart(content);
      var before := TrimStartParts(content);
      var after := TrimEndParts(start);
      var body := TrimEnd(start);
      SplitParts(body);
      assert body != "" ==> body[0] == start[0];
      assert content == before + Joined(lines) + after;
    }
    if LinesAre(content, lines) {
      var before, after :| AllSpace(before) && AllSpace(after) && content == before + Joined(lines) + after;
      var body := Joined(lines);
      if body == "" {
        assert content == before + after;
        AllSpaceTrims(before + after);
        TrimEndOf("", "");
        assert "" + "" == "";
      } else {
        assert content == before + (body + after);
        TrimStartOf(before, body + after);
        TrimEndOf(body, after);
      }
      SplitJoined(lines);
    }
  }

  // ---- One subject ----

  /** Some statement has a timestamp, the provenance type and the file with this digest among its subjects. */
  ghost predicate AttestedBy(answer: Option<seq<Statement>>, file: string, digest: string) {
    && answer.Some?
    && exists statement | statement in answer.value ::
         && statement.timestamps >= 1
         && statement.predicateType == "https://slsa.dev/provenance/v1"
         && exists item | item in statement.subjects :: item.name == file && item.digest == digest
  }

  ghost predicate FileWithDigest(w: Surroundings, file: string, suffix: string, digest: string) {
    Named(file, suffix) && file in w.files && HexText(digest, 64) && w.hash(w.files[file]) == digest
  }

  /** A line for each artifact: its digest, two spaces, its name. */
  ghost function Listing(artifacts: seq<Artifact>): seq<string> {
    seq(|artifacts|, i requires 0 <= i < |artifacts| => artifacts[i].digest + "  " + artifacts[i].name)
  }

  /** There are artifacts, each a name and a digest, and no name twice. */
  ghost predicate Declared(artifacts: seq<Artifact>) {
    && artifacts != []
    && (forall a | a in artifacts :: NameText(a.name) && HexText(a.digest, 64))
    && (forall i, j | 0 <= i < j < |artifacts| :: artifacts[i].name != artifacts[j].name)
  }

  /** The lines of the content are those of the artifacts, in some order. */
  ghost predicate Lists(content: string, artifacts: seq<Artifact>) {
    exists lines | LinesAre(content, lines) :: multiset(lines) == multiset(Listing(artifacts))
  }

  /** What a subject must be to be accepted. */
  ghost predicate SubjectHolds(s: Subject, w: Surroundings) {
    && FileWithDigest(w, s.sidecarFile, ".sha256", s.sidecarSha256)
    && FileWithDigest(w, s.bundleFile, ".jsonl", s.bundleSha256)
    && Declared(s.artifacts)
    && Lists(w.decode(w.files[s.sidecarFile]), s.artifacts)
    && AttestedBy(w.attestations(s.sidecarFile, s.bundleFile), s.sidecarFile, s.sidecarSha256)
  }

  lemma AttestedExactly(answer: Option<seq<Statement>>, s: Subject, digest: string)
    ensures Attested(answer, s, digest) <==> AttestedBy(answer, s.sidecarFile, digest)
  {
    if Attested(answer, s, digest) {
      var statement :| statement in answer.value && BindsSidecar(statement, s, digest);
      assert Artifact(s.sidecarFile, digest) in statement.subjects;
    }
    if AttestedBy(answer, s.sidecarFile, digest) {
      var statement :| statement in answer.value && statement.timestamps >= 1 &&
                       statement.predicateType == "https://slsa.dev/provenance/v1" &&
                       exists item | item in statement.subjects :: item.name == s.sidecarFile && item.digest == digest;
      var item :| item in statement.subjects && item.name == s.sidecarFile && item.digest == digest;
      assert item == Artifact(s.sidecarFile, digest);
      assert BindsSidecar(statement, s, digest);
    }
  }

  lemma FileExactly(w: Surroundings, file: string, suffix: string, digest: string)
    ensures FileWithDigest(w, file, suffix, digest) <==>
            SafeFile(file, suffix) && file in w.files && DigestHolds(w.files[file], digest, w)
  {
    NamedExactly(file, suffix);
    TextsExactly(digest);
    hide SafeFile, Named, IsDigest, HexText;
  }

  lemma DeclaredExactly(artifacts: seq<Artifact>)
    ensures artifacts != [] && AllValid(artifacts) && DistinctNames(artifacts) <==> Declared(artifacts)
  {
    hide IsName, IsDigest, NameText, HexText;
    forall a: Artifact
      ensures Valid(a) <==> NameText(a.name) && HexText(a.digest, 64)
    {
      TextsExactly(a.name);
      TextsExactly(a.digest);
    }
  }

  lemma ListsExactly(content: string, artifacts: seq<Artifact>)
    ensures multiset(Lines(content)) == multiset(LinesOf(artifacts)) <==> Lists(content, artifacts)
  {
    forall i | 0 <= i < |artifacts|
      ensures LinesOf(artifacts)[i] == Listing(artifacts)[i]
    {
      assert LinesOf(artifacts)[i] == LineOf(artifacts[i]);
    }
    assert LinesOf(artifacts) == Listing(artifacts);
    hide Lines, LinesAre, LinesOf, Listing;
    LinesExactly(content, Lines(content));
    if lines :| LinesAre(content, lines) && multiset(lines) == multiset(Listing(artifacts)) {
      LinesExactly(content, lines);
    }
  }

  lemma SubjectHoldsExactly(s: Subject, w: Surroundings)
    ensures Holds(s, w) <==> SubjectHolds(s, w)
  {
    FileExactly(w, s.sidecarFile, ".sha256", s.sidecarSha256);
    FileExactly(w, s.bundleFile, ".jsonl", s.bundleSha256);
    DeclaredExactly(s.artifacts);
    AttestedExactly(w.attestations(s.sidecarFile, s.bundleFile), s, s.sidecarSha256);
    if s.sidecarFile in w.files {
      ListsExactly(w.decode(w.files[s.sidecarFile]), s.artifacts);
    }
    hide SafeFile, FileWithDigest, DigestHolds, AllValid, DistinctNames, Declared, LinesOf, Lines, Lists, Attested,
         AttestedBy;
  }

  // ---- The verdict ----

  ghost predicate HeaderAsRequired(manifest: Manifest, host: Host) {
    && manifest.schema == "redcode-e2ee-provenance-evidence/v1"
    && (exists owner, name :: NameText(owner) && NameText(name) && manifest.repository == owner + "/" + name)
    && manifest.signerWorkflow == manifest.repository + "/.github/workflows/release-artifacts.yml"
    && HexText(manifest.sourceCommit, 40)
    && Named(manifest.trustedRootFile, ".jsonl")
    && manifest.trustedRootFile in host.files && |host.files[manifest.trustedRootFile]| >= 1
  }

  /** A subject among these files, the attestation tool having been told the manifest's own header. */
  ghost predicate SubjectVerified(s: Subject, manifest: Manifest, host: Host) {
    SubjectHolds(s, Surroundings(host.files, host.decode, host.hash,
                                 (sidecar: string, bundle: string) => host.attest(manifest, sidecar, bundle)))
  }

  lemma HeaderExactly(manifest: Manifest, host: Host)
    ensures HeaderHolds(manifest, host) <==> HeaderAsRequired(manifest, host)
  {
    RepositoryExactly(manifest.repository);
    TextsExactly(manifest.sourceCommit);
    NamedExactly(manifest.trustedRootFile, ".jsonl");
    hide IsRepository, IsCommit, SafeFile, NameText, HexText, Named;
  }

  /**
   The verifier finishes exactly when the header is as required, the subjects are one each of the four categories,
   in any order, and every subject is verified.
   */
  lemma FinishesExactly(manifest: Manifest, host: Host)
    ensures VerifyManifest(manifest, host).Ok? <==>
            && HeaderAsRequired(manifest, host)
            && multiset(CategoriesOf(manifest.subjects)) == multiset{"h5", "android", "api-x86_64", "api-arm64"}
            && forall s | s in manifest.subjects :: SubjectVerified(s, manifest, host)
  {
    hide VerifyManifest, HeaderHolds, HeaderAsRequired, Holds, SubjectHolds, CategoriesOf;
    VerifiedExactly(manifest, host);
    HeaderExactly(manifest, host);
    forall s: Subject
      ensures Holds(s, Around(manifest, host)) <==> SubjectHolds(s, Around(manifest, host))
    {
      SubjectHoldsExactly(s, Around(manifest, host));
    }
    FourCategories();
    forall s: Subject
      ensures SubjectHolds(s, Around(manifest, host)) <==> SubjectVerified(s, manifest, host)
    {
      VerifiedAround(s, manifest, host);
    }
  }

  lemma FourCategories()
    ensures multiset(CATEGORIES) == multiset{"h5", "android", "api-x86_64", "api-arm64"}
  {
  }

  lemma VerifiedAround(s: Subject, manifest: Manifest, host: Host)
    ensures SubjectHolds(s, Around(manifest, host)) <==> SubjectVerified(s, manifest, host)
  {
  }
}
