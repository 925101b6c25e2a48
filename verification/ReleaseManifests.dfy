/**
 The H5 release: a directory tree, the manifest that lists its files with their digests, the attestation kept
 outside it, and the check of the one against the other.  What the check asks of schema, lockfile, endpoints,
 base path and headers is a function of the manifest and the headers, given as an input.
 */
module ReleaseManifests {
  import opened Wrappers
  import opened Orders
  import opened ByteStrings
  import opened JsonText
  import opened Hashes
  import opened ReleaseContents

  type Name = Units
  type Path = seq<Name>

  /** What a directory entry is, and for links and special files what reading through them yields. */
  datatype Node =
    | File(bytes: Bytes)
    | Directory(entries: seq<DirEntry>)
    | Link(target: Option<Bytes>)
    | Special(contents: Option<Bytes>)

  datatype DirEntry = DirEntry(name: Name, node: Node)

  datatype Stored = Stored(path: Path, bytes: Bytes)

  datatype ReleaseError =
    | SymbolicLinkForbidden(path: Path)
    | UnsupportedEntry(path: Path)
    | CannotRead(name: Name)
    | CannotWrite(name: Name)
    | EmptyOutput
    | InvalidManifest
    | WrongCommit
    | AttestationMismatch
    | BindingStale
    | HeadersDigestMismatch
    | HeadersRejected
    | InventoryMismatch
    | ContentRejected(why: ContentError)

  const MANIFEST: Name := Ascii("release-manifest.json")
  const HEADERS: Name := Ascii("security-headers.json")

  // ---- Directory trees ----

  predicate NameOk(n: Name) {
    n != [] && SLASH !in n
  }

  /** A file system never lists a name twice, nor an empty one or one with a separator. */
  ghost predicate WellNamed(es: seq<DirEntry>) {
    && (forall i | 0 <= i < |es| :: NameOk(es[i].name))
    && (forall i, j | 0 <= i < j < |es| :: es[i].name != es[j].name)
    && (forall i | 0 <= i < |es| && es[i].node.Directory? :: WellNamed(es[i].node.entries))
  }

  function Find(es: seq<DirEntry>, name: Name): (r: Option<Node>)
    ensures r.Some? ==> DirEntry(name, r.value) in es
    ensures r.None? ==> forall e | e in es :: e.name != name
  {
    if es == [] then
      None
    else
      assert es == [es[0]] + es[1..];
      if es[0].name == name then Some(es[0].node) else Find(es[1..], name)
  }

  /** The regular file that a path leads to, without passing through a link. */
  function FileAt(es: seq<DirEntry>, path: Path): Option<Bytes>
    decreases |path|
  {
    if path == [] then
      None
    else
      match Find(es, path[0])
      case Some(File(bytes)) => if |path| == 1 then Some(bytes) else None
      case Some(Directory(sub)) => FileAt(sub, path[1..])
      case _ => None
  }

  ghost predicate SameFiles(a: seq<DirEntry>, b: seq<DirEntry>) {
    forall path :: FileAt(a, path) == FileAt(b, path)
  }

  /** The regular files below a directory in the order the file system lists them. */
  function Visited(es: seq<DirEntry>, dir: Path): Result<seq<Stored>, ReleaseError> {
    if es == [] then
      Ok([])
    else
      var path := dir + [es[0].name];
      match es[0].node
      case Link(_) => Err(SymbolicLinkForbidden(path))
      case Special(_) => Err(UnsupportedEntry(path))
      case Directory(sub) =>
        var inner :- Visited(sub, path);
        var rest :- Visited(es[1..], dir);
        Ok(inner + rest)
      case File(bytes) =>
        var rest :- Visited(es[1..], dir);
        Ok([Stored(path, bytes)] + rest)
  }

  lemma WellNamedTail(es: seq<DirEntry>)
    requires es != [] && WellNamed(es)
    ensures WellNamed(es[1..]) && NameOk(es[0].name)
    ensures es[0].node.Directory? ==> WellNamed(es[0].node.entries)
    ensures forall i | 0 <= i < |es[1..]| :: es[1..][i].name != es[0].name
  {
  }

  lemma FileAtCons(es: seq<DirEntry>, path: Path)
    requires es != [] && path != []
    ensures path[0] != es[0].name ==> FileAt(es, path) == FileAt(es[1..], path)
    ensures path[0] == es[0].name ==>
              FileAt(es, path) == match es[0].node
                                  case File(bytes) => if |path| == 1 then Some(bytes) else None
                                  case Directory(sub) => FileAt(sub, path[1..])
                                  case _ => None
  {
  }

  lemma {:induction false} NotNamedNoFile(es: seq<DirEntry>, path: Path)
    requires path != [] && forall i | 0 <= i < |es| :: es[i].name != path[0]
    ensures FileAt(es, path) == None
  {
  }

  /** What is stored below a directory, relative to it. */
  ghost predicate Below(f: Stored, dir: Path) {
    |dir| < |f.path| && dir == f.path[..|dir|]
  }

  ghost function Under(f: Stored, dir: Path): Path
    requires Below(f, dir)
  {
    f.path[|dir|..]
  }

  /** Visiting finds only files that paths lead to. */
  lemma {:induction false} VisitedSound(es: seq<DirEntry>, dir: Path, f: Stored)
    requires WellNamed(es) && Visited(es, dir).Ok? && f in Visited(es, dir).value
    ensures Below(f, dir) && FileAt(es, Under(f, dir)) == Some(f.bytes)
    ensures forall i | 0 <= i < |Under(f, dir)| :: NameOk(Under(f, dir)[i])
    decreases es
  {
    hide WellNamed, NameOk;
    if es == [] {
    } else {
      WellNamedTail(es);
      var name, path := es[0].name, dir + [es[0].name];
      if f in Visited(es[1..], dir).value {
        VisitedSound(es[1..], dir, f);
        if Under(f, dir)[0] == name {
          NotNamedNoFile(es[1..], Under(f, dir));
        }
        FileAtCons(es, Under(f, dir));
      } else if es[0].node.Directory? {
        VisitedSound(es[0].node.entries, path, f);
        UnderStep(f, dir, name);
        FileAtCons(es, Under(f, dir));
      } else {
        assert f == Stored(path, es[0].node.bytes);
        assert Under(f, dir) == [name];
        FileAtCons(es, Under(f, dir));
      }
    }
  }

  lemma UnderStep(f: Stored, dir: Path, name: Name)
    requires Below(f, dir + [name])
    ensures Below(f, dir) && Under(f, dir) == [name] + Under(f, dir + [name])
    ensures Under(f, dir)[1..] == Under(f, dir + [name])
  {
    assert dir == (dir + [name])[..|dir|];
    assert f.path[..|dir|] == f.path[..|dir| + 1][..|dir|];
    assert f.path[|dir|] == f.path[..|dir| + 1][|dir|];
  }

  /** Visiting finds every file that a path leads to. */
  lemma {:induction false} VisitedComplete(es: seq<DirEntry>, dir: Path, path: Path)
    requires WellNamed(es) && Visited(es, dir).Ok? && FileAt(es, path).Some?
    ensures Stored(dir + path, FileAt(es, path).value) in Visited(es, dir).value
    decreases es
  {
    hide WellNamed, NameOk;
    if es == [] {
      assert false;
    } else {
      WellNamedTail(es);
      FileAtCons(es, path);
      if path[0] != es[0].name {
        VisitedComplete(es[1..], dir, path);
      } else if es[0].node.Directory? {
        VisitedComplete(es[0].node.entries, dir + [es[0].name], path[1..]);
        assert dir + path == dir + [es[0].name] + path[1..];
      } else {
        assert path == [es[0].name];
      }
    }
  }

  ghost predicate DistinctPaths(fs: seq<Stored>) {
    forall i, j | 0 <= i < j < |fs| :: fs[i].path != fs[j].path
  }

  lemma {:induction false} VisitedDistinct(es: seq<DirEntry>, dir: Path)
    requires WellNamed(es) && Visited(es, dir).Ok?
    ensures DistinctPaths(Visited(es, dir).value)
    decreases es
  {
    hide WellNamed, NameOk;
    if es == [] {
    } else {
      WellNamedTail(es);
      var name, path := es[0].name, dir + [es[0].name];
      VisitedDistinct(es[1..], dir);
      var rest := Visited(es[1..], dir).value;
      if es[0].node.Directory? {
        VisitedDistinct(es[0].node.entries, path);
      }
      var first :=
          if es[0].node.Directory? then Visited(es[0].node.entries, path).value else [Stored(path, es[0].node.bytes)];
      forall f, g | f in first && g in rest
        ensures f.path != g.path
      {
        if es[0].node.Directory? {
          VisitedSound(es[0].node.entries, path, f);
        }
        assert Below(f, dir) && f.path[|dir|] == name by {
          if es[0].node.Directory? {
            UnderStep(f, dir, name);
          }
        }
        VisitedSound(es[1..], dir, g);
        if g.path[|dir|] == name {
          assert Under(g, dir)[0] == name;
          NotNamedNoFile(es[1..], Under(g, dir));
        }
      }
      DistinctAppend(first, rest);
    }
  }

  lemma DistinctAppend(a: seq<Stored>, b: seq<Stored>)
    requires DistinctPaths(a) && DistinctPaths(b)
    requires forall f, g | f in a && g in b :: f.path != g.path
    ensures DistinctPaths(a + b)
  {
    var c := a + b;
    forall i, j | 0 <= i < j < |c|
      ensures c[i].path != c[j].path
    {
      assert i < |a| ==> c[i] in a;
      assert j >= |a| ==> c[j] in b;
    }
  }

  // ---- Paths as texts ----

  function PathText(path: Path): Units {
    if |path| == 0 then [] else if |path| == 1 then path[0] else path[0] + [SLASH] + PathText(path[1..])
  }

  ghost predicate PathOk(path: Path) {
    path != [] && forall i | 0 <= i < |path| :: NameOk(path[i])
  }

  lemma NameRunsOn(a: Name, b: Name, r: Units, s: Units)
    requires SLASH !in b && (r == [] || r[0] == SLASH) && a + r == b + s
    ensures |b| <= |a|
  {
    assert forall i | 0 <= i < |b| :: (b + s)[i] == b[i];
    assert r != [] ==> (a + r)[|a|] == r[0];
  }

  /** Different paths have different texts. */
  lemma {:induction false} PathTextInjective(p: Path, q: Path)
    requires PathOk(p) && PathOk(q) && PathText(p) == PathText(q)
    ensures p == q
  {
    var r := if |p| == 1 then [] else [SLASH] + PathText(p[1..]);
    var s := if |q| == 1 then [] else [SLASH] + PathText(q[1..]);
    assert PathText(p) == p[0] + r && PathText(q) == q[0] + s;
    NameRunsOn(p[0], q[0], r, s);
    NameRunsOn(q[0], p[0], s, r);
    ConcatCancel(p[0], q[0], r, s);
    if |p| == 1 {
      assert p == [p[0]] && q == [q[0]];
    } else {
      JsonText.SameHead(SLASH, PathText(p[1..]), PathText(q[1..]));
      PathTextInjective(p[1..], q[1..]);
      assert p == [p[0]] + p[1..] && q == [q[0]] + q[1..];
    }
  }

  // ---- The inventory ----

  function ByPath(le: Compare): (Stored, Stored) -> bool {
    (a: Stored, b: Stored) => le(PathText(a.path), PathText(b.path))
  }

  function RegularFiles(root: seq<DirEntry>, le: Compare): Result<seq<Stored>, ReleaseError> {
    var fs :- Visited(root, []);
    Ok(Sort(fs, ByPath(le)))
  }

  function Listed(fs: seq<Stored>): seq<Stored> {
    if fs == [] then [] else if fs[0].path == [MANIFEST] then Listed(fs[1..]) else [fs[0]] + Listed(fs[1..])
  }

  function Digits(n: nat): Units {
    Ascii(Decimal(n))
  }

  function AssetFor(f: Stored, hash: Bytes -> Units): Json {
    Object([Entry(Ascii("path"), String(PathText(f.path))), Entry(Ascii("bytes"), Number(Digits(|f.bytes|))),
            Entry(Ascii("sha256"), String(hash(f.bytes)))])
  }

  function Inventory(fs: seq<Stored>, hash: Bytes -> Units): Json {
    Array(Map(fs, (f: Stored) => AssetFor(f, hash)))
  }

  lemma AssetWellFormed(f: Stored, hash: Bytes -> Units)
    ensures WellFormed(AssetFor(f, hash))
  {
    var t, d := Digits(|f.bytes|), Decimal(|f.bytes|);
    assert |"path"| == 4 && |"bytes"| == 5 && |"sha256"| == 6;
    forall i | 0 <= i < |t|
      ensures 0x30 <= t[i] <= 0x39
    {
      assert d[i] in DIGITS;
    }
    assert NumberText(t);
  }

  ghost predicate PathsOk(fs: seq<Stored>) {
    forall i | 0 <= i < |fs| :: PathOk(fs[i].path)
  }

  lemma AssetPins(f: Stored, g: Stored, hash: Bytes -> Units)
    requires CollisionFree(hash) && PathOk(f.path) && PathOk(g.path)
    requires AssetFor(f, hash) == AssetFor(g, hash)
    ensures f == g
  {
    hide PathOk, Ascii, Digits;
    var x, y := AssetFor(f, hash).entries, AssetFor(g, hash).entries;
    assert x[0].value.units == y[0].value.units && x[2].value.units == y[2].value.units;
    PathTextInjective(f.path, g.path);
  }

  /** Under a collision-free hash, inventories with the same text list the same files with the same bytes. */
  lemma InventoryPins(a: seq<Stored>, b: seq<Stored>, hash: Bytes -> Units)
    requires CollisionFree(hash) && PathsOk(a) && PathsOk(b)
    requires Show(Inventory(a, hash)) == Show(Inventory(b, hash))
    ensures a == b
  {
    hide AssetFor, CollisionFree, PathOk, Show;
    forall f: Stored
      ensures WellFormed(AssetFor(f, hash))
    {
      AssetWellFormed(f, hash);
    }
    ShowInjective(Inventory(a, hash), Inventory(b, hash));
    var x, y := Inventory(a, hash).items, Inventory(b, hash).items;
    assert |a| == |x| == |b|;
    forall i | 0 <= i < |a|
      ensures a[i] == b[i]
    {
      assert x[i] == AssetFor(a[i], hash) && y[i] == AssetFor(b[i], hash);
      AssetPins(a[i], b[i], hash);
    }
  }

  // ---- The check ----

  /** The manifest as parsed; `assets` is None where it is absent, and an absent base path is the default one. */
  datatype Manifest = Manifest(
    sourceCommit: Units, apiUrl: Units, wsUrl: Units, basePath: Units, headersSha256: Units, assets: Option<Json>)

  datatype Attestation = Attestation(sourceCommit: Units, manifestSha256: Units)

  /**
   What the program takes from elsewhere: SHA-256, the locale's comparison, UTF-8 decoding, parsing, the
   checked-out commit, whether the manifest's schema, lockfile, endpoints and base path are in order, and
   whether the headers are the reviewed ones; and for a new release the headers and the manifest's text.
   */
  datatype World = World(
    hash: Bytes -> Units, le: Compare, decode: Bytes -> Units, parse: Bytes -> Option<Manifest>, commit: Units,
    bound: Bytes -> bool, headersAccepted: (Bytes, Bytes) -> bool,
    headers: Bytes, render: (Units, Json) -> Bytes)

  function ReadRoot(root: seq<DirEntry>, name: Name): Result<Bytes, ReleaseError> {
    match Find(root, name)
    case Some(File(bytes)) => Ok(bytes)
    case Some(Link(Some(bytes))) => Ok(bytes)
    case Some(Special(Some(bytes))) => Ok(bytes)
    case _ => Err(CannotRead(name))
  }

  predicate Attests(a: Option<Attestation>, manifest: Manifest, manifestBytes: Bytes, w: World) {
    a.Some? && a.value.sourceCommit == manifest.sourceCommit && a.value.manifestSha256 == w.hash(manifestBytes)
  }

  function CheckManifest(manifestBytes: Bytes, required: bool, evidence: Option<Attestation>, w: World)
    : Result<Manifest, ReleaseError>
  {
    match w.parse(manifestBytes)
    case None => Err(InvalidManifest)
    case Some(manifest) =>
      if manifest.sourceCommit != w.commit then
        Err(WrongCommit)
      else if required && !Attests(evidence, manifest, manifestBytes, w) then
        Err(AttestationMismatch)
      else if !w.bound(manifestBytes) then
        Err(BindingStale)
      else
        Ok(manifest)
  }

  function CheckHeaders(manifestBytes: Bytes, manifest: Manifest, headersBytes: Bytes, w: World)
    : Result<(), ReleaseError>
  {
    if w.hash(headersBytes) != manifest.headersSha256 then
      Err(HeadersDigestMismatch)
    else if !w.headersAccepted(manifestBytes, headersBytes) then
      Err(HeadersRejected)
    else
      Ok(())
  }

  /** The listed files as the searches see them. */
  function Texts(files: seq<Stored>, decode: Bytes -> Units): seq<Built> {
    Map(files, (f: Stored) => Built(PathText(f.path), decode(f.bytes)))
  }

  function CheckFiles(manifest: Manifest, files: seq<Stored>, w: World): Result<seq<Stored>, ReleaseError> {
    if manifest.assets.None? || Show(Inventory(files, w.hash)) != Show(manifest.assets.value) then
      Err(InventoryMismatch)
    else
      match CheckContents(Texts(files, w.decode), manifest.apiUrl, manifest.wsUrl, manifest.basePath)
      case Err(e) => Err(ContentRejected(e))
      case Ok(_) => Ok(files)
  }

  /** Yields the listed files when the directory passes. */
  function CheckInternal(root: seq<DirEntry>, required: bool, evidence: Option<Attestation>, w: World)
    : Result<seq<Stored>, ReleaseError>
  {
    var manifestBytes :- ReadRoot(root, MANIFEST);
    var manifest :- CheckManifest(manifestBytes, required, evidence, w);
    var headersBytes :- ReadRoot(root, HEADERS);
    var _ :- CheckHeaders(manifestBytes, manifest, headersBytes, w);
    var files :- RegularFiles(root, w.le);
    CheckFiles(manifest, Listed(files), w)
  }

  /** The check anyone runs later, against the attestation. */
  predicate Passes(root: seq<DirEntry>, evidence: Attestation, w: World) {
    CheckInternal(root, true, Some(evidence), w).Ok?
  }

  /** Nothing but directories and regular files, at any depth. */
  predicate Plain(root: seq<DirEntry>) {
    Visited(root, []).Ok?
  }

  // ---- What passing pins ----

  lemma {:induction false} ListedExactly(fs: seq<Stored>, f: Stored)
    ensures f in Listed(fs) <==> f in fs && f.path != [MANIFEST]
  {
    if fs == [] {
    } else {
      assert fs == [fs[0]] + fs[1..];
      ListedExactly(fs[1..], f);
    }
  }

  /** The sorted files of a plain, well-named tree are what its paths lead to. */
  lemma FilesExactly(root: seq<DirEntry>, le: Compare, path: Path, bytes: Bytes)
    requires WellNamed(root) && Plain(root)
    ensures RegularFiles(root, le).Ok?
    ensures Stored(path, bytes) in RegularFiles(root, le).value <==> FileAt(root, path) == Some(bytes)
  {
    hide WellNamed, FileAt, Sort;
    var fs := Visited(root, []).value;
    SameElements(fs, Sort(fs, ByPath(le)));
    var f := Stored(path, bytes);
    if f in fs {
      VisitedSound(root, [], f);
      assert Under(f, []) == path;
    }
    if FileAt(root, path) == Some(bytes) {
      VisitedComplete(root, [], path);
      assert [] + path == path;
    }
  }

  lemma FilesNamedOk(root: seq<DirEntry>, le: Compare)
    requires WellNamed(root) && Plain(root)
    ensures PathsOk(RegularFiles(root, le).value) && PathsOk(Listed(RegularFiles(root, le).value))
  {
    hide WellNamed, FileAt, Sort, NameOk;
    var fs := Visited(root, []).value;
    var sorted := Sort(fs, ByPath(le));
    SameElements(fs, sorted);
    forall f | f in sorted
      ensures PathOk(f.path)
    {
      VisitedSound(root, [], f);
      assert Under(f, []) == f.path;
    }
    forall i | 0 <= i < |Listed(sorted)|
      ensures PathOk(Listed(sorted)[i].path)
    {
      var f := Listed(sorted)[i];
      ListedExactly(sorted, f);
    }
  }

  /** In a plain tree a file is read at the root exactly when the path of that name leads to it. */
  lemma {:induction false} ReadsFile(root: seq<DirEntry>, name: Name)
    requires Plain(root)
    ensures ReadRoot(root, name) == match FileAt(root, [name]) case Some(b) => Ok(b) case None => Err(CannotRead(name))
  {
    PlainRoot(root, [], name);
  }

  lemma {:induction false} PlainRoot(es: seq<DirEntry>, dir: Path, name: Name)
    requires Visited(es, dir).Ok?
    ensures var n := Find(es, name); n.None? || n.value.File? || n.value.Directory?
  {
    if es == [] {
    } else if es[0].name == name {
    } else {
      PlainRoot(es[1..], dir, name);
    }
  }

  /** The same hash, comparison and parser; commit, lockfile, policy and the rest may have moved on. */
  ghost predicate SameTools(w: World, x: World) {
    && (forall bytes :: x.hash(bytes) == w.hash(bytes))
    && (forall bytes :: x.parse(bytes) == w.parse(bytes))
    && x.le == w.le
  }

  /** Two directories that pass against one attestation list the same files in the same order. */
  lemma PassesSameListing(a: seq<DirEntry>, b: seq<DirEntry>, evidence: Attestation, w: World, x: World)
    requires WellNamed(a) && WellNamed(b) && CollisionFree(w.hash) && SameTools(w, x)
    requires Passes(a, evidence, w) && Passes(b, evidence, x)
    ensures ReadRoot(a, MANIFEST).Ok? && ReadRoot(a, MANIFEST) == ReadRoot(b, MANIFEST)
    ensures Plain(a) && Plain(b)
    ensures Listed(RegularFiles(a, w.le).value) == Listed(RegularFiles(b, w.le).value)
  {
    hide WellNamed, Visited, Sort, Listed, Inventory, Show, ReadRoot, CollisionFree, CheckContents, Texts;
    SameHash(ReadRoot(a, MANIFEST).value, ReadRoot(b, MANIFEST).value, w.hash);
    FilesNamedOk(a, w.le);
    FilesNamedOk(b, w.le);
    SameInventory(Listed(RegularFiles(b, w.le).value), w, x);
    InventoryPins(Listed(RegularFiles(a, w.le).value), Listed(RegularFiles(b, w.le).value), w.hash);
  }

  lemma SameInventory(fs: seq<Stored>, w: World, x: World)
    requires SameTools(w, x)
    ensures Inventory(fs, x.hash) == Inventory(fs, w.hash)
  {
    forall i | 0 <= i < |fs|
      ensures AssetFor(fs[i], x.hash) == AssetFor(fs[i], w.hash)
    {
      assert x.hash(fs[i].bytes) == w.hash(fs[i].bytes);
    }
  }

  lemma SameHash(a: Bytes, b: Bytes, hash: Bytes -> Units)
    requires CollisionFree(hash)
    ensures hash(a) == hash(b) ==> a == b
  {
  }

  /** The attestation pins the tree: whatever passes against it holds the same files, manifest included. */
  lemma AttestationPins(a: seq<DirEntry>, b: seq<DirEntry>, evidence: Attestation, w: World, x: World)
    requires WellNamed(a) && WellNamed(b) && CollisionFree(w.hash) && SameTools(w, x)
    requires Passes(a, evidence, w) && Passes(b, evidence, x)
    ensures Plain(a) && Plain(b) && SameFiles(a, b)
  {
    hide WellNamed, CollisionFree, Listed, Passes, RegularFiles, FileAt, SameTools;
    PassesSameListing(a, b, evidence, w, x);
    ReadsFile(a, MANIFEST);
    ReadsFile(b, MANIFEST);
    forall path
      ensures FileAt(a, path) == FileAt(b, path)
    {
      if path != [MANIFEST] {
        ListedImplies(a, b, w.le, path);
        ListedImplies(b, a, w.le, path);
      }
    }
  }

  lemma ListedImplies(a: seq<DirEntry>, b: seq<DirEntry>, le: Compare, path: Path)
    requires WellNamed(a) && Plain(a) && WellNamed(b) && Plain(b) && path != [MANIFEST]
    requires Listed(RegularFiles(a, le).value) == Listed(RegularFiles(b, le).value)
    ensures FileAt(a, path).Some? ==> FileAt(b, path) == FileAt(a, path)
  {
    hide WellNamed, Listed, FileAt, Plain, RegularFiles;
    if FileAt(a, path).Some? {
      var bytes := FileAt(a, path).value;
      FilesExactly(a, le, path, bytes);
      FilesExactly(b, le, path, bytes);
      ListedExactly(RegularFiles(a, le).value, Stored(path, bytes));
      ListedExactly(RegularFiles(b, le).value, Stored(path, bytes));
    }
  }

  // ---- The same files, listed otherwise ----

  lemma SameFilesSameElements(a: seq<DirEntry>, b: seq<DirEntry>)
    requires WellNamed(a) && WellNamed(b) && Plain(a) && Plain(b) && SameFiles(a, b)
    ensures multiset(Visited(a, []).value) == multiset(Visited(b, []).value)
  {
    hide WellNamed, FileAt, Visited;
    var x, y := Visited(a, []).value, Visited(b, []).value;
    forall f: Stored
      ensures f in x <==> f in y
    {
      VisitedIn(a, f);
      VisitedIn(b, f);
    }
    VisitedDistinct(a, []);
    VisitedDistinct(b, []);
    DistinctStored(x);
    DistinctStored(y);
    SameSetSameMultiset(x, y);
  }

  lemma VisitedIn(root: seq<DirEntry>, f: Stored)
    requires WellNamed(root) && Plain(root)
    ensures f in Visited(root, []).value <==> FileAt(root, f.path) == Some(f.bytes)
  {
    hide WellNamed, FileAt, Visited;
    if f in Visited(root, []).value {
      VisitedSound(root, [], f);
      assert Under(f, []) == f.path;
    }
    if FileAt(root, f.path) == Some(f.bytes) {
      VisitedComplete(root, [], f.path);
      assert [] + f.path == f.path;
    }
  }

  lemma DistinctStored(fs: seq<Stored>)
    requires DistinctPaths(fs)
    ensures NoRepetition(fs)
  {
    forall i, j | 0 <= i < j < |fs|
      ensures fs[i] != fs[j]
    {
      var p, q := fs[i].path, fs[j].path;
    }
  }

  lemma ByPathTotal(le: Compare)
    requires TotalPreorder(le)
    ensures TotalPreorder(ByPath(le))
  {
    hide PathText;
    var order := ByPath(le);
    forall f, g
      ensures order(f, g) || order(g, f)
    {
      assert le(PathText(f.path), PathText(g.path)) || le(PathText(g.path), PathText(f.path));
    }
    forall f, g, h | order(f, g) && order(g, h)
      ensures order(f, h)
    {
      var x, y, z := PathText(f.path), PathText(g.path), PathText(h.path);
      assert le(x, y) && le(y, z);
    }
  }

  // ---- Finalizing ----

  /** Writing a file at the root replaces it, adds it, or writes through a link. */
  function WriteRoot(es: seq<DirEntry>, name: Name, bytes: Bytes): Result<seq<DirEntry>, ReleaseError> {
    if es == [] then
      Ok([DirEntry(name, File(bytes))])
    else if es[0].name != name then
      var rest :- WriteRoot(es[1..], name, bytes);
      Ok([es[0]] + rest)
    else
      match es[0].node
      case File(_) => Ok([DirEntry(name, File(bytes))] + es[1..])
      case Link(_) => Ok([DirEntry(name, Link(Some(bytes)))] + es[1..])
      case Directory(_) => Err(CannotWrite(name))
      case Special(_) => Ok(es)
  }

  ghost predicate Unnamed(es: seq<DirEntry>, name: Name) {
    forall i | 0 <= i < |es| :: es[i].name != name
  }

  lemma {:induction false} WriteRootUnnamed(es: seq<DirEntry>, name: Name, bytes: Bytes, other: Name)
    requires WriteRoot(es, name, bytes).Ok? && other != name && Unnamed(es, other)
    ensures Unnamed(WriteRoot(es, name, bytes).value, other)
  {
    if es == [] || es[0].name == name {
    } else {
      WriteRootUnnamed(es[1..], name, bytes, other);
    }
  }

  lemma WellNamedCons(e: DirEntry, es: seq<DirEntry>)
    requires NameOk(e.name) && Unnamed(es, e.name) && WellNamed(es)
    requires e.node.Directory? ==> WellNamed(e.node.entries)
    ensures WellNamed([e] + es)
  {
  }

  lemma {:induction false} WriteRootNames(es: seq<DirEntry>, name: Name, bytes: Bytes)
    requires WellNamed(es) && NameOk(name) && WriteRoot(es, name, bytes).Ok?
    ensures WellNamed(WriteRoot(es, name, bytes).value)
  {
    hide NameOk, WellNamed;
    if es == [] {
      assert WellNamed([]) by {
        NothingNamed();
      }
      WellNamedCons(DirEntry(name, File(bytes)), []);
      assert [DirEntry(name, File(bytes))] + [] == [DirEntry(name, File(bytes))];
    } else {
      WellNamedTail(es);
      assert es == [es[0]] + es[1..];
      if es[0].name != name {
        WriteRootNames(es[1..], name, bytes);
        WriteRootUnnamed(es[1..], name, bytes, es[0].name);
        WellNamedCons(es[0], WriteRoot(es[1..], name, bytes).value);
      } else {
        var after := WriteRoot(es, name, bytes).value;
        WellNamedCons(after[0], es[1..]);
        assert after == [after[0]] + es[1..];
      }
    }
  }

  lemma NothingNamed()
    ensures WellNamed([])
  {
  }

  lemma {:induction false} WriteRootFind(es: seq<DirEntry>, name: Name, bytes: Bytes, other: Name)
    requires WriteRoot(es, name, bytes).Ok?
    ensures other != name ==> Find(WriteRoot(es, name, bytes).value, other) == Find(es, other)
    ensures var n := Find(WriteRoot(es, name, bytes).value, name);
            n.Some? && (n.value.File? ==> n.value.bytes == bytes) && !n.value.Directory?
  {
    if es == [] || es[0].name == name {
    } else {
      WriteRootFind(es[1..], name, bytes, other);
    }
  }

  /** The files after a write: the one written, provided it is one, and all the others as they were. */
  lemma WriteRootFiles(es: seq<DirEntry>, name: Name, bytes: Bytes, path: Path)
    requires WriteRoot(es, name, bytes).Ok? && path != []
    ensures var after := WriteRoot(es, name, bytes).value;
            && (path[0] != name ==> FileAt(after, path) == FileAt(es, path))
            && (path[0] == name && |path| > 1 ==> FileAt(after, path) == None)
            && (path == [name] && Plain(after) ==> FileAt(after, path) == Some(bytes))
  {
    hide WriteRoot, Visited;
    var after := WriteRoot(es, name, bytes).value;
    WriteRootFind(es, name, bytes, path[0]);
    if Plain(after) {
      PlainRoot(after, [], name);
    }
  }

  datatype Finalized = Finalized(root: seq<DirEntry>, attestation: Attestation)

  function FinalizeWritten(root: seq<DirEntry>, w: World): Result<Finalized, ReleaseError> {
    var files :- RegularFiles(root, w.le);
    if Listed(files) == [] then
      Err(EmptyOutput)
    else
      var manifestBytes := w.render(w.hash(w.headers), Inventory(Listed(files), w.hash));
      var finished :- WriteRoot(root, MANIFEST, manifestBytes);
      var _ :- CheckInternal(finished, false, None, w);
      var attestation := Attestation(w.commit, w.hash(manifestBytes));
      var _ :- CheckInternal(finished, true, Some(attestation), w);
      Ok(Finalized(finished, attestation))
  }

  function Finalize(root: seq<DirEntry>, w: World): Result<Finalized, ReleaseError> {
    var written :- WriteRoot(root, HEADERS, w.headers);
    FinalizeWritten(written, w)
  }

  lemma AsciiOk(s: string)
    requires s != "" && forall i | 0 <= i < |s| :: s[i] as int < 0x80 && s[i] != '/'
    ensures NameOk(Ascii(s))
  {
    forall i | 0 <= i < |s|
      ensures Ascii(s)[i] != SLASH
    {
      assert s[i] as int != '/' as int;
    }
  }

  lemma ManifestOk()
    ensures NameOk(MANIFEST) && MANIFEST[0] == 0x72
  {
    AsciiOk("release-manifest.json");
  }

  lemma HeadersOk()
    ensures NameOk(HEADERS) && HEADERS[0] == 0x73
  {
    AsciiOk("security-headers.json");
  }

  /**
   A successful finalize leaves every file but the headers and the manifest as it was, writes the inventory of
   what it leaves, and issues an attestation that the directory passes against.
   */
  lemma FinalizeWrites(root: seq<DirEntry>, w: World)
    requires WellNamed(root) && Finalize(root, w).Ok?
    ensures var f := Finalize(root, w).value;
            && WellNamed(f.root) && Plain(f.root) && Passes(f.root, f.attestation, w)
            && FileAt(f.root, [HEADERS]) == Some(w.headers)
            && FileAt(f.root, [MANIFEST]).Some?
            && w.hash(FileAt(f.root, [MANIFEST]).value) == f.attestation.manifestSha256
            && forall path | path != [] && path[0] != HEADERS && path[0] != MANIFEST ::
                 FileAt(f.root, path) == FileAt(root, path)
  {
    hide WellNamed, NameOk, FileAt, WriteRoot, Visited, Sort, Listed, Inventory,
         CheckManifest, CheckHeaders, CheckFiles, ReadRoot;
    ManifestOk();
    HeadersOk();
    var f := Finalize(root, w).value;
    var written := WriteRoot(root, HEADERS, w.headers).value;
    var manifestBytes := w.render(w.hash(w.headers), Inventory(Listed(RegularFiles(written, w.le).value), w.hash));
    WriteRootNames(root, HEADERS, w.headers);
    WriteRootNames(written, MANIFEST, manifestBytes);
    forall path | path != []
      ensures path[0] != MANIFEST ==> FileAt(f.root, path) == FileAt(written, path)
      ensures path[0] != HEADERS ==> FileAt(written, path) == FileAt(root, path)
    {
      WriteRootFiles(root, HEADERS, w.headers, path);
      WriteRootFiles(written, MANIFEST, manifestBytes, path);
    }
    WriteRootFiles(root, HEADERS, w.headers, [HEADERS]);
    WriteRootFiles(written, MANIFEST, manifestBytes, [MANIFEST]);
    assert FileAt(f.root, [HEADERS]) == FileAt(written, [HEADERS]);
  }

  /**
   From finalize to any later check, whatever was added, removed or edited in between and whatever else the
   check then looks at: passing against the attestation that finalize issued means holding exactly the files
   that finalize left.
   */
  lemma FinalizePins(root: seq<DirEntry>, later: seq<DirEntry>, w: World, x: World)
    requires WellNamed(root) && WellNamed(later) && CollisionFree(w.hash) && SameTools(w, x)
    requires Finalize(root, w).Ok? && Passes(later, Finalize(root, w).value.attestation, x)
    ensures SameFiles(Finalize(root, w).value.root, later)
  {
    hide WellNamed, CollisionFree, Finalize, FileAt, Passes, SameTools;
    FinalizeWrites(root, w);
    AttestationPins(Finalize(root, w).value.root, later, Finalize(root, w).value.attestation, w, x);
  }

  /** Once the manifest written passes the check without an attestation, it passes with its own. */
  lemma AttestedPasses(written: seq<DirEntry>, finished: seq<DirEntry>, manifestBytes: Bytes, w: World)
    requires WriteRoot(written, MANIFEST, manifestBytes) == Ok(finished)
    requires CheckInternal(finished, false, None, w).Ok?
    ensures CheckInternal(finished, true, Some(Attestation(w.commit, w.hash(manifestBytes))), w).Ok?
  {
    hide WriteRoot, Visited, Sort, Listed, Inventory, Show, CheckContents, Texts, Find, CheckHeaders, CheckFiles;
    WriteRootFind(written, MANIFEST, manifestBytes, MANIFEST);
    PlainRoot(finished, [], MANIFEST);
  }

  // ---- The program ----

  /** The walk over a directory, which pushes each file onto one list. */
  class FileWalk {
    var result: seq<Stored>

    constructor ()
      ensures result == []
    {
      result := [];
    }

    method Visit(current: seq<DirEntry>, dir: Path) returns (r: Result<(), ReleaseError>)
      modifies this
      ensures match Visited(current, dir)
              case Err(e) => r == Err(e)
              case Ok(found) => r == Ok(()) && result == old(result) + found
      decreases current
    {
      hide Visited;
      var i := 0;
      ghost var found: seq<Stored> := [];
      VisitedEnds(current, dir, result);
      while i < |current|
        invariant i <= |current|
        invariant result == old(result) + found
        invariant Visited(current, dir) == Prepend(found, Visited(current[i..], dir))
      {
        var path := dir + [current[i].name];
        VisitedStep(current, i, dir, found);
        match current[i].node {
          case Link(_) =>
            return Err(SymbolicLinkForbidden(path));
          case Special(_) =>
            return Err(UnsupportedEntry(path));
          case Directory(sub) =>
            var inner := Visit(sub, path);
            if inner.Err? {
              return Err(inner.error);
            }
            found := found + Visited(sub, path).value;
          case File(bytes) =>
            result := result + [Stored(path, bytes)];
            found := found + [Stored(path, bytes)];
        }
        i := i + 1;
      }
      assert current[i..] == [] && found + [] == found;
      return Ok(());
    }
  }

  function Prepend(found: seq<Stored>, rest: Result<seq<Stored>, ReleaseError>): Result<seq<Stored>, ReleaseError> {
    match rest
    case Err(e) => Err(e)
    case Ok(fs) => Ok(found + fs)
  }

  lemma VisitedEnds(current: seq<DirEntry>, dir: Path, before: seq<Stored>)
    ensures current[0..] == current && before + [] == before
    ensures Visited(current, dir) == Prepend([], Visited(current, dir))
    ensures Visited([], dir) == Ok([])
  {
    assert Visited(current, dir).Ok? ==> [] + Visited(current, dir).value == Visited(current, dir).value;
  }

  lemma VisitedStep(current: seq<DirEntry>, i: nat, dir: Path, found: seq<Stored>)
    requires i < |current|
    ensures Prepend(found, Visited(current[i..], dir)) ==
            var path, rest := dir + [current[i].name], Visited(current[i + 1..], dir);
            match current[i].node
            case Link(_) => Err(SymbolicLinkForbidden(path))
            case Special(_) => Err(UnsupportedEntry(path))
            case Directory(sub) =>
              (match Visited(sub, path) case Err(e) => Err(e) case Ok(inner) => Prepend(found + inner, rest))
            case File(bytes) => Prepend(found + [Stored(path, bytes)], rest)
  {
    assert current[i..][1..] == current[i + 1..];
    var path, rest := dir + [current[i].name], Visited(current[i + 1..], dir);
    if rest.Ok? {
      match current[i].node {
        case Directory(sub) =>
          var inner := Visited(sub, path);
          assert inner.Ok? ==> found + (inner.value + rest.value) == found + inner.value + rest.value;
        case File(bytes) =>
          assert found + ([Stored(path, bytes)] + rest.value) == found + [Stored(path, bytes)] + rest.value;
        case _ =>
      }
    }
  }

  method FilesOf(root: seq<DirEntry>, le: Compare) returns (r: Result<seq<Stored>, ReleaseError>)
    ensures r == RegularFiles(root, le)
  {
    hide Visited, Sort;
    var walk := new FileWalk();
    ghost var found := Visited(root, []);
    assert found.Ok? ==> [] + found.value == found.value;
    var visited := walk.Visit(root, []);
    if visited.Err? {
      return Err(visited.error);
    }
    return Ok(Sort(walk.result, ByPath(le)));
  }

  /** The output directory and the attestation beside it, which finalize writes and check reads. */
  class Release {
    const w: World
    var root: seq<DirEntry>
    var evidence: Option<Attestation>

    constructor (w: World, root: seq<DirEntry>, evidence: Option<Attestation>)
      ensures this.w == w && this.root == root && this.evidence == evidence
    {
      this.w, this.root, this.evidence := w, root, evidence;
    }

    method WriteFile(name: Name, bytes: Bytes) returns (r: Result<(), ReleaseError>)
      modifies `root
      ensures match WriteRoot(old(root), name, bytes)
              case Err(e) => r == Err(e) && root == old(root)
              case Ok(after) => r == Ok(()) && root == after
    {
      var written := WriteRoot(root, name, bytes);
      match written {
        case Err(e) =>
          return Err(e);
        case Ok(after) =>
          root := after;
          return Ok(());
      }
    }

    method Check(requireAttestation: bool) returns (r: Result<seq<Stored>, ReleaseError>)
      ensures r == CheckInternal(root, requireAttestation, if requireAttestation then evidence else None, w)
    {
      hide WriteRoot, RegularFiles, CheckHeaders, CheckContents, Texts, Inventory, Show, Listed;
      var manifestBytes := ReadRoot(root, MANIFEST);
      if manifestBytes.Err? {
        return Err(manifestBytes.error);
      }
      var manifest := CheckManifest(manifestBytes.value, requireAttestation, evidence, w);
      if manifest.Err? {
        return Err(manifest.error);
      }
      var headersBytes := ReadRoot(root, HEADERS);
      if headersBytes.Err? {
        return Err(headersBytes.error);
      }
      var headers := CheckHeaders(manifestBytes.value, manifest.value, headersBytes.value, w);
      if headers.Err? {
        return Err(headers.error);
      }
      var files := FilesOf(root, w.le);
      if files.Err? {
        return Err(files.error);
      }
      var listed, found := Listed(files.value), manifest.value;
      if found.assets.None? || Show(Inventory(listed, w.hash)) != Show(found.assets.value) {
        return Err(InventoryMismatch);
      }
      var built := CheckBuilt(Texts(listed, w.decode), found.apiUrl, found.wsUrl, found.basePath);
      if built.Err? {
        return Err(ContentRejected(built.error));
      }
      return Ok(listed);
    }

    /** A finalize that fails issues no attestation. */
    method FinalizeRelease() returns (r: Result<(), ReleaseError>)
      modifies this
      ensures match Finalize(old(root), w)
              case Err(e) => r == Err(e) && evidence == old(evidence)
              case Ok(f) => r == Ok(()) && root == f.root && evidence == Some(f.attestation)
    {
      hide WriteRoot, RegularFiles, CheckInternal, Inventory, Listed;
      var written := WriteFile(HEADERS, w.headers);
      if written.Err? {
        return Err(written.error);
      }
      var files := FilesOf(root, w.le);
      if files.Err? {
        return Err(files.error);
      }
      var listed := Listed(files.value);
      if listed == [] {
        return Err(EmptyOutput);
      }
      var manifestBytes := w.render(w.hash(w.headers), Inventory(listed, w.hash));
      ghost var before := root;
      var finished := WriteFile(MANIFEST, manifestBytes);
      if finished.Err? {
        return Err(finished.error);
      }
      var checked := Check(false);
      if checked.Err? {
        return Err(checked.error);
      }
      evidence := Some(Attestation(w.commit, w.hash(manifestBytes)));
      AttestedPasses(before, root, manifestBytes, w);
      var attested := Check(true);
      match attested {
        case Err(e) => r := Err(e);
        case Ok(_) => r := Ok(());
      }
    }
  }
}
