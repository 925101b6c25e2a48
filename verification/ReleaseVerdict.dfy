/**
 When a release passes the check, told of the directory, the attestation and the inputs alone, and what the
 inventory it is compared with says, to the last unit.
 */
module ReleaseVerdict {
  import opened Wrappers
  import opened Orders
  import opened ByteStrings
  import opened JsonText
  import opened JsonLayout
  import opened ReleaseContents
  import opened ReleaseSearches
  import opened ReleaseManifests
  import ReleaseOrder

  // ---- The directory ----

  /** Nothing but files and directories, at any depth. */
  ghost predicate OnlyFiles(es: seq<DirEntry>) {
    forall i | 0 <= i < |es| ::
      match es[i].node
      case File(_) => true
      case Directory(sub) => OnlyFiles(sub)
      case _ => false
  }

  lemma OnlyFilesCons(es: seq<DirEntry>)
    requires es != []
    ensures OnlyFiles(es) <==>
            && OnlyFiles(es[1..])
            && match es[0].node
               case File(_) => true
               case Directory(sub) => OnlyFiles(sub)
               case _ => false
  {
    assert forall i | 0 < i < |es| :: es[i] == es[1..][i - 1];
  }

  lemma {:induction false} VisitedOnly(es: seq<DirEntry>, dir: Path)
    ensures Visited(es, dir).Ok? <==> OnlyFiles(es)
    decreases es
  {
    if es == [] {
    } else {
      OnlyFilesCons(es);
      hide OnlyFiles;
      VisitedOnly(es[1..], dir);
      match es[0].node {
        case Directory(sub) => VisitedOnly(sub, dir + [es[0].name]);
        case _ =>
      }
    }
  }

  /** The files that the check lists, in its order. */
  ghost function ListedAssets(root: seq<DirEntry>, le: Compare): seq<Stored>
    requires OnlyFiles(root)
  {
    VisitedOnly(root, []);
    Listed(RegularFiles(root, le).value)
  }

  /** Every file but the manifest is listed once with its bytes, and the paths ascend in the locale's order. */
  lemma AssetsExactly(root: seq<DirEntry>, le: Compare)
    requires WellNamed(root) && OnlyFiles(root) && TotalPreorder(le)
    ensures var fs := ListedAssets(root, le);
            && (forall f :: f in fs <==>
                  FileAt(root, f.path) == Some(f.bytes) && f.path != [Ascii("release-manifest.json")])
            && DistinctPaths(fs)
            && forall i, j | 0 <= i < j < |fs| :: le(PathText(fs[i].path), PathText(fs[j].path))
  {
    VisitedOnly(root, []);
    hide WellNamed, FileAt, PathText, Visited, Sort, Listed, TotalPreorder, OnlyFiles;
    var found := Visited(root, []).value;
    var fs := ListedAssets(root, le);
    forall f
      ensures f in fs <==> FileAt(root, f.path) == Some(f.bytes) && f.path != [Ascii("release-manifest.json")]
    {
      FilesExactly(root, le, f.path, f.bytes);
      ListedExactly(RegularFiles(root, le).value, f);
      assert f == Stored(f.path, f.bytes);
    }
    ByPathTotal(le);
    ReleaseOrder.ListedSort(found, ByPath(le));
    SortSorts(Listed(found), ByPath(le));
    assert Sorted(fs, ByPath(le));
    forall i, j | 0 <= i < j < |fs|
      ensures le(PathText(fs[i].path), PathText(fs[j].path))
    {
      assert ByPath(le)(fs[i], fs[j]);
    }
    VisitedDistinct(root, []);
    SortedDistinct(found, le);
  }

  lemma SortedDistinct(found: seq<Stored>, le: Compare)
    requires DistinctPaths(found)
    ensures DistinctPaths(Listed(Sort(found, ByPath(le))))
  {
    hide Sort, Listed, PathText, DistinctPaths;
    ReleaseOrder.DistinctListing(found, ByPath(le));
    var fs := Listed(Sort(found, ByPath(le)));
    SameElements(found, Sort(found, ByPath(le)));
    forall i, j | 0 <= i < j < |fs|
      ensures fs[i].path != fs[j].path
    {
      ListedExactly(Sort(found, ByPath(le)), fs[i]);
      ListedExactly(Sort(found, ByPath(le)), fs[j]);
      assert fs[i] in fs && fs[j] in fs && fs[i] != fs[j];
      OnePath(found, fs[i], fs[j]);
    }
    assert DistinctPaths(fs) by {
      PathsApart(fs);
    }
  }

  lemma PathsApart(fs: seq<Stored>)
    requires forall i, j | 0 <= i < j < |fs| :: fs[i].path != fs[j].path
    ensures DistinctPaths(fs)
  {
  }

  lemma OnePath(fs: seq<Stored>, f: Stored, g: Stored)
    requires DistinctPaths(fs) && f in fs && g in fs
    ensures f.path == g.path ==> f == g
  {
    var i :| 0 <= i < |fs| && fs[i] == f;
    var j :| 0 <= j < |fs| && fs[j] == g;
    var p, q := fs[i].path, fs[j].path;
  }

  /** A path is written with slashes between its names. */
  lemma {:induction false} PathTextExactly(path: Path, name: Name)
    ensures PathText([name]) == name
    ensures path != [] ==> PathText(path + [name]) == PathText(path) + Ascii("/") + name
  {
    if path != [] {
      assert (path + [name])[1..] == path[1..] + [name];
      if |path| > 1 {
        PathTextExactly(path[1..], name);
      }
    }
  }

  // ---- The inventory ----

  /** The text of one asset in the inventory. */
  function AssetText(f: Stored, hash: Bytes -> Units): Units {
    Ascii("{\"path\":\"") + WrittenFrom(PathText(f.path), 0) +
    Ascii("\",\"bytes\":") + Ascii(Decimal(|f.bytes|)) +
    Ascii(",\"sha256\":\"") + WrittenFrom(hash(f.bytes), 0) + Ascii("\"}")
  }

  function InventoryText(fs: seq<Stored>, hash: Bytes -> Units): Units {
    Ascii("[") + Separated(seq(|fs|, i requires 0 <= i < |fs| => AssetText(fs[i], hash))) + Ascii("]")
  }

  lemma PlainText(s: Units)
    requires forall i | 0 <= i < |s| :: 'a' as int <= s[i] <= 'z' as int || '0' as int <= s[i] <= '9' as int
    ensures WrittenFrom(s, 0) == s
  {
    WrittenFromLength(s, 0);
    assert s[0..] == s;
  }

  lemma MemberText(key: Units, text: Units)
    requires WrittenFrom(key, 0) == key
    ensures Member(key, text) == Ascii("\"") + key + Ascii("\":") + text
  {
  }

  lemma SeparatedLast(ts: seq<Units>, last: Units)
    requires ts != []
    ensures Separated(ts + [last]) == Separated(ts) + Ascii(",") + last
  {
    assert (ts + [last])[..|ts|] == ts;
  }

  lemma SeparatedThree(a: Units, b: Units, c: Units)
    ensures Separated([a, b, c]) == a + Ascii(",") + b + Ascii(",") + c
  {
    hide Ascii;
    SeparatedLast([a], b);
    SeparatedLast([a, b], c);
    assert [a] + [b] == [a, b] && [a, b] + [c] == [a, b, c];
  }

  /** Two ways to bracket the members of an asset. */
  lemma Rebracketed(open: Units, m: Units, p: Units, q: Units, c: Units, n: Units, b: Units, o: Units, h: Units,
                    close: Units)
    ensures open + ((m + (q + p + q)) + c + (n + b) + c + (o + (q + h + q))) + close ==
            (open + (m + q)) + p + (q + c + n) + b + (c + (o + q)) + h + (q + close)
  {
    var x, y, z := m + (q + p + q), n + b, o + (q + h + q);
    assert open + (x + c + y + c + z) + close == open + x + c + y + c + z + close;
    assert open + x == (open + (m + q)) + p + q;
    assert (open + (m + q)) + p + q + c + y == (open + (m + q)) + p + (q + c + n) + b;
    var front := (open + (m + q)) + p + (q + c + n) + b;
    assert front + c + z + close == front + (c + (o + q)) + h + (q + close);
  }

  lemma AssetTextExactly(f: Stored, hash: Bytes -> Units)
    ensures Stringified(AssetFor(f, hash)) == AssetText(f, hash)
  {
    var path, bytes, sha := Ascii("path"), Ascii("bytes"), Ascii("sha256");
    PlainText(path);
    PlainText(bytes);
    PlainText(sha);
    Seams();
    hide WrittenFrom, PathText, Decimal, Separated, Member, Ascii, Stringified, AssetFor;
    var q, k, comma := Ascii("\""), Ascii("\":"), Ascii(",");
    var p, b, h := WrittenFrom(PathText(f.path), 0), Digits(|f.bytes|), WrittenFrom(hash(f.bytes), 0);
    MemberText(path, q + p + q);
    MemberText(bytes, b);
    MemberText(sha, q + h + q);
    SeparatedThree(Member(path, q + p + q), Member(bytes, b), Member(sha, q + h + q));
    AssetMembers(f, hash);
    Rebracketed(Ascii("{"), q + path + k, p, q, comma, q + bytes + k, b, q + sha + k, h, Ascii("}"));
  }

  lemma AssetMembers(f: Stored, hash: Bytes -> Units)
    ensures var q := Ascii("\"");
            Stringified(AssetFor(f, hash)) ==
            Ascii("{") +
            Separated([Member(Ascii("path"), q + WrittenFrom(PathText(f.path), 0) + q),
                       Member(Ascii("bytes"), Digits(|f.bytes|)),
                       Member(Ascii("sha256"), q + WrittenFrom(hash(f.bytes), 0) + q)]) +
            Ascii("}")
  {
    hide WrittenFrom, PathText, Decimal, Separated, Member, Ascii, Digits;
    var v, q := AssetFor(f, hash), Ascii("\"");
    assert seq(3, i requires 0 <= i < 3 => Member(v.entries[i].key, Stringified(v.entries[i].value))) ==
           [Member(Ascii("path"), q + WrittenFrom(PathText(f.path), 0) + q),
            Member(Ascii("bytes"), Digits(|f.bytes|)),
            Member(Ascii("sha256"), q + WrittenFrom(hash(f.bytes), 0) + q)];
  }

  /** The fixed pieces of an asset's text, joined. */
  lemma Seams()
    ensures Ascii("{\"path\":\"") == Ascii("{") + (Ascii("\"") + Ascii("path") + Ascii("\":") + Ascii("\""))
    ensures Ascii("\",\"bytes\":") == Ascii("\"") + Ascii(",") + (Ascii("\"") + Ascii("bytes") + Ascii("\":"))
    ensures Ascii(",\"sha256\":\"") == Ascii(",") + (Ascii("\"") + Ascii("sha256") + Ascii("\":") + Ascii("\""))
    ensures Ascii("\"}") == Ascii("\"") + Ascii("}")
  {
  }

  /** The inventory's text, to the last unit. */
  lemma InventoryTextExactly(fs: seq<Stored>, hash: Bytes -> Units)
    ensures Show(Inventory(fs, hash)) == InventoryText(fs, hash)
  {
    hide Show, AssetFor, AssetText, Separated, Ascii;
    ShowExactly(Inventory(fs, hash));
    var items := Inventory(fs, hash).items;
    forall i | 0 <= i < |fs|
      ensures Stringified(items[i]) == AssetText(fs[i], hash)
    {
      AssetTextExactly(fs[i], hash);
    }
    assert seq(|items|, i requires 0 <= i < |items| => Stringified(items[i])) ==
           seq(|fs|, i requires 0 <= i < |fs| => AssetText(fs[i], hash));
  }

  // ---- The verdict ----

  /** The manifest is for this commit, as is the attestation, which holds its digest; nothing objects to it. */
  ghost predicate ManifestHolds(manifest: Bytes, headers: Bytes, evidence: Attestation, w: World) {
    match w.parse(manifest)
    case None => false
    case Some(m) =>
      && m.sourceCommit == w.commit && evidence.sourceCommit == w.commit
      && evidence.manifestSha256 == w.hash(manifest)
      && w.bound(manifest)
      && m.headersSha256 == w.hash(headers) && w.headersAccepted(manifest, headers)
  }

  /** The manifest lists the assets with their sizes and digests, and their contents are acceptable. */
  ghost predicate AssetsHold(manifest: Bytes, assets: seq<Stored>, w: World) {
    match w.parse(manifest)
    case None => false
    case Some(m) =>
      && m.assets.Some? && Stringified(m.assets.value) == InventoryText(assets, w.hash)
      && Acceptable(Texts(assets, w.decode), m.apiUrl, m.wsUrl, m.basePath)
  }

  lemma ReadsExactly(root: seq<DirEntry>, name: Name)
    requires Plain(root)
    ensures ReadRoot(root, name).Ok? <==> FileAt(root, [name]).Some?
    ensures ReadRoot(root, name).Ok? ==> ReadRoot(root, name).value == FileAt(root, [name]).value
  {
    hide FileAt, ReadRoot, Visited;
    ReadsFile(root, name);
  }

  /**
   A directory passes exactly when it has files and directories only, both named files are there, the manifest,
   the headers and the attestation hold, and so do the assets.
   */
  lemma AcceptsExactly(root: seq<DirEntry>, evidence: Attestation, w: World)
    ensures Passes(root, evidence, w) <==>
            && OnlyFiles(root)
            && var manifest, headers :=
                 FileAt(root, [Ascii("release-manifest.json")]), FileAt(root, [Ascii("security-headers.json")]);
               && manifest.Some? && headers.Some?
               && ManifestHolds(manifest.value, headers.value, evidence, w)
               && AssetsHold(manifest.value, ListedAssets(root, w.le), w)
  {
    VisitedOnly(root, []);
    hide OnlyFiles, FileAt, ReadRoot, Visited, Listed, Sort, Inventory, InventoryText, Show, Stringified,
         CheckContents, Acceptable, Texts;
    if Plain(root) {
      ReadsExactly(root, MANIFEST);
      ReadsExactly(root, HEADERS);
      var assets := ListedAssets(root, w.le);
      InventoryTextExactly(assets, w.hash);
      if ReadRoot(root, MANIFEST).Ok? && w.parse(ReadRoot(root, MANIFEST).value).Some? {
        var m := w.parse(ReadRoot(root, MANIFEST).value).value;
        AcceptableExactly(Texts(assets, w.decode), m.apiUrl, m.wsUrl, m.basePath);
        if m.assets.Some? {
          ShowExactly(m.assets.value);
        }
      }
    }
  }
}
