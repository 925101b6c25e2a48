/**
 A release on which finalize succeeds: an entry page, the script it names, and two files with canonically
 equivalent names.  It passes against the attestation it is given, and no longer when the file system lists it
 backwards.
 */
module ReleaseExample {
  import opened Wrappers
  import opened Orders
  import opened ByteStrings
  import opened JsonText
  import opened Hashes
  import opened KeyTies
  import opened ReleaseContents
  import opened ReleaseManifests
  import opened ReleaseOrder
  import opened ReleaseFinalizing

  // ---- The built files ----

  const API_URL: Units := Ascii("https://a.example")
  const WS_URL: Units := Ascii("wss://b.example")
  const BASE_PATH: Units := Ascii("/")
  const COMMIT: Units := Ascii("0123456789abcdef0123456789abcdef01234567")
  const APP: Name := Ascii("app.js")
  const PAGE_TEXT: Units := Ascii("<script src='/app.js'></script>")
  const APP_TEXT: Units := Ascii("connect('") + API_URL + Ascii("','") + WS_URL + Ascii("')")

  /** Bytes below 0x80 are code points in UTF-8; the model needs no other. */
  function Decode(bytes: Bytes): Units {
    seq(|bytes|, i requires 0 <= i < |bytes| => if bytes[i] < 0x80 then bytes[i] as int else 0xFFFD)
  }

  function Encode(u: Units): Bytes {
    seq(|u|, i requires 0 <= i < |u| => u[i] % 0x80)
  }

  ghost predicate AllAscii(u: Units) {
    forall i | 0 <= i < |u| :: u[i] < 0x80
  }

  lemma DecodeEncoded(u: Units)
    requires AllAscii(u)
    ensures Decode(Encode(u)) == u
  {
  }

  lemma TextsAscii()
    ensures AllAscii(PAGE_TEXT) && AllAscii(APP_TEXT)
  {
  }

  /** Neither text has the mark of a source map, which has a capital U. */
  lemma NoMapNamed()
    ensures !NamesMap(PAGE_TEXT) && !NamesMap(APP_TEXT)
  {
    PageUnmarked();
    AppUnmarked();
    hide NamesMap, Ascii, PAGE_TEXT, APP_TEXT, MAP_MARK;
    UnmarkedNoMap(PAGE_TEXT);
    UnmarkedNoMap(APP_TEXT);
  }

  lemma PageUnmarked()
    ensures MAP_MARK[13] == 0x55 && forall i | 0 <= i < |PAGE_TEXT| :: PAGE_TEXT[i] != 0x55
  {
  }

  lemma AppUnmarked()
    ensures forall i | 0 <= i < |APP_TEXT| :: APP_TEXT[i] != 0x55
  {
  }

  lemma UnmarkedNoMap(t: Units)
    requires forall i | 0 <= i < |t| :: t[i] != MAP_MARK[13]
    ensures !NamesMap(t)
  {
    forall i | 0 <= i <= |t|
      ensures !NamesMapHere(t[i..])
    {
      if i + 16 <= |t| {
        assert t[i..][13] == t[i + 13];
      }
    }
  }

  lemma EndpointsNamed()
    ensures Includes(APP_TEXT, API_URL) && Includes(APP_TEXT, WS_URL)
  {
    hide Ascii, Includes, API_URL, WS_URL;
    var a, b, c := Ascii("connect('"), Ascii("','"), Ascii("')");
    IncludedBetween(a, API_URL, b + WS_URL + c);
    IncludedBetween(a + API_URL + b, WS_URL, c);
    assert APP_TEXT == a + API_URL + (b + WS_URL + c);
  }

  lemma NoEqualsNoOpening(t: Units)
    requires EQUALS !in t
    ensures Opening(t) == 0
  {
    assert SRC[3] == EQUALS && HREF[4] == EQUALS;
  }

  lemma {:induction false} NoEqualsNoReference(t: Units)
    requires EQUALS !in t
    ensures References(t) == []
    decreases |t|
  {
    NoEqualsNoOpening(t);
    hide Opening;
    if t != [] {
      NoEqualsNoReference(t[1..]);
    }
  }

  /** A reference in an otherwise bare text is the only one found. */
  lemma {:induction false} OneReference(before: Units, q: CodeUnit, r: Units, p: CodeUnit, rest: Units)
    requires EQUALS !in before && EQUALS !in rest
    requires Parts(SRC + [q] + r + [p] + rest, SRC, q, r, p, rest)
    ensures References(before + (SRC + [q] + r + [p] + rest)) == [r]
    decreases |before|
  {
    var found := SRC + [q] + r + [p] + rest;
    var t := before + found;
    if before == [] {
      assert t == found;
      PartsReference(t, SRC, q, r, p, rest);
      PartsOpen(t, SRC, q, r, p, rest);
      NoEqualsNoReference(rest);
      assert t[Opening(t) + |r| + 1..] == rest;
    } else {
      NotYet(before, found);
      assert t[1..] == before[1..] + found;
      OneReference(before[1..], q, r, p, rest);
    }
  }

  lemma NotYet(before: Units, later: Units)
    requires before != [] && EQUALS !in before && SRC <= later
    ensures Opening(before + later) == 0
  {
    var t := before + later;
    assert SRC[0] == 0x73 && SRC[1] == 0x72 && SRC[2] == 0x63 && SRC[3] == EQUALS;
    assert HREF[1] == 0x72 && HREF[4] == EQUALS;
    assert forall i | 0 <= i < 4 :: t[|before| + i] == SRC[i];
    assert forall i | 0 <= i < |before| :: t[i] == before[i];
  }

  lemma PageText()
    ensures PAGE_TEXT == Ascii("<script ") + (SRC + [0x27] + ([SLASH] + APP) + [0x27] + Ascii("></script>"))
    ensures EQUALS !in Ascii("<script ") && EQUALS !in Ascii("></script>")
  {
  }

  lemma AppNamed()
    ensures |APP| == 6 && forall i | 0 <= i < |APP| :: !Ends(APP[i])
  {
  }

  /** The page refers to the script and to nothing else. */
  lemma PageRefers()
    ensures References(PAGE_TEXT) == [[SLASH] + APP]
  {
    PageText();
    AppNamed();
    hide References, Ascii, PAGE_TEXT, APP;
    OneReference(Ascii("<script "), 0x27, [SLASH] + APP, 0x27, Ascii("></script>"));
  }

  // ---- A world ----

  /** Two bytes for each code unit. */
  function Wide(u: Units): Bytes {
    if u == [] then [] else [u[0] / 0x100, u[0] % 0x100] + Wide(u[1..])
  }

  lemma {:induction false} WideInjective(u: Units, v: Units)
    requires Wide(u) == Wide(v)
    ensures u == v
  {
    if u == [] || v == [] {
    } else {
      assert Wide(u)[0] == Wide(v)[0] && Wide(u)[1] == Wide(v)[1];
      assert Wide(u)[2..] == Wide(u[1..]) && Wide(v)[2..] == Wide(v[1..]);
      WideInjective(u[1..], v[1..]);
      assert u == [u[0]] + u[1..] && v == [v[0]] + v[1..];
    }
  }

  function ManifestJson(headersSha256: Units, assets: Json): Json {
    Array([String(headersSha256), assets])
  }

  function Render(headersSha256: Units, assets: Json): Bytes {
    Wide(Show(ManifestJson(headersSha256, assets)))
  }

  function Read(headersSha256: Units, assets: Json): Manifest {
    Manifest(COMMIT, API_URL, WS_URL, BASE_PATH, headersSha256, Some(assets))
  }

  ghost predicate Rendered(bytes: Bytes, headersSha256: Units, assets: Json) {
    WellFormed(assets) && bytes == Render(headersSha256, assets)
  }

  ghost function Parse(bytes: Bytes): (r: Option<Manifest>)
    ensures r.Some? ==> exists h, a :: Rendered(bytes, h, a) && r.value == Read(h, a)
    ensures r.None? ==> !exists h, a :: Rendered(bytes, h, a)
  {
    if exists h, a :: Rendered(bytes, h, a) then
      var h, a :| Rendered(bytes, h, a);
      Some(Read(h, a))
    else
      None
  }

  lemma RenderInjective(h: Units, a: Json, k: Units, b: Json)
    requires WellFormed(a) && WellFormed(b) && Render(h, a) == Render(k, b)
    ensures h == k && a == b
  {
    var x, y := ManifestJson(h, a), ManifestJson(k, b);
    WideInjective(Show(x), Show(y));
    assert WellFormed(x.items[0]) && WellFormed(y.items[0]);
    ShowInjective(x, y);
    assert x.items[0] == y.items[0] && x.items[1] == y.items[1];
  }

  lemma ParseRendered(h: Units, a: Json)
    requires WellFormed(a)
    ensures Parse(Render(h, a)) == Some(Read(h, a))
  {
    hide Render, WellFormed, Read, Parse;
    assert Rendered(Render(h, a), h, a);
    var k, b :| Rendered(Render(h, a), k, b) && Parse(Render(h, a)).value == Read(k, b);
    assert Rendered(Render(h, a), k, b);
    RenderInjective(h, a, k, b);
  }

  /** Every byte a code unit: a hash without collisions. */
  function Spelled(b: Bytes): Units {
    seq(|b|, i requires 0 <= i < |b| => b[i] as int)
  }

  lemma SpelledInjective()
    ensures CollisionFree(Spelled)
  {
    forall a, b | Spelled(a) == Spelled(b)
      ensures a == b
    {
      assert |a| == |Spelled(a)| == |b|;
      forall i | 0 <= i < |a|
        ensures a[i] == b[i]
      {
        assert Spelled(a)[i] == Spelled(b)[i];
      }
    }
  }

  /** Holds the two forms of the letter equal, and otherwise goes by code units. */
  predicate Collated(a: Units, b: Units) {
    UnitsLe(Folded(a), Folded(b))
  }

  function Folded(t: Units): Units {
    if t == DECOMPOSED then COMPOSED else t
  }

  lemma CollatedTotal()
    ensures TotalPreorder(Collated)
  {
    UnitsLeTotal();
    hide UnitsLe, Folded;
  }

  const HEADERS_TEXT: Bytes := Encode(Ascii("{}"))

  ghost function Surroundings(): World {
    World(
      hash := Spelled, le := Collated, decode := Decode, parse := Parse, commit := COMMIT,
      bound := (b: Bytes) => true, headersAccepted := (b: Bytes, h: Bytes) => h == HEADERS_TEXT,
      headers := HEADERS_TEXT, render := Render)
  }

  lemma InventoryWellFormed(fs: seq<Stored>, hash: Bytes -> Units)
    ensures WellFormed(Inventory(fs, hash))
  {
    hide AssetFor;
    forall f: Stored
      ensures WellFormed(AssetFor(f, hash))
    {
      AssetWellFormed(f, hash);
    }
  }

  // ---- A release ----

  const OUTPUT: seq<DirEntry> :=
    [DirEntry(COMPOSED, File([1])), DirEntry(DECOMPOSED, File([2])),
     DirEntry(INDEX_HTML, File(Encode(PAGE_TEXT))), DirEntry(APP, File(Encode(APP_TEXT)))]

  lemma NamesDiffer()
    ensures COMPOSED[0] == 0xE9 && DECOMPOSED[0] == 0x65 && INDEX_HTML[0] == 0x69 && APP[0] == 0x61
    ensures HEADERS[0] == 0x73 && MANIFEST[0] == 0x72
  {
    HeadersOk();
    ManifestOk();
  }

  lemma OutputIsTree()
    ensures WellNamed(OUTPUT) && Plain(OUTPUT)
    ensures !DirectoryAt(OUTPUT, HEADERS) && !DirectoryAt(OUTPUT, MANIFEST)
  {
    NamesDiffer();
    AsciiOk("index.html");
    AsciiOk("app.js");
    FilesOnly(OUTPUT, [], HEADERS);
    FilesOnly(OUTPUT, [], MANIFEST);
  }

  lemma {:induction false} FilesOnly(es: seq<DirEntry>, dir: Path, name: Name)
    requires forall i | 0 <= i < |es| :: es[i].node.File?
    ensures Visited(es, dir).Ok? && !DirectoryAt(es, name)
  {
    if es != [] {
      FilesOnly(es[1..], dir, name);
    }
  }

  lemma FileAtFirst(e: DirEntry, es: seq<DirEntry>, path: Path)
    requires path != [] && e.node.File?
    ensures FileAt([e] + es, path) ==
            if path[0] != e.name then FileAt(es, path) else if |path| == 1 then Some(e.node.bytes) else None
  {
    FileAtCons([e] + es, path);
    assert ([e] + es)[1..] == es;
  }

  lemma FourFiles(a: DirEntry, b: DirEntry, c: DirEntry, d: DirEntry, path: Path)
    requires path != [] && a.node.File? && b.node.File? && c.node.File? && d.node.File?
    ensures FileAt([a, b, c, d], path) ==
            if |path| > 1 then None
            else if path[0] == a.name then Some(a.node.bytes)
            else if path[0] == b.name then Some(b.node.bytes)
            else if path[0] == c.name then Some(c.node.bytes)
            else if path[0] == d.name then Some(d.node.bytes)
            else None
  {
    hide FileAt;
    FileAtFirst(a, [b, c, d], path);
    FileAtFirst(b, [c, d], path);
    FileAtFirst(c, [d], path);
    FileAtFirst(d, [], path);
    NotNamedNoFile([], path);
    assert [a, b, c, d] == [a] + [b, c, d] && [b, c, d] == [b] + [c, d] && [c, d] == [c] + [d] && [d] == [d] + [];
  }

  lemma OutputFiles(path: Path)
    requires path != []
    ensures FileAt(OUTPUT, path) ==
            if |path| > 1 then None
            else if path[0] == COMPOSED then Some([1])
            else if path[0] == DECOMPOSED then Some([2])
            else if path[0] == INDEX_HTML then Some(Encode(PAGE_TEXT))
            else if path[0] == APP then Some(Encode(APP_TEXT))
            else None
  {
    hide FileAt, Encode, Ascii, PAGE_TEXT, APP_TEXT;
    FourFiles(DirEntry(COMPOSED, File([1])), DirEntry(DECOMPOSED, File([2])),
              DirEntry(INDEX_HTML, File(Encode(PAGE_TEXT))), DirEntry(APP, File(Encode(APP_TEXT))), path);
  }

  /** The files beside the manifest, after the headers are written. */
  lemma AssetsExactly(root: seq<DirEntry>, w: World, f: Stored)
    requires WellNamed(root) && Plain(root) && !DirectoryAt(root, HEADERS)
    ensures f in Assets(root, w) <==>
            || f == Stored([HEADERS], w.headers)
            || (f.path != [MANIFEST] && FileAt(root, f.path) == Some(f.bytes) && f.path[0] != HEADERS)
  {
    hide WellNamed, FileAt, WriteRoot, Visited, Sort, Listed, ReleaseManifests.Find, NameOk;
    WriteRootExactly(root, HEADERS, w.headers);
    var written := WriteRoot(root, HEADERS, w.headers).value;
    NamesDiffer();
    HeadersOk();
    WriteRootNames(root, HEADERS, w.headers);
    ListedExactly(RegularFiles(written, w.le).value, f);
    FilesExactly(written, w.le, f.path, f.bytes);
    NoEmptyPath(root);
    NoEmptyPath(written);
    if f.path != [] {
      WriteRootFiles(root, HEADERS, w.headers, f.path);
      assert |f.path| == 1 ==> f.path == [f.path[0]];
    }
    assert [HEADERS][0] != [MANIFEST][0];
  }

  lemma NoEmptyPath(es: seq<DirEntry>)
    ensures FileAt(es, []) == None
  {
  }

  /** The five assets of the release. */
  lemma OutputAssets(f: Stored)
    requires Plain(OUTPUT) && !DirectoryAt(OUTPUT, HEADERS)
    ensures f in Assets(OUTPUT, Surroundings()) <==>
            || f == Stored([HEADERS], HEADERS_TEXT)
            || f == Stored([COMPOSED], [1]) || f == Stored([DECOMPOSED], [2])
            || f == Stored([INDEX_HTML], Encode(PAGE_TEXT)) || f == Stored([APP], Encode(APP_TEXT))
  {
    OutputIsTree();
    AssetsExactly(OUTPUT, Surroundings(), f);
    NamesDiffer();
    hide FileAt, Assets, Encode, WellNamed, Plain;
    if f.path == [] {
      NoEmptyPath(OUTPUT);
    } else {
      OutputFiles(f.path);
      assert |f.path| == 1 ==> f.path == [f.path[0]];
    }
  }

  lemma OnePart(name: Name)
    ensures PathText([name]) == name
  {
  }

  lemma TextsExactly(files: seq<Stored>, decode: Bytes -> Units, t: Built)
    ensures t in Texts(files, decode) <==>
            exists f :: f in files && t == Built(PathText(f.path), decode(f.bytes))
  {
    hide PathText;
    var texts := Texts(files, decode);
    if t in texts {
      var i :| 0 <= i < |texts| && texts[i] == t;
      assert files[i] in files;
    }
    if f :| f in files && t == Built(PathText(f.path), decode(f.bytes)) {
      var i :| 0 <= i < |files| && files[i] == f;
      assert texts[i] == t;
    }
  }

  ghost predicate OutputText(t: Built) {
    || t == Built(HEADERS, Ascii("{}"))
    || t == Built(COMPOSED, [1]) || t == Built(DECOMPOSED, [2])
    || t == Built(INDEX_HTML, PAGE_TEXT) || t == Built(APP, APP_TEXT)
  }

  /** What the searches are given. */
  lemma OutputTexts(t: Built)
    requires Plain(OUTPUT) && !DirectoryAt(OUTPUT, HEADERS)
    ensures t in Texts(Assets(OUTPUT, Surroundings()), Decode) <==> OutputText(t)
  {
    var assets := Assets(OUTPUT, Surroundings());
    TextsAscii();
    DecodeEncoded(PAGE_TEXT);
    DecodeEncoded(APP_TEXT);
    DecodeEncoded(Ascii("{}"));
    assert Decode([1]) == [1] && Decode([2]) == [2];
    hide Plain, Assets, PathText, Decode, Encode, Texts, DirectoryAt, Ascii;
    TextsExactly(assets, Decode, t);
    forall f: Stored
      ensures f in assets <==>
              || f == Stored([HEADERS], HEADERS_TEXT)
              || f == Stored([COMPOSED], [1]) || f == Stored([DECOMPOSED], [2])
              || f == Stored([INDEX_HTML], Encode(PAGE_TEXT)) || f == Stored([APP], Encode(APP_TEXT))
    {
      OutputAssets(f);
    }
    OnePart(HEADERS);
    OnePart(COMPOSED);
    OnePart(DECOMPOSED);
    OnePart(INDEX_HTML);
    OnePart(APP);
    var f := Stored([HEADERS], HEADERS_TEXT);
    var g, h := Stored([COMPOSED], [1]), Stored([DECOMPOSED], [2]);
    var x, y := Stored([INDEX_HTML], Encode(PAGE_TEXT)), Stored([APP], Encode(APP_TEXT));
    assert f in assets && g in assets && h in assets && x in assets && y in assets;
  }

  lemma NamesSearched()
    ensures !SourceMap(HEADERS) && !SourceMap(COMPOSED) && !SourceMap(DECOMPOSED)
    ensures !SourceMap(INDEX_HTML) && !SourceMap(APP) && Script(APP)
  {
    var end := Ascii(".map");
    assert HEADERS[20] == 0x6E && INDEX_HTML[9] == 0x6C && APP[5] == 0x73 && end[3] == 0x70;
    assert APP[3..] == Ascii(".js");
  }

  lemma OutputUnmapped(t: Built)
    requires OutputText(t)
    ensures !SourceMap(t.path) && !NamesMap(t.content)
    ensures t.path == INDEX_HTML ==> t == Built(INDEX_HTML, PAGE_TEXT)
  {
    NamesDiffer();
    NamesSearched();
    NoMapNamed();
    UnmarkedNoMap(Ascii("{}"));
    UnmarkedNoMap([1]);
    UnmarkedNoMap([2]);
    hide SourceMap, NamesMap;
  }

  /** Whatever the order in which the five are listed, their contents are accepted. */
  lemma OutputAccepted(texts: seq<Built>)
    requires forall t :: t in texts <==> OutputText(t)
    ensures CheckContents(texts, API_URL, WS_URL, BASE_PATH).Ok?
  {
    var app, page := Built(APP, APP_TEXT), Built(INDEX_HTML, PAGE_TEXT);
    assert OutputText(app) && OutputText(page);
    hide OutputText, Ascii, SourceMap, Searched, Script, NamesMap, References, Includes, CheckContents, Bound;
    forall t | t in texts
      ensures !SourceMap(t.path) && !NamesMap(t.content) && (t.path == INDEX_HTML ==> t == page)
    {
      OutputUnmapped(t);
    }
    EndpointsNamed();
    NamesSearched();
    ScriptIncluded(texts, app, API_URL);
    ScriptIncluded(texts, app, WS_URL);
    OnePage(texts, page);
    PageRefers();
    BoundAtRoot(APP, app, texts);
    AcceptedExactly(texts, API_URL, WS_URL, BASE_PATH);
  }

  lemma BoundAtRoot(name: Name, a: Built, texts: seq<Built>)
    requires a in texts && a.path == name
    ensures Bound([SLASH] + name, BASE_PATH, texts)
  {
    assert BASE_PATH == [SLASH];
    assert ([SLASH] + name)[1..] == name;
  }

  lemma OutputAgreeable()
    requires Plain(OUTPUT) && !DirectoryAt(OUTPUT, HEADERS)
    ensures Agreeable(Assets(OUTPUT, Surroundings()), Surroundings())
  {
    var w := Surroundings();
    hide Plain, Assets, Texts, DirectoryAt, Ascii, Render, Inventory, CheckContents, WellFormed, Parse;
    var assets := Assets(OUTPUT, w);
    forall t: Built
      ensures t in Texts(assets, Decode) <==> OutputText(t)
    {
      OutputTexts(t);
    }
    OutputAccepted(Texts(assets, Decode));
    InventoryWellFormed(assets, w.hash);
    ParseRendered(w.hash(w.headers), Inventory(assets, w.hash));
  }

  /**
   A directory in which nothing changed, refused: finalize succeeds on it and it passes, and with the very same
   files listed backwards it does not.
   */
  lemma UnchangedAndRefused()
    ensures WellNamed(OUTPUT) && CollisionFree(Surroundings().hash) && TotalPreorder(Surroundings().le)
    ensures Finalize(OUTPUT, Surroundings()).Ok?
    ensures var f := Finalize(OUTPUT, Surroundings()).value;
            && WellNamed(f.root) && Passes(f.root, f.attestation, Surroundings())
            && WellNamed(Reversed(f.root)) && Plain(Reversed(f.root)) && SameFiles(f.root, Reversed(f.root))
            && !Passes(Reversed(f.root), f.attestation, Surroundings())
  {
    var w := Surroundings();
    OutputIsTree();
    SpelledInjective();
    CollatedTotal();
    OutputAgreeable();
    FinalizeSucceedsExactly(OUTPUT, w);
    TiedNames();
    OutputFiles([COMPOSED]);
    OutputFiles([DECOMPOSED]);
    hide WellNamed, Visited, TotalPreorder, Agreeable, Finalize, Passes, FileAt, CollisionFree, Reversed, SameFiles;
    FinalizeWrites(OUTPUT, w);
    var f := Finalize(OUTPUT, w).value;
    assert FileAt(f.root, [COMPOSED]) == FileAt(OUTPUT, [COMPOSED]);
    assert FileAt(f.root, [DECOMPOSED]) == FileAt(OUTPUT, [DECOMPOSED]);
    ReversalFails(f.root, f.attestation, w, [COMPOSED], [DECOMPOSED]);
  }

  lemma TiedNames()
    ensures ReleaseOrder.Tied(Collated, [COMPOSED], [DECOMPOSED])
    ensures [COMPOSED] != [DECOMPOSED] && [COMPOSED] != [MANIFEST] && [DECOMPOSED] != [MANIFEST]
    ensures COMPOSED != HEADERS && COMPOSED != MANIFEST && DECOMPOSED != HEADERS && DECOMPOSED != MANIFEST
    ensures COMPOSED != DECOMPOSED
  {
    NamesDiffer();
    UnitsLeTotal();
    var p, q := [COMPOSED], [DECOMPOSED];
    OnePart(COMPOSED);
    OnePart(DECOMPOSED);
    assert p[0] != q[0] && p[0] != [MANIFEST][0] && q[0] != [MANIFEST][0];
  }
}
