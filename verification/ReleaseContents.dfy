/**
 What the release check looks for in the built files: no source map and no reference to one, the endpoints in
 the scripts, and the references of the entry page among the assets.
 */
module ReleaseContents {
  import opened Wrappers
  import opened JsonText

  /** A listed asset and its content as text. */
  datatype Built = Built(path: Units, content: Units)

  datatype ContentError =
    | PublicSourceMap(path: Units)
    | SourceMapReference(path: Units)
    | EndpointsUnbound
    | EntryUnbound

  const INDEX_HTML: Units := Ascii("index.html")
  const MAP_MARK: Units := Ascii("sourceMappingURL")
  const SRC: Units := Ascii("src=")
  const HREF: Units := Ascii("href=")
  const EQUALS: CodeUnit := 0x3D

  // ---- Which files ----

  predicate EndsWith(text: Units, end: Units) {
    |end| <= |text| && text[|text| - |end|..] == end
  }

  predicate SourceMap(path: Units) {
    EndsWith(path, Ascii(".map"))
  }

  predicate Script(path: Units) {
    EndsWith(path, Ascii(".js")) || EndsWith(path, Ascii(".mjs"))
  }

  predicate Searched(path: Units) {
    Script(path) || EndsWith(path, Ascii(".html")) || EndsWith(path, Ascii(".css"))
  }

  // ---- References to source maps ----

  /** What is left of a text behind the white space it starts with. */
  function AfterSpace(t: Units): Units {
    if t != [] && WhiteSpace(t[0]) then AfterSpace(t[1..]) else t
  }

  /** The mark at the start of a text, and behind it and any white space an equals sign. */
  predicate NamesMapHere(t: Units) {
    MAP_MARK <= t && [EQUALS] <= AfterSpace(t[|MAP_MARK|..])
  }

  predicate NamesMap(text: Units) {
    exists i | 0 <= i <= |text| :: NamesMapHere(text[i..])
  }

  // ---- References of the entry page ----

  predicate IsQuote(u: CodeUnit) {
    u == 0x22 || u == 0x27
  }

  /** What no reference contains: quotes, a question mark, a number sign. */
  predicate Ends(u: CodeUnit) {
    IsQuote(u) || u == 0x3F || u == 0x23
  }

  /** The units before the first that no reference contains. */
  function Unbroken(t: Units): (n: nat)
    ensures n <= |t| && (n < |t| ==> Ends(t[n]))
    ensures forall i | 0 <= i < n :: !Ends(t[i])
  {
    if t == [] || Ends(t[0]) then 0 else 1 + Unbroken(t[1..])
  }

  /** The length of an attribute's name, its equals sign and its opening quote at the start of a text, or 0. */
  function Opening(t: Units): (n: nat)
    ensures n <= |t|
  {
    if SRC <= t && |t| > |SRC| && IsQuote(t[|SRC|]) then
      |SRC| + 1
    else if HREF <= t && |t| > |HREF| && IsQuote(t[|HREF|]) then
      |HREF| + 1
    else
      0
  }

  /** The reference of a match at the start of a text: a slash, more than that, and then a quote. */
  function ReferenceAt(t: Units): (r: Option<Units>)
    ensures r.Some? ==> Opening(t) + |r.value| < |t|
  {
    var n := Opening(t);
    var k := Unbroken(t[n..]);
    if n > 0 && k > 1 && t[n] == SLASH && n + k < |t| && IsQuote(t[n + k]) then Some(t[n..n + k]) else None
  }

  /** All matches from left to right, each search starting behind the match before. */
  function References(t: Units): seq<Units>
    decreases |t|
  {
    if t == [] then
      []
    else
      match ReferenceAt(t)
      case Some(r) => [r] + References(t[Opening(t) + |r| + 1..])
      case None => References(t[1..])
  }

  /** A text that starts with a match, taken apart. */
  ghost predicate Parts(t: Units, name: Units, q: CodeUnit, r: Units, p: CodeUnit, rest: Units) {
    && t == name + [q] + r + [p] + rest
    && (name == Ascii("src=") || name == Ascii("href="))
    && (q == '"' as int || q == '\'' as int) && (p == '"' as int || p == '\'' as int)
    && |r| > 1 && r[0] == '/' as int
    && forall i | 0 <= i < |r| :: r[i] != '"' as int && r[i] != '\'' as int && r[i] != '?' as int && r[i] != '#' as int
  }

  /** What the pattern says of a text that starts with a match. */
  ghost predicate Refers(t: Units, r: Units) {
    exists name, q, p, rest :: Parts(t, name, q, r, p, rest)
  }

  lemma ReferenceExactly(t: Units, r: Units)
    ensures ReferenceAt(t) == Some(r) <==> Refers(t, r)
  {
    hide ReferenceAt, Parts;
    if ReferenceAt(t) == Some(r) {
      ReferenceParts(t, r);
    }
    if name, q, p, rest :| Parts(t, name, q, r, p, rest) {
      PartsReference(t, name, q, r, p, rest);
    }
  }

  lemma ReferenceParts(t: Units, r: Units)
    requires ReferenceAt(t) == Some(r)
    ensures var n := Opening(t); n > 0 && Parts(t, t[..n - 1], t[n - 1], r, t[n + |r|], t[n + |r| + 1..])
  {
    var n := Opening(t);
    OpeningNames(t);
    hide Opening, IsQuote;
    var k := Unbroken(t[n..]);
    assert r == t[n..n + k] && |r| == k;
    CutOut(t, n, k);
    assert forall i | 0 <= i < k :: r[i] == t[n..][i];
  }

  lemma OpeningNames(t: Units)
    requires Opening(t) > 0
    ensures var n := Opening(t); IsQuote(t[n - 1]) && (t[..n - 1] == SRC || t[..n - 1] == HREF)
  {
  }

  lemma CutOut(t: Units, n: nat, k: nat)
    requires 0 < n && n + k < |t|
    ensures t == t[..n - 1] + [t[n - 1]] + t[n..n + k] + [t[n + k]] + t[n + k + 1..]
  {
  }

  lemma PartsReference(t: Units, name: Units, q: CodeUnit, r: Units, p: CodeUnit, rest: Units)
    requires Parts(t, name, q, r, p, rest)
    ensures ReferenceAt(t) == Some(r)
  {
    PartsOpen(t, name, q, r, p, rest);
    hide Opening;
    var n, u := Opening(t), t[Opening(t)..];
    assert u[|r|] == p && forall i | 0 <= i < |r| :: u[i] == r[i];
    assert Unbroken(u) == |r|;
    assert t[n + |r|] == u[|r|] && t[n] == u[0];
    assert t[n..n + |r|] == u[..|r|] == r;
  }

  lemma PartsOpen(t: Units, name: Units, q: CodeUnit, r: Units, p: CodeUnit, rest: Units)
    requires Parts(t, name, q, r, p, rest)
    ensures Opening(t) == |name| + 1 && t[|name| + 1..] == r + ([p] + rest)
  {
    assert t == name + ([q] + r + [p] + rest);
    assert name <= t && t[|name|] == q;
    assert SRC[0] != HREF[0];
    assert name[0] == t[0];
  }

  // ---- The search through the files ----

  datatype Found = Found(scripts: Units, index: Units)

  /** What the loop over the assets has after all of them, or its first objection. */
  function Gather(assets: seq<Built>, before: Found): Result<Found, ContentError>
    decreases |assets|
  {
    if assets == [] then
      Ok(before)
    else
      var a := assets[0];
      if SourceMap(a.path) then
        Err(PublicSourceMap(a.path))
      else if !Searched(a.path) then
        Gather(assets[1..], before)
      else if NamesMap(a.content) then
        Err(SourceMapReference(a.path))
      else
        Gather(assets[1..],
               Found(if Script(a.path) then before.scripts + a.content else before.scripts,
                     if a.path == INDEX_HTML then a.content else before.index))
  }

  predicate Bound(r: Units, basePath: Units, assets: seq<Built>) {
    basePath <= r && exists a | a in assets :: a.path == r[|basePath|..]
  }

  function CheckContents(assets: seq<Built>, apiUrl: Units, wsUrl: Units, basePath: Units): Result<(), ContentError> {
    var found :- Gather(assets, Found([], []));
    if !Includes(found.scripts, apiUrl) || !Includes(found.scripts, wsUrl) then
      Err(EndpointsUnbound)
    else
      var references := References(found.index);
      if references == [] || exists r | r in references :: !Bound(r, basePath, assets) then
        Err(EntryUnbound)
      else
        Ok(())
  }

  // ---- What acceptance means ----

  /** The scripts, one after another. */
  function Scripts(assets: seq<Built>): Units {
    if assets == [] then [] else (if Script(assets[0].path) then assets[0].content else []) + Scripts(assets[1..])
  }

  /** The entry page's text, empty without one; of two the later. */
  function EntryPage(assets: seq<Built>): Units {
    if assets == [] then
      []
    else if assets[|assets| - 1].path == INDEX_HTML then
      assets[|assets| - 1].content
    else
      EntryPage(assets[..|assets| - 1])
  }

  ghost predicate NoSourceMaps(assets: seq<Built>) {
    forall a | a in assets :: !SourceMap(a.path) && (Searched(a.path) ==> !NamesMap(a.content))
  }

  lemma IndexSearched()
    ensures Searched(INDEX_HTML) && !Script(INDEX_HTML)
  {
    assert INDEX_HTML[5..] == Ascii(".html");
    assert INDEX_HTML[9] == 0x6C && Ascii(".js")[2] == 0x73 && Ascii(".mjs")[3] == 0x73;
  }

  lemma ScriptsAppend(assets: seq<Built>, a: Built)
    ensures Scripts(assets + [a]) == Scripts(assets) + if Script(a.path) then a.content else []
  {
    if assets == [] {
      assert assets + [a] == [a];
    } else {
      assert (assets + [a])[1..] == assets[1..] + [a];
      ScriptsAppend(assets[1..], a);
    }
  }

  /** The loop collects the scripts' texts and the page's, and objects exactly to source maps. */
  lemma {:induction false} GatherExactly(done: seq<Built>, assets: seq<Built>)
    ensures Gather(assets, Found(Scripts(done), EntryPage(done))).Ok? <==> NoSourceMaps(assets)
    ensures NoSourceMaps(assets) ==>
              Gather(assets, Found(Scripts(done), EntryPage(done))).value ==
              Found(Scripts(done + assets), EntryPage(done + assets))
    decreases |assets|
  {
    hide SourceMap, Script, Searched, NamesMap, Scripts, EntryPage, NoSourceMaps;
    if assets == [] {
      assert NoSourceMaps([]) by {
        NothingMapped();
      }
      assert done + assets == done;
    } else {
      var a := assets[0];
      assert assets == [a] + assets[1..];
      NoSourceMapsCons(a, assets[1..]);
      IndexSearched();
      ScriptSearched(a.path);
      ScriptsAppend(done, a);
      assert Scripts(done) + [] == Scripts(done);
      EntryPageAppend(done, a);
      GatherExactly(done + [a], assets[1..]);
      assert done + assets == done + [a] + assets[1..];
    }
  }

  lemma NothingMapped()
    ensures NoSourceMaps([])
  {
  }

  lemma NoSourceMapsCons(a: Built, assets: seq<Built>)
    ensures NoSourceMaps([a] + assets) <==>
            !SourceMap(a.path) && (Searched(a.path) ==> !NamesMap(a.content)) && NoSourceMaps(assets)
  {
    hide SourceMap, Searched, NamesMap;
    assert a in [a] + assets && forall b | b in assets :: b in [a] + assets;
  }

  lemma ScriptSearched(path: Units)
    ensures Script(path) ==> Searched(path)
  {
  }

  lemma EntryPageAppend(assets: seq<Built>, a: Built)
    ensures EntryPage(assets + [a]) == if a.path == INDEX_HTML then a.content else EntryPage(assets)
  {
    assert (assets + [a])[..|assets|] == assets;
  }

  /**
   The contents are accepted exactly when there is no source map nor a reference to one, the scripts in their
   order contain both endpoints, and the entry page refers to something and only to assets below the base path.
   */
  lemma AcceptedExactly(assets: seq<Built>, apiUrl: Units, wsUrl: Units, basePath: Units)
    ensures CheckContents(assets, apiUrl, wsUrl, basePath).Ok? <==>
            && NoSourceMaps(assets)
            && Includes(Scripts(assets), apiUrl) && Includes(Scripts(assets), wsUrl)
            && References(EntryPage(assets)) != []
            && forall r | r in References(EntryPage(assets)) :: Bound(r, basePath, assets)
  {
    GatherExactly([], assets);
    assert [] + assets == assets;
    hide Gather, NoSourceMaps, Includes, References, Bound;
  }

  lemma IncludedLonger(a: Units, text: Units, b: Units, part: Units)
    requires Includes(text, part)
    ensures Includes(a + text + b, part)
  {
    var i :| 0 <= i <= |text| && part <= text[i..];
    assert (a + text + b)[|a| + i..] == text[i..] + b;
  }

  /** An endpoint in one script is in the scripts, wherever that script is listed. */
  lemma {:induction false} ScriptIncluded(assets: seq<Built>, a: Built, part: Units)
    requires a in assets && Script(a.path) && Includes(a.content, part)
    ensures Includes(Scripts(assets), part)
  {
    hide Script, Includes;
    var first := if Script(assets[0].path) then assets[0].content else [];
    assert Scripts(assets) == first + Scripts(assets[1..]) + [];
    if assets[0] == a {
      IncludedLonger([], a.content, Scripts(assets[1..]), part);
      assert [] + a.content + Scripts(assets[1..]) == Scripts(assets);
    } else {
      ScriptIncluded(assets[1..], a, part);
      IncludedLonger(first, Scripts(assets[1..]), [], part);
    }
  }

  /** A page listed once is the entry page, wherever it is listed. */
  lemma {:induction false} OnePage(assets: seq<Built>, page: Built)
    requires page in assets && page.path == INDEX_HTML && forall a | a in assets && a.path == INDEX_HTML :: a == page
    ensures EntryPage(assets) == page.content
  {
    var n := |assets| - 1;
    assert assets == assets[..n] + [assets[n]];
    if assets[n].path != INDEX_HTML {
      OnePage(assets[..n], page);
    }
  }

  // ---- The program ----

  method CheckBuilt(assets: seq<Built>, apiUrl: Units, wsUrl: Units, basePath: Units)
    returns (r: Result<(), ContentError>)
    ensures r == CheckContents(assets, apiUrl, wsUrl, basePath)
  {
    hide SourceMap, Script, Searched, NamesMap, Includes, References, Bound;
    var found := Found([], []);
    for i := 0 to |assets|
      invariant Gather(assets, Found([], [])) == Gather(assets[i..], found)
    {
      var a := assets[i];
      assert assets[i..][1..] == assets[i + 1..];
      if SourceMap(a.path) {
        return Err(PublicSourceMap(a.path));
      }
      if Searched(a.path) {
        if Script(a.path) {
          found := found.(scripts := found.scripts + a.content);
        }
        if a.path == INDEX_HTML {
          found := found.(index := a.content);
        }
        if NamesMap(a.content) {
          return Err(SourceMapReference(a.path));
        }
      }
    }
    if !Includes(found.scripts, apiUrl) || !Includes(found.scripts, wsUrl) {
      return Err(EndpointsUnbound);
    }
    var references := References(found.index);
    if references == [] || exists r | r in references :: !Bound(r, basePath, assets) {
      return Err(EntryUnbound);
    }
    return Ok(());
  }
}
