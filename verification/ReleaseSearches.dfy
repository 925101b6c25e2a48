/**
 What the searches in the built files accept, told of the paths and the texts alone: no pattern is scanned for
 here, texts are taken apart.
 */
module ReleaseSearches {
  import opened JsonText
  import opened ReleaseContents

  // ---- Which files ----

  ghost predicate Ended(path: Units, end: Units) {
    exists stem :: path == stem + end
  }

  lemma EndedExactly(path: Units, end: Units)
    ensures EndsWith(path, end) <==> Ended(path, end)
  {
    if EndsWith(path, end) {
      assert path == path[..|path| - |end|] + end;
    }
  }

  ghost predicate IsScript(path: Units) {
    Ended(path, Ascii(".js")) || Ended(path, Ascii(".mjs"))
  }

  ghost predicate IsText(path: Units) {
    IsScript(path) || Ended(path, Ascii(".html")) || Ended(path, Ascii(".css"))
  }

  lemma PathsExactly(path: Units)
    ensures SourceMap(path) <==> Ended(path, Ascii(".map"))
    ensures Script(path) <==> IsScript(path)
    ensures Searched(path) <==> IsText(path)
  {
    EndedExactly(path, Ascii(".map"));
    EndedExactly(path, Ascii(".js"));
    EndedExactly(path, Ascii(".mjs"));
    EndedExactly(path, Ascii(".html"));
    EndedExactly(path, Ascii(".css"));
    hide EndsWith, Ended, Ascii;
  }

  // ---- References to source maps ----

  ghost predicate MapNamed(text: Units) {
    exists before, space, after :: MapNamedBy(text, before, space, after)
  }

  /** The mark, white space and an equals sign, one after another. */
  ghost predicate MapNamedBy(text: Units, before: Units, space: Units, after: Units) {
    && text == before + Ascii("sourceMappingURL") + space + Ascii("=") + after
    && forall i | 0 <= i < |space| :: WhiteSpace(space[i])
  }

  lemma {:induction false} AfterSpaceExactly(t: Units, space: Units, after: Units)
    requires t == space + [EQUALS] + after && forall i | 0 <= i < |space| :: WhiteSpace(space[i])
    ensures AfterSpace(t) == [EQUALS] + after
  {
    if space == [] {
      assert t == [EQUALS] + after;
    } else {
      assert t[1..] == space[1..] + [EQUALS] + after && t[0] == space[0];
      AfterSpaceExactly(t[1..], space[1..], after);
    }
  }

  lemma {:induction false} SpaceBefore(t: Units) returns (space: Units)
    ensures t == space + AfterSpace(t) && forall i | 0 <= i < |space| :: WhiteSpace(space[i])
  {
    if t != [] && WhiteSpace(t[0]) {
      var rest := SpaceBefore(t[1..]);
      space := [t[0]] + rest;
    } else {
      space := [];
    }
  }

  lemma MapNamedExactly(text: Units)
    ensures NamesMap(text) <==> MapNamed(text)
  {
    hide WhiteSpace, AfterSpace;
    assert Ascii("=") == [EQUALS];
    if i :| 0 <= i <= |text| && NamesMapHere(text[i..]) {
      var t := text[i..][|MAP_MARK|..];
      var space := SpaceBefore(t);
      var after := AfterSpace(t)[1..];
      assert AfterSpace(t) == [EQUALS] + after;
      assert text == text[..i] + MAP_MARK + space + Ascii("=") + after;
      assert MapNamedBy(text, text[..i], space, after);
    }
    if before, space, after :| MapNamedBy(text, before, space, after) {
      var t := text[|before|..];
      assert t == MAP_MARK + (space + [EQUALS] + after);
      AfterSpaceExactly(t[|MAP_MARK|..], space, after);
      assert NamesMapHere(text[|before|..]);
    }
  }

  // ---- The references of a page ----

  /** The first match of a text is at `i`, it is `r`, and `rest` follows it. */
  ghost predicate FirstAt(t: Units, i: nat, r: Units, rest: Units)
    requires i <= |t|
  {
    && (forall j, x | 0 <= j < i :: !Refers(t[j..], x))
    && exists name, q, p :: Parts(t[i..], name, q, r, p, rest)
  }

  /** These are the matches from left to right, none overlapping another. */
  ghost predicate Found(t: Units, rs: seq<Units>)
    decreases |rs|
  {
    if rs == [] then
      forall i, r | 0 <= i < |t| :: !Refers(t[i..], r)
    else
      exists i, rest | 0 <= i <= |t| :: FirstAt(t, i, rs[0], rest) && Found(rest, rs[1..])
  }

  lemma NoneBefore(t: Units, i: nat)
    requires i <= |t| && forall j, x | 0 <= j < i :: !Refers(t[j..], x)
    ensures forall j | 0 <= j < i :: ReferenceAt(t[j..]).None?
  {
    hide Refers, ReferenceAt;
    forall j | 0 <= j < i
      ensures ReferenceAt(t[j..]).None?
    {
      if ReferenceAt(t[j..]).Some? {
        ReferenceExactly(t[j..], ReferenceAt(t[j..]).value);
      }
    }
  }

  lemma {:induction false} SkipTo(t: Units, i: nat)
    requires i <= |t| && forall j | 0 <= j < i :: ReferenceAt(t[j..]).None?
    ensures References(t) == References(t[i..])
    decreases i
  {
    hide ReferenceAt;
    if i == 0 {
      assert t[0..] == t;
    } else {
      assert t[0..] == t;
      forall j | 0 <= j < i - 1
        ensures ReferenceAt(t[1..][j..]).None?
      {
        assert t[1..][j..] == t[j + 1..];
      }
      SkipTo(t[1..], i - 1);
      assert t[1..][i - 1..] == t[i..];
    }
  }

  lemma MatchTaken(t: Units, name: Units, q: CodeUnit, r: Units, p: CodeUnit, rest: Units)
    requires Parts(t, name, q, r, p, rest)
    ensures t != [] && References(t) == [r] + References(rest)
  {
    PartsReference(t, name, q, r, p, rest);
    PartsOpen(t, name, q, r, p, rest);
    hide Parts, ReferenceAt, Opening;
    var n := |name| + 1 + |r| + 1;
    var u := t[|name| + 1..];
    assert u == r + ([p] + rest);
    assert t[n..] == u[|r| + 1..] == rest;
  }

  lemma {:induction false} FoundOnly(t: Units, rs: seq<Units>)
    requires Found(t, rs)
    ensures References(t) == rs
    decreases |rs|
  {
    hide ReferenceAt, Refers, Parts;
    if rs == [] {
      NoneBefore(t, |t|);
      SkipTo(t, |t|);
      assert t[|t|..] == [];
    } else {
      var i, rest :| 0 <= i <= |t| && FirstAt(t, i, rs[0], rest) && Found(rest, rs[1..]);
      assert FirstAt(t, i, rs[0], rest);
      NoneBefore(t, i);
      SkipTo(t, i);
      var name, q, p :| Parts(t[i..], name, q, rs[0], p, rest);
      MatchTaken(t[i..], name, q, rs[0], p, rest);
      FoundOnly(rest, rs[1..]);
      assert rs == [rs[0]] + rs[1..];
    }
  }

  lemma FoundLater(t: Units, rs: seq<Units>)
    requires t != [] && ReferenceAt(t).None? && Found(t[1..], rs)
    ensures Found(t, rs)
  {
    hide ReferenceAt, Refers, Parts;
    assert t[0..] == t;
    forall r
      ensures !Refers(t, r)
    {
      ReferenceExactly(t, r);
    }
    assert forall j | 0 < j <= |t| :: t[j..] == t[1..][j - 1..];
    if rs != [] {
      var i, rest :| 0 <= i <= |t[1..]| && FirstAt(t[1..], i, rs[0], rest) && Found(rest, rs[1..]);
      assert FirstAt(t[1..], i, rs[0], rest);
      assert FirstAt(t, i + 1, rs[0], rest);
    }
  }

  lemma {:induction false} FoundAll(t: Units)
    ensures Found(t, References(t))
    decreases |t|
  {
    hide ReferenceAt, Refers, Parts, Opening;
    if t == [] {
    } else {
      match ReferenceAt(t) {
        case Some(r) =>
          ReferenceParts(t, r);
          var n := Opening(t) + |r|;
          var rest := t[n + 1..];
          FoundAll(rest);
          assert t[0..] == t;
          assert Parts(t, t[..Opening(t) - 1], t[Opening(t) - 1], r, t[n], rest);
          assert FirstAt(t, 0, r, rest);
          var rs := References(t);
          assert rs == [r] + References(rest) && rs[1..] == References(rest);
          assert FirstAt(t, 0, rs[0], rest) && Found(rest, rs[1..]);
        case None =>
          FoundAll(t[1..]);
          FoundLater(t, References(t[1..]));
      }
    }
  }

  /** The references of a page are its matches from left to right. */
  lemma FoundExactly(t: Units, rs: seq<Units>)
    ensures References(t) == rs <==> Found(t, rs)
  {
    hide Found, References;
    FoundAll(t);
    if Found(t, rs) {
      FoundOnly(t, rs);
    }
  }

  // ---- Acceptance ----

  /** The scripts in order, one after another. */
  ghost function ScriptText(assets: seq<Built>): Units {
    if assets == [] then
      []
    else
      var n := |assets| - 1;
      ScriptText(assets[..n]) + if IsScript(assets[n].path) then assets[n].content else []
  }

  lemma {:induction false} ScriptTextExactly(assets: seq<Built>)
    ensures Scripts(assets) == ScriptText(assets)
  {
    hide Script, IsScript;
    if assets != [] {
      var n := |assets| - 1;
      ScriptTextExactly(assets[..n]);
      ScriptsAppend(assets[..n], assets[n]);
      PathsExactly(assets[n].path);
      assert assets == assets[..n] + [assets[n]];
    }
  }

  /** The text of the last asset that is the entry page, or nothing where there is none. */
  ghost predicate IsEntryPage(assets: seq<Built>, text: Units) {
    || (text == [] && forall i | 0 <= i < |assets| :: assets[i].path != Ascii("index.html"))
    || exists i | 0 <= i < |assets| ::
         && assets[i] == Built(Ascii("index.html"), text)
         && forall j | i < j < |assets| :: assets[j].path != Ascii("index.html")
  }

  lemma {:induction false} EntryPageExactly(assets: seq<Built>, text: Units)
    ensures EntryPage(assets) == text <==> IsEntryPage(assets, text)
  {
    hide Ascii;
    if assets != [] {
      var n := |assets| - 1;
      EntryPageExactly(assets[..n], text);
      if assets[n].path != INDEX_HTML && IsEntryPage(assets[..n], text) && text != [] {
        var i :| 0 <= i < n && assets[..n][i] == Built(Ascii("index.html"), text) &&
                 forall j | i < j < n :: assets[..n][j].path != Ascii("index.html");
        assert assets[i] == Built(Ascii("index.html"), text);
      }
    }
  }

  ghost predicate NoMaps(assets: seq<Built>) {
    forall a | a in assets :: !Ended(a.path, Ascii(".map")) && (IsText(a.path) ==> !MapNamed(a.content))
  }

  ghost predicate Stands(text: Units, part: Units) {
    exists before, after :: text == before + part + after
  }

  /** The reference is the base path and behind it an asset's path. */
  ghost predicate LeadsToAsset(r: Units, basePath: Units, assets: seq<Built>) {
    exists a | a in assets :: r == basePath + a.path
  }

  /** The page refers to something, and only to assets below the base path. */
  ghost predicate PageBound(assets: seq<Built>, basePath: Units) {
    exists page, rs | IsEntryPage(assets, page) && Found(page, rs) ::
      rs != [] && forall r | r in rs :: LeadsToAsset(r, basePath, assets)
  }

  /**
   No source map and no reference to one, both endpoints in the scripts, and an entry page that refers to
   something and only to assets.
   */
  ghost predicate Acceptable(assets: seq<Built>, apiUrl: Units, wsUrl: Units, basePath: Units) {
    && NoMaps(assets)
    && Stands(ScriptText(assets), apiUrl) && Stands(ScriptText(assets), wsUrl)
    && PageBound(assets, basePath)
  }

  lemma NoMapsExactly(assets: seq<Built>)
    ensures NoSourceMaps(assets) <==> NoMaps(assets)
  {
    hide SourceMap, Searched, NamesMap, Ended, IsText, MapNamed;
    forall a: Built
      ensures SourceMap(a.path) <==> Ended(a.path, Ascii(".map"))
      ensures Searched(a.path) <==> IsText(a.path)
      ensures NamesMap(a.content) <==> MapNamed(a.content)
    {
      PathsExactly(a.path);
      MapNamedExactly(a.content);
    }
  }

  lemma LeadsExactly(r: Units, basePath: Units, assets: seq<Built>)
    ensures Bound(r, basePath, assets) <==> LeadsToAsset(r, basePath, assets)
  {
    if Bound(r, basePath, assets) {
      var a :| a in assets && a.path == r[|basePath|..];
      assert r == basePath + a.path;
    }
    if a :| a in assets && r == basePath + a.path {
      assert a.path == r[|basePath|..];
    }
  }

  lemma PageExactly(assets: seq<Built>, basePath: Units)
    ensures References(EntryPage(assets)) != [] &&
            (forall r | r in References(EntryPage(assets)) :: Bound(r, basePath, assets)) <==>
            PageBound(assets, basePath)
  {
    hide EntryPage, References, IsEntryPage, Found, Bound, LeadsToAsset;
    var page, rs := EntryPage(assets), References(EntryPage(assets));
    EntryPageExactly(assets, page);
    FoundExactly(page, rs);
    forall r
      ensures Bound(r, basePath, assets) <==> LeadsToAsset(r, basePath, assets)
    {
      LeadsExactly(r, basePath, assets);
    }
    if other, others :| IsEntryPage(assets, other) && Found(other, others) && others != [] &&
                        forall r | r in others :: LeadsToAsset(r, basePath, assets) {
      EntryPageExactly(assets, other);
      FoundExactly(other, others);
    }
  }

  /** The built files are accepted exactly when they are acceptable. */
  lemma AcceptableExactly(assets: seq<Built>, apiUrl: Units, wsUrl: Units, basePath: Units)
    ensures CheckContents(assets, apiUrl, wsUrl, basePath).Ok? <==> Acceptable(assets, apiUrl, wsUrl, basePath)
  {
    hide CheckContents, NoSourceMaps, NoMaps, Scripts, ScriptText, Includes, PageBound, References, EntryPage, Bound;
    AcceptedExactly(assets, apiUrl, wsUrl, basePath);
    NoMapsExactly(assets);
    ScriptTextExactly(assets);
    IncludesExactly(Scripts(assets), apiUrl);
    IncludesExactly(Scripts(assets), wsUrl);
    PageExactly(assets, basePath);
  }
}
