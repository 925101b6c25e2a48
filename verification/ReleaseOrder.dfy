/**
 Whether the check of a release depends on the order in which the file system lists directories: it does
 not, exactly when no two listed files have paths that the locale compares as equal.
 */
module ReleaseOrder {
  import opened Wrappers
  import opened Orders
  import opened StableSorts
  import opened JsonText
  import opened ReleaseManifests
  import opened Hashes

  // ---- The same tree, every directory listed backwards ----

  function Backwards<T>(s: seq<T>): (r: seq<T>)
    ensures |r| == |s| && multiset(r) == multiset(s)
  {
    if s == [] then
      []
    else
      assert s == [s[0]] + s[1..];
      Backwards(s[1..]) + [s[0]]
  }

  lemma {:induction false} BackwardsAppend<T>(a: seq<T>, b: seq<T>)
    ensures Backwards(a + b) == Backwards(b) + Backwards(a)
  {
    if a == [] {
      assert a + b == b;
    } else {
      assert (a + b)[1..] == a[1..] + b;
      BackwardsAppend(a[1..], b);
    }
  }

  lemma BackwardsOne<T>(x: T)
    ensures Backwards([x]) == [x]
  {
    assert [x][1..] == [];
  }

  function ReversedNode(n: Node): Node
    decreases n, 0
  {
    match n
    case Directory(sub) => Directory(Reversed(sub))
    case _ => n
  }

  function Reversed(es: seq<DirEntry>): (r: seq<DirEntry>)
    ensures |r| == |es|
    decreases es, 1
  {
    if es == [] then [] else Reversed(es[1..]) + [DirEntry(es[0].name, ReversedNode(es[0].node))]
  }

  lemma {:induction false} ReversedAt(es: seq<DirEntry>, k: nat)
    requires k < |es|
    ensures var e := es[|es| - 1 - k]; Reversed(es)[k] == DirEntry(e.name, ReversedNode(e.node))
  {
    if k < |es| - 1 {
      ReversedAt(es[1..], k);
    }
  }

  lemma {:induction false} ReversedWellNamed(es: seq<DirEntry>)
    requires WellNamed(es)
    ensures WellNamed(Reversed(es))
    decreases es
  {
    var r := Reversed(es);
    forall k | 0 <= k < |es|
      ensures r[k].name == es[|es| - 1 - k].name && NameOk(r[k].name)
      ensures r[k].node.Directory? ==> WellNamed(r[k].node.entries)
    {
      ReversedAt(es, k);
      var e := es[|es| - 1 - k];
      if e.node.Directory? {
        ReversedWellNamed(e.node.entries);
      }
    }
    hide Reversed, NameOk;
    forall i, j | 0 <= i < j < |r|
      ensures r[i].name != r[j].name
    {
      var p, q := es[|es| - 1 - j].name, es[|es| - 1 - i].name;
    }
  }

  lemma {:induction false} VisitedAppend(a: seq<DirEntry>, b: seq<DirEntry>, dir: Path)
    requires Visited(a, dir).Ok? && Visited(b, dir).Ok?
    ensures Visited(a + b, dir) == Ok(Visited(a, dir).value + Visited(b, dir).value)
    decreases |a|
  {
    var after := Visited(b, dir).value;
    if a == [] {
      assert a + b == b && [] + after == after;
    } else {
      var path, rest := dir + [a[0].name], Visited(a[1..], dir).value;
      assert (a + b)[1..] == a[1..] + b && (a + b)[0] == a[0];
      VisitedAppend(a[1..], b, dir);
      match a[0].node {
        case Directory(sub) =>
          var inner := Visited(sub, path).value;
          assert inner + (rest + after) == inner + rest + after;
        case File(bytes) =>
          assert [Stored(path, bytes)] + (rest + after) == [Stored(path, bytes)] + rest + after;
        case _ =>
      }
    }
  }

  lemma VisitedOne(e: DirEntry, dir: Path)
    ensures Visited([e], dir) ==
            match e.node
            case Link(_) => Err(SymbolicLinkForbidden(dir + [e.name]))
            case Special(_) => Err(UnsupportedEntry(dir + [e.name]))
            case Directory(sub) => Visited(sub, dir + [e.name])
            case File(bytes) => Ok([Stored(dir + [e.name], bytes)])
  {
    VisitedEnds([], dir, []);
    assert [e][1..] == [];
    assert e.node.File? ==> [Stored(dir + [e.name], e.node.bytes)] + [] == [Stored(dir + [e.name], e.node.bytes)];
    if e.node.Directory? && Visited(e.node.entries, dir + [e.name]).Ok? {
      var inner := Visited(e.node.entries, dir + [e.name]).value;
      assert inner + [] == inner;
    }
  }

  /** Listed backwards at every level, the files come out backwards. */
  lemma {:induction false} ReversedVisited(es: seq<DirEntry>, dir: Path)
    requires Visited(es, dir).Ok?
    ensures Visited(Reversed(es), dir) == Ok(Backwards(Visited(es, dir).value))
    decreases es
  {
    if es == [] {
    } else {
      var e, rest := es[0], es[1..];
      var last := DirEntry(e.name, ReversedNode(e.node));
      assert es == [e] + rest;
      ReversedVisited(rest, dir);
      VisitedOne(e, dir);
      VisitedOne(last, dir);
      if e.node.Directory? {
        ReversedVisited(e.node.entries, dir + [e.name]);
      }
      if e.node.File? {
        BackwardsOne(Stored(dir + [e.name], e.node.bytes));
      }
      assert Visited([last], dir) == Ok(Backwards(Visited([e], dir).value));
      VisitedAppend([e], rest, dir);
      VisitedAppend(Reversed(rest), [last], dir);
      BackwardsAppend(Visited([e], dir).value, Visited(rest, dir).value);
    }
  }

  lemma ReversedSameFiles(root: seq<DirEntry>)
    requires WellNamed(root) && Plain(root)
    ensures WellNamed(Reversed(root)) && Plain(Reversed(root)) && SameFiles(root, Reversed(root))
  {
    hide WellNamed, FileAt, Visited, Reversed;
    var r := Reversed(root);
    ReversedWellNamed(root);
    ReversedVisited(root, []);
    var x, y := Visited(root, []).value, Visited(r, []).value;
    SameElements(x, y);
    forall path
      ensures FileAt(root, path) == FileAt(r, path)
    {
      if FileAt(root, path).Some? {
        var f := Stored(path, FileAt(root, path).value);
        VisitedIn(root, f);
        VisitedIn(r, f);
      }
      if FileAt(r, path).Some? {
        var f := Stored(path, FileAt(r, path).value);
        VisitedIn(root, f);
        VisitedIn(r, f);
      }
    }
  }

  lemma {:induction false} BackwardsBefore<T(!new)>(s: seq<T>, x: T, y: T)
    requires Before(s, x, y)
    ensures Before(Backwards(s), y, x)
  {
    var p, q :| 0 <= p < q < |s| && s[p] == x && s[q] == y;
    var n := |s|;
    BackwardsAt(s, n - 1 - q);
    BackwardsAt(s, n - 1 - p);
    assert Backwards(s)[n - 1 - q] == y && Backwards(s)[n - 1 - p] == x;
  }

  lemma {:induction false} BackwardsAt<T>(s: seq<T>, k: nat)
    requires k < |s|
    ensures Backwards(s)[k] == s[|s| - 1 - k]
  {
    if k < |s| - 1 {
      BackwardsAt(s[1..], k);
    }
  }

  lemma {:induction false} ListedBefore(s: seq<Stored>, f: Stored, g: Stored)
    requires Before(s, f, g) && f.path != [MANIFEST] && g.path != [MANIFEST]
    ensures Before(Listed(s), f, g)
  {
    hide Before;
    BeforeNonEmpty(s, f, g);
    assert s == [s[0]] + s[1..];
    BeforeCons(s[0], s[1..], f, g);
    if Before(s[1..], f, g) {
      ListedBefore(s[1..], f, g);
    }
    ListedExactly(s[1..], g);
    BeforeCons(s[0], Listed(s[1..]), f, g);
  }

  // ---- Leaving the manifest out commutes with sorting ----

  lemma {:induction false} ListedInsert(f: Stored, s: seq<Stored>, le: (Stored, Stored) -> bool)
    requires TotalPreorder(le) && Sorted(s, le)
    ensures Listed(Insert(f, s, le)) == if f.path == [MANIFEST] then Listed(s) else Insert(f, Listed(s), le)
  {
    if s == [] {
    } else if le(f, s[0]) {
      assert ([f] + s)[1..] == s;
      forall i | 0 <= i < |s|
        ensures le(f, s[i])
      {
        assert i > 0 ==> le(s[0], s[i]);
      }
      if Listed(s) != [] {
        ListedExactly(s, Listed(s)[0]);
        assert Listed(s)[0] in s;
      }
    } else {
      ListedInsert(f, s[1..], le);
      var rest := Insert(f, s[1..], le);
      assert ([s[0]] + rest)[1..] == rest;
      assert ([s[0]] + Listed(s[1..]))[1..] == Listed(s[1..]);
    }
  }

  lemma {:induction false} ListedSort(s: seq<Stored>, le: (Stored, Stored) -> bool)
    requires TotalPreorder(le)
    ensures Listed(Sort(s, le)) == Sort(Listed(s), le)
  {
    hide TotalPreorder, Insert;
    if s == [] {
    } else {
      ListedSort(s[1..], le);
      SortSorts(s[1..], le);
      ListedInsert(s[0], Sort(s[1..], le), le);
      assert s[0].path != [MANIFEST] ==> ([s[0]] + Listed(s[1..]))[1..] == Listed(s[1..]);
    }
  }

  lemma {:induction false} ListedCount(s: seq<Stored>, f: Stored)
    ensures multiset(Listed(s))[f] == if f.path == [MANIFEST] then 0 else multiset(s)[f]
  {
    if s == [] {
    } else {
      ListedCount(s[1..], f);
      assert s == [s[0]] + s[1..];
    }
  }

  // ---- The exact condition ----

  ghost predicate Tied(le: Compare, p: Path, q: Path) {
    le(PathText(p), PathText(q)) && le(PathText(q), PathText(p))
  }

  /** No two files other than the manifest have paths that compare as equal. */
  ghost predicate NoTiedAssets(root: seq<DirEntry>, le: Compare) {
    forall p, q |
      && FileAt(root, p).Some? && FileAt(root, q).Some?
      && p != [MANIFEST] && q != [MANIFEST]
      && Tied(le, p, q) :: p == q
  }

  lemma NoTiesSameListing(a: seq<DirEntry>, b: seq<DirEntry>, le: Compare)
    requires WellNamed(a) && WellNamed(b) && Plain(a) && Plain(b) && SameFiles(a, b)
    requires TotalPreorder(le) && NoTiedAssets(a, le)
    ensures Listed(RegularFiles(a, le).value) == Listed(RegularFiles(b, le).value)
  {
    var x, y := Visited(a, []).value, Visited(b, []).value;
    NoTiesListed(a, le);
    hide WellNamed, FileAt, Visited, NoTiedAssets, TotalPreorder, Listed, Sort, TieFree;
    SameFilesSameElements(a, b);
    ByPathTotal(le);
    ListedSort(x, ByPath(le));
    ListedSort(y, ByPath(le));
    forall f: Stored
      ensures multiset(Listed(x))[f] == multiset(Listed(y))[f]
    {
      ListedCount(x, f);
      ListedCount(y, f);
    }
    SortForgetsOrder(Listed(x), Listed(y), ByPath(le));
  }

  lemma NoTiesListed(root: seq<DirEntry>, le: Compare)
    requires WellNamed(root) && Plain(root) && NoTiedAssets(root, le)
    ensures TieFree(Listed(Visited(root, []).value), ByPath(le))
  {
    hide WellNamed, FileAt, Visited, PathText, Listed;
    var fs := Visited(root, []).value;
    forall f, g | f in Listed(fs) && g in Listed(fs) && ByPath(le)(f, g) && ByPath(le)(g, f)
      ensures f == g
    {
      ListedExactly(fs, f);
      ListedExactly(fs, g);
      VisitedIn(root, f);
      VisitedIn(root, g);
      assert Tied(le, f.path, g.path);
    }
  }

  /** Two files tied: listed backwards, the same tree gives another inventory. */
  lemma TiedListing(root: seq<DirEntry>, le: Compare, p: Path, q: Path)
    requires WellNamed(root) && Plain(root) && FileAt(root, p).Some? && FileAt(root, q).Some?
    requires p != q && p != [MANIFEST] && q != [MANIFEST] && Tied(le, p, q)
    ensures Plain(Reversed(root))
    ensures Listed(RegularFiles(root, le).value) != Listed(RegularFiles(Reversed(root), le).value)
  {
    var f, g := Stored(p, FileAt(root, p).value), Stored(q, FileAt(root, q).value);
    hide WellNamed, FileAt, Visited, Listed, Sort, PathText, Reversed, Backwards, DistinctPaths;
    ReversedVisited(root, []);
    VisitedIn(root, f);
    VisitedIn(root, g);
    VisitedDistinct(root, []);
    TiedSorts(Visited(root, []).value, ByPath(le), f, g);
  }

  lemma TiedSorts(fs: seq<Stored>, order: (Stored, Stored) -> bool, f: Stored, g: Stored)
    requires DistinctPaths(fs) && f in fs && g in fs && f != g && order(f, g) && order(g, f)
    requires f.path != [MANIFEST] && g.path != [MANIFEST]
    ensures Listed(Sort(fs, order)) != Listed(Sort(Backwards(fs), order))
  {
    hide Listed, Sort, Before, Backwards, DistinctPaths;
    DistinctListing(fs, order);
    OneOrder(Listed(Sort(fs, order)), f, g);
    EitherBefore(fs, f, g);
    if Before(fs, f, g) {
      ReversedListing(fs, order, f, g);
    } else {
      ReversedListing(fs, order, g, f);
    }
  }

  lemma ReversedListing(fs: seq<Stored>, order: (Stored, Stored) -> bool, f: Stored, g: Stored)
    requires Before(fs, f, g) && order(f, g) && order(g, f) && f.path != [MANIFEST] && g.path != [MANIFEST]
    ensures Before(Listed(Sort(fs, order)), f, g) && Before(Listed(Sort(Backwards(fs), order)), g, f)
  {
    hide Before, Listed, Sort, Backwards;
    SortStable(fs, order, f, g);
    BackwardsBefore(fs, f, g);
    SortStable(Backwards(fs), order, g, f);
    ListedBefore(Sort(fs, order), f, g);
    ListedBefore(Sort(Backwards(fs), order), g, f);
  }

  lemma DistinctListing(fs: seq<Stored>, order: (Stored, Stored) -> bool)
    requires DistinctPaths(fs)
    ensures forall i, j | 0 <= i < j < |Listed(Sort(fs, order))| ::
              Listed(Sort(fs, order))[i] != Listed(Sort(fs, order))[j]
  {
    hide Listed, Sort, DistinctPaths;
    DistinctStored(fs);
    var listed := Listed(Sort(fs, order));
    forall i, j | 0 <= i < j < |listed|
      ensures listed[i] != listed[j]
    {
      NoDuplicatesCount(fs, listed[i]);
      ListedCount(Sort(fs, order), listed[i]);
      if listed[i] == listed[j] {
        CountedTwice(listed, i, j);
      }
    }
  }

  /**
   A directory that passes keeps passing however the file system lists it if and only if no two of its
   assets have paths that the locale compares as equal.
   */
  lemma PassesInAnyOrderExactly(a: seq<DirEntry>, evidence: Attestation, w: World)
    requires WellNamed(a) && CollisionFree(w.hash) && TotalPreorder(w.le) && Passes(a, evidence, w)
    ensures NoTiedAssets(a, w.le) <==>
            forall b | WellNamed(b) && Plain(b) && SameFiles(a, b) :: Passes(b, evidence, w)
  {
    assert Plain(a);
    if NoTiedAssets(a, w.le) {
      forall b | WellNamed(b) && Plain(b) && SameFiles(a, b)
        ensures Passes(b, evidence, w)
      {
        NoTiesSameListing(a, b, w.le);
        SameListingPasses(a, b, evidence, w);
      }
    } else {
      hide WellNamed, FileAt, CollisionFree, Passes, TotalPreorder;
      var p, q :|
        && FileAt(a, p).Some? && FileAt(a, q).Some?
        && p != [MANIFEST] && q != [MANIFEST]
        && Tied(w.le, p, q) && p != q;
      ReversalFails(a, evidence, w, p, q);
    }
  }

  /** With two tied assets the check refuses the very same files, listed backwards. */
  lemma ReversalFails(a: seq<DirEntry>, evidence: Attestation, w: World, p: Path, q: Path)
    requires WellNamed(a) && CollisionFree(w.hash) && Passes(a, evidence, w)
    requires FileAt(a, p).Some? && FileAt(a, q).Some?
    requires p != q && p != [MANIFEST] && q != [MANIFEST] && Tied(w.le, p, q)
    ensures WellNamed(Reversed(a)) && Plain(Reversed(a)) && SameFiles(a, Reversed(a))
    ensures !Passes(Reversed(a), evidence, w)
  {
    assert Plain(a);
    hide WellNamed, FileAt, Visited, CollisionFree, Listed, Passes, RegularFiles, SameFiles;
    ReversedSameFiles(a);
    TiedListing(a, w.le, p, q);
    if Passes(Reversed(a), evidence, w) {
      PassesSameListing(a, Reversed(a), evidence, w, w);
    }
  }

  lemma SameListingPasses(a: seq<DirEntry>, b: seq<DirEntry>, evidence: Attestation, w: World)
    requires Passes(a, evidence, w) && Plain(b) && SameFiles(a, b)
    requires Plain(a) && Listed(RegularFiles(a, w.le).value) == Listed(RegularFiles(b, w.le).value)
    ensures Passes(b, evidence, w)
  {
    hide ReadRoot, FileAt, Visited, Sort, Listed, CheckManifest, CheckHeaders, CheckFiles;
    ReadsFile(a, MANIFEST);
    ReadsFile(b, MANIFEST);
    ReadsFile(a, HEADERS);
    ReadsFile(b, HEADERS);
    assert FileAt(a, [MANIFEST]) == FileAt(b, [MANIFEST]) && FileAt(a, [HEADERS]) == FileAt(b, [HEADERS]);
  }

  /**
   Given one directory that passes and has no tied assets, another passes against the same attestation
   exactly when it holds the same files with the same bytes and nothing that is neither file nor directory.
   */
  lemma PassesExactly(a: seq<DirEntry>, b: seq<DirEntry>, evidence: Attestation, w: World)
    requires WellNamed(a) && WellNamed(b) && CollisionFree(w.hash) && TotalPreorder(w.le)
    requires Passes(a, evidence, w) && NoTiedAssets(a, w.le)
    ensures Passes(b, evidence, w) <==> Plain(b) && SameFiles(a, b)
  {
    if Passes(b, evidence, w) {
      hide WellNamed, CollisionFree, Passes, Plain, SameFiles;
      AttestationPins(a, b, evidence, w, w);
    } else if Plain(b) && SameFiles(a, b) {
      PassesInAnyOrderExactly(a, evidence, w);
    }
  }
}
