/**
 The canonical printer.  Keys are compared by `localeCompare`, known here only as a comparison that is
 total and transitive: it may hold different keys equal, as it must for canonically equivalent ones
 (section 22.1.3.12 of ECMA-262).
 */
module CanonicalJson {
  import opened Orders
  import opened JsonText

  datatype Printed = Printed(key: Units, text: Units)

  function PrintedBy(le: Compare): (Printed, Printed) -> bool {
    (a: Printed, b: Printed) => le(a.key, b.key)
  }

  function TextOf(): Printed -> Units {
    (p: Printed) => p.text
  }

  /** The canonical text: entries sorted by key, and printed with their values in canonical form. */
  function Print(v: Json, le: Compare): Units
    decreases v, 1
  {
    match v
    case Array(items) => [LBRACKET] + Join(PrintItems(items, le)) + [RBRACKET]
    case Object(es) => [LBRACE] + Join(Map(Sort(PrintEntries(es, le), PrintedBy(le)), TextOf())) + [RBRACE]
    case _ => Show(v)
  }

  function PrintItems(items: seq<Json>, le: Compare): (ts: seq<Units>)
    ensures |ts| == |items|
    decreases items, 0
  {
    if items == [] then [] else [Print(items[0], le)] + PrintItems(items[1..], le)
  }

  function PrintEntries(es: seq<Entry>, le: Compare): (ps: seq<Printed>)
    ensures |ps| == |es|
    decreases es, 0
  {
    if es == [] then
      []
    else
      var e := es[0];
      [Printed(e.key, Quote(e.key) + [COLON] + Print(e.value, le))] + PrintEntries(es[1..], le)
  }

  // ---- The canonical form behind the text ----

  function EntryBy(le: Compare): (Entry, Entry) -> bool {
    (a: Entry, b: Entry) => le(a.key, b.key)
  }

  function Canon(v: Json, le: Compare): Json
    decreases v, 1
  {
    match v
    case Array(items) => Array(CanonItems(items, le))
    case Object(es) => Object(Sort(CanonEntries(es, le), EntryBy(le)))
    case _ => v
  }

  function CanonItems(items: seq<Json>, le: Compare): (r: seq<Json>)
    ensures |r| == |items| && forall i | 0 <= i < |items| :: r[i] == Canon(items[i], le)
    decreases items, 0
  {
    if items == [] then [] else [Canon(items[0], le)] + CanonItems(items[1..], le)
  }

  function CanonEntries(es: seq<Entry>, le: Compare): (r: seq<Entry>)
    ensures |r| == |es| && forall i | 0 <= i < |es| :: r[i] == Entry(es[i].key, Canon(es[i].value, le))
    decreases es, 0
  {
    if es == [] then [] else [Entry(es[0].key, Canon(es[0].value, le))] + CanonEntries(es[1..], le)
  }

  function Render(): Entry -> Printed {
    (e: Entry) => Printed(e.key, ShowEntry(e))
  }

  /** The printer writes out the canonical form. */
  lemma {:induction false} PrintShowsCanon(v: Json, le: Compare)
    ensures Print(v, le) == Show(Canon(v, le))
    decreases v, 1
  {
    match v {
      case Array(items) => PrintItemsShow(items, le);
      case Object(es) =>
        var canon := CanonEntries(es, le);
        PrintEntriesShow(es, le);
        SortMap(canon, Render(), EntryBy(le), PrintedBy(le));
        TextsShown(Sort(canon, EntryBy(le)));
      case _ =>
    }
  }

  lemma {:induction false} PrintItemsShow(items: seq<Json>, le: Compare)
    ensures PrintItems(items, le) == ShowItems(CanonItems(items, le))
    decreases items, 0
  {
    if items == [] {
    } else {
      PrintShowsCanon(items[0], le);
      PrintItemsShow(items[1..], le);
      assert CanonItems(items, le)[1..] == CanonItems(items[1..], le);
    }
  }

  lemma {:induction false} PrintEntriesShow(es: seq<Entry>, le: Compare)
    ensures PrintEntries(es, le) == Map(CanonEntries(es, le), Render())
    decreases es, 0
  {
    if es == [] {
    } else {
      PrintShowsCanon(es[0].value, le);
      PrintEntriesShow(es[1..], le);
      assert CanonEntries(es, le) == [Entry(es[0].key, Canon(es[0].value, le))] + CanonEntries(es[1..], le);
      MapAppend([Entry(es[0].key, Canon(es[0].value, le))], CanonEntries(es[1..], le), Render());
    }
  }

  lemma {:induction false} TextsShown(es: seq<Entry>)
    ensures Map(Map(es, Render()), TextOf()) == ShowEntries(es)
  {
    if es == [] {
    } else {
      TextsShown(es[1..]);
      assert Map(Map(es, Render()), TextOf())[1..] == Map(Map(es[1..], Render()), TextOf());
    }
  }

  // ---- Equality up to the order of keys ----

  /** Equal but for the order of object entries, at every depth. */
  ghost predicate Equiv(v: Json, w: Json)
    decreases v
  {
    match v
    case Array(xs) =>
      w.Array? && |xs| == |w.items| && forall i | 0 <= i < |xs| :: Equiv(xs[i], w.items[i])
    case Object(es) => w.Object? && Paired(es, w.entries)
    case _ => v == w
  }

  /** Each of `es` has a fellow in `fs`, and the other way round. */
  ghost predicate Paired(es: seq<Entry>, fs: seq<Entry>)
    decreases es, 1
  {
    && (forall e | e in es :: FellowIn(e, fs))
    && (forall f | f in fs :: FellowOf(es, f))
  }

  ghost predicate FellowIn(e: Entry, fs: seq<Entry>)
    decreases e, 1
  {
    exists f | f in fs :: Same(e, f)
  }

  ghost predicate FellowOf(es: seq<Entry>, f: Entry)
    decreases es, 0
  {
    exists e | e in es :: Same(e, f)
  }

  ghost predicate Same(e: Entry, f: Entry)
    decreases e, 0
  {
    e.key == f.key && Equiv(e.value, f.value)
  }

  ghost predicate DistinctKeys(es: seq<Entry>) {
    forall i, j | 0 <= i < j < |es| :: es[i].key != es[j].key
  }

  /** No object has two keys that compare equal, at any depth. */
  ghost predicate TieFreeKeys(v: Json, le: Compare) {
    match v
    case Array(xs) => forall i | 0 <= i < |xs| :: TieFreeKeys(xs[i], le)
    case Object(es) =>
      && (forall i | 0 <= i < |es| :: TieFreeKeys(es[i].value, le))
      && (forall i, j | 0 <= i < j < |es| :: !(le(es[i].key, es[j].key) && le(es[j].key, es[i].key)))
    case _ => true
  }

  lemma {:induction false} EquivReflexive(v: Json)
    ensures Equiv(v, v)
    decreases v
  {
    match v {
      case Array(xs) =>
        forall i | 0 <= i < |xs|
          ensures Equiv(xs[i], xs[i])
        {
          EquivReflexive(xs[i]);
        }
      case Object(es) =>
        forall e | e in es
          ensures Same(e, e)
        {
          EquivReflexive(e.value);
        }
      case _ =>
    }
  }

  lemma EntryByTotal(le: Compare)
    requires TotalPreorder(le)
    ensures TotalPreorder(EntryBy(le))
  {
    var order := EntryBy(le);
    forall x, y
      ensures order(x, y) || order(y, x)
    {
      assert le(x.key, y.key) || le(y.key, x.key);
    }
    forall x, y, z | order(x, y) && order(y, z)
      ensures order(x, z)
    {
      assert le(x.key, y.key) && le(y.key, z.key);
    }
  }

  lemma {:induction false} CanonWellFormed(v: Json, le: Compare)
    requires WellFormed(v)
    ensures WellFormed(Canon(v, le))
    decreases v
  {
    match v {
      case Array(xs) =>
        forall i | 0 <= i < |xs|
          ensures WellFormed(Canon(xs[i], le))
        {
          CanonWellFormed(xs[i], le);
        }
      case Object(es) =>
        forall i | 0 <= i < |es|
          ensures WellFormed(Canon(es[i].value, le))
        {
          CanonWellFormed(es[i].value, le);
        }
        SortedEntriesWellFormed(CanonEntries(es, le), EntryBy(le));
      case _ =>
    }
  }

  lemma SortedEntriesWellFormed(es: seq<Entry>, order: (Entry, Entry) -> bool)
    requires DistinctKeys(es)
    requires forall i | 0 <= i < |es| :: WellFormed(es[i].value)
    ensures WellFormed(Object(Sort(es, order)))
  {
    hide Sort;
    var fs := Sort(es, order);
    SameElements(es, fs);
    ArrangedDistinct(es, fs);
    forall j | 0 <= j < |fs|
      ensures WellFormed(fs[j].value)
    {
      assert fs[j] in es;
    }
  }

  /** Rearranging entries keeps their keys distinct. */
  lemma ArrangedDistinct(es: seq<Entry>, fs: seq<Entry>)
    requires DistinctKeys(es) && multiset(es) == multiset(fs)
    ensures DistinctKeys(fs)
  {
    SameElements(es, fs);
    forall i, j | 0 <= i < j < |fs|
      ensures fs[i].key != fs[j].key
    {
      if fs[i].key == fs[j].key {
        assert fs[i] in es && fs[j] in es;
        assert fs[i] == fs[j];
        NoDuplicatesCount(es, fs[i]);
        CountedTwice(fs, i, j);
      }
    }
  }

  lemma EqualImagesPaired<T>(es: seq<Entry>, fs: seq<Entry>, x: seq<T>, y: seq<T>)
    requires |x| == |es| && |y| == |fs|
    requires forall e :: e in x <==> e in y
    requires forall i, j | 0 <= i < |es| && 0 <= j < |fs| && x[i] == y[j] :: Same(es[i], fs[j])
    ensures Paired(es, fs)
  {
    hide Same;
    forall e | e in es
      ensures FellowIn(e, fs)
    {
      var i :| 0 <= i < |es| && es[i] == e;
      assert x[i] in y;
      var j :| 0 <= j < |y| && y[j] == x[i];
      assert Same(es[i], fs[j]);
    }
    forall f | f in fs
      ensures FellowOf(es, f)
    {
      var j :| 0 <= j < |fs| && fs[j] == f;
      assert y[j] in x;
      var i :| 0 <= i < |x| && x[i] == y[j];
      assert Same(es[i], fs[j]);
    }
  }

  lemma TakeFellow(es: seq<Entry>, fs: seq<Entry>, e: Entry) returns (f: Entry)
    requires Paired(es, fs) && e in es
    ensures f in fs && Same(e, f)
  {
    hide Same, FellowOf;
    assert FellowIn(e, fs);
    f :| f in fs && Same(e, f);
  }

  lemma TakeFellowOf(es: seq<Entry>, fs: seq<Entry>, f: Entry) returns (e: Entry)
    requires Paired(es, fs) && f in fs
    ensures e in es && Same(e, f)
  {
    hide Same, FellowIn;
    assert FellowOf(es, f);
    e :| e in es && Same(e, f);
  }

  lemma PairedEqualImages(es: seq<Entry>, fs: seq<Entry>, x: seq<Entry>, y: seq<Entry>)
    requires |x| == |es| && |y| == |fs| && Paired(es, fs)
    requires forall i, j | 0 <= i < |es| && 0 <= j < |fs| && Same(es[i], fs[j]) :: x[i] == y[j]
    ensures forall e :: e in x <==> e in y
  {
    hide Same, Paired;
    forall e
      ensures e in x <==> e in y
    {
      if e in x {
        var i :| 0 <= i < |x| && x[i] == e;
        var f := TakeFellow(es, fs, es[i]);
        var j :| 0 <= j < |fs| && fs[j] == f;
        assert y[j] == e;
      }
      if e in y {
        var j :| 0 <= j < |y| && y[j] == e;
        var d := TakeFellowOf(es, fs, fs[j]);
        var i :| 0 <= i < |es| && es[i] == d;
        assert x[i] == e;
      }
    }
  }

  /** Values with the same canonical form differ in the order of keys only. */
  lemma {:induction false} SameCanonEquiv(v: Json, w: Json, le: Compare)
    requires Canon(v, le) == Canon(w, le)
    ensures Equiv(v, w)
    decreases v
  {
    hide Same, Paired;
    match v {
      case Array(xs) =>
        var ys := w.items;
        assert CanonItems(xs, le) == CanonItems(ys, le);
        forall i | 0 <= i < |xs|
          ensures Equiv(xs[i], ys[i])
        {
          assert CanonItems(xs, le)[i] == CanonItems(ys, le)[i];
          SameCanonEquiv(xs[i], ys[i], le);
        }
      case Object(es) => SameCanonPaired(es, w.entries, le);
      case _ =>
    }
  }

  lemma {:induction false} SameCanonPaired(es: seq<Entry>, fs: seq<Entry>, le: Compare)
    requires Sort(CanonEntries(es, le), EntryBy(le)) == Sort(CanonEntries(fs, le), EntryBy(le))
    ensures Paired(es, fs)
    decreases es
  {
    hide Same, Paired, Sort;
    var x, y := CanonEntries(es, le), CanonEntries(fs, le);
    SameElements(x, Sort(x, EntryBy(le)));
    SameElements(y, Sort(y, EntryBy(le)));
    forall i, j | 0 <= i < |es| && 0 <= j < |fs| && x[i] == y[j]
      ensures Same(es[i], fs[j])
    {
      SameCanonEntry(es[i], fs[j], le);
    }
    EqualImagesPaired(es, fs, x, y);
  }

  lemma {:induction false} SameCanonEntry(e: Entry, f: Entry, le: Compare)
    requires e.key == f.key && Canon(e.value, le) == Canon(f.value, le)
    ensures Same(e, f)
    decreases e
  {
    SameCanonEquiv(e.value, f.value, le);
  }

  /** Without ties, values that differ in the order of keys only have the same canonical form. */
  lemma {:induction false} EquivSameCanon(v: Json, w: Json, le: Compare)
    requires TotalPreorder(le) && WellFormed(v) && WellFormed(w)
    requires Equiv(v, w) && TieFreeKeys(v, le)
    ensures Canon(v, le) == Canon(w, le)
    decreases v
  {
    hide TotalPreorder, Same, Paired, Sort;
    match v {
      case Array(xs) =>
        forall i | 0 <= i < |xs|
          ensures Canon(xs[i], le) == Canon(w.items[i], le)
        {
          EquivSameCanon(xs[i], w.items[i], le);
        }
        assert CanonItems(xs, le) == CanonItems(w.items, le);
      case Object(es) => PairedSameCanon(es, w.entries, le);
      case _ =>
    }
  }

  lemma {:induction false} PairedSameCanon(es: seq<Entry>, fs: seq<Entry>, le: Compare)
    requires TotalPreorder(le) && WellFormed(Object(es)) && WellFormed(Object(fs))
    requires Paired(es, fs) && TieFreeKeys(Object(es), le)
    ensures Sort(CanonEntries(es, le), EntryBy(le)) == Sort(CanonEntries(fs, le), EntryBy(le))
    decreases es
  {
    hide TotalPreorder, Same, Paired, Sort;
    var x, y := CanonEntries(es, le), CanonEntries(fs, le);
    forall i, j | 0 <= i < |es| && 0 <= j < |fs| && Same(es[i], fs[j])
      ensures x[i] == y[j]
    {
      SameEntryCanon(es[i], fs[j], le);
    }
    SameArrangement(es, fs, x, y, le);
  }

  lemma {:induction false} SameEntryCanon(e: Entry, f: Entry, le: Compare)
    requires TotalPreorder(le) && WellFormed(e.value) && WellFormed(f.value)
    requires Same(e, f) && TieFreeKeys(e.value, le)
    ensures e.key == f.key && Canon(e.value, le) == Canon(f.value, le)
    decreases e
  {
    EquivSameCanon(e.value, f.value, le);
  }

  lemma SameArrangement(es: seq<Entry>, fs: seq<Entry>, x: seq<Entry>, y: seq<Entry>, le: Compare)
    requires TotalPreorder(le) && Paired(es, fs) && DistinctKeys(es) && DistinctKeys(fs)
    requires |x| == |es| && (forall i | 0 <= i < |es| :: x[i].key == es[i].key)
    requires |y| == |fs| && (forall i | 0 <= i < |fs| :: y[i].key == fs[i].key)
    requires forall i, j | 0 <= i < |es| && 0 <= j < |fs| && Same(es[i], fs[j]) :: x[i] == y[j]
    requires forall i, j | 0 <= i < j < |es| :: !(le(es[i].key, es[j].key) && le(es[j].key, es[i].key))
    ensures Sort(x, EntryBy(le)) == Sort(y, EntryBy(le))
  {
    hide TotalPreorder, Same;
    PairedEqualImages(es, fs, x, y);
    SameSetSameMultiset(x, y);
    TieFreeEntries(es, x, le);
    EntryByTotal(le);
    SortForgetsOrder(x, y, EntryBy(le));
  }

  lemma TieFreeEntries(es: seq<Entry>, x: seq<Entry>, le: Compare)
    requires |x| == |es| && forall i | 0 <= i < |es| :: x[i].key == es[i].key
    requires forall i, j | 0 <= i < j < |es| :: !(le(es[i].key, es[j].key) && le(es[j].key, es[i].key))
    ensures TieFree(x, EntryBy(le))
  {
    forall a, b | a in x && b in x && EntryBy(le)(a, b) && EntryBy(le)(b, a)
      ensures a == b
    {
      var i :| 0 <= i < |x| && x[i] == a;
      var j :| 0 <= j < |x| && x[j] == b;
      var p, q := es[i].key, es[j].key;
    }
  }

  /** Two texts are equal exactly when the canonical forms are. */
  lemma PrintEqualsCanon(v: Json, w: Json, le: Compare)
    requires WellFormed(v) && WellFormed(w)
    ensures Print(v, le) == Print(w, le) <==> Canon(v, le) == Canon(w, le)
  {
    PrintShowsCanon(v, le);
    PrintShowsCanon(w, le);
    CanonWellFormed(v, le);
    CanonWellFormed(w, le);
    ShowInjective(Canon(v, le), Canon(w, le));
  }

  /**
   The printer is canonical: values with the same text are equal up to the order of keys, always; and the
   other way round whenever no two keys of one object compare equal.
   */
  lemma PrinterIsCanonical(v: Json, w: Json, le: Compare)
    requires TotalPreorder(le) && WellFormed(v) && WellFormed(w)
    ensures Print(v, le) == Print(w, le) ==> Equiv(v, w)
    ensures TieFreeKeys(v, le) ==> (Print(v, le) == Print(w, le) <==> Equiv(v, w))
  {
    PrintEqualsCanon(v, w, le);
    if Canon(v, le) == Canon(w, le) {
      SameCanonEquiv(v, w, le);
    }
    if Equiv(v, w) && TieFreeKeys(v, le) {
      EquivSameCanon(v, w, le);
    }
  }
}
