/**
 When the canonical text of a parsed value does not depend on the order of keys: exactly when no two keys of
 one object compare equal of which neither is an array index.  The sort is stable, so keys that tie keep the
 order in which the object lists them.
 */
module KeyTies {
  import opened Orders
  import opened StableSorts
  import opened JsonText
  import opened CanonicalJson
  import opened ObjectKeys

  // ---- A tie that shows ----

  /** Exchanges two entries. */
  function Exchange(es: seq<Entry>, i: nat, j: nat): (fs: seq<Entry>)
    requires i < j < |es|
    ensures |fs| == |es|
  {
    es[i := es[j]][j := es[i]]
  }

  lemma ExchangeArranges(es: seq<Entry>, i: nat, j: nat)
    requires i < j < |es|
    ensures multiset(Exchange(es, i, j)) == multiset(es)
  {
    var a, b, c := es[..i], es[i + 1..j], es[j + 1..];
    assert es == a + [es[i]] + b + [es[j]] + c;
    assert Exchange(es, i, j) == a + [es[j]] + b + [es[i]] + c;
  }

  lemma ExchangeInOrder(es: seq<Entry>, i: nat, j: nat)
    requires i < j < |es| && InOrder(es) && !IsIndex(es[i].key) && !IsIndex(es[j].key)
    ensures InOrder(Exchange(es, i, j))
  {
    hide IsIndex, Value;
    var fs := Exchange(es, i, j);
    forall a, b | 0 <= a < b < |fs|
      ensures MayPrecede(fs[a].key, fs[b].key)
    {
      assert MayPrecede(es[a].key, es[b].key);
    }
  }

  /** Two entries that tie, exchanged: the sort gives another list. */
  lemma ExchangeShows(es: seq<Entry>, i: nat, j: nat, le: Compare)
    requires i < j < |es| && DistinctKeys(es) && ObjectKeys.Tied(le, es[i].key, es[j].key)
    ensures Canon(Object(Exchange(es, i, j)), le) != Canon(Object(es), le)
  {
    var fs := Exchange(es, i, j);
    CanonSorts(es, le);
    CanonSorts(fs, le);
    hide Canon, Exchange;
    var x, y := CanonEntries(es, le), CanonEntries(fs, le);
    DistinctEntries(es, x);
    ExchangedPlaces(x, y, i, j);
    OrderShows(x, y, EntryBy(le), x[i], x[j]);
  }

  lemma ExchangedPlaces(x: seq<Entry>, y: seq<Entry>, i: nat, j: nat)
    requires i < j < |x| == |y| && x[i] == y[j] && x[j] == y[i]
    ensures Before(x, x[i], x[j]) && Before(y, x[j], x[i])
  {
  }

  lemma CanonSorts(es: seq<Entry>, le: Compare)
    ensures Canon(Object(es), le) == Object(Sort(CanonEntries(es, le), EntryBy(le)))
  {
  }

  lemma DistinctEntries(es: seq<Entry>, x: seq<Entry>)
    requires DistinctKeys(es) && |x| == |es| && forall i | 0 <= i < |es| :: x[i].key == es[i].key
    ensures NoRepetition(x)
  {
    forall i, j | 0 <= i < j < |x|
      ensures x[i] != x[j]
    {
      var p, q := es[i].key, es[j].key;
    }
  }

  lemma RearrangedEquiv(es: seq<Entry>, fs: seq<Entry>)
    requires multiset(fs) == multiset(es)
    ensures Equiv(Object(es), Object(fs))
  {
    SameElements(es, fs);
    forall e | e in es
      ensures Same(e, e)
    {
      EquivReflexive(e.value);
    }
  }

  lemma RearrangedParsed(es: seq<Entry>, fs: seq<Entry>)
    requires multiset(fs) == multiset(es) && WellFormed(Object(es)) && Enumerated(Object(es)) && InOrder(fs)
    ensures WellFormed(Object(fs)) && Enumerated(Object(fs))
  {
    hide InOrder;
    SameElements(es, fs);
    ArrangedDistinct(es, fs);
    forall i | 0 <= i < |fs|
      ensures WellFormed(fs[i].value) && Enumerated(fs[i].value)
    {
      assert fs[i] in es;
    }
  }

  lemma EnumeratedObject(es: seq<Entry>)
    requires InOrder(es) && forall i | 0 <= i < |es| :: Enumerated(es[i].value)
    ensures Enumerated(Object(es))
  {
  }

  /** A parsed value with an open tie, at any depth, equals another up to key order that has another canonical form. */
  lemma {:induction false} Disagreeing(v: Json, le: Compare) returns (w: Json)
    requires Parsed(v) && !Untied(v, le)
    ensures Parsed(w) && Equiv(v, w) && Canon(w, le) != Canon(v, le)
    decreases v
  {
    match v {
      case Array(xs) =>
        var i :| 0 <= i < |xs| && !Untied(xs[i], le);
        var x := Disagreeing(xs[i], le);
        w := Array(xs[i := x]);
        ItemReplaced(xs, i, x, le);
      case Object(es) =>
        if i :| 0 <= i < |es| && !Untied(es[i].value, le) {
          var x := Disagreeing(es[i].value, le);
          w := Object(es[i := Entry(es[i].key, x)]);
          EntryReplaced(es, i, x, le);
        } else {
          var i, j :|
            && 0 <= i < j < |es|
            && ObjectKeys.Tied(le, es[i].key, es[j].key)
            && !IsIndex(es[i].key) && !IsIndex(es[j].key);
          w := Object(Exchange(es, i, j));
          Exchanged(es, i, j, le);
        }
    }
  }

  lemma Exchanged(es: seq<Entry>, i: nat, j: nat, le: Compare)
    requires i < j < |es| && Parsed(Object(es)) && ObjectKeys.Tied(le, es[i].key, es[j].key)
    requires !IsIndex(es[i].key) && !IsIndex(es[j].key)
    ensures var w := Object(Exchange(es, i, j));
            Parsed(w) && Equiv(Object(es), w) && Canon(w, le) != Canon(Object(es), le)
  {
    hide Exchange, IsIndex, Canon;
    ExchangeArranges(es, i, j);
    ExchangeInOrder(es, i, j);
    ExchangeShows(es, i, j, le);
    RearrangedEquiv(es, Exchange(es, i, j));
    RearrangedParsed(es, Exchange(es, i, j));
  }

  lemma ItemReplaced(xs: seq<Json>, i: nat, x: Json, le: Compare)
    requires i < |xs| && Parsed(Array(xs)) && Parsed(x) && Equiv(xs[i], x) && Canon(x, le) != Canon(xs[i], le)
    ensures var ys := xs[i := x];
            Parsed(Array(ys)) && Equiv(Array(xs), Array(ys)) && Canon(Array(ys), le) != Canon(Array(xs), le)
  {
    ItemReplacedEquiv(xs, i, x);
    ItemReplacedShows(xs, i, x, le);
    hide Equiv, Canon;
  }

  lemma ItemReplacedEquiv(xs: seq<Json>, i: nat, x: Json)
    requires i < |xs| && Equiv(xs[i], x)
    ensures Equiv(Array(xs), Array(xs[i := x]))
  {
    hide Paired;
    forall k | 0 <= k < |xs|
      ensures Equiv(xs[k], xs[i := x][k])
    {
      EquivReflexive(xs[k]);
    }
  }

  lemma ItemReplacedShows(xs: seq<Json>, i: nat, x: Json, le: Compare)
    requires i < |xs| && Canon(x, le) != Canon(xs[i], le)
    ensures Canon(Array(xs[i := x]), le) != Canon(Array(xs), le)
  {
    assert CanonItems(xs[i := x], le)[i] != CanonItems(xs, le)[i];
  }

  lemma EntryReplaced(es: seq<Entry>, i: nat, x: Json, le: Compare)
    requires i < |es| && Parsed(Object(es)) && Parsed(x)
    requires Equiv(es[i].value, x) && Canon(x, le) != Canon(es[i].value, le)
    ensures var fs := es[i := Entry(es[i].key, x)];
            Parsed(Object(fs)) && Equiv(Object(es), Object(fs)) && Canon(Object(fs), le) != Canon(Object(es), le)
  {
    hide Sort, CanonEntries, Equiv, Paired, MayPrecede;
    var fs := es[i := Entry(es[i].key, x)];
    assert forall k | 0 <= k < |es| :: fs[k].key == es[k].key;
    EntryReplacedEquiv(es, i, x);
    EntryReplacedShows(es, i, x, le);
  }

  lemma EntryReplacedEquiv(es: seq<Entry>, i: nat, x: Json)
    requires i < |es| && Equiv(es[i].value, x)
    ensures Equiv(Object(es), Object(es[i := Entry(es[i].key, x)]))
  {
    ReplacedPaired(es, es[i := Entry(es[i].key, x)]);
  }

  lemma EntryReplacedShows(es: seq<Entry>, i: nat, x: Json, le: Compare)
    requires i < |es| && DistinctKeys(es) && Canon(x, le) != Canon(es[i].value, le)
    ensures Sort(CanonEntries(es[i := Entry(es[i].key, x)], le), EntryBy(le)) != Sort(CanonEntries(es, le), EntryBy(le))
  {
    hide Sort, Canon;
    var a, b := CanonEntries(es, le), CanonEntries(es[i := Entry(es[i].key, x)], le);
    forall k | 0 <= k < |a|
      ensures a[k] != b[i]
    {
      var p, q := es[k].key, es[i].key;
    }
    SortsDiffer(a, b, i, EntryBy(le));
  }

  lemma SortsDiffer<T>(a: seq<T>, b: seq<T>, i: nat, order: (T, T) -> bool)
    requires i < |b| && forall k | 0 <= k < |a| :: a[k] != b[i]
    ensures Sort(a, order) != Sort(b, order)
  {
    hide Sort;
    SameElements(a, Sort(a, order));
    SameElements(b, Sort(b, order));
    assert b[i] in b;
  }

  lemma ReplacedPaired(es: seq<Entry>, fs: seq<Entry>)
    requires |es| == |fs|
    requires forall k | 0 <= k < |es| :: es[k] == fs[k] || Same(es[k], fs[k])
    ensures Paired(es, fs)
  {
    forall k | 0 <= k < |es|
      ensures Same(es[k], fs[k])
    {
      if es[k] == fs[k] {
        EquivReflexive(es[k].value);
      }
    }
    EqualImagesPaired(es, fs, seq(|es|, k => k), seq(|es|, k => k));
  }

  // ---- The exact condition ----

  /**
   The text of a parsed value is independent of key order if and only if no two keys of one object compare
   equal of which neither is an array index.
   */
  lemma OrderIndependentExactly(v: Json, le: Compare)
    requires TotalPreorder(le) && Parsed(v)
    ensures Untied(v, le) <==> forall w | Parsed(w) && Equiv(v, w) :: Print(w, le) == Print(v, le)
  {
    if Untied(v, le) {
      forall w | Parsed(w) && Equiv(v, w)
        ensures Print(w, le) == Print(v, le)
      {
        ParsedPrintsAlike(v, w, le);
      }
    } else {
      var w := Disagreeing(v, le);
      PrintEqualsCanon(w, v, le);
    }
  }

  /** U+00E9, and the same letter as e followed by U+0301: canonically equivalent, and different. */
  const COMPOSED: Units := [0xE9]
  const DECOMPOSED: Units := [0x65, 0x301]

  /** A concrete pair of equal objects with different texts, wherever those two keys compare equal. */
  lemma EquivalentKeysShowOrder(le: Compare)
    requires TotalPreorder(le) && ObjectKeys.Tied(le, COMPOSED, DECOMPOSED)
    ensures var one, other := Entry(COMPOSED, Null), Entry(DECOMPOSED, Bool(true));
            && Parsed(Object([one, other])) && Parsed(Object([other, one]))
            && Equiv(Object([one, other]), Object([other, one]))
            && Print(Object([one, other]), le) != Print(Object([other, one]), le)
  {
    var one, other := Entry(COMPOSED, Null), Entry(DECOMPOSED, Bool(true));
    var es := [one, other];
    assert COMPOSED[0] != DECOMPOSED[0];
    assert !DigitUnit(COMPOSED[0]) && !DigitUnit(DECOMPOSED[0]);
    assert InOrder(es) && Enumerated(one.value) && Enumerated(other.value);
    EnumeratedObject(es);
    assert Parsed(Object(es));
    assert Exchange(es, 0, 1) == [other, one];
    Exchanged(es, 0, 1, le);
    PrintEqualsCanon(Object(es), Object([other, one]), le);
  }

  /** The index 1, and the same digit followed by the ignorable U+00AD, which is no index. */
  const INDEX: Units := [0x31]
  const HYPHENATED: Units := [0x31, 0xAD]

  /** A tie with an index never shows: the index is enumerated first in whatever order the file has them. */
  lemma TieWithIndexHidden(le: Compare)
    requires TotalPreorder(le) && ObjectKeys.Tied(le, INDEX, HYPHENATED)
    ensures var v := Object([Entry(INDEX, Null), Entry(HYPHENATED, Bool(true))]);
            && Parsed(v) && !TieFreeKeys(v, le)
            && forall w | Parsed(w) && Equiv(v, w) :: Print(w, le) == Print(v, le)
  {
    var es := [Entry(INDEX, Null), Entry(HYPHENATED, Bool(true))];
    var v := Object(es);
    assert INDEX[..0] == [] && Value(INDEX) == 1 && IsIndex(INDEX);
    assert !DigitUnit(HYPHENATED[1]) && !IsIndex(HYPHENATED);
    assert |INDEX| != |HYPHENATED|;
    assert InOrder(es) && Enumerated(es[0].value) && Enumerated(es[1].value);
    EnumeratedObject(es);
    assert Parsed(v) && Untied(v, le);
    OrderIndependentExactly(v, le);
    assert es[0].key == INDEX && es[1].key == HYPHENATED;
  }
}
