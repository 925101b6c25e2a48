/**
 The order in which an object's keys are enumerated: array indices first, ascending, and then the others as
 they were added (sections 10.1.11.1 and 6.1.7 of ECMA-262).  Whatever a file says, the objects parsed from
 it list their keys so.
 */
module ObjectKeys {
  import opened Orders
  import opened ByteStrings
  import opened JsonText
  import opened CanonicalJson
  import opened StableSorts

  const MAX_INDEX: nat := 0xFFFF_FFFE

  predicate DigitUnit(u: CodeUnit) {
    0x30 <= u <= 0x39
  }

  predicate Canonical(k: Units) {
    k != [] && (forall i | 0 <= i < |k| :: DigitUnit(k[i])) && (k[0] != 0x30 || |k| == 1)
  }

  /** The number that decimal digits stand for. */
  function Value(k: Units): nat {
    if k == [] then
      0
    else
      var last := k[|k| - 1];
      10 * Value(k[..|k| - 1]) + if DigitUnit(last) then last as int - 0x30 else 0
  }

  predicate IsIndex(k: Units) {
    Canonical(k) && Value(k) <= MAX_INDEX
  }

  /** Whether the enumeration may list `a` before `b`. */
  predicate MayPrecede(a: Units, b: Units) {
    if IsIndex(a) && IsIndex(b) then Value(a) <= Value(b) else IsIndex(a) || !IsIndex(b)
  }

  /** Every object lists its keys in an order the enumeration allows, at any depth. */
  ghost predicate Enumerated(v: Json) {
    match v
    case Array(xs) => forall i | 0 <= i < |xs| :: Enumerated(xs[i])
    case Object(es) =>
      && (forall i | 0 <= i < |es| :: Enumerated(es[i].value))
      && InOrder(es)
    case _ => true
  }

  ghost predicate InOrder(es: seq<Entry>) {
    forall i, j | 0 <= i < j < |es| :: MayPrecede(es[i].key, es[j].key)
  }

  /** What a parsed value may be: numbers are number texts, keys are distinct and enumerated in order. */
  ghost predicate Parsed(v: Json) {
    WellFormed(v) && Enumerated(v)
  }

  ghost predicate Tied(le: Compare, a: Units, b: Units) {
    le(a, b) && le(b, a)
  }

  /** No two keys of one object compare equal, unless one of them is an array index; at any depth. */
  ghost predicate Untied(v: Json, le: Compare) {
    match v
    case Array(xs) => forall i | 0 <= i < |xs| :: Untied(xs[i], le)
    case Object(es) =>
      && (forall i | 0 <= i < |es| :: Untied(es[i].value, le))
      && (forall i, j | 0 <= i < j < |es| && Tied(le, es[i].key, es[j].key) :: IsIndex(es[i].key) || IsIndex(es[j].key))
    case _ => true
  }

  // ---- Indices ----

  /** Different indices are different numbers. */
  lemma {:induction false} ValueInjective(a: Units, b: Units)
    requires Canonical(a) && Canonical(b) && Value(a) == Value(b)
    ensures a == b
  {
    var x, y := a[..|a| - 1], b[..|b| - 1];
    assert a == x + [a[|a| - 1]] && b == y + [b[|b| - 1]];
    if |a| > 1 {
      CanonicalPositive(x);
    }
    if |b| > 1 {
      CanonicalPositive(y);
    }
    if |a| > 1 && |b| > 1 {
      ValueInjective(x, y);
    }
  }

  lemma {:induction false} CanonicalPositive(k: Units)
    requires k != [] && (forall i | 0 <= i < |k| :: DigitUnit(k[i])) && k[0] != 0x30
    ensures Value(k) > 0
  {
    if |k| > 1 {
      CanonicalPositive(k[..|k| - 1]);
    }
  }

  lemma {:induction false} ValueOfDigits(s: string)
    requires forall i | 0 <= i < |s| :: '0' <= s[i] <= '9'
    ensures Value(Ascii(s)) == NumberOf(s)
  {
    if s != "" {
      var n := |s| - 1;
      ValueOfDigits(s[..n]);
      assert Ascii(s)[..n] == Ascii(s[..n]);
    }
  }

  /** The indices are the decimal texts of the numbers below 2^32 - 1. */
  lemma IndexExactly(k: Units)
    ensures IsIndex(k) <==> exists n: nat | n <= 4_294_967_294 :: k == Ascii(Decimal(n))
  {
    hide Canonical, Value, Decimal;
    if IsIndex(k) {
      var n := Value(k);
      DecimalIndex(n);
      ValueInjective(k, Ascii(Decimal(n)));
      assert n <= 4_294_967_294 && k == Ascii(Decimal(n));
    }
    if n: nat :| n <= 4_294_967_294 && k == Ascii(Decimal(n)) {
      DecimalIndex(n);
    }
  }

  lemma DecimalIndex(n: nat)
    ensures Canonical(Ascii(Decimal(n))) && Value(Ascii(Decimal(n))) == n
  {
    DecimalExactly(n);
    ValueOfDigits(Decimal(n));
    hide NumberOf, Value;
    var s := Decimal(n);
    if n < 10 {
      assert |s| == 1;
    }
  }

  lemma MayPrecedeTotal()
    ensures TotalPreorder(MayPrecede)
  {
    hide IsIndex, Value;
  }

  // ---- The comparison that the enumeration refines ----

  /** Ties are decided by the enumeration, where it decides. */
  function Refined(le: Compare): Compare {
    (a: Units, b: Units) => le(a, b) && (le(b, a) ==> MayPrecede(a, b))
  }

  lemma RefinedTotal(le: Compare)
    requires TotalPreorder(le)
    ensures TotalPreorder(Refined(le))
  {
    MayPrecedeTotal();
    hide MayPrecede;
    var order := Refined(le);
    forall a, b, c | order(a, b) && order(b, c)
      ensures order(a, c)
    {
      assert le(a, b) && le(b, c);
      if le(c, a) {
        assert le(b, a) && le(c, b);
        assert MayPrecede(a, b) && MayPrecede(b, c);
      }
    }
  }

  /** What the refined comparison leaves tied is a tie between two keys that are no indices. */
  lemma RefinedTie(le: Compare, a: Units, b: Units)
    requires a != b
    ensures Tied(Refined(le), a, b) <==> Tied(le, a, b) && !IsIndex(a) && !IsIndex(b)
  {
    assert !(IsIndex(a) && IsIndex(b) && Value(a) == Value(b)) by {
      if IsIndex(a) && IsIndex(b) && Value(a) == Value(b) {
        ValueInjective(a, b);
      }
    }
    hide IsIndex, Value;
    assert MayPrecede(a, b) && MayPrecede(b, a) <==> !IsIndex(a) && !IsIndex(b);
  }

  lemma {:induction false} UntiedRefined(v: Json, le: Compare)
    requires WellFormed(v)
    ensures Untied(v, le) <==> TieFreeKeys(v, Refined(le))
  {
    match v {
      case Array(xs) =>
        forall i | 0 <= i < |xs|
          ensures Untied(xs[i], le) <==> TieFreeKeys(xs[i], Refined(le))
        {
          UntiedRefined(xs[i], le);
        }
      case Object(es) =>
        forall i | 0 <= i < |es|
          ensures Untied(es[i].value, le) <==> TieFreeKeys(es[i].value, Refined(le))
        {
          UntiedRefined(es[i].value, le);
        }
        hide IsIndex, Refined;
        forall i, j | 0 <= i < j < |es|
          ensures Tied(Refined(le), es[i].key, es[j].key) <==>
                  Tied(le, es[i].key, es[j].key) && !IsIndex(es[i].key) && !IsIndex(es[j].key)
        {
          RefinedTie(le, es[i].key, es[j].key);
        }
      case _ =>
    }
  }

  /** On enumerated values the stable sort cannot tell the two comparisons apart. */
  lemma {:induction false} CanonRefined(v: Json, le: Compare)
    requires Enumerated(v)
    ensures Canon(v, le) == Canon(v, Refined(le))
    decreases v
  {
    match v {
      case Array(xs) =>
        forall i | 0 <= i < |xs|
          ensures Canon(xs[i], le) == Canon(xs[i], Refined(le))
        {
          CanonRefined(xs[i], le);
        }
        assert CanonItems(xs, le) == CanonItems(xs, Refined(le));
      case Object(es) =>
        forall i | 0 <= i < |es|
          ensures Canon(es[i].value, le) == Canon(es[i].value, Refined(le))
        {
          CanonRefined(es[i].value, le);
        }
        var x := CanonEntries(es, le);
        assert x == CanonEntries(es, Refined(le));
        hide MayPrecede, Sort;
        forall i, j | 0 <= i < j < |x|
          ensures EntryBy(le)(x[i], x[j]) == EntryBy(Refined(le))(x[i], x[j])
        {
          assert MayPrecede(es[i].key, es[j].key);
        }
        SortAgrees(x, EntryBy(le), EntryBy(Refined(le)));
      case _ =>
    }
  }

  /** Without ties that the enumeration leaves open, parsed values print alike exactly when equal up to order. */
  lemma ParsedPrintsAlike(v: Json, w: Json, le: Compare)
    requires TotalPreorder(le) && Parsed(v) && Parsed(w) && Untied(v, le)
    ensures Print(v, le) == Print(w, le) <==> Equiv(v, w)
  {
    PrinterIsCanonical(v, w, le);
    if Equiv(v, w) {
      hide WellFormed, Enumerated, Untied, TieFreeKeys, Canon, Print, Equiv, TotalPreorder;
      RefinedTotal(le);
      UntiedRefined(v, le);
      EquivSameCanon(v, w, Refined(le));
      CanonRefined(v, le);
      CanonRefined(w, le);
      PrintEqualsCanon(v, w, le);
    }
  }
}
