/** The sort is stable: elements that tie keep the order in which they came. */
module StableSorts {
  import opened Orders

  ghost predicate Before<T(!new)>(s: seq<T>, x: T, y: T) {
    exists p, q :: 0 <= p < q < |s| && s[p] == x && s[q] == y
  }

  lemma BeforeCons<T(!new)>(a: T, s: seq<T>, x: T, y: T)
    ensures Before([a] + s, x, y) <==> (a == x && y in s) || Before(s, x, y)
  {
    var t := [a] + s;
    if Before(t, x, y) {
      var p, q :| 0 <= p < q < |t| && t[p] == x && t[q] == y;
      assert s[q - 1] == y;
      assert p > 0 ==> s[p - 1] == x;
    }
    if a == x && y in s {
      var q :| 0 <= q < |s| && s[q] == y;
      assert t[0] == x && t[q + 1] == y;
    }
    if Before(s, x, y) {
      var p, q :| 0 <= p < q < |s| && s[p] == x && s[q] == y;
      assert t[p + 1] == x && t[q + 1] == y;
    }
  }

  lemma InInsert<T(!new)>(a: T, s: seq<T>, le: (T, T) -> bool, x: T)
    ensures x in Insert(a, s, le) <==> x == a || x in s
  {
    SameElements(Insert(a, s, le), [a] + s);
  }

  lemma {:induction false} InsertKeepsBefore<T(!new)>(a: T, s: seq<T>, le: (T, T) -> bool, x: T, y: T)
    requires Before(s, x, y)
    ensures Before(Insert(a, s, le), x, y)
  {
    assert s == [s[0]] + s[1..];
    BeforeCons(s[0], s[1..], x, y);
    if le(a, s[0]) {
      BeforeCons(a, s, x, y);
    } else {
      if Before(s[1..], x, y) {
        InsertKeepsBefore(a, s[1..], le, x, y);
      }
      InInsert(a, s[1..], le, y);
      BeforeCons(s[0], Insert(a, s[1..], le), x, y);
    }
  }

  lemma {:induction false} InsertedBefore<T(!new)>(a: T, s: seq<T>, le: (T, T) -> bool, y: T)
    requires y in s && le(a, y)
    ensures Before(Insert(a, s, le), a, y)
  {
    assert s == [s[0]] + s[1..];
    if le(a, s[0]) {
      BeforeCons(a, s, a, y);
    } else {
      InsertedBefore(a, s[1..], le, y);
      BeforeCons(s[0], Insert(a, s[1..], le), a, y);
    }
  }

  /** Of two elements the sort need not exchange, the earlier stays the earlier. */
  lemma {:induction false} SortStable<T(!new)>(s: seq<T>, le: (T, T) -> bool, x: T, y: T)
    requires Before(s, x, y) && le(x, y)
    ensures Before(Sort(s, le), x, y)
  {
    hide Before, Insert;
    assert s != [] by {
      BeforeNonEmpty(s, x, y);
    }
    assert s == [s[0]] + s[1..];
    BeforeCons(s[0], s[1..], x, y);
    if Before(s[1..], x, y) {
      SortStable(s[1..], le, x, y);
      InsertKeepsBefore(s[0], Sort(s[1..], le), le, x, y);
    } else {
      SameElements(s[1..], Sort(s[1..], le));
      InsertedBefore(s[0], Sort(s[1..], le), le, y);
    }
  }

  lemma BeforeNonEmpty<T(!new)>(s: seq<T>, x: T, y: T)
    requires Before(s, x, y)
    ensures s != []
  {
  }

  lemma OneOrder<T(!new)>(s: seq<T>, x: T, y: T)
    requires NoRepetition(s)
    ensures !(Before(s, x, y) && Before(s, y, x))
  {
    if Before(s, x, y) {
      var p, q :| 0 <= p < q < |s| && s[p] == x && s[q] == y;
      forall r, t | 0 <= r < t < |s|
        ensures !(s[r] == y && s[t] == x)
      {
      }
    }
  }

  lemma EitherBefore<T(!new)>(s: seq<T>, x: T, y: T)
    requires x in s && y in s && x != y
    ensures Before(s, x, y) || Before(s, y, x)
  {
    var i :| 0 <= i < |s| && s[i] == x;
    var j :| 0 <= j < |s| && s[j] == y;
  }

  /** The sort only compares earlier elements with later ones, so orders that agree on those sort alike. */
  lemma {:induction false} SortAgrees<T(!new)>(s: seq<T>, le: (T, T) -> bool, order: (T, T) -> bool)
    requires forall i, j | 0 <= i < j < |s| :: le(s[i], s[j]) == order(s[i], s[j])
    ensures Sort(s, le) == Sort(s, order)
  {
    if s == [] {
    } else {
      var rest := Sort(s[1..], le);
      SortAgrees(s[1..], le, order);
      SameElements(s[1..], rest);
      forall y | y in rest
        ensures le(s[0], y) == order(s[0], y)
      {
        assert y in s[1..];
        var j :| 0 <= j < |s[1..]| && s[1..][j] == y;
        assert s[j + 1] == y;
      }
      InsertAgrees(s[0], rest, le, order);
    }
  }

  lemma {:induction false} InsertAgrees<T>(x: T, s: seq<T>, le: (T, T) -> bool, order: (T, T) -> bool)
    requires forall y | y in s :: le(x, y) == order(x, y)
    ensures Insert(x, s, le) == Insert(x, s, order)
  {
    if s == [] {
    } else {
      InsertAgrees(x, s[1..], le, order);
    }
  }

  /** Two elements that tie come out in the order they stand in, so sequences that differ in it sort differently. */
  lemma OrderShows<T(!new)>(s: seq<T>, t: seq<T>, order: (T, T) -> bool, x: T, y: T)
    requires NoRepetition(s)
    requires Before(s, x, y) && Before(t, y, x) && order(x, y) && order(y, x)
    ensures Sort(s, order) != Sort(t, order)
  {
    hide Sort, Before;
    SortStable(s, order, x, y);
    SortStable(t, order, y, x);
    var r := Sort(s, order);
    forall i, j | 0 <= i < j < |r|
      ensures r[i] != r[j]
    {
      NoDuplicatesCount(s, r[i]);
      if r[i] == r[j] {
        CountedTwice(r, i, j);
      }
    }
    OneOrder(r, x, y);
  }
}
