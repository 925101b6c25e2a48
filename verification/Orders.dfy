/**
 Sorting under a comparison that is total and transitive but may tie.  A sorted arrangement is unique
 exactly when no two different elements tie, which is what makes every sorted output of the program
 independent of the iteration order it started from.
 */
module Orders {

  ghost predicate TotalPreorder<T(!new)>(le: (T, T) -> bool) {
    && (forall x, y :: le(x, y) || le(y, x))
    && (forall x, y, z :: le(x, y) && le(y, z) ==> le(x, z))
  }

  ghost predicate TieFree<T>(xs: seq<T>, le: (T, T) -> bool) {
    forall x, y | x in xs && y in xs && le(x, y) && le(y, x) :: x == y
  }

  ghost predicate NoRepetition<T>(xs: seq<T>) {
    forall i, j | 0 <= i < j < |xs| :: xs[i] != xs[j]
  }

  ghost predicate Sorted<T>(xs: seq<T>, le: (T, T) -> bool) {
    forall i, j | 0 <= i < j < |xs| :: le(xs[i], xs[j])
  }

  /** Puts `x` before the first element it does not exceed, hence before its ties. */
  function Insert<T>(x: T, xs: seq<T>, le: (T, T) -> bool): (ys: seq<T>)
    ensures multiset(ys) == multiset{x} + multiset(xs)
    ensures |ys| == |xs| + 1
  {
    if xs == [] || le(x, xs[0]) then
      [x] + xs
    else
      assert xs == [xs[0]] + xs[1..];
      [xs[0]] + Insert(x, xs[1..], le)
  }

  /** A stable sort: earlier elements stay before the later ones they tie with. */
  function Sort<T>(xs: seq<T>, le: (T, T) -> bool): (ys: seq<T>)
    ensures multiset(ys) == multiset(xs)
    ensures |ys| == |xs|
  {
    if xs == [] then
      []
    else
      assert xs == [xs[0]] + xs[1..];
      Insert(xs[0], Sort(xs[1..], le), le)
  }

  lemma {:induction false} InsertSorted<T(!new)>(x: T, xs: seq<T>, le: (T, T) -> bool)
    requires TotalPreorder(le) && Sorted(xs, le)
    ensures Sorted(Insert(x, xs, le), le)
  {
    if xs == [] || le(x, xs[0]) {
    } else {
      InsertSorted(x, xs[1..], le);
      var rest := Insert(x, xs[1..], le);
      assert le(xs[0], x);
      forall k | 0 <= k < |rest|
        ensures le(xs[0], rest[k])
      {
        assert rest[k] in multiset(rest);
        assert rest[k] == x || rest[k] in xs[1..];
      }
    }
  }

  lemma {:induction false} SortSorts<T(!new)>(xs: seq<T>, le: (T, T) -> bool)
    requires TotalPreorder(le)
    ensures Sorted(Sort(xs, le), le)
  {
    if xs == [] {
    } else {
      SortSorts(xs[1..], le);
      InsertSorted(xs[0], Sort(xs[1..], le), le);
    }
  }

  lemma SameElements<T>(a: seq<T>, b: seq<T>)
    requires multiset(a) == multiset(b)
    ensures |a| == |b|
    ensures forall x :: x in a <==> x in b
  {
    assert |multiset(a)| == |a|;
    forall x
      ensures x in a <==> x in b
    {
      assert x in a <==> x in multiset(a);
      assert x in b <==> x in multiset(b);
    }
  }

  lemma TailMultiset<T>(a: seq<T>)
    requires a != []
    ensures multiset(a[1..]) == multiset(a) - multiset{a[0]}
  {
    assert a == [a[0]] + a[1..];
  }

  lemma TailSorted<T>(a: seq<T>, le: (T, T) -> bool)
    requires a != [] && TieFree(a, le) && Sorted(a, le)
    ensures TieFree(a[1..], le) && Sorted(a[1..], le)
  {
  }

  lemma RemoveAt<T>(s: seq<T>, i: nat)
    requires i < |s|
    ensures multiset(s[..i] + s[i + 1..]) == multiset(s) - multiset{s[i]}
  {
    assert s == s[..i] + ([s[i]] + s[i + 1..]);
  }

  /** The heads of two sorted arrangements of the same elements tie, so without ties they are equal. */
  lemma SameHead<T>(a: seq<T>, b: seq<T>, le: (T, T) -> bool)
    requires a != [] && b != []
    requires Sorted(a, le) && Sorted(b, le) && TieFree(a, le)
    requires multiset(a) == multiset(b)
    ensures a[0] == b[0]
  {
    SameElements(a, b);
    assert b[0] in a && a[0] in b;
    var i :| 0 <= i < |a| && a[i] == b[0];
    var j :| 0 <= j < |b| && b[j] == a[0];
    if i > 0 && j > 0 {
      assert le(a[0], a[i]) && le(b[0], b[j]);
    }
  }

  /** Two sorted arrangements of the same tie-free elements are the same sequence. */
  lemma {:induction false} SortedUnique<T>(a: seq<T>, b: seq<T>, le: (T, T) -> bool)
    requires Sorted(a, le) && Sorted(b, le)
    requires multiset(a) == multiset(b)
    requires TieFree(a, le) && TieFree(b, le)
    ensures a == b
  {
    hide Sorted, TieFree;
    assert |multiset(a)| == |a| && |multiset(b)| == |b|;
    if a == [] {
    } else {
      SameHead(a, b, le);
      TailMultiset(a);
      TailMultiset(b);
      TailSorted(a, le);
      TailSorted(b, le);
      SortedUnique(a[1..], b[1..], le);
      assert a == [a[0]] + a[1..] && b == [b[0]] + b[1..];
    }
  }

  /** Sorting forgets the arrangement it was given: the order of iteration cannot show. */
  lemma SortForgetsOrder<T(!new)>(a: seq<T>, b: seq<T>, le: (T, T) -> bool)
    requires TotalPreorder(le) && TieFree(a, le)
    requires multiset(a) == multiset(b)
    ensures Sort(a, le) == Sort(b, le)
  {
    SortSorts(a, le);
    SortSorts(b, le);
    SameElements(a, Sort(a, le));
    SameElements(a, Sort(b, le));
    SortedUnique(Sort(a, le), Sort(b, le), le);
  }

  /** A sequence that is already sorted is left as it is. */
  lemma {:induction false} SortFixesSorted<T(!new)>(xs: seq<T>, le: (T, T) -> bool)
    requires TotalPreorder(le) && Sorted(xs, le)
    ensures Sort(xs, le) == xs
  {
    if xs == [] {
    } else {
      SortFixesSorted(xs[1..], le);
      assert xs == [xs[0]] + xs[1..];
      if |xs| > 1 {
        assert le(xs[0], xs[1]);
      }
    }
  }

  function Map<A, B>(xs: seq<A>, f: A -> B): (ys: seq<B>)
    ensures |ys| == |xs|
  {
    seq(|xs|, i requires 0 <= i < |xs| => f(xs[i]))
  }

  lemma MapAppend<A, B>(xs: seq<A>, ys: seq<A>, f: A -> B)
    ensures Map(xs + ys, f) == Map(xs, f) + Map(ys, f)
  {
  }

  lemma Find<T>(b: seq<T>, x: T, a: seq<T>) returns (i: nat)
    requires multiset(a) == multiset(b) && x in a
    ensures i < |b| && b[i] == x
  {
    SameElements(a, b);
    i :| i < |b| && b[i] == x;
  }

  lemma {:induction false} MapPermutes<A, B>(a: seq<A>, b: seq<A>, f: A -> B)
    requires multiset(a) == multiset(b)
    ensures multiset(Map(a, f)) == multiset(Map(b, f))
    decreases |a|
  {
    if a == [] {
      assert |multiset(b)| == |b|;
    } else {
      var i := Find(b, a[0], a);
      var left, right := b[..i], b[i + 1..];
      assert a == [a[0]] + a[1..] && b == left + ([b[i]] + right);
      MapAppend([a[0]], a[1..], f);
      MapAppend(left, [b[i]] + right, f);
      MapAppend([b[i]], right, f);
      MapAppend(left, right, f);
      TailMultiset(a);
      RemoveAt(b, i);
      MapPermutes(a[1..], left + right, f);
    }
  }

  ghost predicate Respects<A(!new), B>(f: A -> B, la: (A, A) -> bool, lb: (B, B) -> bool) {
    forall x, y :: lb(f(x), f(y)) == la(x, y)
  }

  lemma MapTail<A, B>(xs: seq<A>, f: A -> B)
    requires xs != []
    ensures Map(xs, f) == [f(xs[0])] + Map(xs[1..], f)
    ensures Map(xs, f)[1..] == Map(xs[1..], f)
  {
  }

  lemma RespectsAt<A(!new), B>(f: A -> B, la: (A, A) -> bool, lb: (B, B) -> bool, x: A, y: A)
    requires Respects(f, la, lb)
    ensures lb(f(x), f(y)) == la(x, y)
  {
  }

  lemma {:induction false} InsertMap<A(!new), B>(x: A, xs: seq<A>, f: A -> B, la: (A, A) -> bool, lb: (B, B) -> bool)
    requires Respects(f, la, lb)
    ensures Insert(f(x), Map(xs, f), lb) == Map(Insert(x, xs, la), f)
  {
    hide Respects, Map;
    if xs == [] {
      MapTail([x], f);
      assert [x][1..] == xs && [x] + xs == [x];
    } else {
      MapTail(xs, f);
      RespectsAt(f, la, lb, x, xs[0]);
      MapTail([x] + xs, f);
      if !la(x, xs[0]) {
        InsertMap(x, xs[1..], f, la, lb);
        MapTail([xs[0]] + Insert(x, xs[1..], la), f);
      }
    }
  }

  /** Sorting by what a map keeps commutes with the map. */
  lemma {:induction false} SortMap<A(!new), B>(xs: seq<A>, f: A -> B, la: (A, A) -> bool, lb: (B, B) -> bool)
    requires Respects(f, la, lb)
    ensures Sort(Map(xs, f), lb) == Map(Sort(xs, la), f)
  {
    hide Respects;
    if xs == [] {
    } else {
      MapTail(xs, f);
      SortMap(xs[1..], f, la, lb);
      InsertMap(xs[0], Sort(xs[1..], la), f, la, lb);
    }
  }

  lemma CountedTwice<T>(s: seq<T>, i: nat, j: nat)
    requires i < j < |s| && s[i] == s[j]
    ensures multiset(s)[s[i]] >= 2
  {
    assert s == s[..j] + s[j..];
    assert s[i] in s[..j] && s[j] in s[j..];
  }

  lemma {:induction false} NoDuplicatesCount<T>(s: seq<T>, x: T)
    requires NoRepetition(s)
    ensures multiset(s)[x] == if x in s then 1 else 0
  {
    if s == [] {
    } else {
      assert s == [s[0]] + s[1..];
      NoDuplicatesCount(s[1..], x);
      if x in s[1..] {
        var i :| 0 <= i < |s[1..]| && s[1..][i] == x;
        assert s[0] != s[i + 1];
      }
    }
  }

  /** Without repetitions, having the same elements is being a rearrangement. */
  lemma SameSetSameMultiset<T>(a: seq<T>, b: seq<T>)
    requires NoRepetition(a)
    requires NoRepetition(b)
    requires forall x :: x in a <==> x in b
    ensures multiset(a) == multiset(b)
  {
    forall x: T
      ensures multiset(a)[x] == multiset(b)[x]
    {
      NoDuplicatesCount(a, x);
      NoDuplicatesCount(b, x);
    }
  }

  // ---- Sets built of lists ----

  /** A Set built of a list. */
  function ElementsOf<T>(xs: seq<T>): set<T> {
    set x | x in xs
  }

  lemma NoRepetitionCons<T>(xs: seq<T>)
    requires xs != [] && xs[0] !in xs[1..]
    ensures NoRepetition(xs) <==> NoRepetition(xs[1..])
  {
    var tail := xs[1..];
    if NoRepetition(xs) {
      forall i, j | 0 <= i < j < |tail|
        ensures tail[i] != tail[j]
      {
        assert xs[i + 1] != xs[j + 1];
      }
    }
    if NoRepetition(tail) {
      forall i, j | 0 <= i < j < |xs|
        ensures xs[i] != xs[j]
      {
        assert xs[j] == tail[j - 1];
        assert i > 0 ==> xs[i] == tail[i - 1];
      }
    }
  }

  /** It has as many elements as the list exactly when nothing repeats. */
  lemma {:induction false} ElementsCount<T>(xs: seq<T>)
    ensures |ElementsOf(xs)| <= |xs|
    ensures |ElementsOf(xs)| == |xs| <==> NoRepetition(xs)
  {
    if xs == [] {
    } else {
      var tail := xs[1..];
      ElementsCount(tail);
      assert xs == [xs[0]] + tail;
      if xs[0] in tail {
        assert ElementsOf(xs) == ElementsOf(tail);
        var j :| 0 <= j < |tail| && tail[j] == xs[0];
        assert xs[0] == xs[j + 1];
      } else {
        assert ElementsOf(xs) == ElementsOf(tail) + {xs[0]};
        NoRepetitionCons(xs);
      }
    }
  }

  // ---- The lexicographic order of byte strings and of code-unit strings ----

  predicate LexLe(a: seq<int>, b: seq<int>) {
    if a == [] then
      true
    else if b == [] then
      false
    else
      a[0] < b[0] || (a[0] == b[0] && LexLe(a[1..], b[1..]))
  }

  /** The first is a proper prefix of the second, or has the smaller element where they first differ. */
  ghost predicate Smaller(a: seq<int>, b: seq<int>) {
    exists i :: 0 <= i <= |a| && i < |b| && a[..i] == b[..i] && (i == |a| || a[i] < b[i])
  }

  lemma SmallerTail(a: seq<int>, b: seq<int>)
    requires a != [] && b != [] && a[0] == b[0]
    ensures Smaller(a, b) <==> Smaller(a[1..], b[1..])
  {
    var x, y := a[1..], b[1..];
    if i :| 0 <= i <= |a| && i < |b| && a[..i] == b[..i] && (i == |a| || a[i] < b[i]) {
      assert i > 0;
      assert x[..i - 1] == a[..i][1..] && y[..i - 1] == b[..i][1..];
    }
    if i :| 0 <= i <= |x| && i < |y| && x[..i] == y[..i] && (i == |x| || x[i] < y[i]) {
      assert a[..i + 1] == [a[0]] + x[..i] && b[..i + 1] == [b[0]] + y[..i];
    }
  }

  /** The order by elements from the left. */
  lemma {:induction false} LexExactly(a: seq<int>, b: seq<int>)
    ensures LexLe(a, b) <==> a == b || Smaller(a, b)
  {
    if a == [] || b == [] {
      assert a == [] && b != [] ==> a[..0] == b[..0];
    } else if a[0] == b[0] {
      SmallerTail(a, b);
      LexExactly(a[1..], b[1..]);
      assert a == [a[0]] + a[1..] && b == [b[0]] + b[1..];
    } else {
      assert a[..0] == b[..0];
      forall i | 0 < i <= |a| && i < |b|
        ensures a[..i] != b[..i]
      {
        assert a[..i][0] == a[0] && b[..i][0] == b[0];
      }
    }
  }

  lemma {:induction false} LexTotal(a: seq<int>, b: seq<int>)
    ensures LexLe(a, b) || LexLe(b, a)
    ensures LexLe(a, b) && LexLe(b, a) ==> a == b
  {
    if a == [] || b == [] {
    } else {
      LexTotal(a[1..], b[1..]);
      assert a == [a[0]] + a[1..] && b == [b[0]] + b[1..];
    }
  }

  lemma {:induction false} LexTransitive(a: seq<int>, b: seq<int>, c: seq<int>)
    requires LexLe(a, b) && LexLe(b, c)
    ensures LexLe(a, c)
  {
    if a == [] || b == [] || c == [] {
    } else if a[0] == b[0] == c[0] {
      LexTransitive(a[1..], b[1..], c[1..]);
    }
  }
}
