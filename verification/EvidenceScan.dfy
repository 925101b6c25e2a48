/** The checks on the shape and the contents of evidence: exact key lists, and no sensitive text anywhere. */
module EvidenceScan {
  import opened Wrappers
  import opened Orders
  import opened JsonText
  import opened CanonicalJson
  import opened EvidenceIntegrity

  // ---- Exact keys ----

  function KeysIn(es: seq<Entry>): seq<Units> {
    Map(es, (e: Entry) => e.key)
  }

  /** Both key lists are sorted and compared place by place. */
  predicate ExactKeys(es: seq<Entry>, keys: seq<Units>) {
    var actual, expected := Sort(KeysIn(es), UnitsLe), Sort(keys, UnitsLe);
    |actual| == |expected| && forall i | 0 <= i < |actual| :: actual[i] == expected[i]
  }

  /** An object is let through exactly when its keys are the listed ones, in any order, none missing and none added. */
  lemma ExactKeysExactly(es: seq<Entry>, keys: seq<Units>)
    ensures ExactKeys(es, keys) <==> multiset(KeysIn(es)) == multiset(keys)
  {
    hide KeysIn, Sort;
    if ExactKeys(es, keys) {
      assert Sort(KeysIn(es), UnitsLe) == Sort(keys, UnitsLe);
    }
    if multiset(KeysIn(es)) == multiset(keys) {
      UnitsLeTotal();
      SortForgetsOrder(KeysIn(es), keys, UnitsLe);
    }
  }

  /** Objects that are equal up to the order of keys are both let through, or neither is. */
  lemma ExactKeysForgetOrder(es: seq<Entry>, fs: seq<Entry>, keys: seq<Units>)
    requires DistinctKeys(es) && DistinctKeys(fs) && Paired(es, fs)
    ensures ExactKeys(es, keys) <==> ExactKeys(fs, keys)
  {
    hide Paired, Sort;
    var x, y := KeysIn(es), KeysIn(fs);
    forall k
      ensures k in x <==> k in y
    {
      if k in x {
        var i :| 0 <= i < |es| && x[i] == k;
        var f := TakeFellow(es, fs, es[i]);
        var j :| 0 <= j < |fs| && fs[j] == f;
        assert y[j] == k;
      }
      if k in y {
        var j :| 0 <= j < |fs| && y[j] == k;
        var e := TakeFellowOf(es, fs, fs[j]);
        var i :| 0 <= i < |es| && es[i] == e;
        assert x[i] == k;
      }
    }
    SameSetSameMultiset(x, y);
    ExactKeysExactly(es, keys);
    ExactKeysExactly(fs, keys);
  }

  // ---- Sensitive text ----

  /** Whether some sensitive pattern matches a text. */
  type Pattern = Units -> bool

  /** The visitor: each value with the key it stands under, items of arrays under the empty one. */
  predicate Absent(v: Json, key: Units, sensitive: Pattern)
    decreases v
  {
    && !sensitive(key)
    && match v
       case String(s) => !sensitive(s)
       case Array(items) => forall i | 0 <= i < |items| :: Absent(items[i], [], sensitive)
       case Object(es) => forall i | 0 <= i < |es| :: Absent(es[i].value, es[i].key, sensitive)
       case _ => true
  }

  /** Where a path of positions leads: the key last passed, and the value. */
  function Walk(v: Json, key: Units, path: seq<nat>): Option<(Units, Json)>
    decreases |path|
  {
    if path == [] then
      Some((key, v))
    else
      match v
      case Array(items) => if path[0] < |items| then Walk(items[path[0]], [], path[1..]) else None
      case Object(es) => if path[0] < |es| then Walk(es[path[0]].value, es[path[0]].key, path[1..]) else None
      case _ => None
  }

  predicate Shows(found: (Units, Json), sensitive: Pattern) {
    sensitive(found.0) || (found.1.String? && sensitive(found.1.units))
  }

  ghost predicate ShownAlong(v: Json, key: Units, path: seq<nat>, sensitive: Pattern) {
    Walk(v, key, path).Some? && Shows(Walk(v, key, path).value, sensitive)
  }

  /** The visitor lets a value through exactly when no path, however deep, leads to a sensitive key or string. */
  lemma AbsentExactly(v: Json, key: Units, sensitive: Pattern)
    ensures Absent(v, key, sensitive) <==> forall path :: !ShownAlong(v, key, path, sensitive)
  {
    if Absent(v, key, sensitive) {
      forall path
        ensures !ShownAlong(v, key, path, sensitive)
      {
        AbsentAlong(v, key, path, sensitive);
      }
    } else {
      var path := LeadTo(v, key, sensitive);
      assert ShownAlong(v, key, path, sensitive);
    }
  }

  lemma {:induction false} AbsentAlong(v: Json, key: Units, path: seq<nat>, sensitive: Pattern)
    requires Absent(v, key, sensitive)
    ensures !ShownAlong(v, key, path, sensitive)
    decreases |path|
  {
    if path != [] {
      match v {
        case Array(items) =>
          if path[0] < |items| {
            AbsentAlong(items[path[0]], [], path[1..], sensitive);
          }
        case Object(es) =>
          if path[0] < |es| {
            AbsentAlong(es[path[0]].value, es[path[0]].key, path[1..], sensitive);
          }
        case _ =>
      }
    }
  }

  lemma {:induction false} LeadTo(v: Json, key: Units, sensitive: Pattern) returns (path: seq<nat>)
    requires !Absent(v, key, sensitive)
    ensures ShownAlong(v, key, path, sensitive)
    decreases v
  {
    path := [];
    if !Shows((key, v), sensitive) {
      match v {
        case Array(items) =>
          var i :| 0 <= i < |items| && !Absent(items[i], [], sensitive);
          var rest := LeadTo(items[i], [], sensitive);
          path := [i] + rest;
          assert path[1..] == rest;
        case Object(es) =>
          var i :| 0 <= i < |es| && !Absent(es[i].value, es[i].key, sensitive);
          var rest := LeadTo(es[i].value, es[i].key, sensitive);
          path := [i] + rest;
          assert path[1..] == rest;
        case _ =>
      }
    }
  }

  /** Reordering keys, at any depth, hides nothing from the visitor. */
  lemma {:induction false} AbsentForgetsOrder(v: Json, w: Json, key: Units, sensitive: Pattern)
    requires Equiv(v, w) && Absent(v, key, sensitive)
    ensures Absent(w, key, sensitive)
    decreases v
  {
    match v {
      case Array(items) =>
        forall i | 0 <= i < |items|
          ensures Absent(w.items[i], [], sensitive)
        {
          AbsentForgetsOrder(items[i], w.items[i], [], sensitive);
        }
      case Object(es) =>
        EntriesForgetOrder(es, w.entries, sensitive);
      case _ =>
    }
  }

  lemma {:induction false} EntriesForgetOrder(es: seq<Entry>, fs: seq<Entry>, sensitive: Pattern)
    requires Paired(es, fs)
    requires forall i | 0 <= i < |es| :: Absent(es[i].value, es[i].key, sensitive)
    ensures forall j | 0 <= j < |fs| :: Absent(fs[j].value, fs[j].key, sensitive)
    decreases es, 0
  {
    forall j | 0 <= j < |fs|
      ensures Absent(fs[j].value, fs[j].key, sensitive)
    {
      var e := TakeFellowOf(es, fs, fs[j]);
      var i :| 0 <= i < |es| && es[i] == e;
      AbsentForgetsOrder(es[i].value, fs[j].value, es[i].key, sensitive);
    }
  }

  /** What the sanitizer let through, the verifier lets through too, however the file's keys are ordered. */
  lemma AbsenceSurvives(envelope: seq<Entry>, file: seq<Entry>, hash: Hash, le: Compare, sensitive: Pattern)
    requires forall e | e in envelope :: e.key != INTEGRITY
    requires Equiv(Object(Seal(envelope, hash, le)), Object(file))
    requires Absent(Object(envelope), [], sensitive)
    ensures Absent(Object(Without(file, INTEGRITY)), [], sensitive)
  {
    var seal := Entry(INTEGRITY, String(Sha256(Object(envelope), hash, le)));
    hide Paired, Without;
    EquivIsPaired(envelope + [seal], file);
    WithoutPaired(envelope + [seal], file, INTEGRITY);
    WithoutSeal(envelope, seal);
    EntriesForgetOrder(envelope, Without(file, INTEGRITY), sensitive);
  }
}
