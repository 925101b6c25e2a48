/** The integrity digest of an evidence file: sealed by the sanitizer, checked by the verifier. */
module EvidenceIntegrity {
  import opened Wrappers
  import opened Orders
  import opened JsonText
  import opened CanonicalJson
  import opened Hashes
  import opened ObjectKeys
  import opened KeyTies
  import opened JsonLayout

  /** SHA-256 of a text, in hexadecimal. */
  type Hash = Units -> Units

  /** "integrity_sha256" */
  const INTEGRITY: Units :=
    [0x69, 0x6E, 0x74, 0x65, 0x67, 0x72, 0x69, 0x74, 0x79, 0x5F, 0x73, 0x68, 0x61, 0x32, 0x35, 0x36]

  function Sha256(v: Json, hash: Hash, le: Compare): Units {
    hash(Print(v, le))
  }

  /** The envelope with its own digest added as the last entry. */
  function Seal(envelope: seq<Entry>, hash: Hash, le: Compare): seq<Entry> {
    envelope + [Entry(INTEGRITY, String(Sha256(Object(envelope), hash, le)))]
  }

  function Without(es: seq<Entry>, key: Units): (r: seq<Entry>)
    ensures forall e :: e in r <==> e in es && e.key != key
  {
    if es == [] then
      []
    else
      assert es == [es[0]] + es[1..];
      if es[0].key == key then Without(es[1..], key) else [es[0]] + Without(es[1..], key)
  }

  function Lookup(es: seq<Entry>, key: Units): (r: Option<Json>)
    ensures r.Some? ==> Entry(key, r.value) in es
    ensures r.None? ==> forall e | e in es :: e.key != key
  {
    if es == [] then
      None
    else
      assert es == [es[0]] + es[1..];
      if es[0].key == key then Some(es[0].value) else Lookup(es[1..], key)
  }

  /** The verifier takes the digest out of the file and compares it with that of the rest. */
  predicate Verified(evidence: seq<Entry>, hash: Hash, le: Compare) {
    match Lookup(evidence, INTEGRITY)
    case Some(String(integrity)) => integrity == Sha256(Object(Without(evidence, INTEGRITY)), hash, le)
    case _ => false
  }

  lemma WithoutStep(head: Entry, rest: seq<Entry>, key: Units)
    ensures Without([head] + rest, key) == (if head.key == key then [] else [head]) + Without(rest, key)
    ensures Lookup([head] + rest, key) == if head.key == key then Some(head.value) else Lookup(rest, key)
  {
    assert ([head] + rest)[1..] == rest;
  }

  lemma DistinctStep(head: Entry, rest: seq<Entry>)
    requires DistinctKeys([head] + rest)
    ensures DistinctKeys(rest) && forall i | 0 <= i < |rest| :: rest[i].key != head.key
  {
    var es := [head] + rest;
    assert es[0] == head && forall i | 0 <= i < |rest| :: rest[i] == es[i + 1];
  }

  lemma {:induction false} WithoutAt(es: seq<Entry>, i: nat)
    requires DistinctKeys(es) && i < |es|
    ensures Without(es, es[i].key) == es[..i] + es[i + 1..]
    ensures Lookup(es, es[i].key) == Some(es[i].value)
  {
    hide Without, Lookup, DistinctKeys;
    var head, rest, key := es[0], es[1..], es[i].key;
    assert es == [head] + rest;
    DistinctStep(head, rest);
    WithoutStep(head, rest, key);
    if i == 0 {
      NothingTaken(rest, key);
    } else {
      assert rest[i - 1] == es[i];
      WithoutAt(rest, i - 1);
      assert [head] + (rest[..i - 1] + rest[i..]) == es[..i] + es[i + 1..];
    }
  }

  lemma {:induction false} NothingTaken(es: seq<Entry>, key: Units)
    requires forall i | 0 <= i < |es| :: es[i].key != key
    ensures Without(es, key) == es
  {
    if es != [] {
      NothingTaken(es[1..], key);
      assert es == [es[0]] + es[1..];
    }
  }

  /** The file has its digest under `integrity_sha256`: that of the canonical text of all its other entries. */
  lemma VerifiedExactly(evidence: seq<Entry>, hash: Hash, le: Compare)
    requires DistinctKeys(evidence)
    ensures Verified(evidence, hash, le) <==>
            exists i | 0 <= i < |evidence| ::
              evidence[i] ==
              Entry(Ascii("integrity_sha256"),
                    String(hash(Stringified(Canon(Object(evidence[..i] + evidence[i + 1..]), le)))))
  {
    assert Ascii("integrity_sha256") == INTEGRITY;
    hide Canon, Print, Stringified, Without, Lookup, Ascii;
    forall i | 0 <= i < |evidence| && evidence[i].key == INTEGRITY
      ensures Verified(evidence, hash, le) <==>
              evidence[i].value == String(hash(Stringified(Canon(Object(evidence[..i] + evidence[i + 1..]), le))))
    {
      WithoutAt(evidence, i);
      PrintExactly(Object(evidence[..i] + evidence[i + 1..]), le);
    }
    if Verified(evidence, hash, le) {
      var x := Entry(INTEGRITY, Lookup(evidence, INTEGRITY).value);
      var i :| 0 <= i < |evidence| && evidence[i] == x;
      assert evidence[i].key == INTEGRITY;
    }
  }

  /** Sealing adds that entry last. */
  lemma SealExactly(envelope: seq<Entry>, hash: Hash, le: Compare)
    ensures Seal(envelope, hash, le) ==
            envelope +
            [Entry(Ascii("integrity_sha256"), String(hash(Stringified(Canon(Object(envelope), le)))))]
  {
    assert Ascii("integrity_sha256") == INTEGRITY;
    PrintExactly(Object(envelope), le);
    hide Canon, Print, Stringified;
  }

  lemma HeadWellFormed(e: Entry, es: seq<Entry>)
    ensures WellFormed(Object([e] + es)) <==>
            WellFormed(e.value) && WellFormed(Object(es)) && forall f | f in es :: f.key != e.key
  {
    var all := [e] + es;
    assert all[0] == e && forall i | 0 <= i < |es| :: all[i + 1] == es[i];
  }

  lemma {:induction false} WithoutWellFormed(es: seq<Entry>, key: Units)
    requires WellFormed(Object(es))
    ensures WellFormed(Object(Without(es, key)))
  {
    if es == [] {
    } else {
      hide WellFormed;
      assert es == [es[0]] + es[1..];
      HeadWellFormed(es[0], es[1..]);
      WithoutWellFormed(es[1..], key);
      HeadWellFormed(es[0], Without(es[1..], key));
    }
  }

  lemma HeadEnumerated(e: Entry, es: seq<Entry>)
    ensures Enumerated(Object([e] + es)) <==>
            Enumerated(e.value) && Enumerated(Object(es)) && forall f | f in es :: MayPrecede(e.key, f.key)
  {
    hide MayPrecede;
    var all := [e] + es;
    assert all[0] == e && forall i | 0 <= i < |es| :: all[i + 1] == es[i];
  }

  lemma {:induction false} WithoutEnumerated(es: seq<Entry>, key: Units)
    requires Enumerated(Object(es))
    ensures Enumerated(Object(Without(es, key)))
  {
    if es == [] {
    } else {
      hide Enumerated, MayPrecede;
      assert es == [es[0]] + es[1..];
      HeadEnumerated(es[0], es[1..]);
      WithoutEnumerated(es[1..], key);
      HeadEnumerated(es[0], Without(es[1..], key));
    }
  }

  lemma UniqueKey(es: seq<Entry>, a: Entry, b: Entry)
    requires DistinctKeys(es) && a in es && b in es && a.key == b.key
    ensures a == b
  {
    var i :| 0 <= i < |es| && es[i] == a;
    var j :| 0 <= j < |es| && es[j] == b;
    var p, q := es[i].key, es[j].key;
  }

  /** Taking one key out of two equal objects leaves equal objects. */
  lemma WithoutPaired(es: seq<Entry>, fs: seq<Entry>, key: Units)
    requires Paired(es, fs)
    ensures Paired(Without(es, key), Without(fs, key))
  {
    hide Paired, Equiv;
    var a, b := Without(es, key), Without(fs, key);
    forall e | e in a
      ensures FellowIn(e, b)
    {
      var f := TakeFellow(es, fs, e);
      assert f in b;
    }
    forall f | f in b
      ensures FellowOf(a, f)
    {
      var e := TakeFellowOf(es, fs, f);
      assert e in a;
    }
    PairedFrom(a, b);
  }

  lemma PairedFrom(a: seq<Entry>, b: seq<Entry>)
    requires forall e | e in a :: FellowIn(e, b)
    requires forall f | f in b :: FellowOf(a, f)
    ensures Paired(a, b)
  {
    hide FellowIn, FellowOf;
  }

  /** Without the key it was sealed under, the sealed file is the envelope. */
  lemma {:induction false} WithoutSeal(envelope: seq<Entry>, e: Entry)
    requires forall x | x in envelope :: x.key != e.key
    ensures Without(envelope + [e], e.key) == envelope
  {
    if envelope == [] {
      assert [] + [e] == [e];
    } else {
      assert (envelope + [e])[1..] == envelope[1..] + [e];
      WithoutSeal(envelope[1..], e);
      assert envelope == [envelope[0]] + envelope[1..];
    }
  }

  /**
   A sealed file verifies however the keys of its objects are ordered, at every depth, as long as no two
   keys of one object of the envelope compare equal of which neither is an array index.
   */
  lemma ReverifiesInAnyOrder(envelope: seq<Entry>, file: seq<Entry>, hash: Hash, le: Compare)
    requires TotalPreorder(le) && Parsed(Object(envelope)) && Untied(Object(envelope), le)
    requires forall e | e in envelope :: e.key != INTEGRITY
    requires Parsed(Object(file)) && Equiv(Object(Seal(envelope, hash, le)), Object(file))
    ensures Verified(file, hash, le)
  {
    hide Paired, Equiv, TotalPreorder, Untied, WellFormed, Enumerated, Print, Without, Lookup;
    var sealed := Seal(envelope, hash, le);
    var seal := sealed[|envelope|];
    EquivIsPaired(sealed, file);
    SealFound(sealed, file, seal);
    WithoutSeal(envelope, seal);
    WithoutPaired(sealed, file, INTEGRITY);
    WithoutWellFormed(file, INTEGRITY);
    WithoutEnumerated(file, INTEGRITY);
    SamePrint(envelope, Without(file, INTEGRITY), le);
  }

  /**
   The sealed file verifies under every order of keys if and only if no two keys of one object of the envelope
   compare equal of which neither is an array index.
   */
  lemma ReverifiesExactly(envelope: seq<Entry>, hash: Hash, le: Compare)
    requires CollisionFree(hash) && TotalPreorder(le) && Parsed(Object(envelope))
    requires forall e | e in envelope :: e.key != INTEGRITY
    ensures Untied(Object(envelope), le) <==>
            forall file | Parsed(Object(file)) && Equiv(Object(Seal(envelope, hash, le)), Object(file)) ::
              Verified(file, hash, le)
  {
    hide Parsed, Equiv, TotalPreorder, Untied, Verified, Seal, CollisionFree;
    if Untied(Object(envelope), le) {
      forall file | Parsed(Object(file)) && Equiv(Object(Seal(envelope, hash, le)), Object(file))
        ensures Verified(file, hash, le)
      {
        ReverifiesInAnyOrder(envelope, file, hash, le);
      }
    } else {
      var file := RefusedFile(envelope, hash, le);
    }
  }

  /** With an open tie in the envelope, the sealed file has an order of keys in which it does not verify. */
  lemma RefusedFile(envelope: seq<Entry>, hash: Hash, le: Compare) returns (file: seq<Entry>)
    requires CollisionFree(hash) && TotalPreorder(le) && Parsed(Object(envelope)) && !Untied(Object(envelope), le)
    requires forall e | e in envelope :: e.key != INTEGRITY
    ensures Parsed(Object(file)) && Equiv(Object(Seal(envelope, hash, le)), Object(file))
    ensures !Verified(file, hash, le)
  {
    hide WellFormed, Enumerated, Equiv, TotalPreorder, Untied, Print, Without, Lookup, Canon, Paired;
    var others := Reordered(envelope, le);
    var sealed := Seal(envelope, hash, le);
    var seal := sealed[|envelope|];
    file := others + [seal];
    forall f | f in others
      ensures f.key != INTEGRITY
    {
      var e := TakeFellowOf(envelope, others, f);
    }
    SealParsed(others, seal);
    SealPaired(envelope, others, seal);
    PairedIsEquiv(sealed, file);
    SealFound(sealed, file, seal);
    WithoutSeal(others, seal);
  }

  lemma Reordered(es: seq<Entry>, le: Compare) returns (others: seq<Entry>)
    requires TotalPreorder(le) && Parsed(Object(es)) && !Untied(Object(es), le)
    ensures Parsed(Object(others)) && Paired(es, others) && Print(Object(others), le) != Print(Object(es), le)
  {
    hide WellFormed, Enumerated, TotalPreorder, Untied, Print, Canon, Paired;
    var w := Disagreeing(Object(es), le);
    PrintEqualsCanon(w, Object(es), le);
    others := w.entries;
  }

  /** A string under a key that is no index may be added last. */
  lemma SealParsed(es: seq<Entry>, seal: Entry)
    requires Parsed(Object(es)) && seal.key == INTEGRITY && seal.value.String?
    requires forall e | e in es :: e.key != INTEGRITY
    ensures Parsed(Object(es + [seal]))
  {
    var fs := es + [seal];
    assert !DigitUnit(INTEGRITY[0]);
    forall i, j | 0 <= i < j < |fs|
      ensures fs[i].key != fs[j].key && MayPrecede(fs[i].key, fs[j].key)
    {
      if j < |es| {
        assert MayPrecede(es[i].key, es[j].key);
      } else {
        assert fs[i] in es && !IsIndex(fs[j].key);
      }
    }
    EnumeratedObject(fs);
  }

  lemma SealPaired(es: seq<Entry>, fs: seq<Entry>, seal: Entry)
    requires Paired(es, fs) && seal.value.String?
    ensures Paired(es + [seal], fs + [seal])
  {
    hide Paired, Equiv;
    var a, b := es + [seal], fs + [seal];
    EquivReflexive(seal.value);
    forall e | e in a
      ensures FellowIn(e, b)
    {
      if e in es {
        var f := TakeFellow(es, fs, e);
        assert f in b;
      } else {
        assert seal in b && Same(e, seal);
      }
    }
    forall f | f in b
      ensures FellowOf(a, f)
    {
      if f in fs {
        var e := TakeFellowOf(es, fs, f);
        assert e in a;
      } else {
        assert seal in a && Same(seal, f);
      }
    }
    PairedFrom(a, b);
  }

  lemma PairedIsEquiv(es: seq<Entry>, fs: seq<Entry>)
    requires Paired(es, fs)
    ensures Equiv(Object(es), Object(fs))
  {
    hide Paired;
  }

  lemma EquivIsPaired(es: seq<Entry>, fs: seq<Entry>)
    requires Equiv(Object(es), Object(fs))
    ensures Paired(es, fs)
  {
    hide Paired, FellowIn, FellowOf, Same;
  }

  /** A string entry of one object is found under its key in every equal object. */
  lemma SealFound(sealed: seq<Entry>, file: seq<Entry>, seal: Entry)
    requires Paired(sealed, file) && WellFormed(Object(file))
    requires seal in sealed && seal.value.String?
    ensures Lookup(file, seal.key) == Some(seal.value)
  {
    hide Paired;
    var f := TakeFellow(sealed, file, seal);
    assert f.value == seal.value;
    UniqueKey(file, f, Entry(seal.key, Lookup(file, seal.key).value));
  }

  lemma SamePrint(es: seq<Entry>, fs: seq<Entry>, le: Compare)
    requires TotalPreorder(le) && Parsed(Object(es)) && Parsed(Object(fs))
    requires Paired(es, fs) && Untied(Object(es), le)
    ensures Print(Object(es), le) == Print(Object(fs), le)
  {
    hide Paired, FellowIn, FellowOf, Same, TotalPreorder, Parsed, Untied, Print;
    ParsedPrintsAlike(Object(es), Object(fs), le);
  }

  /** Under a collision-free hash, files that verify against one digest have equal contents, keys' order apart. */
  lemma DigestPinsContents(a: seq<Entry>, b: seq<Entry>, hash: Hash, le: Compare)
    requires CollisionFree(hash) && TotalPreorder(le) && WellFormed(Object(a)) && WellFormed(Object(b))
    requires Verified(a, hash, le) && Verified(b, hash, le)
    requires Lookup(a, INTEGRITY) == Lookup(b, INTEGRITY)
    ensures Equiv(Object(Without(a, INTEGRITY)), Object(Without(b, INTEGRITY)))
  {
    hide Print, Equiv, TotalPreorder;
    WithoutWellFormed(a, INTEGRITY);
    WithoutWellFormed(b, INTEGRITY);
    PrinterIsCanonical(Object(Without(a, INTEGRITY)), Object(Without(b, INTEGRITY)), le);
  }
}
