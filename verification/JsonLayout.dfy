/**
 The text that JSON.stringify writes, laid out unit by unit as section 25.5.2 of ECMA-262 has it: which units
 are escaped and how, the literals, and what stands between the parts.  `Show` and the canonical printer write
 exactly this.
 */
module JsonLayout {
  import opened Orders
  import opened JsonText
  import opened CanonicalJson

  // ---- Strings ----

  const HEX_DIGITS: Units := Ascii("0123456789abcdef")

  /** A high surrogate without a low one after it, or a low one without a high one before it. */
  predicate Lone(s: Units, i: nat)
    requires i < |s|
  {
    || (0xD800 <= s[i] <= 0xDBFF && !(i + 1 < |s| && 0xDC00 <= s[i + 1] <= 0xDFFF))
    || (0xDC00 <= s[i] <= 0xDFFF && !(i > 0 && 0xD800 <= s[i - 1] <= 0xDBFF))
  }

  /** How the unit at `i` is written. */
  function Written(s: Units, i: nat): Units
    requires i < |s|
  {
    match s[i]
    case 0x08 => Ascii("\\b")
    case 0x09 => Ascii("\\t")
    case 0x0A => Ascii("\\n")
    case 0x0C => Ascii("\\f")
    case 0x0D => Ascii("\\r")
    case 0x22 => Ascii("\\\"")
    case 0x5C => Ascii("\\\\")
    case u =>
      if u <= 0x1F || Lone(s, i) then
        Ascii("\\u") +
        [HEX_DIGITS[u / 4096], HEX_DIGITS[u / 256 % 16], HEX_DIGITS[u / 16 % 16], HEX_DIGITS[u % 16]]
      else
        [u]
  }

  /** The units from `i` on, each as it is written. */
  function WrittenFrom(s: Units, i: nat): Units
    requires i <= |s|
    decreases |s| - i
  {
    if i == |s| then [] else Written(s, i) + WrittenFrom(s, i + 1)
  }

  lemma HexDigits()
    ensures forall n: int | 0 <= n < 16 :: HexDigit(n) == HEX_DIGITS[n]
  {
    forall n: int | 0 <= n < 16
      ensures HexDigit(n) == HEX_DIGITS[n]
    {
      assert n == 0 || n == 1 || n == 2 || n == 3 || n == 4 || n == 5 || n == 6 || n == 7 ||
             n == 8 || n == 9 || n == 10 || n == 11 || n == 12 || n == 13 || n == 14 || n == 15;
    }
  }

  lemma HexWritten(u: CodeUnit)
    ensures UnicodeEscape(u) ==
            Ascii("\\u") + [HEX_DIGITS[u / 4096], HEX_DIGITS[u / 256 % 16], HEX_DIGITS[u / 16 % 16], HEX_DIGITS[u % 16]]
  {
    HexDigits();
    hide HexDigit, HEX_DIGITS;
    assert Ascii("\\u") == [BACKSLASH, 0x75];
  }

  lemma EscapedAlone(s: Units, i: nat)
    requires i < |s|
    requires Lone(s, i) <==> High(s[i]) || Low(s[i])
    ensures EscapeUnit(s[i]) == Written(s, i)
  {
    hide HexDigit, HEX_DIGITS, UnicodeEscape;
    HexWritten(s[i]);
  }

  lemma WrittenPair(s: Units, i: nat)
    requires i + 1 < |s| && High(s[i]) && Low(s[i + 1])
    ensures Written(s, i) == [s[i]] && Written(s, i + 1) == [s[i + 1]]
  {
  }

  lemma EscapeNothing()
    ensures Escape([]) == []
  {
  }

  /** The escaping of a string is that of its units, each known by itself and its neighbours. */
  lemma {:induction false} EscapeExactly(s: Units, i: nat)
    requires i <= |s|
    requires i > 0 && i < |s| ==> !(High(s[i - 1]) && Low(s[i]))
    ensures Escape(s[i..]) == WrittenFrom(s, i)
    decreases |s| - i
  {
    hide EscapeUnit, Written, Escape;
    var t := s[i..];
    if i == |s| {
      EscapeNothing();
    } else {
      EscapeStep(t);
      if |t| > 1 && High(t[0]) && Low(t[1]) {
        EscapeExactly(s, i + 2);
        WrittenPair(s, i);
        assert t[2..] == s[i + 2..];
        assert [s[i], s[i + 1]] == [s[i]] + [s[i + 1]];
      } else {
        EscapeExactly(s, i + 1);
        EscapedAlone(s, i);
        assert t[1..] == s[i + 1..];
      }
    }
  }

  /** Whether JSON writes a unit otherwise than as it is. */
  predicate NeedsEscape(s: Units, i: nat)
    requires i < |s|
  {
    s[i] == 0x22 || s[i] == 0x5C || s[i] <= 0x1F || Lone(s, i)
  }

  lemma WrittenLength(s: Units, i: nat)
    requires i < |s|
    ensures |Written(s, i)| >= 1
    ensures Written(s, i) == [s[i]] <==> !NeedsEscape(s, i)
    ensures |Written(s, i)| == 1 <==> !NeedsEscape(s, i)
  {
  }

  lemma {:induction false} WrittenFromLength(s: Units, i: nat)
    requires i <= |s|
    ensures |WrittenFrom(s, i)| >= |s| - i
    ensures WrittenFrom(s, i) == s[i..] <==> forall k | i <= k < |s| :: !NeedsEscape(s, k)
    decreases |s| - i
  {
    hide Written, NeedsEscape;
    if i < |s| {
      WrittenLength(s, i);
      WrittenFromLength(s, i + 1);
      var first, rest := Written(s, i), WrittenFrom(s, i + 1);
      assert s[i..] == [s[i]] + s[i + 1..];
      if WrittenFrom(s, i) == s[i..] {
        assert |first| == 1;
        assert rest == (first + rest)[1..] == s[i..][1..];
      }
    }
  }

  /** A string stands verbatim between quotes exactly when no unit of it needs an escape. */
  lemma VerbatimExactly(s: Units)
    ensures Quote(s) == [0x22] + s + [0x22] <==> forall i | 0 <= i < |s| :: !NeedsEscape(s, i)
  {
    hide Escape, WrittenFrom, NeedsEscape;
    EscapeExactly(s, 0);
    WrittenFromLength(s, 0);
    assert s[0..] == s;
    if Quote(s) == [0x22] + s + [0x22] {
      var q, r := Quote(s), [0x22] + s + [0x22];
      assert Escape(s) == q[1..|q| - 1] && s == r[1..|r| - 1];
    }
  }

  // ---- Values ----

  /** The texts with a separator between each two. */
  function Separated(ts: seq<Units>): Units {
    if ts == [] then
      []
    else
      var last := |ts| - 1;
      if last == 0 then ts[0] else Separated(ts[..last]) + Ascii(",") + ts[last]
  }

  /** The text of a value. */
  function Stringified(v: Json): Units {
    match v
    case Null => Ascii("null")
    case Bool(true) => Ascii("true")
    case Bool(false) => Ascii("false")
    case Number(digits) => digits
    case String(s) => Ascii("\"") + WrittenFrom(s, 0) + Ascii("\"")
    case Array(items) =>
      var texts := seq(|items|, i requires 0 <= i < |items| => Stringified(items[i]));
      Ascii("[") + Separated(texts) + Ascii("]")
    case Object(es) =>
      var texts := seq(|es|, i requires 0 <= i < |es| => Member(es[i].key, Stringified(es[i].value)));
      Ascii("{") + Separated(texts) + Ascii("}")
  }

  /** A key and the text of its value. */
  function Member(key: Units, text: Units): Units {
    Ascii("\"") + WrittenFrom(key, 0) + Ascii("\":") + text
  }

  lemma {:induction false} JoinLast(ts: seq<Units>, last: Units)
    requires ts != []
    ensures Join(ts + [last]) == Join(ts) + [COMMA] + last
  {
    assert (ts + [last])[1..] == ts[1..] + [last];
    if |ts| > 1 {
      JoinLast(ts[1..], last);
    }
  }

  lemma {:induction false} JoinSeparates(ts: seq<Units>)
    ensures Join(ts) == Separated(ts)
  {
    if |ts| > 1 {
      var last := |ts| - 1;
      JoinSeparates(ts[..last]);
      JoinLast(ts[..last], ts[last]);
      assert ts == ts[..last] + [ts[last]];
      assert Ascii(",") == [COMMA];
    }
  }

  lemma Quoted(s: Units)
    ensures Quote(s) == Ascii("\"") + WrittenFrom(s, 0) + Ascii("\"")
  {
    EscapeExactly(s, 0);
    assert s[0..] == s && Ascii("\"") == [QUOTE];
  }

  lemma MemberShown(e: Entry)
    requires Show(e.value) == Stringified(e.value)
    ensures ShowEntry(e) == Member(e.key, Stringified(e.value))
  {
    hide Show, Stringified, WrittenFrom;
    Quoted(e.key);
    assert Ascii("\":") == Ascii("\"") + [COLON];
  }

  lemma {:induction false} ShowItemsAt(items: seq<Json>, i: nat)
    requires i < |items|
    ensures ShowItems(items)[i] == Show(items[i])
  {
    if i > 0 {
      ShowItemsAt(items[1..], i - 1);
    }
  }

  lemma {:induction false} ShowEntriesAt(es: seq<Entry>, i: nat)
    requires i < |es|
    ensures ShowEntries(es)[i] == ShowEntry(es[i])
  {
    if i > 0 {
      ShowEntriesAt(es[1..], i - 1);
    }
  }

  /** `Show` writes the text of every value. */
  lemma {:induction false} ShowExactly(v: Json)
    ensures Show(v) == Stringified(v)
    decreases v
  {
    hide WrittenFrom, Separated, Join, Quote, ShowItems, ShowEntries, ShowEntry;
    match v {
      case String(s) => Quoted(s);
      case Array(items) =>
        var texts := seq(|items|, i requires 0 <= i < |items| => Stringified(items[i]));
        forall i | 0 <= i < |items|
          ensures ShowItems(items)[i] == texts[i]
        {
          ShowItemsAt(items, i);
          ShowExactly(items[i]);
        }
        assert ShowItems(items) == texts;
        JoinSeparates(texts);
        Brackets();
      case Object(es) =>
        var texts := seq(|es|, i requires 0 <= i < |es| => Member(es[i].key, Stringified(es[i].value)));
        forall i | 0 <= i < |es|
          ensures ShowEntries(es)[i] == texts[i]
        {
          ShowEntriesAt(es, i);
          ShowExactly(es[i].value);
          MemberShown(es[i]);
        }
        assert ShowEntries(es) == texts;
        JoinSeparates(texts);
        Brackets();
      case _ => Literals();
    }
  }

  lemma Brackets()
    ensures Ascii("[") == [LBRACKET] && Ascii("]") == [RBRACKET]
    ensures Ascii("{") == [LBRACE] && Ascii("}") == [RBRACE]
  {
  }

  lemma Literals()
    ensures Show(Null) == Ascii("null") && Show(Bool(true)) == Ascii("true") && Show(Bool(false)) == Ascii("false")
  {
  }

  // ---- The canonical text ----

  /** The canonical form: items in place, entries ascending by key, with the same keys and canonical values. */
  lemma CanonExactly(v: Json, le: Compare)
    requires TotalPreorder(le)
    ensures match v
            case Array(items) =>
              var c := Canon(v, le);
              c.Array? && |c.items| == |items| && forall i | 0 <= i < |items| :: c.items[i] == Canon(items[i], le)
            case Object(es) =>
              var c := Canon(v, le);
              && c.Object?
              && (forall i, j | 0 <= i < j < |c.entries| :: le(c.entries[i].key, c.entries[j].key))
              && multiset(c.entries) == multiset(Map(es, (e: Entry) => Entry(e.key, Canon(e.value, le))))
            case _ => Canon(v, le) == v
  {
    if v.Object? {
      var x := CanonEntries(v.entries, le);
      assert x == Map(v.entries, (e: Entry) => Entry(e.key, Canon(e.value, le)));
      EntryByTotal(le);
      SortSorts(x, EntryBy(le));
      var c := Sort(x, EntryBy(le));
      hide Canon, Sort;
      forall i, j | 0 <= i < j < |c|
        ensures le(c[i].key, c[j].key)
      {
        assert EntryBy(le)(c[i], c[j]);
      }
    }
  }

  /** The printer writes the text of the canonical form. */
  lemma PrintExactly(v: Json, le: Compare)
    ensures Print(v, le) == Stringified(Canon(v, le))
  {
    hide Print, Stringified, Canon, Show;
    PrintShowsCanon(v, le);
    ShowExactly(Canon(v, le));
  }
}
