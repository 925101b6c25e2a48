/**
 JSON values and their texts as JSON.stringify writes them, in UTF-16 code units (section 25.5.2 of
 ECMA-262), objects in the order of their entries.  The text can be read back in one way only.
 */
module JsonText {
  import opened Wrappers
  import opened Orders

  type CodeUnit = x: int | 0 <= x < 0x1_0000
  type Units = seq<CodeUnit>

  /** The white space and line terminators of sections 12.2 and 12.3 of ECMA-262. */
  predicate WhiteSpace(code: int) {
    || code in [0x09, 0x0A, 0x0B, 0x0C, 0x0D, 0x20, 0xA0, 0x1680, 0x2028, 0x2029, 0x202F, 0x205F, 0x3000, 0xFEFF]
    || 0x2000 <= code <= 0x200A
  }

  function Ascii(s: string): (u: Units)
    ensures |u| == |s|
  {
    seq(|s|, i requires 0 <= i < |s| => s[i] as int % 0x80)
  }

  predicate Includes(text: Units, part: Units) {
    exists i | 0 <= i <= |text| :: part <= text[i..]
  }

  lemma IncludedBetween(a: Units, part: Units, b: Units)
    ensures Includes(a + part + b, part)
  {
    assert part <= (a + part + b)[|a|..];
  }

  /** The two tables, written out. */
  lemma WhiteSpaceExactly(code: int)
    ensures WhiteSpace(code) <==>
            code in {'\t' as int, 0x0B, 0x0C, ' ' as int, 0xA0, 0xFEFF, '\n' as int, '\r' as int, 0x2028, 0x2029,
                     0x1680, 0x2000, 0x2001, 0x2002, 0x2003, 0x2004, 0x2005, 0x2006, 0x2007, 0x2008, 0x2009, 0x200A,
                     0x202F, 0x205F, 0x3000}
  {
  }

  /** One text stands somewhere in another. */
  lemma IncludesExactly(text: Units, part: Units)
    ensures Includes(text, part) <==> exists before, after :: text == before + part + after
  {
    if Includes(text, part) {
      var i :| 0 <= i <= |text| && part <= text[i..];
      assert text == text[..i] + part + text[i..][|part|..];
    }
    if before, after :| text == before + part + after {
      IncludedBetween(before, part, after);
    }
  }

  /** The default order of strings, by code units. */
  predicate UnitsLe(a: Units, b: Units) {
    LexLe(a, b)
  }

  lemma UnitsLeTotal()
    ensures TotalPreorder(UnitsLe)
    ensures forall a, b | UnitsLe(a, b) && UnitsLe(b, a) :: a == b
  {
    forall a: Units, b: Units
      ensures UnitsLe(a, b) || UnitsLe(b, a)
      ensures UnitsLe(a, b) && UnitsLe(b, a) ==> a == b
    {
      LexTotal(a, b);
    }
    forall a: Units, b: Units, c: Units | UnitsLe(a, b) && UnitsLe(b, c)
      ensures UnitsLe(a, c)
    {
      LexTransitive(a, b, c);
    }
  }

  /** A finite number is known by its shortest decimal text, which Number::toString gives it. */
  datatype Json =
    | Null
    | Bool(value: bool)
    | Number(digits: Units)
    | String(units: Units)
    | Array(items: seq<Json>)
    | Object(entries: seq<Entry>)

  datatype Entry = Entry(key: Units, value: Json)

  const SLASH: CodeUnit := 0x2F
  const QUOTE: CodeUnit := 0x22
  const BACKSLASH: CodeUnit := 0x5C
  const COMMA: CodeUnit := 0x2C
  const COLON: CodeUnit := 0x3A
  const LBRACKET: CodeUnit := 0x5B
  const RBRACKET: CodeUnit := 0x5D
  const LBRACE: CodeUnit := 0x7B
  const RBRACE: CodeUnit := 0x7D

  /** Whether the left text compares less than or equal to the right one. */
  type Compare = (Units, Units) -> bool

  // ---- Strings ----

  predicate High(u: CodeUnit) {
    0xD800 <= u <= 0xDBFF
  }

  predicate Low(u: CodeUnit) {
    0xDC00 <= u <= 0xDFFF
  }

  function HexDigit(n: int): CodeUnit
    requires 0 <= n < 16
  {
    if n < 10 then 0x30 + n else 0x57 + n
  }

  function HexValue(c: CodeUnit): int {
    if 0x30 <= c <= 0x39 then c as int - 0x30 else if 0x61 <= c <= 0x66 then c as int - 0x57 else 0
  }

  function UnicodeEscape(u: CodeUnit): Units {
    [BACKSLASH, 0x75, HexDigit(u / 0x1000), HexDigit(u / 0x100 % 16), HexDigit(u / 16 % 16), HexDigit(u % 16)]
  }

  /** The letter of a two-character escape. */
  function Letter(u: CodeUnit): Option<CodeUnit> {
    match u
    case 0x08 => Some(0x62)
    case 0x09 => Some(0x74)
    case 0x0A => Some(0x6E)
    case 0x0C => Some(0x66)
    case 0x0D => Some(0x72)
    case 0x22 => Some(0x22)
    case 0x5C => Some(0x5C)
    case _ => None
  }

  /** One unit outside a surrogate pair. */
  function EscapeUnit(u: CodeUnit): Units {
    if Letter(u).Some? then
      [BACKSLASH, Letter(u).value]
    else if u < 0x20 || High(u) || Low(u) then
      UnicodeEscape(u)
    else
      [u]
  }

  function Escape(s: Units): Units {
    if s == [] then
      []
    else if |s| > 1 && High(s[0]) && Low(s[1]) then
      [s[0], s[1]] + Escape(s[2..])
    else
      EscapeUnit(s[0]) + Escape(s[1..])
  }

  function Quote(s: Units): Units {
    [QUOTE] + Escape(s) + [QUOTE]
  }

  function Unletter(c: CodeUnit): CodeUnit {
    match c
    case 0x62 => 0x08
    case 0x74 => 0x09
    case 0x6E => 0x0A
    case 0x66 => 0x0C
    case 0x72 => 0x0D
    case _ => c
  }

  function Cons(u: CodeUnit, r: Option<(Units, Units)>): Option<(Units, Units)> {
    match r
    case None => None
    case Some((s, rest)) => Some(([u] + s, rest))
  }

  /** Reads a string body up to its closing quote; yields the string and what follows the quote. */
  function Unescape(t: Units): Option<(Units, Units)> {
    if t == [] then
      None
    else if t[0] == QUOTE then
      Some(([], t[1..]))
    else if t[0] != BACKSLASH then
      Cons(t[0], Unescape(t[1..]))
    else if |t| >= 2 && t[1] != 0x75 then
      Cons(Unletter(t[1]), Unescape(t[2..]))
    else if |t| >= 6 then
      Cons(HexValue(t[2]) * 0x1000 + HexValue(t[3]) * 0x100 + HexValue(t[4]) * 16 + HexValue(t[5]), Unescape(t[6..]))
    else
      None
  }

  lemma HexRoundTrip(u: CodeUnit)
    ensures var e := UnicodeEscape(u);
            HexValue(e[2]) * 0x1000 + HexValue(e[3]) * 0x100 + HexValue(e[4]) * 16 + HexValue(e[5]) == u
  {
    var n: int := u;
    var a, b, c := n / 16, n / 0x100, n / 0x1000;
    assert n == a * 16 + n % 16 && a == b * 16 + a % 16 && b == c * 16 + b % 16 && c < 16;
    HexDigitValue(c);
    HexDigitValue(b % 16);
    HexDigitValue(a % 16);
    HexDigitValue(n % 16);
    hide HexDigit, HexValue;
  }

  lemma HexDigitValue(n: int)
    requires 0 <= n < 16
    ensures HexValue(HexDigit(n)) == n
  {
  }

  lemma UnescapeUnit(u: CodeUnit, rest: Units)
    ensures Unescape(EscapeUnit(u) + rest) == Cons(u, Unescape(rest))
  {
    if Letter(u).Some? {
      UnescapeLetter(u, rest);
    } else if u < 0x20 || High(u) || Low(u) {
      UnescapeHex(u, rest);
    } else {
      assert ([u] + rest)[1..] == rest;
    }
  }

  lemma UnescapeLetter(u: CodeUnit, rest: Units)
    requires Letter(u).Some?
    ensures Unescape([BACKSLASH, Letter(u).value] + rest) == Cons(u, Unescape(rest))
  {
    var t := [BACKSLASH, Letter(u).value] + rest;
    assert t[2..] == rest;
  }

  lemma UnescapeHex(u: CodeUnit, rest: Units)
    ensures Unescape(UnicodeEscape(u) + rest) == Cons(u, Unescape(rest))
  {
    HexRoundTrip(u);
    hide HexDigit, HexValue;
    var t := UnicodeEscape(u) + rest;
    assert t[6..] == rest;
  }

  lemma UnescapePair(u: CodeUnit, v: CodeUnit, rest: Units)
    requires High(u) && Low(v)
    ensures Unescape([u, v] + rest) == Cons(u, Cons(v, Unescape(rest)))
  {
    var t := [u, v] + rest;
    assert t[1..] == [v] + rest && t[1..][1..] == rest;
  }

  lemma UnescapeEnd(rest: Units)
    ensures Unescape([QUOTE] + rest) == Some(([], rest))
  {
    assert ([QUOTE] + rest)[1..] == rest;
  }

  lemma EscapeStep(s: Units)
    requires s != []
    ensures Escape(s) ==
            if |s| > 1 && High(s[0]) && Low(s[1]) then
              [s[0], s[1]] + Escape(s[2..])
            else
              EscapeUnit(s[0]) + Escape(s[1..])
  {
  }

  lemma {:induction false} Unquote(s: Units, rest: Units)
    ensures Unescape(Escape(s) + ([QUOTE] + rest)) == Some((s, rest))
  {
    var end := [QUOTE] + rest;
    if s == [] {
      UnescapeEnd(rest);
      assert Escape(s) + end == end;
    } else {
      EscapeStep(s);
      hide Escape, EscapeUnit, Unescape;
      if |s| > 1 && High(s[0]) && Low(s[1]) {
        var body := Escape(s[2..]) + end;
        assert Escape(s) + end == [s[0], s[1]] + body;
        UnescapePair(s[0], s[1], body);
        Unquote(s[2..], rest);
        assert s == [s[0]] + ([s[1]] + s[2..]);
      } else {
        var body := Escape(s[1..]) + end;
        assert Escape(s) + end == EscapeUnit(s[0]) + body;
        UnescapeUnit(s[0], body);
        Unquote(s[1..], rest);
        assert s == [s[0]] + s[1..];
      }
    }
  }

  /** A quoted string is delimited in one way, whatever follows. */
  lemma QuoteUnique(a: Units, b: Units, r: Units, s: Units)
    requires Quote(a) + r == Quote(b) + s
    ensures a == b && r == s
  {
    hide Escape, Unescape;
    var x, y := Escape(a) + ([QUOTE] + r), Escape(b) + ([QUOTE] + s);
    assert Quote(a) + r == [QUOTE] + x;
    assert Quote(b) + s == [QUOTE] + y;
    assert x == ([QUOTE] + x)[1..] && y == ([QUOTE] + y)[1..];
    Unquote(a, r);
    Unquote(b, s);
  }

  // ---- Numbers ----

  predicate NumberUnit(u: CodeUnit) {
    0x30 <= u <= 0x39 || u == 0x2B || u == 0x2D || u == 0x2E || u == 0x65
  }

  /** Starts with a digit or a minus sign, and has only digits, signs, points and an exponent mark. */
  predicate NumberText(t: Units) {
    && t != []
    && (0x30 <= t[0] <= 0x39 || t[0] == 0x2D)
    && forall i | 0 <= i < |t| :: NumberUnit(t[i])
  }

  /** What may follow a value: nothing, or a comma or closing bracket. */
  predicate Ended(r: Units) {
    r == [] || r[0] == COMMA || r[0] == RBRACKET || r[0] == RBRACE
  }

  lemma NumberRunsOn(a: Units, b: Units, r: Units, s: Units)
    requires NumberText(b) && Ended(r) && a + r == b + s
    ensures |b| <= |a|
  {
    assert forall i | 0 <= i < |b| :: (b + s)[i] == b[i];
    assert r != [] ==> (a + r)[|a|] == r[0];
  }

  lemma NumberUnique(a: Units, b: Units, r: Units, s: Units)
    requires NumberText(a) && NumberText(b) && Ended(r) && Ended(s)
    requires a + r == b + s
    ensures a == b && r == s
  {
    NumberRunsOn(a, b, r, s);
    NumberRunsOn(b, a, s, r);
    assert a == (a + r)[..|a|] && b == (b + s)[..|a|];
    assert r == (a + r)[|a|..] && s == (b + s)[|a|..];
  }

  // ---- Values ----

  /** Numbers have number texts, and no object has a key twice, at any depth. */
  ghost predicate WellFormed(v: Json) {
    match v
    case Number(t) => NumberText(t)
    case Array(items) => forall i | 0 <= i < |items| :: WellFormed(items[i])
    case Object(es) =>
      && (forall i | 0 <= i < |es| :: WellFormed(es[i].value))
      && (forall i, j | 0 <= i < j < |es| :: es[i].key != es[j].key)
    case _ => true
  }

  function Join(ts: seq<Units>): Units {
    if |ts| == 0 then [] else if |ts| == 1 then ts[0] else ts[0] + [COMMA] + Join(ts[1..])
  }

  function Show(v: Json): Units
    decreases v, 1
  {
    match v
    case Null => [0x6E, 0x75, 0x6C, 0x6C]
    case Bool(b) => if b then [0x74, 0x72, 0x75, 0x65] else [0x66, 0x61, 0x6C, 0x73, 0x65]
    case Number(t) => t
    case String(s) => Quote(s)
    case Array(items) => [LBRACKET] + Join(ShowItems(items)) + [RBRACKET]
    case Object(es) => [LBRACE] + Join(ShowEntries(es)) + [RBRACE]
  }

  function ShowItems(items: seq<Json>): (ts: seq<Units>)
    ensures |ts| == |items|
    decreases items, 0
  {
    if items == [] then [] else [Show(items[0])] + ShowItems(items[1..])
  }

  function ShowEntry(e: Entry): Units
    decreases e, 2
  {
    Quote(e.key) + [COLON] + Show(e.value)
  }

  function ShowEntries(es: seq<Entry>): (ts: seq<Units>)
    ensures |ts| == |es|
    decreases es, 0
  {
    if es == [] then [] else [ShowEntry(es[0])] + ShowEntries(es[1..])
  }

  // ---- One reading ----

  lemma ShowStarts(v: Json)
    requires WellFormed(v)
    ensures var t := Show(v);
            && t != []
            && t[0] != RBRACKET && t[0] != RBRACE && t[0] != COMMA
            && (t[0] == 0x6E <==> v.Null?)
            && (t[0] == 0x74 || t[0] == 0x66 <==> v.Bool?)
            && (0x30 <= t[0] <= 0x39 || t[0] == 0x2D <==> v.Number?)
            && (t[0] == QUOTE <==> v.String?)
            && (t[0] == LBRACKET <==> v.Array?)
            && (t[0] == LBRACE <==> v.Object?)
  {
    hide Join, ShowItems, ShowEntries, Escape;
  }

  lemma JoinStep(t: Units, ts: seq<Units>, r: Units)
    ensures Join([t] + ts) + r == t + (if ts == [] then r else [COMMA] + (Join(ts) + r))
  {
    assert ([t] + ts)[1..] == ts;
  }

  lemma SameHead(u: CodeUnit, a: Units, b: Units)
    ensures [u] + a == [u] + b <==> a == b
  {
    assert ([u] + a)[1..] == a && ([u] + b)[1..] == b;
  }

  /** Well-formed values with the same text are the same, entry order included, and end at the same place. */
  lemma {:induction false} Readable(a: Json, b: Json, r: Units, s: Units)
    requires WellFormed(a) && WellFormed(b) && Ended(r) && Ended(s)
    requires Show(a) + r == Show(b) + s
    ensures a == b && r == s
    decreases a, 2
  {
    ShowStarts(a);
    ShowStarts(b);
    assert (Show(a) + r)[0] == Show(a)[0] && (Show(b) + s)[0] == Show(b)[0];
    match a {
      case Number(t) => NumberUnique(t, b.digits, r, s);
      case String(x) => QuoteUnique(x, b.units, r, s);
      case Array(x) =>
        var y := b.items;
        WrapText(LBRACKET, Join(ShowItems(x)), RBRACKET, r);
        WrapText(LBRACKET, Join(ShowItems(y)), RBRACKET, s);
        SameHead(LBRACKET, Join(ShowItems(x)) + ([RBRACKET] + r), Join(ShowItems(y)) + ([RBRACKET] + s));
        ItemsReadable(x, y, r, s);
      case Object(x) =>
        var y := b.entries;
        WrapText(LBRACE, Join(ShowEntries(x)), RBRACE, r);
        WrapText(LBRACE, Join(ShowEntries(y)), RBRACE, s);
        SameHead(LBRACE, Join(ShowEntries(x)) + ([RBRACE] + r), Join(ShowEntries(y)) + ([RBRACE] + s));
        EntriesReadable(x, y, r, s);
      case _ => LiteralReadable(a, b, r, s);
    }
  }

  lemma WrapText(open: CodeUnit, t: Units, close: CodeUnit, r: Units)
    ensures [open] + t + [close] + r == [open] + (t + ([close] + r))
  {
  }

  lemma LiteralReadable(a: Json, b: Json, r: Units, s: Units)
    requires a.Null? || a.Bool?
    requires b.Null? || b.Bool?
    requires Show(a) + r == Show(b) + s
    ensures a == b && r == s
  {
    var t, u := Show(a), Show(b);
    assert (t + r)[0] == t[0] && (u + s)[0] == u[0];
    assert a == b;
    assert (t + r)[|t|..] == r && (u + s)[|u|..] == s;
  }

  lemma {:induction false} ItemsReadable(x: seq<Json>, y: seq<Json>, r: Units, s: Units)
    requires forall i | 0 <= i < |x| :: WellFormed(x[i])
    requires forall i | 0 <= i < |y| :: WellFormed(y[i])
    requires Join(ShowItems(x)) + ([RBRACKET] + r) == Join(ShowItems(y)) + ([RBRACKET] + s)
    ensures x == y && r == s
    decreases x, 0
  {
    hide WellFormed, Show;
    var xs, ys := Join(ShowItems(x)) + ([RBRACKET] + r), Join(ShowItems(y)) + ([RBRACKET] + s);
    if x == [] || y == [] {
      EmptyItems(x, r);
      EmptyItems(y, s);
      SameHead(RBRACKET, r, s);
    } else {
      var xr := if |x| == 1 then [RBRACKET] + r else [COMMA] + (Join(ShowItems(x[1..])) + ([RBRACKET] + r));
      var yr := if |y| == 1 then [RBRACKET] + s else [COMMA] + (Join(ShowItems(y[1..])) + ([RBRACKET] + s));
      JoinStep(Show(x[0]), ShowItems(x[1..]), [RBRACKET] + r);
      JoinStep(Show(y[0]), ShowItems(y[1..]), [RBRACKET] + s);
      Readable(x[0], y[0], xr, yr);
      assert xr[0] == yr[0];
      if |x| == 1 {
        SameHead(RBRACKET, r, s);
        assert x == [x[0]] && y == [y[0]];
      } else {
        SameHead(COMMA, xr[1..], yr[1..]);
        ItemsReadable(x[1..], y[1..], r, s);
        assert x == [x[0]] + x[1..] && y == [y[0]] + y[1..];
      }
    }
  }

  /** A list of items starts with its closing bracket exactly when it is empty. */
  lemma EmptyItems(x: seq<Json>, r: Units)
    requires forall i | 0 <= i < |x| :: WellFormed(x[i])
    ensures var t := Join(ShowItems(x)) + ([RBRACKET] + r);
            && t != []
            && (t[0] == RBRACKET <==> x == [])
            && (x == [] ==> t == [RBRACKET] + r)
  {
    hide WellFormed, Show;
    if x != [] {
      ShowStarts(x[0]);
      JoinStep(Show(x[0]), ShowItems(x[1..]), [RBRACKET] + r);
    }
  }

  lemma {:induction false} EntriesReadable(x: seq<Entry>, y: seq<Entry>, r: Units, s: Units)
    requires forall i | 0 <= i < |x| :: WellFormed(x[i].value)
    requires forall i | 0 <= i < |y| :: WellFormed(y[i].value)
    requires Join(ShowEntries(x)) + ([RBRACE] + r) == Join(ShowEntries(y)) + ([RBRACE] + s)
    ensures x == y && r == s
    decreases x, 0
  {
    hide WellFormed, ShowEntry;
    if x == [] || y == [] {
      EmptyEntries(x, r);
      EmptyEntries(y, s);
      SameHead(RBRACE, r, s);
    } else {
      var xr := if |x| == 1 then [RBRACE] + r else [COMMA] + (Join(ShowEntries(x[1..])) + ([RBRACE] + r));
      var yr := if |y| == 1 then [RBRACE] + s else [COMMA] + (Join(ShowEntries(y[1..])) + ([RBRACE] + s));
      JoinStep(ShowEntry(x[0]), ShowEntries(x[1..]), [RBRACE] + r);
      JoinStep(ShowEntry(y[0]), ShowEntries(y[1..]), [RBRACE] + s);
      EntryReadable(x[0], y[0], xr, yr);
      assert xr[0] == yr[0];
      if |x| == 1 {
        SameHead(RBRACE, r, s);
        assert x == [x[0]] && y == [y[0]];
      } else {
        SameHead(COMMA, xr[1..], yr[1..]);
        EntriesReadable(x[1..], y[1..], r, s);
        assert x == [x[0]] + x[1..] && y == [y[0]] + y[1..];
      }
    }
  }

  lemma EntryReadable(x: Entry, y: Entry, r: Units, s: Units)
    requires WellFormed(x.value) && WellFormed(y.value) && Ended(r) && Ended(s)
    requires ShowEntry(x) + r == ShowEntry(y) + s
    ensures x == y && r == s
    decreases x, 0
  {
    hide Quote, WellFormed, Show;
    assert ShowEntry(x) + r == Quote(x.key) + ([COLON] + (Show(x.value) + r));
    assert ShowEntry(y) + s == Quote(y.key) + ([COLON] + (Show(y.value) + s));
    QuoteUnique(x.key, y.key, [COLON] + (Show(x.value) + r), [COLON] + (Show(y.value) + s));
    SameHead(COLON, Show(x.value) + r, Show(y.value) + s);
    Readable(x.value, y.value, r, s);
  }

  lemma EmptyEntries(x: seq<Entry>, r: Units)
    ensures var t := Join(ShowEntries(x)) + ([RBRACE] + r);
            && t != []
            && (t[0] == RBRACE <==> x == [])
            && (x == [] ==> t == [RBRACE] + r)
  {
    hide Escape, Show;
    if x != [] {
      JoinStep(ShowEntry(x[0]), ShowEntries(x[1..]), [RBRACE] + r);
      assert ShowEntry(x[0])[0] == QUOTE;
    }
  }

  /** Two well-formed values have the same text exactly when they are equal, entry order included. */
  lemma ShowInjective(a: Json, b: Json)
    requires WellFormed(a) && WellFormed(b)
    ensures Show(a) == Show(b) <==> a == b
  {
    if Show(a) == Show(b) {
      assert Show(a) + [] == Show(b) + [];
      Readable(a, b, [], []);
    }
  }
}
