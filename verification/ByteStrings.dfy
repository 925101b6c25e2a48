/** Byte strings, big-endian integers, and the text of error messages. */
module ByteStrings {
  import opened Orders

  type Byte = x: int | 0 <= x < 0x100
  type Bytes = seq<Byte>

  const U8_RANGE: nat := 0x100
  const U16_RANGE: nat := 0x1_0000
  const U32_RANGE: nat := 0x1_0000_0000

  /** The narrowing cast to u8. */
  function U8(n: nat): Byte {
    n % 0x100
  }

  function U16(n: nat): (b: Bytes)
    ensures |b| == 2
  {
    [U8(n / 0x100), U8(n)]
  }

  /** The narrowing cast to u32 followed by big-endian output. */
  function U32(n: nat): (b: Bytes)
    ensures |b| == 4
  {
    [U8(n / 0x100_0000), U8(n / 0x1_0000), U8(n / 0x100), U8(n)]
  }

  function U64(n: nat): (b: Bytes)
    ensures |b| == 8
  {
    U32(n / U32_RANGE) + U32(n)
  }

  function ReadU16(b: Bytes): nat
    requires |b| == 2
  {
    (b[0] as int) * 0x100 + b[1] as int
  }

  function ReadU32(b: Bytes): (n: nat)
    requires |b| == 4
    ensures n < U32_RANGE
  {
    (b[0] as int) * 0x100_0000 + (b[1] as int) * 0x1_0000 + (b[2] as int) * 0x100 + b[3] as int
  }

  lemma U16RoundTrip(n: nat)
    ensures n < U16_RANGE ==> ReadU16(U16(n)) == n
  {
  }

  lemma ReadU16RoundTrip(b: Bytes)
    requires |b| == 2
    ensures U16(ReadU16(b)) == b
  {
  }

  /** Reading back what a u32 prefix holds gives the length exactly when the cast lost nothing. */
  lemma U32RoundTrip(n: nat)
    ensures ReadU32(U32(n)) == n % U32_RANGE
    ensures ReadU32(U32(n)) == n <==> n < U32_RANGE
  {
    var q1, q2, q3 := n / 0x100, n / 0x1_0000, n / 0x100_0000;
    assert q2 == q1 / 0x100 && q3 == q2 / 0x100;
    assert n == q1 * 0x100 + n % 0x100;
    assert q1 == q2 * 0x100 + q1 % 0x100;
    assert q2 == q3 * 0x100 + q2 % 0x100;
    assert n == q3 * 0x100_0000 + (q2 % 0x100) * 0x1_0000 + (q1 % 0x100) * 0x100 + n % 0x100;
    var q4 := q3 / 0x100;
    assert q3 == q4 * 0x100 + q3 % 0x100;
    assert n == q4 * U32_RANGE + ReadU32(U32(n));
  }

  lemma ReadU32RoundTrip(b: Bytes)
    requires |b| == 4
    ensures U32(ReadU32(b)) == b
  {
    var b0, b1, b2: int := b[0], b[1], b[2];
    var n := ReadU32(b);
    assert n / 0x100_0000 == b0;
    assert n / 0x1_0000 == b0 * 0x100 + b1;
    assert n / 0x100 == b0 * 0x1_0000 + b1 * 0x100 + b2;
  }

  const U64_RANGE: nat := 0x1_0000_0000_0000_0000

  /** What eight bytes say, the first one weighing most. */
  function BigEndian64(b: Bytes): nat
    requires |b| == 8
  {
    (b[0] as int) * 0x100_0000_0000_0000 + (b[1] as int) * 0x1_0000_0000_0000 + (b[2] as int) * 0x100_0000_0000 +
    (b[3] as int) * 0x1_0000_0000 + (b[4] as int) * 0x100_0000 + (b[5] as int) * 0x1_0000 + (b[6] as int) * 0x100 +
    b[7] as int
  }

  /** A number is written as the eight bytes that say it, or what 2^64 leaves of it. */
  lemma U64Exactly(n: nat)
    ensures BigEndian64(U64(n)) == n % U64_RANGE
    ensures n < U64_RANGE ==> BigEndian64(U64(n)) == n
  {
    U32RoundTrip(n / U32_RANGE);
    U32RoundTrip(n);
    var b, high, low := U64(n), U32(n / U32_RANGE), U32(n);
    assert b == [high[0], high[1], high[2], high[3], low[0], low[1], low[2], low[3]];
    hide U32;
    assert BigEndian64(b) == ReadU32(high) * U32_RANGE + ReadU32(low);
    hide BigEndian64, ReadU32, U64;
    Halves(n);
  }

  lemma Halves(n: nat)
    ensures n / U32_RANGE % U32_RANGE * U32_RANGE + n % U32_RANGE == n % U64_RANGE
  {
    var q := n / U32_RANGE;
    assert n == q / U32_RANGE * U64_RANGE + q % U32_RANGE * U32_RANGE + n % U32_RANGE;
  }

  /** The order of byte strings, as a value that a sort can be given. */
  predicate BytesLe(a: Bytes, b: Bytes) {
    LexLe(a, b)
  }

  lemma BytesLeTotal()
    ensures TotalPreorder(BytesLe)
    ensures forall a, b | BytesLe(a, b) && BytesLe(b, a) :: a == b
  {
    forall a: Bytes, b: Bytes
      ensures BytesLe(a, b) || BytesLe(b, a)
      ensures BytesLe(a, b) && BytesLe(b, a) ==> a == b
    {
      LexTotal(a, b);
    }
    forall a: Bytes, b: Bytes, c: Bytes | BytesLe(a, b) && BytesLe(b, c)
      ensures BytesLe(a, c)
    {
      LexTransitive(a, b, c);
    }
  }

  // ---- Error texts ----

  /** The bytes of a text; the program's own messages are ASCII. */
  function Text(s: string): (b: Bytes)
    ensures |b| == |s|
  {
    seq(|s|, i requires 0 <= i < |s| => s[i] as int % 0x100)
  }

  const DIGITS: string := "0123456789"

  function Decimal(n: nat): (s: string)
    ensures s != ""
    ensures forall c | c in s :: c in DIGITS
  {
    if n < 10 then [DIGITS[n]] else Decimal(n / 10) + [DIGITS[n % 10]]
  }

  /** The number that decimal digits stand for. */
  function NumberOf(s: string): int {
    if s == "" then 0 else 10 * NumberOf(s[..|s| - 1]) + (s[|s| - 1] as int - '0' as int)
  }

  /** A decimal text stands for its number, and has no zero in front. */
  lemma {:induction false} DecimalExactly(n: nat)
    ensures NumberOf(Decimal(n)) == n && (Decimal(n)[0] == '0' <==> n == 0)
    ensures forall i | 0 <= i < |Decimal(n)| :: '0' <= Decimal(n)[i] <= '9'
  {
    if n >= 10 {
      DecimalExactly(n / 10);
      var before := Decimal(n / 10);
      assert Decimal(n)[..|before|] == before;
    }
  }

  // ---- Slices ----

  lemma SubSlice<T>(s: seq<T>, i: nat, n: nat, a: nat, b: nat)
    requires i <= n <= |s| && a <= b <= n - i
    ensures s[i..n][a..b] == s[i + a..i + b]
  {
    var u := s[i..n];
    forall k | 0 <= k < b - a
      ensures u[a..b][k] == s[i + a..i + b][k]
    {
      assert u[a + k] == s[i + a + k];
    }
  }

  lemma ConcatAssoc<T>(a: seq<T>, b: seq<T>, c: seq<T>)
    ensures (a + b) + c == a + (b + c)
  {
  }

  lemma DropConcat<T>(a: seq<T>, b: seq<T>)
    ensures (a + b)[..|a|] == a
    ensures (a + b)[|a|..] == b
  {
  }

  /** Equal concatenations whose first parts have the same length agree part by part. */
  lemma ConcatCancel<T>(a: seq<T>, b: seq<T>, r: seq<T>, s: seq<T>)
    requires a + r == b + s
    requires |a| == |b|
    ensures a == b && r == s
  {
    DropConcat(a, r);
    DropConcat(b, s);
  }

  /** The four parts of a concatenation, read back at their offsets. */
  lemma FourParts<T>(a: seq<T>, b: seq<T>, c: seq<T>, d: seq<T>)
    ensures var w := a + b + c + d;
            var i, j, k := |a|, |a| + |b|, |a| + |b| + |c|;
            w[0..i] == a && w[i..j] == b && w[j..k] == c && w[k..|w|] == d
  {
  }

  lemma FourPartsFirst<T>(a: seq<T>, b: seq<T>, c: seq<T>, d: seq<T>, r: seq<T>)
    ensures a + b + c + d + r == a + (b + (c + (d + r)))
  {
  }
}
