/** The validity window of a supply-chain exception. */
module Expiry {
  import opened Wrappers
  import opened Calendar

  const MAX_EXCEPTION_VALIDITY_DAYS: int := 90
  const MAX_SAFE_INTEGER: int := 0x1F_FFFF_FFFF_FFFF

  datatype ExpiryError = InvalidDate | Expired | BeyondPolicyMaximum | InvalidPolicyMaximum

  // ---- Dates ----

  predicate IsDigit(c: char) {
    '0' <= c <= '9'
  }

  /** The pattern dddd-dd-dd, and nothing around it. */
  predicate Shaped(s: string) {
    && |s| == 10
    && IsDigit(s[0]) && IsDigit(s[1]) && IsDigit(s[2]) && IsDigit(s[3]) && s[4] == '-'
    && IsDigit(s[5]) && IsDigit(s[6]) && s[7] == '-'
    && IsDigit(s[8]) && IsDigit(s[9])
  }

  function Digit(c: char): int {
    c as int - '0' as int
  }

  function Year(s: string): int
    requires Shaped(s)
  {
    1000 * Digit(s[0]) + 100 * Digit(s[1]) + 10 * Digit(s[2]) + Digit(s[3])
  }

  function Month(s: string): int
    requires Shaped(s)
  {
    10 * Digit(s[5]) + Digit(s[6])
  }

  function Day(s: string): int
    requires Shaped(s)
  {
    10 * Digit(s[8]) + Digit(s[9])
  }

  /** A Date object at midnight; setting its year, month and date makes this time value. */
  function SetUTCFullYear(year: int, month: int, date: int): int {
    MakeDay(year, month, date) * DAY_MS
  }

  function DayOf(time: int): int {
    time / DAY_MS
  }

  function ParseUtcCalendarDate(value: string): Result<int, ExpiryError> {
    if !Shaped(value) then
      Err(InvalidDate)
    else
      var year, month, day := Year(value), Month(value), Day(value);
      var time := SetUTCFullYear(year, month - 1, day);
      var back := DayOf(time);
      if YearFromDay(back) != year || MonthFromDay(back) != month - 1 || DateFromDay(back) != day then
        Err(InvalidDate)
      else
        Ok(time)
  }

  ghost predicate NamesRealDate(s: string) {
    Shaped(s) && RealDate(Year(s), Month(s), Day(s))
  }

  /** Which calendar day a date string names. */
  ghost function DayNamed(s: string): int
    requires NamesRealDate(s)
  {
    DayNumber(Year(s), Month(s), Day(s))
  }

  /** Accepted exactly for real dates in the one shape; the result is midnight of the day named. */
  lemma ParseExact(value: string)
    ensures ParseUtcCalendarDate(value) ==
            if NamesRealDate(value) then Ok(DAY_MS * DayNamed(value)) else Err(InvalidDate)
  {
    hide Shaped, Year, Month, Day, YearFromDay, MonthFromDay, DateFromDay, MakeDay, RealDate, DayNumber;
    if Shaped(value) {
      var day := MakeDay(Year(value), Month(value) - 1, Day(value));
      WholeDays(day);
      RollOverShows(Year(value), Month(value), Day(value));
    }
  }

  // ---- The shape of a date ----

  const DIGITS := "0123456789"

  /** A date as it is written: four digits, two and two, with a hyphen between each two. */
  function DateText(y: nat, m: nat, d: nat): string
    requires y < 10000 && m < 100 && d < 100
  {
    [DIGITS[y / 1000], DIGITS[y / 100 % 10], DIGITS[y / 10 % 10], DIGITS[y % 10], '-',
     DIGITS[m / 10], DIGITS[m % 10], '-', DIGITS[d / 10], DIGITS[d % 10]]
  }

  lemma DigitExactly(c: char)
    ensures IsDigit(c) <==> c in DIGITS
    ensures IsDigit(c) ==> 0 <= Digit(c) < 10 && DIGITS[Digit(c)] == c
    ensures forall n: nat | n < 10 :: IsDigit(DIGITS[n]) && Digit(DIGITS[n]) == n
  {
  }

  lemma YearDigits(s: string)
    requires Shaped(s)
    ensures var y := Year(s);
            && 0 <= y < 10000
            && DIGITS[y / 1000] == s[0] && DIGITS[y / 100 % 10] == s[1]
            && DIGITS[y / 10 % 10] == s[2] && DIGITS[y % 10] == s[3]
  {
    DigitExactly(s[0]);
    DigitExactly(s[1]);
    DigitExactly(s[2]);
    DigitExactly(s[3]);
    hide IsDigit, Digit, DIGITS, Shaped;
    var a, b, c, d := Digit(s[0]), Digit(s[1]), Digit(s[2]), Digit(s[3]);
    FourDigits(a, b, c, d);
    assert Year(s) == 1000 * a + 100 * b + 10 * c + d;
    hide Year;
  }

  lemma PairDigits(a: char, b: char)
    requires IsDigit(a) && IsDigit(b)
    ensures var n := 10 * Digit(a) + Digit(b);
            0 <= n < 100 && DIGITS[n / 10] == a && DIGITS[n % 10] == b
  {
    DigitExactly(a);
    DigitExactly(b);
    hide IsDigit, Digit, DIGITS;
  }

  lemma ShapedText(s: string)
    requires Shaped(s)
    ensures 0 <= Year(s) < 10000 && 0 <= Month(s) < 100 && 0 <= Day(s) < 100
    ensures s == DateText(Year(s), Month(s), Day(s))
  {
    YearDigits(s);
    PairDigits(s[5], s[6]);
    PairDigits(s[8], s[9]);
    hide Year, IsDigit, Digit, DIGITS;
  }

  lemma FourDigits(a: int, b: int, c: int, d: int)
    requires 0 <= a < 10 && 0 <= b < 10 && 0 <= c < 10 && 0 <= d < 10
    ensures var n := 1000 * a + 100 * b + 10 * c + d;
            n / 1000 == a && n / 100 % 10 == b && n / 10 % 10 == c && n % 10 == d
  {
    var n := 1000 * a + 100 * b + 10 * c + d;
    assert n / 10 == 100 * a + 10 * b + c && n / 100 == 10 * a + b;
  }

  lemma TextShaped(y: nat, m: nat, d: nat)
    requires y < 10000 && m < 100 && d < 100
    ensures var s := DateText(y, m, d); Shaped(s) && Year(s) == y && Month(s) == m && Day(s) == d
  {
    DigitExactly('0');
    hide IsDigit, Digit, DIGITS;
    TenParts(y);
    TenParts(y / 10);
    TenParts(y / 100);
    TenParts(m);
    TenParts(d);
  }

  lemma TenParts(n: nat)
    ensures n == 10 * (n / 10) + n % 10 && n / 10 / 10 == n / 100 && n / 100 / 10 == n / 1000
  {
  }

  /** Accepted are the texts of the real dates of the years 0 to 9999, as midnight of their day. */
  lemma DateTextExactly(value: string, time: int)
    ensures ParseUtcCalendarDate(value) == Ok(time) <==>
            exists y: nat, m: nat, d: nat | y < 10000 && m < 100 && d < 100 && RealDate(y, m, d) ::
              value == DateText(y, m, d) && time == 86_400_000 * DayNumber(y, m, d)
  {
    hide Year, Month, Day, ParseUtcCalendarDate, DaysInMonth, DayFromYear, MonthStart, Shaped, DateText;
    ParseExact(value);
    if Shaped(value) {
      ShapedText(value);
    }
    if y: nat, m: nat, d: nat :| y < 10000 && m < 100 && d < 100 && RealDate(y, m, d) && value == DateText(y, m, d) &&
                                 time == 86_400_000 * DayNumber(y, m, d) {
      TextShaped(y, m, d);
    }
  }

  lemma WholeDays(day: int)
    ensures DayOf(day * DAY_MS) == day
  {
  }

  /** The order of strings by code units. */
  ghost predicate StringBefore(s: string, t: string) {
    exists i :: 0 <= i <= |s| && i <= |t| && FirstDifference(s, t, i)
  }

  ghost predicate FirstDifference(s: string, t: string, i: nat)
    requires i <= |s| && i <= |t|
  {
    s[..i] == t[..i] && i < |t| && (i == |s| || s[i] < t[i])
  }

  lemma StringBeforeDate(s: string, t: string)
    requires Shaped(s) && Shaped(t) && StringBefore(s, t)
    ensures DateBefore(Year(s), Month(s), Day(s), Year(t), Month(t), Day(t))
  {
    var i :| 0 <= i <= |s| && i <= |t| && FirstDifference(s, t, i);
    forall j | 0 <= j < i
      ensures s[j] == t[j]
    {
      assert s[..i][j] == t[..i][j];
    }
  }

  lemma {:induction false} SomeDifference(s: string, t: string, i: nat)
    requires |s| == |t| && i <= |s| && s[..i] == t[..i]
    ensures s == t || StringBefore(s, t) || StringBefore(t, s)
    decreases |s| - i
  {
    if i == |s| {
      assert s[..i] == s && t[..i] == t;
    } else if s[i] == t[i] {
      assert s[..i + 1] == s[..i] + [s[i]] && t[..i + 1] == t[..i] + [t[i]];
      SomeDifference(s, t, i + 1);
    } else {
      assert FirstDifference(s, t, i) || FirstDifference(t, s, i);
    }
  }

  /** Between accepted dates, earlier in string order means earlier in time, and the other way round. */
  lemma TimeFollowsStringOrder(s: string, t: string)
    requires ParseUtcCalendarDate(s).Ok? && ParseUtcCalendarDate(t).Ok?
    ensures StringBefore(s, t) <==> ParseUtcCalendarDate(s).value < ParseUtcCalendarDate(t).value
  {
    hide Year, Month, Day, DayNumber, ParseUtcCalendarDate, StringBefore, RealDate;
    ParseExact(s);
    ParseExact(t);
    if StringBefore(s, t) {
      StringBeforeDate(s, t);
      DayNumberOrder(Year(s), Month(s), Day(s), Year(t), Month(t), Day(t));
    } else if s != t {
      SomeDifference(s, t, 0);
      StringBeforeDate(t, s);
      DayNumberOrder(Year(t), Month(t), Day(t), Year(s), Month(s), Day(s));
    }
  }

  // ---- The window ----

  /** A JSON policy value: a number, which may be fractional, or anything else. */
  datatype JsValue = Number(value: real) | NotANumber

  predicate IsSafeInteger(v: JsValue) {
    v.Number? && v.value == v.value.Floor as real && -MAX_SAFE_INTEGER <= v.value.Floor <= MAX_SAFE_INTEGER
  }

  function ValidateMaxValidityDays(value: JsValue): Result<(), ExpiryError> {
    if !IsSafeInteger(value) || value.value < 1.0 || value.value > MAX_EXCEPTION_VALIDITY_DAYS as real then
      Err(InvalidPolicyMaximum)
    else
      Ok(())
  }

  function ValidateExceptionExpiry(expiresAt: string, today: string, maxValidityDays: JsValue)
    : Result<(), ExpiryError>
  {
    var _ :- ValidateMaxValidityDays(maxValidityDays);
    var expiryTime :- ParseUtcCalendarDate(expiresAt);
    var todayTime :- ParseUtcCalendarDate(today);
    if expiryTime < todayTime then
      Err(Expired)
    else if (expiryTime - todayTime) as real / DAY_MS as real > maxValidityDays.value then
      Err(BeyondPolicyMaximum)
    else
      Ok(())
  }

  /** The quotient of the window is the whole number of calendar days between the dates. */
  lemma QuotientIsDays(a: int, b: int)
    ensures (DAY_MS * a - DAY_MS * b) as real / DAY_MS as real == (a - b) as real
  {
    var days := a - b;
    assert DAY_MS * a - DAY_MS * b == DAY_MS * days;
    assert (DAY_MS * days) as real == DAY_MS as real * days as real;
  }

  ghost predicate IntegerFromTo(v: JsValue, low: int, high: int) {
    v.Number? && v.value == v.value.Floor as real && low <= v.value.Floor <= high
  }

  /** What an expiry is refused for: the policy maximum, a date, a day that is past, or one too far ahead. */
  lemma RefusalExactly(expiresAt: string, today: string, maxValidityDays: JsValue)
    ensures var r := ValidateExceptionExpiry(expiresAt, today, maxValidityDays);
            if !IntegerFromTo(maxValidityDays, 1, 90) then r == Err(InvalidPolicyMaximum)
            else if !NamesRealDate(expiresAt) || !NamesRealDate(today) then r == Err(InvalidDate)
            else if DayNamed(expiresAt) < DayNamed(today) then r == Err(Expired)
            else if (DayNamed(expiresAt) - DayNamed(today)) as real > maxValidityDays.value then
              r == Err(BeyondPolicyMaximum)
            else r == Ok(())
  {
    ParseExact(expiresAt);
    ParseExact(today);
    hide NamesRealDate, ParseUtcCalendarDate, DayNamed;
    if NamesRealDate(expiresAt) && NamesRealDate(today) {
      QuotientIsDays(DayNamed(expiresAt), DayNamed(today));
    }
  }

  /**
   An expiry is accepted exactly when the policy maximum is an integer from 1 to 90, both dates are real,
   and the expiry lies from 0 to that many calendar days after today.
   */
  lemma WindowExact(expiresAt: string, today: string, maxValidityDays: JsValue)
    ensures ValidateExceptionExpiry(expiresAt, today, maxValidityDays).Ok? <==>
            && IntegerFromTo(maxValidityDays, 1, 90)
            && NamesRealDate(expiresAt) && NamesRealDate(today)
            && 0 <= DayNamed(expiresAt) - DayNamed(today)
            && (DayNamed(expiresAt) - DayNamed(today)) as real <= maxValidityDays.value
  {
    hide NamesRealDate, ParseUtcCalendarDate, DayNamed;
    ParseExact(expiresAt);
    ParseExact(today);
    MaximumExact(maxValidityDays);
    if NamesRealDate(expiresAt) && NamesRealDate(today) {
      QuotientIsDays(DayNamed(expiresAt), DayNamed(today));
    }
  }

  lemma MaximumExact(value: JsValue)
    ensures ValidateMaxValidityDays(value).Ok? <==> IntegerFromTo(value, 1, 90)
  {
  }
}
