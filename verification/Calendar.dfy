/** The UTC calendar of section 21.4.1 of ECMA-262, on day numbers counted from 1970-01-01. */
module Calendar {
  const DAY_MS: int := 24 * 60 * 60 * 1000

  predicate Leap(y: int) {
    y % 4 == 0 && (y % 100 != 0 || y % 400 == 0)
  }

  function DaysInYear(y: int): int {
    if Leap(y) then 366 else 365
  }

  function DayFromYear(y: int): int {
    365 * (y - 1970) + (y - 1969) / 4 - (y - 1901) / 100 + (y - 1601) / 400
  }

  lemma Tick4(y: int)
    ensures (y - 1968) / 4 == (y - 1969) / 4 + if y % 4 == 0 then 1 else 0
  {
  }

  lemma Tick100(y: int)
    ensures (y - 1900) / 100 == (y - 1901) / 100 + if y % 100 == 0 then 1 else 0
  {
    var q, r := y / 100, y % 100;
    assert y == 100 * q + r;
    assert (y - 1900) / 100 == q - 19;
    assert (y - 1901) / 100 == if r == 0 then q - 20 else q - 19;
  }

  lemma Tick400(y: int)
    ensures (y - 1600) / 400 == (y - 1601) / 400 + if y % 400 == 0 then 1 else 0
  {
    var q, r := y / 400, y % 400;
    assert y == 400 * q + r;
    assert (y - 1600) / 400 == q - 4;
    assert (y - 1601) / 400 == if r == 0 then q - 5 else q - 4;
  }

  lemma NoRemainder(s: int, t: int, q: int, small: int, times: int)
    requires (small == 100 && times == 4) || (small == 4 && times == 25)
    requires small * s + t == small * times * q && 0 <= t < small
    ensures t == 0
  {
  }

  lemma LeapDivisors(y: int)
    ensures y % 400 == 0 ==> y % 100 == 0
    ensures y % 100 == 0 ==> y % 4 == 0
  {
    if y % 400 == 0 {
      NoRemainder(y / 100, y % 100, y / 400, 100, 4);
    }
    if y % 100 == 0 {
      NoRemainder(y / 4, y % 4, y / 100, 4, 25);
    }
  }

  /** Every year takes as many days as it has. */
  lemma YearLength(y: int)
    ensures DayFromYear(y + 1) == DayFromYear(y) + DaysInYear(y)
  {
    Tick4(y);
    Tick100(y);
    Tick400(y);
    LeapDivisors(y);
  }

  lemma {:induction false} YearsAscend(y: int, z: int)
    requires y < z
    ensures DayFromYear(y) + 365 <= DayFromYear(z)
    decreases z - y
  {
    YearLength(z - 1);
    if y < z - 1 {
      YearsAscend(y, z - 1);
    }
  }

  ghost function YearGap(day: int, y: int): nat {
    if DayFromYear(y) > day then
      DayFromYear(y) - day
    else if DayFromYear(y + 1) <= day then
      day - DayFromYear(y + 1) + 1
    else
      0
  }

  /** The year that contains a day, searched from a guess. */
  function YearNear(day: int, guess: int): (y: int)
    ensures DayFromYear(y) <= day < DayFromYear(y + 1)
    decreases YearGap(day, guess)
  {
    YearLength(guess - 1);
    YearLength(guess);
    YearLength(guess + 1);
    hide DayFromYear, Leap;
    if DayFromYear(guess) > day then
      YearNear(day, guess - 1)
    else if DayFromYear(guess + 1) <= day then
      YearNear(day, guess + 1)
    else
      guess
  }

  /** The largest year whose first day is not after `day`. */
  function YearFromDay(day: int): (y: int)
    ensures DayFromYear(y) <= day < DayFromYear(y + 1)
  {
    YearNear(day, 1970 + day / 365)
  }

  lemma YearUnique(day: int, y: int)
    requires DayFromYear(y) <= day < DayFromYear(y + 1)
    ensures YearFromDay(day) == y
  {
    hide DayFromYear;
    var z := YearFromDay(day);
    if z < y {
      if z + 1 < y {
        YearsAscend(z + 1, y);
      }
    } else if y < z {
      if y + 1 < z {
        YearsAscend(y + 1, z);
      }
    }
  }

  /** Days of the year before month `m`, counted from 0; month 12 stands for the whole year. */
  function MonthStart(m: int, leap: bool): int
    requires 0 <= m <= 12
  {
    var l := if leap then 1 else 0;
    match m
    case 0 => 0
    case 1 => 31
    case 2 => 59 + l
    case 3 => 90 + l
    case 4 => 120 + l
    case 5 => 151 + l
    case 6 => 181 + l
    case 7 => 212 + l
    case 8 => 243 + l
    case 9 => 273 + l
    case 10 => 304 + l
    case 11 => 334 + l
    case _ => 365 + l
  }

  function MonthNear(dayInYear: int, leap: bool, m: int): (r: int)
    requires 0 <= m <= 11 && MonthStart(m, leap) <= dayInYear < MonthStart(12, leap)
    ensures m <= r <= 11 && MonthStart(r, leap) <= dayInYear < MonthStart(r + 1, leap)
    decreases 11 - m
  {
    if dayInYear < MonthStart(m + 1, leap) then m else MonthNear(dayInYear, leap, m + 1)
  }

  lemma MonthSpans(leap: bool)
    ensures MonthStart(0, leap) == 0 && MonthStart(12, leap) == if leap then 366 else 365
  {
  }

  lemma DayWithinYear(day: int)
    ensures var y := YearFromDay(day); MonthStart(0, Leap(y)) <= day - DayFromYear(y) < MonthStart(12, Leap(y))
  {
    var y := YearFromDay(day);
    YearLength(y);
    MonthSpans(Leap(y));
    hide DayFromYear, MonthStart, Leap;
  }

  /** The month of a day, January being 0. */
  function MonthFromDay(day: int): (m: int)
    ensures 0 <= m <= 11
    ensures var y := YearFromDay(day);
            MonthStart(m, Leap(y)) <= day - DayFromYear(y) < MonthStart(m + 1, Leap(y))
  {
    hide DayFromYear, MonthStart, Leap;
    DayWithinYear(day);
    var y := YearFromDay(day);
    MonthNear(day - DayFromYear(y), Leap(y), 0)
  }

  function DateFromDay(day: int): int {
    var y := YearFromDay(day);
    day - DayFromYear(y) - MonthStart(MonthFromDay(day), Leap(y)) + 1
  }

  /** MakeDay: months beyond the year carry into it, dates beyond the month run on. */
  function MakeDay(year: int, month: int, date: int): int {
    var y := year + month / 12;
    DayFromYear(y) + MonthStart(month % 12, Leap(y)) + date - 1
  }

  // ---- Civil dates, January being month 1 ----

  /** Thirty days have September, April, June and November. */
  function DaysInMonth(y: int, m: int): int
    requires 1 <= m <= 12
  {
    if m in {4, 6, 9, 11} then 30 else if m != 2 then 31 else if Leap(y) then 29 else 28
  }

  /** The table of month starts adds up the months' lengths. */
  lemma MonthLength(y: int, m: int)
    requires 1 <= m <= 12
    ensures MonthStart(m, Leap(y)) == MonthStart(m - 1, Leap(y)) + DaysInMonth(y, m)
  {
  }

  predicate RealDate(y: int, m: int, d: int) {
    1 <= m <= 12 && 1 <= d <= DaysInMonth(y, m)
  }

  function DayNumber(y: int, m: int, d: int): int
    requires 1 <= m <= 12
  {
    DayFromYear(y) + MonthStart(m - 1, Leap(y)) + d - 1
  }

  /** The day after a date, by the months' lengths alone. */
  function Tomorrow(y: int, m: int, d: int): (int, int, int)
    requires RealDate(y, m, d)
  {
    if d < DaysInMonth(y, m) then
      (y, m, d + 1)
    else if m < 12 then
      (y, m + 1, 1)
    else
      (y + 1, 1, 1)
  }

  /** Day numbers count days: the epoch is 0 and every date's successor is one more. */
  lemma DayNumberCounts(y: int, m: int, d: int)
    requires RealDate(y, m, d)
    ensures DayNumber(1970, 1, 1) == 0
    ensures var (y', m', d') := Tomorrow(y, m, d);
            RealDate(y', m', d') && DayNumber(y', m', d') == DayNumber(y, m, d) + 1
  {
    YearLength(y);
    MonthLength(y, m);
  }

  /** Every day reads back as a real date. */
  lemma ReadBackReal(day: int)
    ensures RealDate(YearFromDay(day), MonthFromDay(day) + 1, DateFromDay(day))
    ensures DayNumber(YearFromDay(day), MonthFromDay(day) + 1, DateFromDay(day)) == day
  {
    MonthLength(YearFromDay(day), MonthFromDay(day) + 1);
  }

  lemma MonthsAscend(m: int, n: int, leap: bool)
    requires 0 <= m < n <= 12
    ensures MonthStart(m, leap) + 28 <= MonthStart(n, leap)
  {
  }

  /** The day number of a real date reads back as that date: the two are inverse. */
  lemma ReadBackOwn(y: int, m: int, d: int)
    requires RealDate(y, m, d)
    ensures var day := DayNumber(y, m, d);
            YearFromDay(day) == y && MonthFromDay(day) + 1 == m && DateFromDay(day) == d
  {
    var day := DayNumber(y, m, d);
    YearLength(y);
    MonthLength(y, m);
    MonthSpans(Leap(y));
    hide DayFromYear, MonthStart, DaysInMonth, Leap;
    if m < 12 {
      MonthsAscend(m, 12, Leap(y));
    }
    if m > 1 {
      MonthsAscend(0, m - 1, Leap(y));
    }
    YearUnique(day, y);
    MonthUnique(Leap(y), day - DayFromYear(y), MonthFromDay(day), m - 1);
  }

  lemma MonthUnique(leap: bool, dayInYear: int, n: int, k: int)
    requires 0 <= n < 12 && MonthStart(n, leap) <= dayInYear < MonthStart(n + 1, leap)
    requires 0 <= k < 12 && MonthStart(k, leap) <= dayInYear < MonthStart(k + 1, leap)
    ensures n == k
  {
    hide MonthStart;
    if n + 1 < k {
      MonthsAscend(n + 1, k, leap);
    } else if k + 1 < n {
      MonthsAscend(k + 1, n, leap);
    }
  }

  /** Setting a date and reading it back gives it unchanged exactly when it is a real one. */
  lemma RollOverShows(y: int, m: int, d: int)
    ensures var day := MakeDay(y, m - 1, d);
            RealDate(y, m, d) <==> YearFromDay(day) == y && MonthFromDay(day) == m - 1 && DateFromDay(day) == d
    ensures RealDate(y, m, d) ==> MakeDay(y, m - 1, d) == DayNumber(y, m, d)
  {
    hide YearFromDay, MonthFromDay, DateFromDay, MonthStart, DayFromYear, DaysInMonth;
    var day := MakeDay(y, m - 1, d);
    ReadBackReal(day);
    if RealDate(y, m, d) {
      assert (m - 1) / 12 == 0 && (m - 1) % 12 == m - 1;
      ReadBackOwn(y, m, d);
    }
  }

  ghost predicate DateBefore(y: int, m: int, d: int, y': int, m': int, d': int) {
    y < y' || (y == y' && (m < m' || (m == m' && d < d')))
  }

  lemma DayNumberOrder(y: int, m: int, d: int, y': int, m': int, d': int)
    requires RealDate(y, m, d) && RealDate(y', m', d')
    requires DateBefore(y, m, d, y', m', d')
    ensures DayNumber(y, m, d) < DayNumber(y', m', d')
  {
    MonthLength(y, m);
    if y < y' {
      YearLength(y);
      if y + 1 < y' {
        YearsAscend(y + 1, y');
      }
      if m < 12 {
        MonthsAscend(m, 12, Leap(y));
      }
      if m' > 1 {
        MonthsAscend(0, m' - 1, Leap(y'));
      }
    } else if m < m' {
      if m < m' - 1 {
        MonthsAscend(m, m' - 1, Leap(y));
      }
    }
  }
}
