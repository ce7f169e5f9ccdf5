/**
 The UTC calendar of JavaScript's Date (ECMA-262, section 21.4.1), on time values in
 milliseconds since 1970. A month is counted from year 0, so that month k is month
 k % 12 of year k / 12, and the one after it is month k + 1 across the end of a year.
 */
module Calendar {
  const MS_PER_DAY: int := 86_400_000

  predicate Leap(y: int) {
    y % 4 == 0 && (y % 100 != 0 || y % 400 == 0)
  }

  function DayFromYear(y: int): int {
    365 * (y - 1970) + (y - 1969) / 4 - (y - 1901) / 100 + (y - 1601) / 400
  }

  /** Days of a year that come before its month m; m = 12 stands for the whole year. */
  function DaysBefore(m: int, leap: bool): int
    requires 0 <= m <= 12
  {
    (367 * m + 5) / 12 - if m < 2 then 0 else if leap then 1 else 2
  }

  /** The lengths of the months, from January on. */
  lemma MonthLengths(m: int, leap: bool)
    requires 0 <= m < 12
    ensures DaysBefore(0, leap) == 0
    ensures DaysBefore(m + 1, leap) - DaysBefore(m, leap) ==
            [31, if leap then 29 else 28, 31, 30, 31, 30, 31, 31, 30, 31, 30, 31][m]
  {
  }

  /** The day on which month k begins. */
  function FirstDay(k: int): int {
    DayFromYear(k / 12) + DaysBefore(k % 12, Leap(k / 12))
  }

  /** The instant at which month k begins. */
  function MonthStart(k: int): int {
    FirstDay(k) * MS_PER_DAY
  }

  function Day(t: int): int {
    t / MS_PER_DAY
  }

  lemma YearLength(y: int)
    ensures DayFromYear(y + 1) == DayFromYear(y) + DaysBefore(12, Leap(y))
  {
    FourYears(y);
    Century(y);
    FourCenturies(y);
    LeapByHundreds(y);
  }

  lemma FourYears(y: int)
    ensures (y + 1 - 1969) / 4 - (y - 1969) / 4 == if y % 4 == 0 then 1 else 0
  {
  }

  lemma Century(y: int)
    ensures (y + 1 - 1901) / 100 - (y - 1901) / 100 == if y % 100 == 0 then 1 else 0
  {
  }

  lemma FourCenturies(y: int)
    ensures (y + 1 - 1601) / 400 - (y - 1601) / 400 == if y % 400 == 0 then 1 else 0
  {
  }

  lemma LeapByHundreds(y: int)
    ensures y % 400 == 0 ==> y % 100 == 0 && y % 4 == 0
    ensures y % 100 == 0 ==> y % 4 == 0
  {
  }

  /** The next month begins 28 to 31 days after this one, also across the end of a year. */
  lemma MonthLength(k: int)
    ensures FirstDay(k) + 28 <= FirstDay(k + 1) <= FirstDay(k) + 31
    ensures k % 12 < 11 ==> FirstDay(k + 1) == DayFromYear(k / 12) + DaysBefore(k % 12 + 1, Leap(k / 12))
    ensures k % 12 == 11 ==> FirstDay(k + 1) == DayFromYear(k / 12 + 1)
  {
    YearLength(k / 12);
    if k % 12 < 11 {
      assert (k + 1) / 12 == k / 12 && (k + 1) % 12 == k % 12 + 1;
    } else {
      assert (k + 1) / 12 == k / 12 + 1 && (k + 1) % 12 == 0;
    }
  }

  /** The calendar by itself: month 12 * 1970 begins at 0, and each month after as many days on as it is long. */
  lemma MonthStartsByLength(k: int)
    ensures MonthStart(12 * 1970) == 0
    ensures var y, february := k / 12, if k / 12 % 4 == 0 && (k / 12 % 100 != 0 || k / 12 % 400 == 0) then 29 else 28;
            MonthStart(k + 1) - MonthStart(k) ==
            86_400_000 * [31, february, 31, 30, 31, 30, 31, 31, 30, 31, 30, 31][k % 12]
  {
    MonthLength(k);
    MonthLengths(k % 12, Leap(k / 12));
    YearLength(k / 12);
  }

  lemma {:induction false} MonthsAscend(j: int, k: int)
    requires j <= k
    ensures FirstDay(j) + 28 * (k - j) <= FirstDay(k)
    decreases k - j
  {
    if j < k {
      MonthsAscend(j, k - 1);
      MonthLength(k - 1);
    }
  }

  // ------------------------------------------------------------ date fields

  /** The year of day d, looked for from year y upwards, or downwards. */
  function YearUp(d: int, y: int): (r: int)
    requires DayFromYear(y) <= d
    ensures DayFromYear(r) <= d < DayFromYear(r + 1)
    decreases d - DayFromYear(y)
  {
    YearLength(y);
    if DayFromYear(y + 1) <= d then YearUp(d, y + 1) else y
  }

  function YearDown(d: int, y: int): (r: int)
    requires d < DayFromYear(y + 1)
    ensures DayFromYear(r) <= d < DayFromYear(r + 1)
    decreases DayFromYear(y + 1) - d
  {
    YearLength(y);
    if DayFromYear(y) <= d then y else YearDown(d, y - 1)
  }

  /** getUTCFullYear. */
  function Year(t: int): (y: int)
    ensures DayFromYear(y) <= Day(t) < DayFromYear(y + 1)
  {
    if Day(t) >= 0 then YearUp(Day(t), 1970) else YearDown(Day(t), 1969)
  }

  /** The last month, from m on, that begins by day n of the year. */
  function MonthFrom(n: int, leap: bool, m: int): (r: int)
    requires 0 <= m < 12 && DaysBefore(m, leap) <= n < DaysBefore(12, leap)
    ensures 0 <= r < 12 && DaysBefore(r, leap) <= n < DaysBefore(r + 1, leap)
    decreases 12 - m
  {
    if m < 11 && DaysBefore(m + 1, leap) <= n then MonthFrom(n, leap, m + 1) else m
  }

  /** Day d is in month m of year y. */
  predicate InMonth(d: int, y: int, m: int) {
    0 <= m < 12 && DaysBefore(m, Leap(y)) <= d - DayFromYear(y) < DaysBefore(m + 1, Leap(y))
  }

  /** getUTCMonth, from 0. */
  function Month(t: int): (m: int)
    ensures InMonth(Day(t), Year(t), m)
  {
    YearLength(Year(t));
    MonthFrom(Day(t) - DayFromYear(Year(t)), Leap(Year(t)), 0)
  }

  predicate Contains(k: int, t: int) {
    MonthStart(k) <= t < MonthStart(k + 1)
  }

  function MonthAt(t: int, y: int, m: int): (k: int)
    requires InMonth(Day(t), y, m)
    ensures Contains(k, t)
  {
    MonthContains(t, y, m);
    12 * y + m
  }

  /** The month that contains t, by its fields. */
  function MonthOf(t: int): (k: int)
    ensures Contains(k, t)
  {
    MonthAt(t, Year(t), Month(t))
  }

  /** getUTCDate, from 1. */
  function Date(t: int): int {
    Day(t) - FirstDay(12 * Year(t) + Month(t)) + 1
  }

  lemma MonthFields(k: int, y: int, m: int)
    requires k == 12 * y + m && 0 <= m < 12
    ensures k / 12 == y && k % 12 == m
  {
  }

  lemma DayInMonth(d: int, y: int, m: int, first: int)
    requires first == DayFromYear(y) && InMonth(d, y, m)
    ensures FirstDay(12 * y + m) <= d < FirstDay(12 * y + m + 1)
  {
    MonthFields(12 * y + m, y, m);
    assert FirstDay(12 * y + m) == first + DaysBefore(m, Leap(y));
    NextFirstDay(y, m);
  }

  lemma NextFirstDay(y: int, m: int)
    requires 0 <= m < 12
    ensures FirstDay(12 * y + m + 1) == DayFromYear(y) + DaysBefore(m + 1, Leap(y))
  {
    var k := 12 * y + m;
    MonthFields(k, y, m);
    MonthLength(k);
    YearLength(y);
  }

  lemma DayBounds(t: int, d: int, a: int, b: int)
    requires d == t / MS_PER_DAY && a <= d < b
    ensures a * MS_PER_DAY <= t < b * MS_PER_DAY
  {
  }

  lemma MonthContains(t: int, y: int, m: int)
    requires InMonth(Day(t), y, m)
    ensures MonthStart(12 * y + m) <= t < MonthStart(12 * y + m + 1)
  {
    DayInMonth(Day(t), y, m, DayFromYear(y));
    DayBounds(t, Day(t), FirstDay(12 * y + m), FirstDay(12 * y + m + 1));
  }

  /** Of ascending bounds, only two neighbours have a given value between them. */
  lemma {:induction false} OneBetween(f: int -> int, t: int, j: int, k: int)
    requires forall i :: f(i) < f(i + 1)
    requires f(j) <= t < f(j + 1)
    ensures f(k) <= t < f(k + 1) <==> k == j
  {
    if k < j {
      Ascends(f, k + 1, j);
    } else if k > j {
      Ascends(f, j + 1, k);
    }
  }

  lemma {:induction false} Ascends(f: int -> int, j: int, k: int)
    requires (forall i :: f(i) < f(i + 1)) && j <= k
    ensures f(j) + (k - j) <= f(k)
    decreases k - j
  {
    if j < k {
      Ascends(f, j, k - 1);
      assert f(k - 1) < f(k - 1 + 1);
    }
  }

  lemma MonthStartsAscend(j: int, k: int)
    requires j < k
    ensures MonthStart(j) < MonthStart(k)
  {
    MonthsAscend(j, k);
  }

  lemma TileAt(t: int, j: int, k: int)
    requires Contains(j, t)
    ensures Contains(k, t) <==> k == j
  {
    forall i ensures MonthStart(i) < MonthStart(i + 1) {
      MonthStartsAscend(i, i + 1);
    }
    OneBetween(MonthStart, t, j, k);
  }

  /** Every instant lies in exactly one month: the months tile time, leap years and year ends included. */
  lemma MonthsTile(t: int, k: int)
    ensures Contains(k, t) <==> k == MonthOf(t)
  {
    TileAt(t, MonthOf(t), k);
  }

  lemma MonthOfStart(k: int)
    ensures MonthOf(MonthStart(k)) == k && Year(MonthStart(k)) == k / 12 && Month(MonthStart(k)) == k % 12
  {
    MonthLength(k);
    MonthsTile(MonthStart(k), k);
    MonthFields(k, Year(MonthStart(k)), Month(MonthStart(k)));
  }

  // ------------------------------------------------------------ making dates

  /** MakeDay: a month beyond the year, or a date beyond the month, runs over. */
  function MakeDay(year: int, month: int, date: int): int {
    FirstDay(12 * year + month) + date - 1
  }

  /** Date.UTC(year, month, 1): the years 0 to 99 stand for 1900 to 1999. */
  function UtcFirst(year: int, month: int): int {
    MakeDay(if 0 <= year <= 99 then 1900 + year else year, month, 1) * MS_PER_DAY
  }

  predicate TwoDigit(year: int) {
    0 <= year <= 99
  }

  lemma UtcFirstIsMonthStart(year: int, month: int)
    ensures UtcFirst(year, month) == MonthStart(12 * year + month + if TwoDigit(year) then 12 * 1900 else 0)
    ensures TwoDigit(year) <==> 0 <= year <= 99
  {
  }

  /** setUTCDate on a copy of t. */
  function SetUtcDate(t: int, date: int): int {
    MakeDay(Year(t), Month(t), date) * MS_PER_DAY + t % MS_PER_DAY
  }

  function DaysAgo(t: int, n: int): int {
    t - n * MS_PER_DAY
  }

  /** Setting the date to n days less goes back exactly n days, over any number of months and years. */
  lemma SetUtcDateGoesBack(t: int, n: int)
    ensures SetUtcDate(t, Date(t) - n) == DaysAgo(t, n)
  {
    GoesBack(t, Year(t), Month(t), n);
  }

  lemma GoesBack(t: int, y: int, m: int, n: int)
    ensures MakeDay(y, m, Day(t) - FirstDay(12 * y + m) + 1 - n) * MS_PER_DAY + t % MS_PER_DAY == t - n * MS_PER_DAY
  {
    DayArithmetic(t, FirstDay(12 * y + m), n);
  }

  lemma DayArithmetic(t: int, first: int, n: int)
    ensures (first + (t / MS_PER_DAY - first + 1 - n) - 1) * MS_PER_DAY + t % MS_PER_DAY == t - n * MS_PER_DAY
  {
  }
}
