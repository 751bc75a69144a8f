/** Calendar dates as the doctor's schedule uses them: the proleptic
    Gregorian calendar, a day count, the weekday, the following day, the
    `YYYY-MM-DD` rendering, and moving between months. Months are numbered
    1 to 12 here (JavaScript's `getMonth()` plus one). */
module Calendar {
  import opened Text
  import Sorting

  predicate IsLeap(y: int)
  {
    y % 4 == 0 && (y % 100 != 0 || y % 400 == 0)
  }

  function DaysInMonth(y: int, m: int): (n: int)
    requires 1 <= m <= 12
    ensures 28 <= n <= 31
    ensures m == 2 ==> (n == 29 <==> IsLeap(y))
  {
    if m == 2 then (if IsLeap(y) then 29 else 28)
    else if m == 4 || m == 6 || m == 9 || m == 11 then 30
    else 31
  }

  datatype Date = Date(year: int, month: int, day: int)

  ghost predicate Valid(d: Date)
  {
    1 <= d.month <= 12 && 1 <= d.day <= DaysInMonth(d.year, d.month)
  }

  /** Days from 0001-01-01 to the first of January of year `y`. */
  function DaysBeforeYear(y: int): int
  {
    365 * (y - 1) + (y - 1) / 4 - (y - 1) / 100 + (y - 1) / 400
  }

  /** Days from the first of January to the first of month `m`. */
  function DaysBeforeMonth(y: int, m: int): int
    requires 1 <= m <= 12
  {
    if m == 1 then 0 else DaysBeforeMonth(y, m - 1) + DaysInMonth(y, m - 1)
  }

  lemma StepOfQuotient(x: int)
    ensures x / 4 - (x - 1) / 4 == (if x % 4 == 0 then 1 else 0)
    ensures x / 100 - (x - 1) / 100 == (if x % 100 == 0 then 1 else 0)
    ensures x / 400 - (x - 1) / 400 == (if x % 400 == 0 then 1 else 0)
  {
  }

  /** A year has 366 days when it is a leap year and 365 otherwise. */
  lemma YearLength(y: int)
    ensures DaysBeforeYear(y + 1) - DaysBeforeYear(y) == if IsLeap(y) then 366 else 365
  {
    StepOfQuotient(y);
  }

  /** The twelve months add up to the length of the year. */
  lemma MonthsFillYear(y: int)
    ensures DaysBeforeMonth(y, 12) + 31 == if IsLeap(y) then 366 else 365
  {
    var f := if IsLeap(y) then 1 else 0;
    assert DaysBeforeMonth(y, 2) == 31;
    assert DaysBeforeMonth(y, 3) == 59 + f;
    assert DaysBeforeMonth(y, 4) == 90 + f;
    assert DaysBeforeMonth(y, 5) == 120 + f;
    assert DaysBeforeMonth(y, 6) == 151 + f;
    assert DaysBeforeMonth(y, 7) == 181 + f;
    assert DaysBeforeMonth(y, 8) == 212 + f;
    assert DaysBeforeMonth(y, 9) == 243 + f;
    assert DaysBeforeMonth(y, 10) == 273 + f;
    assert DaysBeforeMonth(y, 11) == 304 + f;
  }

  /** Days from 0001-01-01 (day 0) to `d`. */
  function DayNumber(d: Date): int
    requires 1 <= d.month <= 12
  {
    DaysBeforeYear(d.year) + DaysBeforeMonth(d.year, d.month) + d.day - 1
  }

  /** The day after `d`, as `setDate(getDate() + 1)` gives it. */
  function NextDay(d: Date): (r: Date)
    requires Valid(d)
    ensures Valid(r)
    ensures DayNumber(r) == DayNumber(d) + 1
  {
    if d.day < DaysInMonth(d.year, d.month) then d.(day := d.day + 1)
    else if d.month < 12 then Date(d.year, d.month + 1, 1)
    else
      YearLength(d.year);
      MonthsFillYear(d.year);
      Date(d.year + 1, 1, 1)
  }

  /** `getDay()`: 0 for Sunday to 6 for Saturday; 0001-01-01 was a Monday. */
  function Weekday(d: Date): (w: int)
    requires 1 <= d.month <= 12
    ensures 0 <= w < 7
  {
    (DayNumber(d) + 1) % 7
  }

  /** The weekday advances by one each day. */
  lemma WeekdayNext(d: Date)
    requires Valid(d)
    ensures Weekday(NextDay(d)) == (Weekday(d) + 1) % 7
  {
  }

  /** Two fixed points of the calendar: 1970-01-01 was a Thursday and
      2024-01-01 a Monday. */
  lemma KnownWeekdays()
    ensures Weekday(Date(1970, 1, 1)) == 4
    ensures Weekday(Date(2024, 1, 1)) == 1
  {
    assert DaysBeforeYear(1970) == 719162;
    assert DaysBeforeYear(2024) == 738885;
  }

  /** The four-digit year of an ISO date; other years use JavaScript's decimal form. */
  function YearText(y: int): (r: String)
    ensures |r| > 0
    ensures 0 <= y <= 9999 ==> |r| == 4 && AllDigits(r) && DigitsValue(r) == y
  {
    if 0 <= y <= 9999 then
      Pad2Value(y / 100);
      Pad2Value(y % 100);
      var r := Pad2(y / 100) + Pad2(y % 100);
      assert r[..3] == Pad2(y / 100) + Pad2(y % 100)[..1];
      assert r[..3][..2] == Pad2(y / 100);
      assert DigitsValue(Pad2(y % 100)[..1]) == (y % 100) / 10;
      r
    else IntToString(y)
  }

  /** `toISOString().split('T')[0]` of the UTC midnight of `d`. */
  function IsoDate(d: Date): (r: String)
    requires Valid(d)
    ensures 0 <= d.year <= 9999 ==> |r| == 10 && r[4] == '-' && r[7] == '-'
    ensures 0 <= d.year <= 9999 ==> AllDigits(r[..4]) && AllDigits(r[5..7]) && AllDigits(r[8..])
    ensures 0 <= d.year <= 9999 ==> DigitsValue(r[..4]) == d.year && DigitsValue(r[5..7]) == d.month && DigitsValue(r[8..]) == d.day
  {
    var r := YearText(d.year) + "-" + Pad2(d.month) + "-" + Pad2(d.day);
    if 0 <= d.year <= 9999 then
      assert r[..4] == YearText(d.year) && r[5..7] == Pad2(d.month) && r[8..] == Pad2(d.day);
      Pad2Value(d.month);
      Pad2Value(d.day);
      r
    else r
  }

  /** Within the four-digit years the rendering tells dates apart. */
  lemma IsoDateInjective(a: Date, b: Date)
    requires Valid(a) && Valid(b) && 0 <= a.year <= 9999 && 0 <= b.year <= 9999
    requires IsoDate(a) == IsoDate(b)
    ensures a == b
  {
  }

  /** `a` is an earlier day than `b`. */
  predicate DateBefore(a: Date, b: Date)
  {
    a.year < b.year || (a.year == b.year && (a.month < b.month || (a.month == b.month && a.day < b.day)))
  }

  /** Within the four-digit years the renderings sort as the dates do. */
  lemma IsoDateOrder(a: Date, b: Date)
    requires Valid(a) && Valid(b) && 0 <= a.year <= 9999 && 0 <= b.year <= 9999
    ensures Sorting.StrLess(IsoDate(a), IsoDate(b)) <==> DateBefore(a, b)
  {
    var x, y := IsoDate(a), IsoDate(b);
    assert x == x[..4] + x[4..] && y == y[..4] + y[4..];
    assert x[4..] == x[4..5] + x[5..] && y[4..] == y[4..5] + y[5..];
    assert x[5..] == x[5..7] + x[7..] && y[5..] == y[5..7] + y[7..];
    assert x[7..] == x[7..8] + x[8..] && y[7..] == y[7..8] + y[8..];
    assert x[4..5] == y[4..5] && x[7..8] == y[7..8];
    Sorting.StrLessIrreflexive(x[4..5]);
    Sorting.StrLessIrreflexive(x[7..8]);
    Sorting.DigitsOrder(x[..4], y[..4]);
    Sorting.DigitsOrder(x[5..7], y[5..7]);
    Sorting.DigitsOrder(x[8..], y[8..]);
    Sorting.StrLessConcat(x[..4], y[..4], x[4..], y[4..]);
    Sorting.StrLessConcat(x[4..5], y[4..5], x[5..], y[5..]);
    Sorting.StrLessConcat(x[5..7], y[5..7], x[7..], y[7..]);
    Sorting.StrLessConcat(x[7..8], y[7..8], x[8..], y[8..]);
  }

  /* ---------- months ---------- */

  datatype YearMonth = YearMonth(year: int, month: int)

  ghost predicate ValidMonth(ym: YearMonth) { 1 <= ym.month <= 12 }

  /** Months counted from January of year 0. */
  function MonthIndex(ym: YearMonth): int
  {
    ym.year * 12 + ym.month - 1
  }

  /** The month `delta` months after `ym`, carrying into the year. */
  function ShiftMonth(ym: YearMonth, delta: int): (r: YearMonth)
    ensures ValidMonth(r)
    ensures MonthIndex(r) == MonthIndex(ym) + delta
  {
    var k := MonthIndex(ym) + delta;
    YearMonth(k / 12, k % 12 + 1)
  }

  /** A valid month is determined by its index. */
  lemma MonthIndexInjective(a: YearMonth, b: YearMonth)
    requires ValidMonth(a) && ValidMonth(b) && MonthIndex(a) == MonthIndex(b)
    ensures a == b
  {
  }

  /** Shifting forward and back returns to the same month. */
  lemma ShiftMonthInverse(ym: YearMonth, delta: int)
    requires ValidMonth(ym)
    ensures ShiftMonth(ShiftMonth(ym, delta), -delta) == ym
  {
    MonthIndexInjective(ShiftMonth(ShiftMonth(ym, delta), -delta), ym);
  }

  function MonthOf(d: Date): YearMonth { YearMonth(d.year, d.month) }

  /** Month navigation as written: `setMonth(getMonth() ± 1)` on the whole
      date keeps the day of the month, and a day the target month does not
      have runs over into the month after it. */
  function ShiftDateMonth(d: Date, delta: int): (r: Date)
    requires Valid(d)
    ensures Valid(r)
  {
    var t := ShiftMonth(MonthOf(d), delta);
    var dim := DaysInMonth(t.year, t.month);
    if d.day <= dim then Date(t.year, t.month, d.day)
    else
      var n := ShiftMonth(t, 1);
      Date(n.year, n.month, d.day - dim)
  }

  /** The shown month moves by `delta`, or by `delta + 1` exactly when the
      day of the month does not exist in the target month. */
  lemma ShiftDateMonthMoves(d: Date, delta: int)
    requires Valid(d)
    ensures var t := ShiftMonth(MonthOf(d), delta);
      MonthIndex(MonthOf(ShiftDateMonth(d, delta))) ==
        MonthIndex(MonthOf(d)) + delta + (if d.day > DaysInMonth(t.year, t.month) then 1 else 0)
  {
  }

  /** From 2024-01-31 "next" lands on 2024-03-02, skipping February; from
      2024-03-31 "previous" lands on 2024-03-02, so the month does not change. */
  lemma MonthOverflow()
    ensures ShiftDateMonth(Date(2024, 1, 31), 1) == Date(2024, 3, 2)
    ensures ShiftDateMonth(Date(2024, 3, 31), -1) == Date(2024, 3, 2)
  {
    assert IsLeap(2024);
  }

  /** Navigation on the month alone, as intended: exactly one month per
      press, and "previous" undoes "next". */
  function NavigateMonth(ym: YearMonth, forward: bool): (r: YearMonth)
    ensures ValidMonth(r)
    ensures MonthIndex(r) == MonthIndex(ym) + (if forward then 1 else -1)
  {
    ShiftMonth(ym, if forward then 1 else -1)
  }

  lemma NavigateMonthInverse(ym: YearMonth)
    requires ValidMonth(ym)
    ensures NavigateMonth(NavigateMonth(ym, true), false) == ym
    ensures NavigateMonth(NavigateMonth(ym, false), true) == ym
  {
    ShiftMonthInverse(ym, 1);
    ShiftMonthInverse(ym, -1);
  }

  /** On days every month has (1 to 28) the written navigation agrees with
      the intended one. */
  lemma ShiftDateMonthEarlyDays(d: Date, forward: bool)
    requires Valid(d) && d.day <= 28
    ensures MonthOf(ShiftDateMonth(d, if forward then 1 else -1)) == NavigateMonth(MonthOf(d), forward)
  {
  }
}
