/**
 * The proleptic Gregorian calendar in UTC as the `time` crate's `OffsetDateTime` presents it: dates of
 * the years -9999 to 9999, whole seconds, and the day number that gives the weekday.
 */
module Calendar {
  import opened Basics

  datatype DateTime = DateTime(year: int, month: int, day: int, hour: int, minute: int, second: int)

  const MIN_YEAR := -9999
  const MAX_YEAR := 9999
  const DAY_SECONDS := 86400

  predicate LeapYear(y: int) { y % 4 == 0 && (y % 100 != 0 || y % 400 == 0) }

  /** `days_in_month` */
  function DaysInMonth(y: int, m: int): int {
    if m == 2 then (if LeapYear(y) then 29 else 28)
    else if m == 4 || m == 6 || m == 9 || m == 11 then 30
    else 31
  }

  predicate ValidDate(y: int, m: int, d: int) {
    MIN_YEAR <= y <= MAX_YEAR && 1 <= m <= 12 && 1 <= d <= DaysInMonth(y, m)
  }

  predicate Valid(t: DateTime) {
    && ValidDate(t.year, t.month, t.day)
    && 0 <= t.hour < 24 && 0 <= t.minute < 60 && 0 <= t.second < 60
  }

  // ---- Day numbers -----------------------------------------------------------------------------

  function YearDays(y: int): int { if LeapYear(y) then 366 else 365 }

  /** Days from 1 January of year 1 to 1 January of year `y`, counted year by year. */
  function DaysBeforeYear(y: int): int
    decreases if y >= 1 then y else 2 - y
  {
    if y == 1 then 0
    else if y > 1 then DaysBeforeYear(y - 1) + YearDays(y - 1)
    else DaysBeforeYear(y + 1) - YearDays(y)
  }

  /** Days of year `y` before the first of month `m`; month 13 stands for the year's end. */
  function DaysBeforeMonth(y: int, m: int): int
    decreases m
  {
    if m <= 1 then 0 else DaysBeforeMonth(y, m - 1) + DaysInMonth(y, m - 1)
  }

  /** Number of the day before the first of a month. */
  function MonthBase(y: int, m: int): int { DaysBeforeYear(y) + DaysBeforeMonth(y, m) }

  /** Day 1 is Monday, 1 January of year 1. */
  function DayNumber(t: DateTime): int { MonthBase(t.year, t.month) + t.day }

  /** `weekday().number_days_from_sunday()` */
  function Weekday(t: DateTime): int { DayNumber(t) % 7 }

  function Hours(t: DateTime): int { DayNumber(t) * 24 + t.hour }

  function Minutes(t: DateTime): int { Hours(t) * 60 + t.minute }

  function Seconds(t: DateTime): int { Minutes(t) * 60 + t.second }

  const MIN_TIME := DateTime(MIN_YEAR, 1, 1, 0, 0, 0)
  const MAX_TIME := DateTime(MAX_YEAR, 12, 31, 23, 59, 59)

  /** Orders months across years. */
  function MonthIndex(y: int, m: int): int { 12 * y + m }

  function MonthOf(t: DateTime): int { MonthIndex(t.year, t.month) }

  lemma NextYear(y: int)
    ensures DaysBeforeYear(y + 1) == DaysBeforeYear(y) + YearDays(y)
  {
  }

  lemma MonthsFillYear(y: int)
    ensures DaysBeforeMonth(y, 13) == YearDays(y)
  {
    assert DaysBeforeMonth(y, 3) == YearDays(y) - 306;
    assert DaysBeforeMonth(y, 5) == YearDays(y) - 245;
    assert DaysBeforeMonth(y, 7) == YearDays(y) - 184;
    assert DaysBeforeMonth(y, 9) == YearDays(y) - 122;
    assert DaysBeforeMonth(y, 11) == YearDays(y) - 61;
  }

  lemma {:induction false} LaterYear(a: int, b: int)
    requires a < b
    ensures DaysBeforeYear(a) + YearDays(a) <= DaysBeforeYear(b)
    decreases b - a
  {
    NextYear(b - 1);
    if a < b - 1 { LaterYear(a, b - 1); }
  }

  lemma {:induction false} LaterMonthOfYear(y: int, m: int, n: int)
    requires 1 <= m < n <= 13
    ensures DaysBeforeMonth(y, m) + DaysInMonth(y, m) <= DaysBeforeMonth(y, n)
    decreases n - m
  {
    if m < n - 1 { LaterMonthOfYear(y, m, n - 1); }
  }

  /** A month ends before any later month begins. */
  lemma LaterMonth(y: int, m: int, z: int, n: int)
    requires 1 <= m <= 12 && 1 <= n <= 12 && MonthIndex(y, m) < MonthIndex(z, n)
    ensures MonthBase(y, m) + DaysInMonth(y, m) <= MonthBase(z, n)
  {
    if y == z {
      LaterMonthOfYear(y, m, n);
    } else {
      LaterYear(y, z);
      LaterMonthOfYear(y, m, 13);
      MonthsFillYear(y);
      if 1 < n { LaterMonthOfYear(z, 1, n); }
    }
  }

  lemma {:induction false} YearsApart(y: int, n: nat)
    ensures DaysBeforeYear(y) + 365 * n <= DaysBeforeYear(y + n) <= DaysBeforeYear(y) + 366 * n
  {
    if n > 0 {
      YearsApart(y, n - 1);
      NextYear(y + n - 1);
    }
  }

  lemma MonthEndsInYear(y: int, m: int)
    requires 1 <= m <= 12
    ensures DaysBeforeMonth(y, m) + DaysInMonth(y, m) <= 366
  {
    MonthsFillYear(y);
    LaterMonthOfYear(y, m, 13);
  }

  lemma {:induction false} MonthsNonNegative(y: int, m: int)
    ensures 0 <= DaysBeforeMonth(y, m)
    decreases m
  {
    if m > 1 { MonthsNonNegative(y, m - 1); }
  }

  /** A day number inside a month belongs to a date of that month only. */
  lemma SameMonth(y: int, m: int, t: DateTime)
    requires 1 <= m <= 12 && Valid(t)
    requires MonthBase(y, m) < DayNumber(t) <= MonthBase(y, m) + DaysInMonth(y, m)
    ensures t.year == y && t.month == m
  {
    if MonthIndex(y, m) < MonthOf(t) {
      LaterMonth(y, m, t.year, t.month);
    } else if MonthOf(t) < MonthIndex(y, m) {
      LaterMonth(t.year, t.month, y, m);
    }
  }

  lemma SameDay(a: DateTime, b: DateTime)
    requires Valid(a) && Valid(b) && DayNumber(a) == DayNumber(b)
    ensures a.year == b.year && a.month == b.month && a.day == b.day
  {
    SameMonth(a.year, a.month, b);
  }

  /** A second belongs to one date and time only. */
  lemma SameSecond(a: DateTime, b: DateTime)
    requires Valid(a) && Valid(b) && Seconds(a) == Seconds(b)
    ensures a == b
  {
    SameDay(a, b);
  }

  lemma DayBounds(t: DateTime)
    requires Valid(t)
    ensures DayNumber(MIN_TIME) <= DayNumber(t) <= DayNumber(MAX_TIME)
  {
    if t.year != MIN_YEAR || t.month != 1 { LaterMonth(MIN_YEAR, 1, t.year, t.month); }
    if t.year != MAX_YEAR || t.month != 12 { LaterMonth(t.year, t.month, MAX_YEAR, 12); }
  }

  /** The closed form of the year count: one day more every 4th, but not every 100th, but every 400th. */
  lemma {:induction false} DaysBeforeYearClosed(y: int)
    ensures DaysBeforeYear(y) == 365 * (y - 1) + (y - 1) / 4 - (y - 1) / 100 + (y - 1) / 400
    decreases if y >= 1 then y else 2 - y
  {
    if y > 1 {
      DaysBeforeYearClosed(y - 1);
      LeapQuotients(y - 1);
    } else if y < 1 {
      DaysBeforeYearClosed(y + 1);
      LeapQuotients(y);
    }
  }

  lemma LeapQuotients(y: int)
    ensures y / 4 - y / 100 + y / 400 ==
      (y - 1) / 4 - (y - 1) / 100 + (y - 1) / 400 + if LeapYear(y) then 1 else 0
  {
    QuotientStep(y, 4);
    QuotientStep(y, 100);
    QuotientStep(y, 400);
    MultipleOfMultiple(y, 100, 4);
    MultipleOfMultiple(y, 4, 25);
  }

  lemma MultipleOfMultiple(y: int, k: int, n: int)
    requires (k == 100 && n == 4) || (k == 4 && n == 25)
    ensures y % (k * n) == 0 ==> y % k == 0
  {
    if k == 100 {
      assert y % 400 == 0 ==> y == 100 * (4 * (y / 400));
    } else {
      assert y % 100 == 0 ==> y == 4 * (25 * (y / 100));
    }
  }

  lemma QuotientStep(y: int, k: int)
    requires k == 4 || k == 100 || k == 400
    ensures y / k == (y - 1) / k + if y % k == 0 then 1 else 0
  {
  }

  /** A known weekday anchors the day count: 27 March 2026 is a Friday. */
  lemma WeekdayAnchor(t: DateTime)
    requires t.year == 2026 && t.month == 3 && t.day == 27
    ensures Weekday(t) == 5
  {
    hide DaysBeforeYear;
    DaysBeforeYearClosed(t.year);
    assert DaysBeforeMonth(t.year, 2) == 31;
    assert DaysBeforeMonth(t.year, 3) == 59;
  }

  // ---- Adding and subtracting one unit ---------------------------------------------------------
  // None stands for a result outside the representable years, where the crate panics.

  function AddDay(t: DateTime): Option<DateTime> {
    if t.day < DaysInMonth(t.year, t.month) then Some(t.(day := t.day + 1))
    else if t.month < 12 then Some(t.(month := t.month + 1, day := 1))
    else if t.year < MAX_YEAR then Some(t.(year := t.year + 1, month := 1, day := 1))
    else None
  }

  function AddHour(t: DateTime): Option<DateTime> {
    if t.hour < 23 then Some(t.(hour := t.hour + 1)) else AddDay(t.(hour := 0))
  }

  function AddMinute(t: DateTime): Option<DateTime> {
    if t.minute < 59 then Some(t.(minute := t.minute + 1)) else AddHour(t.(minute := 0))
  }

  function AddSecond(t: DateTime): Option<DateTime> {
    if t.second < 59 then Some(t.(second := t.second + 1)) else AddMinute(t.(second := 0))
  }

  function SubDay(t: DateTime): Option<DateTime> {
    if t.day > 1 then Some(t.(day := t.day - 1))
    else if t.month > 1 then Some(t.(month := t.month - 1, day := DaysInMonth(t.year, t.month - 1)))
    else if t.year > MIN_YEAR then Some(t.(year := t.year - 1, month := 12, day := 31))
    else None
  }

  function SubHour(t: DateTime): Option<DateTime> {
    if t.hour > 0 then Some(t.(hour := t.hour - 1)) else SubDay(t.(hour := 23))
  }

  function SubMinute(t: DateTime): Option<DateTime> {
    if t.minute > 0 then Some(t.(minute := t.minute - 1)) else SubHour(t.(minute := 59))
  }

  function SubSecond(t: DateTime): Option<DateTime> {
    if t.second > 0 then Some(t.(second := t.second - 1)) else SubMinute(t.(second := 59))
  }

  /** The next calendar day has the next day number; there is none only after the last day. */
  lemma AddDayIsNext(t: DateTime)
    requires Valid(t)
    ensures AddDay(t).Some? ==> Valid(AddDay(t).value) && DayNumber(AddDay(t).value) == DayNumber(t) + 1
    ensures AddDay(t).None? <==> t.year == MAX_YEAR && t.month == 12 && t.day == 31
  {
    if t.month == 12 { MonthsFillYear(t.year); NextYear(t.year); }
  }

  lemma SubDayIsPrevious(t: DateTime)
    requires Valid(t)
    ensures SubDay(t).Some? ==> Valid(SubDay(t).value) && DayNumber(SubDay(t).value) == DayNumber(t) - 1
    ensures SubDay(t).None? <==> t.year == MIN_YEAR && t.month == 1 && t.day == 1
  {
    if t.month == 1 { MonthsFillYear(t.year - 1); NextYear(t.year - 1); }
  }

  lemma AddHourIsNext(t: DateTime)
    requires Valid(t)
    ensures AddHour(t).Some? ==> Valid(AddHour(t).value) && Hours(AddHour(t).value) == Hours(t) + 1
    ensures AddHour(t).Some? ==> AddHour(t).value.minute == t.minute && AddHour(t).value.second == t.second
    ensures AddHour(t).None? <==> AddDay(t).None? && t.hour == 23
  {
    AddDayIsNext(t.(hour := 0));
  }

  lemma AddMinuteIsNext(t: DateTime)
    requires Valid(t)
    ensures AddMinute(t).Some? ==> Valid(AddMinute(t).value) && Minutes(AddMinute(t).value) == Minutes(t) + 1
    ensures AddMinute(t).Some? ==> AddMinute(t).value.second == t.second
    ensures AddMinute(t).None? <==> AddDay(t).None? && t.hour == 23 && t.minute == 59
  {
    AddHourIsNext(t.(minute := 0));
  }

  lemma AddSecondIsNext(t: DateTime)
    requires Valid(t)
    ensures AddSecond(t).Some? ==> Valid(AddSecond(t).value) && Seconds(AddSecond(t).value) == Seconds(t) + 1
    ensures AddSecond(t).None? <==> t == MAX_TIME
  {
    AddDayIsNext(t);
    AddMinuteIsNext(t.(second := 0));
  }

  lemma SubHourIsPrevious(t: DateTime)
    requires Valid(t)
    ensures SubHour(t).Some? ==> Valid(SubHour(t).value) && Hours(SubHour(t).value) == Hours(t) - 1
    ensures SubHour(t).Some? ==> SubHour(t).value.minute == t.minute && SubHour(t).value.second == t.second
    ensures SubHour(t).None? <==> SubDay(t).None? && t.hour == 0
  {
    SubDayIsPrevious(t.(hour := 23));
  }

  lemma SubMinuteIsPrevious(t: DateTime)
    requires Valid(t)
    ensures SubMinute(t).Some? ==> Valid(SubMinute(t).value) && Minutes(SubMinute(t).value) == Minutes(t) - 1
    ensures SubMinute(t).Some? ==> SubMinute(t).value.second == t.second
    ensures SubMinute(t).None? <==> SubDay(t).None? && t.hour == 0 && t.minute == 0
  {
    SubHourIsPrevious(t.(minute := 59));
  }

  lemma SubSecondIsPrevious(t: DateTime)
    requires Valid(t)
    ensures SubSecond(t).Some? ==> Valid(SubSecond(t).value) && Seconds(SubSecond(t).value) == Seconds(t) - 1
    ensures SubSecond(t).None? <==> t == MIN_TIME
  {
    SubDayIsPrevious(t);
    SubMinuteIsPrevious(t.(second := 59));
  }

  /** No second is missing: every second of the range is a valid date and time. */
  lemma {:induction false} EverySecond(n: int) returns (t: DateTime)
    requires Seconds(MIN_TIME) <= n <= Seconds(MAX_TIME)
    ensures Valid(t) && Seconds(t) == n
    decreases n - Seconds(MIN_TIME)
  {
    if n == Seconds(MIN_TIME) {
      t := MIN_TIME;
    } else {
      var s := EverySecond(n - 1);
      AddSecondIsNext(s);
      t := AddSecond(s).value;
    }
  }
}
