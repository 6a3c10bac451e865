/** How far the same date four years on can be: what the windows of both searches have to span. */
module FourYears {
  import opened Basics
  import opened Calendar

  function ClockTime(t: DateTime): int { t.hour * 3600 + t.minute * 60 + t.second }

  /** By year, month, day and clock time; the dates need not exist. */
  predicate NotAfter(t: DateTime, u: DateTime) {
    || t.year < u.year
    || (t.year == u.year
        && (t.month < u.month
            || (t.month == u.month && (t.day < u.day || (t.day == u.day && ClockTime(t) <= ClockTime(u))))))
  }

  function YearsOn(t: DateTime, years: int): DateTime { t.(year := t.year + years) }

  lemma FourYearDays(y: int)
    ensures DaysBeforeYear(y) + 1460 <= DaysBeforeYear(y + 4) <= DaysBeforeYear(y) + 1461
    ensures DaysBeforeYear(y + 4) == DaysBeforeYear(y) + 1460 + if LeapYear(y) || LeapYear(y + 1) || LeapYear(y + 2) || LeapYear(y + 3) then 1 else 0
  {
    OneLeapInFour(y);
    hide LeapYear;
    NextYear(y);
    NextYear(y + 1);
    NextYear(y + 2);
    NextYear(y + 3);
  }

  lemma NotBothLeap(y: int, z: int)
    requires y < z < y + 4
    ensures !LeapYear(y) || !LeapYear(z)
  {
  }

  lemma OneLeapInFour(y: int)
    ensures LeapYear(y) ==> !LeapYear(y + 1) && !LeapYear(y + 2) && !LeapYear(y + 3)
    ensures LeapYear(y + 1) ==> !LeapYear(y + 2) && !LeapYear(y + 3)
    ensures LeapYear(y + 2) ==> !LeapYear(y + 3)
  {
    hide LeapYear;
    NotBothLeap(y, y + 1);
    NotBothLeap(y, y + 2);
    NotBothLeap(y, y + 3);
    NotBothLeap(y + 1, y + 2);
    NotBothLeap(y + 1, y + 3);
    NotBothLeap(y + 2, y + 3);
  }

  lemma {:induction false} MonthsDiffByOne(y: int, z: int, m: int)
    ensures DaysBeforeMonth(y, m) <= DaysBeforeMonth(z, m) + 1
    ensures m <= 2 ==> DaysBeforeMonth(y, m) == DaysBeforeMonth(z, m)
    decreases m
  {
    if m > 1 { MonthsDiffByOne(y, z, m - 1); }
  }

  lemma DayInYear(t: DateTime)
    requires Valid(t)
    ensures 1 <= DaysBeforeMonth(t.year, t.month) + t.day <= YearDays(t.year)
  {
    MonthsNonNegative(t.year, t.month);
    MonthsFillYear(t.year);
    LaterMonthOfYear(t.year, t.month, 13);
  }

  /** A date not after the same one four years on is at most 1462 days away. */
  lemma FourYearsInDays(t: DateTime, u: DateTime)
    requires Valid(t) && Valid(u) && NotAfter(t, YearsOn(u, 4))
    ensures DayNumber(t) <= DayNumber(u) + 1462
  {
    var w := u.year + 4;
    FourYearDays(u.year);
    DayInYear(t);
    DayInYear(u);
    if t.year < w {
      LaterYear(t.year, w);
    } else {
      MonthsDiffByOne(w, u.year, u.month);
      if t.month < u.month { LaterMonthOfYear(w, t.month, u.month); }
    }
  }

  /** So it lies within the 1464 days of a search's window. */
  lemma FourYearsInSeconds(t: DateTime, u: DateTime)
    requires Valid(t) && Valid(u) && NotAfter(t, YearsOn(u, 4))
    ensures Seconds(t) < Seconds(u) + 1463 * 86_400
  {
    hide DayNumber;
    FourYearsInDays(t, u);
  }
}
