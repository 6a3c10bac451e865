/** dtn-hdy-ham/src/coordinator/cron.rs: when `next_after` finds a 29 February. */
module LeapDays {
  import opened Basics
  import opened Calendar
  import opened FourYears
  import opened Cron

  /** Midnight of 29 February and nothing else, such as `0 0 29 2 *`. */
  ghost predicate OnlyLeapDays(c: CronExpr) {
    c.second == 1 && forall t: DateTime :: Valid(t) ==>
      (Matches(c, t) <==> t.month == 2 && t.day == 29 && t.hour == 0 && t.minute == 0 && t.second == 0)
  }

  function February(y: int, day: int): DateTime { DateTime(y, 2, day, 0, 0, 0) }

  /** After the last leap day before the century year `y`, and before the 25 February of `y`. */
  ghost predicate InCenturyGap(y: int, floor: DateTime, after: Instant) {
    && y % 100 == 0 && y % 400 != 0
    && Seconds(February(y - 4, 29)) < Seconds(floor) && Seconds(after.t) < Seconds(February(y, 25))
  }

  lemma FebruaryDays(y: int, day: int)
    ensures DayNumber(February(y, day)) == DaysBeforeYear(y) + 31 + day
    ensures Seconds(February(y, day)) == (DaysBeforeYear(y) + 31 + day) * DAY_SECONDS
  {
    assert DaysBeforeMonth(y, 2) == 31;
  }

  /** Four years on from a leap day or a 25 February. */
  lemma FourFebruaries(y: int)
    requires y % 4 == 0
    ensures LeapYear(y) ==> DaysBeforeYear(y + 4) == DaysBeforeYear(y) + 1461
    ensures !LeapYear(y) ==> DaysBeforeYear(y + 4) == DaysBeforeYear(y) + 1460 && LeapYear(y + 4) && LeapYear(y - 4) && y % 100 == 0
  {
    FourthsOnly(y);
    if !LeapYear(y) { AroundCentury(y); }
    hide DaysBeforeYear, LeapYear;
    FourYearDays(y);
  }

  lemma FourthsOnly(y: int)
    requires y % 4 == 0
    ensures !LeapYear(y + 1) && !LeapYear(y + 2) && !LeapYear(y + 3)
  {
  }

  lemma AroundCentury(y: int)
    requires y % 4 == 0 && !LeapYear(y)
    ensures y % 100 == 0 && LeapYear(y + 4) && LeapYear(y - 4)
  {
  }

  lemma {:induction false} YearsAscend(a: int, b: int)
    requires a <= b
    ensures DaysBeforeYear(a) <= DaysBeforeYear(b)
  {
    if a < b { LaterYear(a, b); }
  }

  /** The day of a leap day after the gap. */
  lemma AfterTheGap(y: int, z: int)
    requires y % 100 == 0 && y % 400 != 0 && LeapYear(z) && y - 4 < z
    ensures DaysBeforeYear(y) + 1460 <= DaysBeforeYear(z)
  {
    FourthsApart(y, z);
    hide LeapYear, DaysBeforeYear;
    FourFebruaries(y);
    YearsAscend(y + 4, z);
  }

  lemma FourthsApart(y: int, z: int)
    requires y % 100 == 0 && y % 400 != 0 && LeapYear(z) && y - 4 < z
    ensures y % 4 == 0 && !LeapYear(y) && y + 4 <= z
  {
    assert y == 4 * (25 * (y / 100)) && z == 4 * (z / 4);
    assert z != y;
  }

  lemma NoneInCenturyGap(c: CronExpr, after: Instant, y: int, t: DateTime)
    requires OnlyLeapDays(c) && ValidInstant(after) && InCenturyGap(y, Floor(c, after.t), after)
    requires Valid(t) && Matches(c, t) && Seconds(Floor(c, after.t)) <= Seconds(t)
    ensures Seconds(after.t) + 4 * 366 * 86_400 < Seconds(t)
  {
    LeapDayIs(c, t);
    hide OnlyLeapDays, Matches, Seconds, Floor, LeapYear;
    FebruaryDays(t.year, 29);
    FebruaryDays(y - 4, 29);
    FebruaryDays(y, 25);
    if t.year <= y - 4 { YearsAscend(t.year, y - 4); }
    AfterTheGap(y, t.year);
  }

  lemma LeapDayIs(c: CronExpr, t: DateTime)
    requires OnlyLeapDays(c) && Valid(t) && Matches(c, t)
    ensures t == February(t.year, 29) && LeapYear(t.year)
  {
  }

  /** The first year divisible by 4 whose 29 February would not lie before `floor`. */
  function NextFourth(floor: DateTime): int {
    var y := FourthFrom(floor.year);
    if Seconds(February(y, 29)) < Seconds(floor) then y + 4 else y
  }

  function FourthFrom(y: int): (z: int)
    ensures z % 4 == 0 && y <= z < y + 4
  {
    y + (-y) % 4
  }

  lemma FloorIsNear(floor: DateTime)
    requires Valid(floor)
    ensures
      var z := NextFourth(floor);
      z % 4 == 0 && MIN_YEAR <= z && Seconds(February(z - 4, 29)) < Seconds(floor) <= Seconds(February(z, 29))
  {
    hide DaysBeforeYear, LeapYear, FourthFrom;
    var y := FourthFrom(floor.year);
    YearStart(floor, y);
    FebruaryDays(y, 29);
    FebruaryDays(y + 4, 29);
    FebruaryDays(y - 4, 29);
    FourYearDays(y);
    hide DayNumber, Seconds;
  }

  /** Counted in seconds, `floor` lies in the years y - 3 to y. */
  lemma YearStart(floor: DateTime, y: int)
    requires Valid(floor) && floor.year <= y < floor.year + 4
    ensures (DaysBeforeYear(y - 4) + 61) * DAY_SECONDS <= Seconds(floor) < (DaysBeforeYear(y) + 367) * DAY_SECONDS
  {
    hide DaysBeforeMonth;
    DayInYear(floor);
    YearsAscend(floor.year, y);
    LaterYear(y - 4, floor.year);
  }

  lemma YearInRange(y: int)
    requires Seconds(February(y, 29)) <= Seconds(MAX_TIME)
    ensures y <= MAX_YEAR
  {
    FebruaryDays(y, 29);
    if y > MAX_YEAR {
      MonthEndsInYear(MAX_YEAR, 12);
      LaterYear(MAX_YEAR, y);
      MonthsFillYear(MAX_YEAR);
      DayInYear(MAX_TIME);
    }
  }

  lemma LeapDayAhead(c: CronExpr, after: Instant, y: int)
    requires OnlyLeapDays(c) && ValidInstant(after) && LimitFits(after) && LeapYear(y) && MIN_YEAR <= y
    requires Seconds(Floor(c, after.t)) <= Seconds(February(y, 29)) <= Seconds(after.t) + 4 * 366 * 86_400
    ensures MatchAhead(c, after)
  {
    hide Seconds, DayNumber, Floor;
    WindowAhead(c, after);
    YearInRange(y);
    assert Valid(February(y, 29)) && Matches(c, February(y, 29));
  }

  /**
   * Exactly when `next_after` finds the next 29 February: always, except after the last leap day before
   * a century year without one, and then again from the 25 February of that year on.
   */
  lemma LeapDayFoundIff(c: CronExpr, after: Instant)
    requires OnlyLeapDays(c) && ValidInstant(after) && LimitFits(after)
    ensures MatchAhead(c, after) <==> !exists y :: InCenturyGap(y, Floor(c, after.t), after)
  {
    var floor := Floor(c, after.t);
    FloorIsValid(c, after.t);
    if y :| InCenturyGap(y, floor, after) {
      if MatchAhead(c, after) {
        var t: DateTime :| Valid(t) && Matches(c, t) && Seconds(floor) <= Seconds(t) <= Seconds(after.t) + 4 * 366 * 86_400;
        NoneInCenturyGap(c, after, y, t);
      }
    } else {
      NextLeapDay(c, after, NextFourth(floor));
    }
  }

  lemma NextLeapDay(c: CronExpr, after: Instant, z: int)
    requires OnlyLeapDays(c) && ValidInstant(after) && LimitFits(after) && !InCenturyGap(z, Floor(c, after.t), after)
    requires z == NextFourth(Floor(c, after.t))
    ensures MatchAhead(c, after)
  {
    hide OnlyLeapDays, Matches, MatchAhead, Valid, Seconds, DayNumber, Floor, LeapYear, LimitFits, NextFourth;
    FloorIsValid(c, after.t);
    FloorIsNear(Floor(c, after.t));
    if LeapYear(z) {
      FourthIsNear(z);
      LeapDayAhead(c, after, z);
    } else {
      NotDivisible(z);
      CenturyIsNear(z);
      LeapDayAhead(c, after, z + 4);
    }
  }

  lemma FourthIsNear(z: int)
    requires z % 4 == 0
    ensures Seconds(February(z, 29)) <= Seconds(February(z - 4, 29)) + 1461 * 86_400
  {
    FourYearDays(z - 4);
    FebruaryDays(z - 4, 29);
    FebruaryDays(z, 29);
  }

  lemma CenturyIsNear(z: int)
    requires z % 4 == 0 && !LeapYear(z)
    ensures LeapYear(z + 4) && Seconds(February(z, 29)) <= Seconds(February(z + 4, 29)) == Seconds(February(z, 25)) + 1464 * 86_400
  {
    FourFebruaries(z);
    FebruaryDays(z, 29);
    FebruaryDays(z, 25);
    FebruaryDays(z + 4, 29);
  }

  lemma NotDivisible(z: int)
    requires z % 4 == 0 && !LeapYear(z)
    ensures z % 100 == 0 && z % 400 != 0
  {
  }
}
