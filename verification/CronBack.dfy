/** dtn-hdy-ham/src/coordinator/cron.rs: `prev_before`, the search backwards, and where it gives up early. */
module CronBack {
  import opened Basics
  import opened Bits
  import opened Calendar
  import opened FourYears
  import opened Cron

  // ---- Retreating ------------------------------------------------------------------------------

  /**
   * `retreat_month`: `replace_month` comes before `replace_day`, so it fails when the previous month
   * is too short for the current day.
   */
  function RetreatMonth(t: DateTime): Step {
    if t.month == 1 then
      if t.year - 1 >= MIN_YEAR then To(DateTime(t.year - 1, 12, 31, 23, 59, 59)) else GiveUp
    else if t.day > DaysInMonth(t.year, t.month - 1) then GiveUp
    else To(DateTime(t.year, t.month - 1, DaysInMonth(t.year, t.month - 1), 23, 59, 59))
  }

  function RetreatDay(t: DateTime): Step { Checked(SubDay(t.(hour := 23, minute := 59, second := 59))) }

  function RetreatHour(t: DateTime): Step { Checked(SubHour(t.(minute := 59, second := 59))) }

  function RetreatMinute(t: DateTime): Step { Checked(SubMinute(t.(second := 59))) }

  /** The tests of the loop body of `prev_before`. */
  function Retreat(c: CronExpr, t: DateTime): Step {
    if !MonthOk(c, t) then RetreatMonth(t)
    else if !DomOk(c, t) then RetreatDay(t)
    else if !DowOk(c, t) then RetreatDay(t)
    else if !HourOk(c, t) then RetreatHour(t)
    else if !MinuteOk(c, t) then RetreatMinute(t)
    else if !SecondOk(c, t) then Checked(SubSecond(t))
    else Here
  }

  /** First second of the month of `t`. */
  function MonthStart(t: DateTime): int { (MonthBase(t.year, t.month) + 1) * DAY_SECONDS }

  /** A step backward skips only non-matching seconds; it stays in the month or lands on the last day of the one before. */
  ghost predicate SoundRetreat(c: CronExpr, t: DateTime, s: Step) {
    match s
    case Here => Matches(c, t)
    case To(n) => Valid(n) && Seconds(n) < Seconds(t) && NoMatch(c, Seconds(n) + 1, Seconds(t) + 1) && PreviousOrSameMonth(c, t, n)
    case GiveUp => !MonthOk(c, t) && NoMatch(c, MonthStart(t), Seconds(t) + 1) && (Blocked(t) || (t.year == MIN_YEAR && t.month == 1))
    case Overflow => DayNumber(t) == DayNumber(MIN_TIME) && NoMatch(c, Seconds(MIN_TIME), Seconds(t) + 1)
  }

  ghost predicate PreviousOrSameMonth(c: CronExpr, t: DateTime, n: DateTime) {
    if MonthOf(n) == MonthOf(t) then MonthOk(c, t)
    else MonthOf(n) == MonthOf(t) - 1 && n.day == DaysInMonth(n.year, n.month) && (MonthOk(c, t) || !Blocked(t))
  }

  /** The day does not exist in the month before (never so in January: December has 31 days). */
  predicate Blocked(t: DateTime) {
    1 < t.month && t.day > DaysInMonth(t.year, t.month - 1)
  }

  lemma RetreatMonthLands(t: DateTime)
    requires Valid(t)
    ensures match RetreatMonth(t)
      case To(n) => Valid(n) && Seconds(n) + 1 == MonthStart(t) && !Blocked(t)
        && MonthOf(n) == MonthOf(t) - 1 && n.day == DaysInMonth(n.year, n.month)
      case GiveUp => Blocked(t) || (t.year == MIN_YEAR && t.month == 1)
      case _ => false
  {
    if t.month == 1 { MonthsFillYear(t.year - 1); NextYear(t.year - 1); }
  }

  lemma RetreatMonthIsSound(c: CronExpr, t: DateTime)
    requires Valid(t) && !MonthOk(c, t)
    ensures SoundRetreat(c, t, RetreatMonth(t))
  {
    RetreatMonthLands(t);
    forall e: DateTime | Valid(e) && MonthStart(t) <= Seconds(e) <= Seconds(t) ensures !Matches(c, e) {
      SkippedMonth(c, t, e);
    }
  }

  lemma SubDayMonth(t: DateTime)
    requires Valid(t)
    ensures SubDay(t).Some? ==>
      var n := SubDay(t).value;
      MonthOf(n) == MonthOf(t) || (MonthOf(n) == MonthOf(t) - 1 && n.day == DaysInMonth(n.year, n.month))
  {
  }

  lemma RetreatDayLands(t: DateTime)
    requires Valid(t)
    ensures match RetreatDay(t)
      case To(n) => Valid(n) && Seconds(n) + 1 == DayNumber(t) * DAY_SECONDS
        && (MonthOf(n) == MonthOf(t) || (MonthOf(n) == MonthOf(t) - 1 && n.day == DaysInMonth(n.year, n.month)))
      case Overflow => DayNumber(t) == DayNumber(MIN_TIME)
      case _ => false
  {
    SubDayIsPrevious(t.(hour := 23, minute := 59, second := 59));
    SubDayMonth(t.(hour := 23, minute := 59, second := 59));
  }

  lemma RetreatHourLands(t: DateTime)
    requires Valid(t)
    ensures match RetreatHour(t)
      case To(n) => Valid(n) && Seconds(n) + 1 == Hours(t) * 3600
        && (MonthOf(n) == MonthOf(t) || (MonthOf(n) == MonthOf(t) - 1 && n.day == DaysInMonth(n.year, n.month)))
      case Overflow => DayNumber(t) == DayNumber(MIN_TIME) && Hours(t) * 3600 == Seconds(MIN_TIME)
      case _ => false
  {
    SubHourIsPrevious(t.(minute := 59, second := 59));
    SubDayIsPrevious(t);
    SubDayMonth(t.(hour := 23, minute := 59, second := 59));
  }

  lemma RetreatMinuteLands(t: DateTime)
    requires Valid(t)
    ensures match RetreatMinute(t)
      case To(n) => Valid(n) && Seconds(n) + 1 == Minutes(t) * 60
        && (MonthOf(n) == MonthOf(t) || (MonthOf(n) == MonthOf(t) - 1 && n.day == DaysInMonth(n.year, n.month)))
      case Overflow => DayNumber(t) == DayNumber(MIN_TIME) && Minutes(t) * 60 == Seconds(MIN_TIME)
      case _ => false
  {
    SubMinuteIsPrevious(t.(second := 59));
    SubDayIsPrevious(t);
    SubDayMonth(t.(hour := 23, minute := 59, second := 59));
  }

  lemma RetreatSecondLands(t: DateTime)
    requires Valid(t)
    ensures match Checked(SubSecond(t))
      case To(n) => Valid(n) && Seconds(n) + 1 == Seconds(t)
        && (MonthOf(n) == MonthOf(t) || (MonthOf(n) == MonthOf(t) - 1 && n.day == DaysInMonth(n.year, n.month)))
      case Overflow => t == MIN_TIME
      case _ => false
  {
    SubSecondIsPrevious(t);
    SubDayMonth(t.(hour := 23, minute := 59, second := 59));
  }

  lemma RetreatDayIsSound(c: CronExpr, t: DateTime)
    requires Valid(t) && MonthOk(c, t) && (!DomOk(c, t) || !DowOk(c, t))
    ensures SoundRetreat(c, t, RetreatDay(t))
  {
    RetreatDayLands(t);
    forall e: DateTime | Valid(e) && DayNumber(t) * DAY_SECONDS <= Seconds(e) <= Seconds(t) ensures !Matches(c, e) {
      SkippedDay(c, t, e);
    }
  }

  lemma RetreatHourIsSound(c: CronExpr, t: DateTime)
    requires Valid(t) && MonthOk(c, t) && !HourOk(c, t)
    ensures SoundRetreat(c, t, RetreatHour(t))
  {
    RetreatHourLands(t);
    forall e: DateTime | Valid(e) && Hours(t) * 3600 <= Seconds(e) <= Seconds(t) ensures !Matches(c, e) {
      SkippedHour(c, t, e);
    }
  }

  lemma RetreatMinuteIsSound(c: CronExpr, t: DateTime)
    requires Valid(t) && MonthOk(c, t) && !MinuteOk(c, t)
    ensures SoundRetreat(c, t, RetreatMinute(t))
  {
    RetreatMinuteLands(t);
    forall e: DateTime | Valid(e) && Minutes(t) * 60 <= Seconds(e) <= Seconds(t) ensures !Matches(c, e) {
      SkippedMinute(c, t, e);
    }
  }

  lemma RetreatSecondIsSound(c: CronExpr, t: DateTime)
    requires Valid(t) && MonthOk(c, t) && !SecondOk(c, t)
    ensures SoundRetreat(c, t, Checked(SubSecond(t)))
  {
    RetreatSecondLands(t);
    forall e: DateTime | Valid(e) && Seconds(e) == Seconds(t) ensures !Matches(c, e) {
      SkippedSecond(c, t, e);
    }
  }

  lemma RetreatIsSound(c: CronExpr, t: DateTime)
    requires Valid(t)
    ensures SoundRetreat(c, t, Retreat(c, t))
  {
    if !MonthOk(c, t) {
      RetreatMonthIsSound(c, t);
    } else if !DomOk(c, t) || !DowOk(c, t) {
      RetreatDayIsSound(c, t);
    } else if !HourOk(c, t) {
      RetreatHourIsSound(c, t);
    } else if !MinuteOk(c, t) {
      RetreatMinuteIsSound(c, t);
    } else if !SecondOk(c, t) {
      RetreatSecondIsSound(c, t);
    }
  }

  // ---- prev_before -----------------------------------------------------------------------------

  /** The day at which the walk backward from `floor` enters a month. */
  function EntryDay(floor: DateTime, y: int, m: int): int {
    if y == floor.year && m == floor.month then floor.day else DaysInMonth(y, m)
  }

  /** An excluded month that the walk cannot leave: its entry day does not exist in the month before. */
  ghost predicate Obstructed(c: CronExpr, floor: DateTime, y: int, m: int) {
    1 < m <= 12 && !Bit(c.month, m) && EntryDay(floor, y, m) > DaysInMonth(y, m - 1)
  }

  /** No month after that of `t`, up to that of `floor`, is obstructed. */
  ghost predicate Unobstructed(c: CronExpr, floor: DateTime, t: DateTime) {
    forall y, m :: MonthOf(t) < MonthIndex(y, m) <= MonthOf(floor) ==> !Obstructed(c, floor, y, m)
  }

  /** The earliest whole second not before `before - 1464 days`. */
  function Earliest(before: Instant): int {
    Seconds(before.t) - WINDOW_DAYS * DAY_SECONDS + if before.nanosecond > 0 then 1 else 0
  }

  predicate StartFits(before: Instant) { DayNumber(MIN_TIME) <= DayNumber(before.t) - WINDOW_DAYS }

  /** Some matching second lies between 1464 days before `before` and the floored time. */
  ghost predicate MatchBehind(c: CronExpr, before: Instant, t: DateTime) {
    && Valid(t) && Matches(c, t) && Seconds(t) <= Seconds(Floor(c, before.t))
    && Seconds(before.t) + (if before.nanosecond > 0 then 1 else 0) <= Seconds(t) + 4 * 366 * 86_400
  }

  /** The window in seconds, and when its start is representable. */
  lemma WindowBehind(before: Instant)
    requires ValidInstant(before)
    ensures Earliest(before) == Seconds(before.t) + (if before.nanosecond > 0 then 1 else 0) - 4 * 366 * 86_400
    ensures StartFits(before) <==> Seconds(MIN_TIME) <= Seconds(before.t) - 4 * 366 * 86_400
  {
  }

  /** A match not before the same date and clock time four years earlier lies in the window. */
  lemma FourYearsAreBehind(c: CronExpr, before: Instant, t: DateTime)
    requires ValidInstant(before) && Valid(t) && Matches(c, t) && Seconds(t) <= Seconds(Floor(c, before.t))
    requires NotAfter(YearsOn(before.t, -4), t)
    ensures MatchBehind(c, before, t)
  {
    FourYearsInSeconds(before.t, t);
  }

  /** From the first second of month (y, m) on nothing matches, and the walk stops in that month. */
  ghost predicate StuckIn(c: CronExpr, floor: DateTime, y: int, m: int) {
    && MonthIndex(y, m) <= MonthOf(floor) && Obstructed(c, floor, y, m)
    && NoMatch(c, (MonthBase(y, m) + 1) * DAY_SECONDS, Seconds(floor) + 1)
  }

  ghost predicate PrevResult(c: CronExpr, before: Instant, r: Search) {
    var floor := Floor(c, before.t);
    match r
    case Found(t) =>
      StartFits(before) && IsLastMatch(c, Earliest(before), Seconds(floor), t) && Unobstructed(c, floor, t)
    case NotFound =>
      StartFits(before)
      && (NoMatch(c, Earliest(before), Seconds(floor) + 1) || exists y, m :: StuckIn(c, floor, y, m))
    case Panicked =>
      || !StartFits(before)
      || (DayNumber(before.t) - WINDOW_DAYS == DayNumber(MIN_TIME) && NoMatch(c, Seconds(MIN_TIME), Seconds(floor) + 1))
  }

  /** How far the walk has come: nothing after `t` matches, and no month left behind was obstructed. */
  ghost predicate Walked(c: CronExpr, floor: DateTime, t: DateTime) {
    && Valid(t) && Seconds(t) <= Seconds(floor) && MonthOf(t) <= MonthOf(floor)
    && NoMatch(c, Seconds(t) + 1, Seconds(floor) + 1)
    && Unobstructed(c, floor, t)
    && (MonthOk(c, t) || t.day == EntryDay(floor, t.year, t.month))
  }

  lemma WalkStep(c: CronExpr, floor: DateTime, t: DateTime, n: DateTime)
    requires Walked(c, floor, t) && SoundRetreat(c, t, To(n))
    ensures Walked(c, floor, n)
  {
    NoMatchJoins(c, Seconds(n) + 1, Seconds(t) + 1, Seconds(floor) + 1);
    StaysUnobstructed(c, floor, t, n);
    EntersAtEntryDay(c, floor, t, n);
  }

  lemma EntersAtEntryDay(c: CronExpr, floor: DateTime, t: DateTime, n: DateTime)
    requires Valid(t) && Valid(n) && MonthOf(t) <= MonthOf(floor) && PreviousOrSameMonth(c, t, n)
    ensures MonthOk(c, n) || n.day == EntryDay(floor, n.year, n.month)
  {
    if MonthOf(n) == MonthOf(t) { assert n.month == t.month; }
  }

  lemma LeavingUnobstructed(c: CronExpr, floor: DateTime, t: DateTime)
    requires MonthOk(c, t) || (t.day == EntryDay(floor, t.year, t.month) && !Blocked(t))
    ensures !Obstructed(c, floor, t.year, t.month)
  {
  }

  lemma StaysUnobstructed(c: CronExpr, floor: DateTime, t: DateTime, n: DateTime)
    requires Valid(t) && Valid(n) && Unobstructed(c, floor, t) && PreviousOrSameMonth(c, t, n)
    requires MonthOk(c, t) || t.day == EntryDay(floor, t.year, t.month)
    ensures Unobstructed(c, floor, n)
  {
    if MonthOf(n) != MonthOf(t) {
      LeavingUnobstructed(c, floor, t);
      forall y, m | 1 < m <= 12 && MonthOf(n) < MonthIndex(y, m) <= MonthOf(floor) ensures !Obstructed(c, floor, y, m) {
        if MonthIndex(y, m) == MonthOf(t) { assert y == t.year && m == t.month; }
      }
    }
  }

  lemma WalkStops(c: CronExpr, floor: DateTime, t: DateTime)
    requires Walked(c, floor, t) && SoundRetreat(c, t, GiveUp)
    ensures StuckIn(c, floor, t.year, t.month) || NoMatch(c, Seconds(MIN_TIME), Seconds(floor) + 1)
  {
    NoMatchJoins(c, MonthStart(t), Seconds(t) + 1, Seconds(floor) + 1);
  }

  lemma BelowTheFirstSecond(c: CronExpr, hi: int, lo: int)
    requires NoMatch(c, Seconds(MIN_TIME), hi)
    ensures NoMatch(c, lo, hi)
  {
    forall e: DateTime | Valid(e) && lo <= Seconds(e) < hi ensures !Matches(c, e) { DayBounds(e); }
  }

  /** What every answer means for the 1464 days: no match that no obstructed month hides is missed. */
  lemma PrevResultInDays(c: CronExpr, before: Instant, r: Search, t: DateTime)
    requires ValidInstant(before) && StartFits(before) && PrevResult(c, before, r)
    ensures MatchBehind(c, before, t) && Unobstructed(c, Floor(c, before.t), t) ==> r.Found? && Seconds(t) <= Seconds(r.t)
    ensures r.Found? ==> MatchBehind(c, before, r.t)
  {
    WindowBehind(before);
    var floor := Floor(c, before.t);
    if MatchBehind(c, before, t) && Unobstructed(c, floor, t) {
      hide Matches;
      DayBounds(t);
      if r.NotFound? {
        var y, m :| StuckIn(c, floor, y, m);
        StuckMonthIsLater(y, m, t);
      }
    }
  }

  /** `prev_before` */
  method PrevBefore(c: CronExpr, before: Instant) returns (r: Search)
    requires ValidInstant(before)
    ensures PrevResult(c, before, r)
    // A match within 1464 days is found unless an obstructed month hides it, and nothing further away.
    ensures forall t :: StartFits(before) && MatchBehind(c, before, t) && Unobstructed(c, Floor(c, before.t), t) ==>
      r.Found? && Seconds(t) <= Seconds(r.t)
    ensures r.Found? ==> MatchBehind(c, before, r.t)
  {
    hide PrevResult, MatchBehind, Unobstructed, StartFits;
    r := WalkBack(c, before);
    forall t | StartFits(before) && MatchBehind(c, before, t) && Unobstructed(c, Floor(c, before.t), t)
      ensures r.Found? && Seconds(t) <= Seconds(r.t)
    {
      PrevResultInDays(c, before, r, t);
    }
    if r.Found? { FoundBehind(c, before, r); }
  }

  lemma FoundBehind(c: CronExpr, before: Instant, r: Search)
    requires ValidInstant(before) && PrevResult(c, before, r) && r.Found?
    ensures MatchBehind(c, before, r.t)
  {
    PrevResultInDays(c, before, r, r.t);
  }

  /** Its loop. */
  method WalkBack(c: CronExpr, before: Instant) returns (r: Search)
    requires ValidInstant(before)
    ensures PrevResult(c, before, r)
  {
    FloorIsValid(c, before.t);
    var dt := Floor(c, before.t);
    ghost var floor := dt;
    if !StartFits(before) {
      return Panicked;
    }
    while Earliest(before) <= Seconds(dt)
      invariant Walked(c, floor, dt)
      decreases Seconds(dt) - Earliest(before)
    {
      RetreatIsSound(c, dt);
      match Retreat(c, dt) {
        case Here =>
          return Found(dt);
        case To(next) =>
          WalkStep(c, floor, dt, next);
          dt := next;
        case GiveUp =>
          WalkStops(c, floor, dt);
          if !StuckIn(c, floor, dt.year, dt.month) {
            BelowTheFirstSecond(c, Seconds(floor) + 1, Earliest(before));
          }
          return NotFound;
        case Overflow =>
          NoMatchJoins(c, Seconds(MIN_TIME), Seconds(dt) + 1, Seconds(floor) + 1);
          return Panicked;
      }
    }
    return NotFound;
  }

  /**
   * Exactly when `prev_before` finds the latest match of the window: when no obstructed month lies
   * between that match and the start of the walk. Otherwise it answers None.
   */
  lemma PrevBeforeExact(c: CronExpr, before: Instant, r: Search, latest: DateTime)
    requires ValidInstant(before) && StartFits(before) && PrevResult(c, before, r)
    requires IsLastMatch(c, Earliest(before), Seconds(Floor(c, before.t)), latest)
    ensures r == Found(latest) <==> Unobstructed(c, Floor(c, before.t), latest)
    ensures r != Found(latest) ==> r == NotFound
  {
    var floor := Floor(c, before.t);
    DayBounds(latest);
    if r.Found? {
      SameSecond(r.t, latest);
    } else if r.NotFound? {
      var y, m :| StuckIn(c, floor, y, m);
      StuckMonthIsLater(y, m, latest);
    }
  }

  lemma StuckMonthIsLater(y: int, m: int, t: DateTime)
    requires Valid(t) && 1 <= m <= 12
    requires Seconds(t) < (MonthBase(y, m) + 1) * DAY_SECONDS
    ensures MonthOf(t) < MonthIndex(y, m)
  {
    hide DaysBeforeYear, DaysBeforeMonth, DaysInMonth;
    assert DayNumber(t) * DAY_SECONDS <= Seconds(t);
    assert DayNumber(t) <= MonthBase(y, m);
    if MonthIndex(y, m) < MonthOf(t) {
      LaterMonthIsAfter(y, m, t);
    }
  }

  lemma LaterMonthIsAfter(y: int, m: int, t: DateTime)
    requires Valid(t) && 1 <= m <= 12 && MonthIndex(y, m) < MonthOf(t)
    ensures MonthBase(y, m) < DayNumber(t)
  {
    LaterMonth(y, m, t.year, t.month);
  }

  lemma OnlyLongMonthsObstruct(c: CronExpr, floor: DateTime, y: int, m: int)
    requires Valid(floor) && Obstructed(c, floor, y, m)
    ensures m == 3 || m == 5 || m == 7 || m == 10 || m == 12
  {
  }

  predicate LongMonthsIn(c: CronExpr) {
    Bit(c.month, 3) && Bit(c.month, 5) && Bit(c.month, 7) && Bit(c.month, 10) && Bit(c.month, 12)
  }

  ghost predicate NeverMatches(c: CronExpr) { forall e: DateTime :: Valid(e) ==> !Matches(c, e) }

  /** Whatever the start, the latest match of the window is found. */
  ghost predicate AlwaysFinds(c: CronExpr) {
    forall before: Instant, latest: DateTime :: WindowHas(c, before, latest) ==> Unobstructed(c, Floor(c, before.t), latest)
  }

  /** `latest` is the latest match of the window that ends at `before`. */
  ghost predicate WindowHas(c: CronExpr, before: Instant, latest: DateTime) {
    ValidInstant(before) && StartFits(before) && IsLastMatch(c, Earliest(before), Seconds(Floor(c, before.t)), latest)
  }

  /**
   * `prev_before` is exact for every start exactly when the mask has March, May, July, October and
   * December, or the expression never matches.
   */
  lemma AlwaysFindsIff(c: CronExpr)
    ensures AlwaysFinds(c) <==> LongMonthsIn(c) || NeverMatches(c)
  {
    if LongMonthsIn(c) {
      forall before: Instant, latest: DateTime | WindowHas(c, before, latest) ensures Unobstructed(c, Floor(c, before.t), latest) {
        FloorIsValid(c, before.t);
        LongMonthsSuffice(c, Floor(c, before.t), latest);
      }
    } else if !NeverMatches(c) {
      var e: DateTime :| Valid(e) && Matches(c, e);
      var m :| (m == 3 || m == 5 || m == 7 || m == 10 || m == 12) && !Bit(c.month, m);
      MidRangeMatches(c, e);
      var before, latest := MissedFrom(c, MidRange(e), m);
    }
  }

  lemma LongMonthsSuffice(c: CronExpr, floor: DateTime, t: DateTime)
    requires Valid(floor) && LongMonthsIn(c)
    ensures Unobstructed(c, floor, t)
  {
    forall y, m ensures !Obstructed(c, floor, y, m) {
      if Obstructed(c, floor, y, m) { OnlyLongMonthsObstruct(c, floor, y, m); }
    }
  }

  lemma CycleForward(y: int)
    ensures DaysBeforeYear(y + 400) == DaysBeforeYear(y) + 146097
  {
    hide DaysBeforeYear;
    DaysBeforeYearClosed(y);
    DaysBeforeYearClosed(y + 400);
    QuotientIs(y + 399, 4, (y - 1) / 4 + 100, (y - 1) % 4);
    QuotientIs(y + 399, 100, (y - 1) / 100 + 4, (y - 1) % 100);
    QuotientIs(y + 399, 400, (y - 1) / 400 + 1, (y - 1) % 400);
  }

  /** The Gregorian calendar repeats after 400 years, weekdays included. */
  lemma FourCenturies(c: CronExpr, t: DateTime, k: int)
    requires k == 400 || k == -400
    ensures Matches(c, t.(year := t.year + k)) <==> Matches(c, t)
  {
    var e := t.(year := t.year + k);
    CycleForward(if k == 400 then t.year else e.year);
    SameLeap(t.year, k);
    SameMonthDays(t.year, e.year, t.month);
    SameWeekday(DayNumber(t), DayNumber(e));
  }

  lemma SameWeekday(a: int, b: int)
    requires b == a + 146097 || b == a - 146097
    ensures a % 7 == b % 7
  {
    QuotientIs(b, 7, a / 7 + (if a < b then 20871 else -20871), a % 7);
  }

  lemma SameLeap(y: int, k: int)
    requires k == 400 || k == -400
    ensures LeapYear(y + k) == LeapYear(y)
  {
    var sign := if k == 400 then 1 else -1;
    QuotientIs(y + k, 4, y / 4 + 100 * sign, y % 4);
    QuotientIs(y + k, 100, y / 100 + 4 * sign, y % 100);
    QuotientIs(y + k, 400, y / 400 + sign, y % 400);
  }

  lemma {:induction false} SameMonthDays(y: int, z: int, m: int)
    requires LeapYear(y) == LeapYear(z)
    ensures DaysBeforeMonth(y, m) == DaysBeforeMonth(z, m) && DaysInMonth(y, m) == DaysInMonth(z, m)
    decreases m
  {
    if m > 1 { SameMonthDays(y, z, m - 1); }
  }

  /** The same instant of the cycle, away from both ends of the representable years. */
  function MidRange(t: DateTime): DateTime {
    t.(year := if t.year > 0 then t.year - 400 else t.year + 400)
  }

  lemma MidRangeMatches(c: CronExpr, t: DateTime)
    requires Valid(t) && Matches(c, t)
    ensures Valid(MidRange(t)) && Matches(c, MidRange(t)) && MIN_YEAR + 5 <= MidRange(t).year < MAX_YEAR
  {
    hide LeapYear, DaysInMonth, DaysBeforeMonth, Matches;
    var k := if t.year > 0 then -400 else 400;
    SameLeap(t.year, k);
    FourCenturies(c, t, k);
    SameMonthDays(t.year, t.year + k, t.month);
  }

  /** If something matches, something matches last. */
  lemma {:induction false} LatestFrom(c: CronExpr, lo: int, hi: int, e: DateTime, n: int) returns (t: DateTime)
    requires Valid(e) && Matches(c, e) && lo <= Seconds(e) <= n <= hi && n <= Seconds(MAX_TIME)
    requires NoMatch(c, n + 1, hi + 1)
    ensures IsLastMatch(c, lo, hi, t)
    decreases n - Seconds(e)
  {
    DayBounds(e);
    t := EverySecond(n);
    if !Matches(c, t) {
      forall d: DateTime | Valid(d) && n <= Seconds(d) < hi + 1 ensures !Matches(c, d) {
        if Seconds(d) == n { SameSecond(d, t); }
      }
      if Seconds(e) == n { SameSecond(e, t); }
      t := LatestFrom(c, lo, hi, e, n - 1);
    }
  }

  /** Asked on the last day of an excluded long month, the search misses the matches before it. */
  lemma MissedFrom(c: CronExpr, e: DateTime, m: int) returns (before: Instant, latest: DateTime)
    requires Valid(e) && Matches(c, e) && MIN_YEAR + 5 <= e.year < MAX_YEAR
    requires (m == 3 || m == 5 || m == 7 || m == 10 || m == 12) && !Bit(c.month, m)
    ensures WindowHas(c, before, latest) && !Unobstructed(c, Floor(c, before.t), latest)
  {
    var y := if e.month < m then e.year else e.year + 1;
    before := Instant(DateTime(y, m, 31, 23, 59, 59), 0);
    var floor := Floor(c, before.t);
    LastDayFloor(c, y, m, floor);
    hide Seconds, DayNumber, Unobstructed, Matches, Obstructed, Floor, NoMatch, DaysInMonth;
    WindowReaches(c, e, before, floor);
    latest := LatestFrom(c, Earliest(before), Seconds(floor), e, Seconds(floor));
    LastDayObstructs(c, floor, latest);
  }

  lemma LastDayFloor(c: CronExpr, y: int, m: int, floor: DateTime)
    requires MIN_YEAR <= y <= MAX_YEAR && (m == 3 || m == 5 || m == 7 || m == 10 || m == 12)
    requires floor == Floor(c, DateTime(y, m, 31, 23, 59, 59))
    ensures Valid(floor) && floor.year == y && floor.month == m && DaysInMonth(y, m) == 31 && DaysInMonth(y, m - 1) < floor.day
  {
    FloorIsValid(c, DateTime(y, m, 31, 23, 59, 59));
  }

  lemma LastDayObstructs(c: CronExpr, floor: DateTime, t: DateTime)
    requires Valid(floor) && Valid(t) && Matches(c, t) && Seconds(t) <= Seconds(floor) && !Bit(c.month, floor.month)
    requires 1 < floor.month && floor.day > DaysInMonth(floor.year, floor.month - 1)
    ensures !Unobstructed(c, floor, t)
  {
    hide Seconds, DayNumber;
    MonthIsEarlier(t, floor);
    assert Obstructed(c, floor, floor.year, floor.month);
    assert MonthOf(t) != MonthIndex(floor.year, floor.month);
  }

  lemma WindowReaches(c: CronExpr, e: DateTime, before: Instant, floor: DateTime)
    requires Valid(e) && ValidInstant(before) && floor == Floor(c, before.t) && before.nanosecond == 0
    requires MIN_YEAR + 5 <= e.year <= before.t.year <= e.year + 1 && MonthOf(e) < MonthOf(before.t)
    requires before.t.day == DaysInMonth(before.t.year, before.t.month)
    ensures StartFits(before) && Earliest(before) <= Seconds(e) <= Seconds(floor) <= Seconds(MAX_TIME)
  {
    FloorIsValid(c, before.t);
    WithinTwoYears(e, before.t.year, before.t.month);
    LaterMonth(e.year, e.month, floor.year, floor.month);
    DayBounds(floor);
  }

  lemma MonthIsEarlier(t: DateTime, floor: DateTime)
    requires Valid(t) && Valid(floor) && Seconds(t) <= Seconds(floor)
    ensures MonthOf(t) <= MonthOf(floor)
  {
    if MonthOf(floor) < MonthOf(t) { LaterMonth(floor.year, floor.month, t.year, t.month); }
  }

  /** The start fits the representable range, and its window reaches back to `e`. */
  lemma WithinTwoYears(e: DateTime, y: int, m: int)
    requires Valid(e) && 1 <= m <= 12 && MIN_YEAR + 5 <= e.year <= y <= e.year + 1
    ensures MonthBase(y, m) + DaysInMonth(y, m) <= DayNumber(e) + 732
    ensures DayNumber(MIN_TIME) + WINDOW_DAYS <= MonthBase(y, m) + DaysInMonth(y, m)
  {
    YearsApart(e.year, y - e.year);
    YearsApart(MIN_YEAR, y - MIN_YEAR);
    MonthEndsInYear(y, m);
    MonthsNonNegative(e.year, e.month);
    MonthsNonNegative(y, m);
  }

  // ---- The early exit happens: a yearly expression asked for in June ----------------------------

  /** `0 0 1 1 *` */
  const NEW_YEAR := CronExpr(1, 1, 1, 2, 2, 0x7F)

  lemma NewYearMatches(t: DateTime)
    requires Valid(t)
    ensures Matches(NEW_YEAR, t) <==>
      t.month == 1 && t.day == 1 && t.hour == 0 && t.minute == 0 && t.second == 0
  {
    OneBit(0, t.second);
    OneBit(0, t.minute);
    OneBit(0, t.hour);
    OneBit(1, t.day);
    OneBit(1, t.month);
    AllWeekdays(Weekday(t));
  }

  lemma OneBit(v: int, k: int)
    requires v == 0 || v == 1
    ensures Bit(if v == 0 then 1 else 2, k) <==> k == v
  {
    BitOfPow2(v, k);
  }

  lemma AllWeekdays(k: int)
    requires 0 <= k < 7
    ensures Bit(0x7F, k)
  {
    assert Pow2(7) == 0x80;
    BitOfLow(7, k);
  }

  lemma NewYearIsLatestInJune(y: int, e: DateTime)
    requires Valid(e) && Matches(NEW_YEAR, e)
    requires Seconds(DateTime(y, 1, 1, 0, 0, 0)) <= Seconds(e) <= Seconds(DateTime(y, 6, 30, 0, 0, 0))
    ensures e == DateTime(y, 1, 1, 0, 0, 0)
  {
    NewYearMatches(e);
    if y < e.year {
      LaterMonth(y, 6, e.year, 1);
    } else if e.year < y {
      LaterMonth(e.year, 1, y, 1);
    }
  }

  /**
   * In every year, `prev_before` asked at midnight of 30 June for "midnight of 1 January" answers
   * None, although that instant lies half a year back: May, entered on the 31st, cannot be left.
   */
  lemma NewYearMissedFromJune(y: int, r: Search)
    requires MIN_YEAR <= y <= MAX_YEAR
    requires StartFits(Instant(DateTime(y, 6, 30, 0, 0, 0), 0))
    requires PrevResult(NEW_YEAR, Instant(DateTime(y, 6, 30, 0, 0, 0), 0), r)
    ensures IsLastMatch(NEW_YEAR, Earliest(Instant(DateTime(y, 6, 30, 0, 0, 0), 0)),
                        Seconds(DateTime(y, 6, 30, 0, 0, 0)), DateTime(y, 1, 1, 0, 0, 0))
    ensures r == NotFound
  {
    var june, january := DateTime(y, 6, 30, 0, 0, 0), DateTime(y, 1, 1, 0, 0, 0);
    var before := Instant(june, 0);
    NewYearMatches(january);
    assert DaysBeforeMonth(y, 3) == 31 + DaysInMonth(y, 2);
    assert DaysBeforeMonth(y, 6) == 123 + DaysInMonth(y, 2);
    forall e: DateTime | Valid(e) && Seconds(january) + 1 <= Seconds(e) < Seconds(june) + 1 ensures !Matches(NEW_YEAR, e) {
      if Matches(NEW_YEAR, e) { NewYearIsLatestInJune(y, e); }
    }
    assert Floor(NEW_YEAR, june) == june;
    OneBit(1, 5);
    assert Obstructed(NEW_YEAR, june, y, 5);
    assert MonthOf(january) < MonthIndex(y, 5) <= MonthOf(june);
    PrevBeforeExact(NEW_YEAR, before, r, january);
  }
}
