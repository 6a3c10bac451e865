/** dtn-hdy-ham/src/coordinator/cron.rs: expressions as bitsets, and the search for matching instants. */
module Cron {
  import opened Basics
  import opened Bits
  import opened Calendar
  import opened FourYears

  datatype CronExpr = CronExpr(second: u64, minute: u64, hour: u32, dom: u32, month: u16, dow: byte)

  predicate MonthOk(c: CronExpr, t: DateTime) { Bit(c.month, t.month) }

  predicate DomOk(c: CronExpr, t: DateTime) { Bit(c.dom, t.day) }

  predicate DowOk(c: CronExpr, t: DateTime) { Bit(c.dow, Weekday(t)) }

  predicate HourOk(c: CronExpr, t: DateTime) { Bit(c.hour, t.hour) }

  predicate MinuteOk(c: CronExpr, t: DateTime) { Bit(c.minute, t.minute) }

  predicate SecondOk(c: CronExpr, t: DateTime) { Bit(c.second, t.second) }

  predicate Matches(c: CronExpr, t: DateTime) {
    MonthOk(c, t) && DomOk(c, t) && DowOk(c, t) && HourOk(c, t) && MinuteOk(c, t) && SecondOk(c, t)
  }

  /** `has_seconds` */
  predicate HasSeconds(c: CronExpr) { c.second != 1 }

  function Floor(c: CronExpr, t: DateTime): DateTime {
    if HasSeconds(c) then t else t.(second := 0)
  }

  // ---- The naive search ------------------------------------------------------------------------

  /** No second in [lo, hi) matches. */
  ghost predicate NoMatch(c: CronExpr, lo: int, hi: int) {
    forall e: DateTime :: Valid(e) && lo <= Seconds(e) < hi ==> !Matches(c, e)
  }

  /** `t` is the least matching second in [lo, hi]. */
  ghost predicate IsFirstMatch(c: CronExpr, lo: int, hi: int, t: DateTime) {
    Valid(t) && Matches(c, t) && lo <= Seconds(t) <= hi && NoMatch(c, lo, Seconds(t))
  }

  /** `t` is the greatest matching second in [lo, hi]. */
  ghost predicate IsLastMatch(c: CronExpr, lo: int, hi: int, t: DateTime) {
    Valid(t) && Matches(c, t) && lo <= Seconds(t) <= hi && NoMatch(c, Seconds(t) + 1, hi + 1)
  }

  // ---- Advancing -------------------------------------------------------------------------------

  /** One turn of the search loop. `Overflow` stands for the panic of an unrepresentable result. */
  datatype Step = Here | To(t: DateTime) | GiveUp | Overflow

  function Checked(t: Option<DateTime>): Step { if t.Some? then To(t.value) else Overflow }

  /** `advance_month` */
  function AdvanceMonth(t: DateTime): Step {
    var first := DateTime(t.year, t.month, 1, 0, 0, 0);
    if t.month < 12 then To(first.(month := t.month + 1))
    else if t.year + 1 <= MAX_YEAR then To(first.(month := 1, year := t.year + 1))
    else GiveUp
  }

  function AdvanceDay(t: DateTime): Step { Checked(AddDay(t.(hour := 0, minute := 0, second := 0))) }

  function AdvanceHour(t: DateTime): Step { Checked(AddHour(t.(minute := 0, second := 0))) }

  function AdvanceMinute(t: DateTime): Step { Checked(AddMinute(t.(second := 0))) }

  /** The tests of the loop body of `next_after`, coarsest field first. */
  function Advance(c: CronExpr, t: DateTime): Step {
    if !MonthOk(c, t) then AdvanceMonth(t)
    else if !DomOk(c, t) then AdvanceDay(t)
    else if !DowOk(c, t) then AdvanceDay(t)
    else if !HourOk(c, t) then AdvanceHour(t)
    else if !MinuteOk(c, t) then AdvanceMinute(t)
    else if !SecondOk(c, t) then Checked(AddSecond(t))
    else Here
  }

  /** What a step forward may do: skip only non-matching seconds. */
  ghost predicate SoundAdvance(c: CronExpr, t: DateTime, s: Step) {
    match s
    case Here => Matches(c, t)
    case To(n) => Valid(n) && Seconds(t) < Seconds(n) && NoMatch(c, Seconds(t), Seconds(n))
    case GiveUp => NoMatch(c, Seconds(t), Seconds(MAX_TIME) + 1)
    case Overflow => DayNumber(t) == DayNumber(MAX_TIME) && NoMatch(c, Seconds(t), Seconds(MAX_TIME) + 1)
  }

  /** The fields two instants share decide alike. */
  lemma SameFields(c: CronExpr, t: DateTime, e: DateTime)
    ensures t.month == e.month && !MonthOk(c, t) ==> !Matches(c, e)
    ensures t.day == e.day && !DomOk(c, t) ==> !Matches(c, e)
    ensures DayNumber(t) == DayNumber(e) && !DowOk(c, t) ==> !Matches(c, e)
    ensures t.hour == e.hour && !HourOk(c, t) ==> !Matches(c, e)
    ensures t.minute == e.minute && !MinuteOk(c, t) ==> !Matches(c, e)
    ensures t.second == e.second && !SecondOk(c, t) ==> !Matches(c, e)
  {
  }

  lemma SkippedMonth(c: CronExpr, t: DateTime, e: DateTime)
    requires Valid(t) && Valid(e) && !MonthOk(c, t)
    requires MonthBase(t.year, t.month) < DayNumber(e) <= MonthBase(t.year, t.month) + DaysInMonth(t.year, t.month)
    ensures !Matches(c, e)
  {
    SameMonth(t.year, t.month, e);
    SameFields(c, t, e);
  }

  lemma SkippedDay(c: CronExpr, t: DateTime, e: DateTime)
    requires Valid(t) && Valid(e) && (!DomOk(c, t) || !DowOk(c, t)) && DayNumber(e) == DayNumber(t)
    ensures !Matches(c, e)
  {
    SameDay(t, e);
    SameFields(c, t, e);
  }

  lemma SkippedHour(c: CronExpr, t: DateTime, e: DateTime)
    requires Valid(t) && Valid(e) && !HourOk(c, t) && Hours(e) == Hours(t)
    ensures !Matches(c, e)
  {
    SameFields(c, t, e);
  }

  lemma SkippedMinute(c: CronExpr, t: DateTime, e: DateTime)
    requires Valid(t) && Valid(e) && !MinuteOk(c, t) && Minutes(e) == Minutes(t)
    ensures !Matches(c, e)
  {
    SameFields(c, t, e);
  }

  lemma SkippedSecond(c: CronExpr, t: DateTime, e: DateTime)
    requires Valid(t) && Valid(e) && !SecondOk(c, t) && Seconds(e) == Seconds(t)
    ensures !Matches(c, e)
  {
    SameFields(c, t, e);
  }

  /** Where the month after `t`'s begins; `AdvanceMonth` goes there unless the years run out. */
  lemma AdvanceMonthLands(t: DateTime)
    requires Valid(t)
    ensures AdvanceMonth(t).GiveUp? || AdvanceMonth(t).To?
    ensures AdvanceMonth(t).To? ==> Valid(AdvanceMonth(t).t) && Minutes(AdvanceMonth(t).t) * 60 == Seconds(AdvanceMonth(t).t)
    ensures AdvanceMonth(t).To? ==>
      Seconds(AdvanceMonth(t).t) == (MonthBase(t.year, t.month) + DaysInMonth(t.year, t.month) + 1) * DAY_SECONDS
    ensures AdvanceMonth(t).GiveUp? ==> MonthBase(t.year, t.month) + DaysInMonth(t.year, t.month) == DayNumber(MAX_TIME)
  {
    if t.month == 12 { MonthsFillYear(t.year); NextYear(t.year); }
  }

  lemma AdvanceMonthIsSound(c: CronExpr, t: DateTime)
    requires Valid(t) && !MonthOk(c, t)
    ensures SoundAdvance(c, t, AdvanceMonth(t))
  {
    AdvanceMonthLands(t);
    forall e: DateTime
      | Valid(e) && Seconds(t) <= Seconds(e) < (MonthBase(t.year, t.month) + DaysInMonth(t.year, t.month) + 1) * DAY_SECONDS
      ensures !Matches(c, e)
    {
      SkippedMonth(c, t, e);
    }
  }

  lemma AdvanceDayIsSound(c: CronExpr, t: DateTime)
    requires Valid(t) && (!DomOk(c, t) || !DowOk(c, t))
    ensures SoundAdvance(c, t, AdvanceDay(t))
  {
    AddDayIsNext(t.(hour := 0, minute := 0, second := 0));
    forall e: DateTime | Valid(e) && Seconds(t) <= Seconds(e) < (DayNumber(t) + 1) * DAY_SECONDS ensures !Matches(c, e) {
      SkippedDay(c, t, e);
    }
  }

  lemma AdvanceHourLands(t: DateTime)
    requires Valid(t)
    ensures match AdvanceHour(t)
      case To(n) => Valid(n) && Seconds(n) == (Hours(t) + 1) * 3600
      case Overflow => DayNumber(t) == DayNumber(MAX_TIME) && Seconds(MAX_TIME) + 1 == (Hours(t) + 1) * 3600
      case _ => false
  {
    AddHourIsNext(t.(minute := 0, second := 0));
    AddDayIsNext(t);
  }

  lemma AdvanceMinuteLands(t: DateTime)
    requires Valid(t)
    ensures match AdvanceMinute(t)
      case To(n) => Valid(n) && Seconds(n) == (Minutes(t) + 1) * 60
      case Overflow => DayNumber(t) == DayNumber(MAX_TIME) && Seconds(MAX_TIME) + 1 == (Minutes(t) + 1) * 60
      case _ => false
  {
    AddMinuteIsNext(t.(second := 0));
    AddDayIsNext(t);
  }

  lemma AdvanceHourIsSound(c: CronExpr, t: DateTime)
    requires Valid(t) && !HourOk(c, t)
    ensures SoundAdvance(c, t, AdvanceHour(t))
  {
    AdvanceHourLands(t);
    forall e: DateTime | Valid(e) && Seconds(t) <= Seconds(e) < (Hours(t) + 1) * 3600 ensures !Matches(c, e) {
      SkippedHour(c, t, e);
    }
  }

  lemma AdvanceMinuteIsSound(c: CronExpr, t: DateTime)
    requires Valid(t) && !MinuteOk(c, t)
    ensures SoundAdvance(c, t, AdvanceMinute(t))
  {
    AdvanceMinuteLands(t);
    forall e: DateTime | Valid(e) && Seconds(t) <= Seconds(e) < (Minutes(t) + 1) * 60 ensures !Matches(c, e) {
      SkippedMinute(c, t, e);
    }
  }

  lemma AdvanceSecondIsSound(c: CronExpr, t: DateTime)
    requires Valid(t) && !SecondOk(c, t)
    ensures SoundAdvance(c, t, Checked(AddSecond(t)))
  {
    AddSecondIsNext(t);
    forall e: DateTime | Valid(e) && Seconds(e) == Seconds(t) ensures !Matches(c, e) {
      SameSecond(t, e);
      SkippedSecond(c, t, e);
    }
  }

  lemma AdvanceIsSound(c: CronExpr, t: DateTime)
    requires Valid(t)
    ensures SoundAdvance(c, t, Advance(c, t))
  {
    if !MonthOk(c, t) {
      AdvanceMonthIsSound(c, t);
    } else if !DomOk(c, t) || !DowOk(c, t) {
      AdvanceDayIsSound(c, t);
    } else if !HourOk(c, t) {
      AdvanceHourIsSound(c, t);
    } else if !MinuteOk(c, t) {
      AdvanceMinuteIsSound(c, t);
    } else if !SecondOk(c, t) {
      AdvanceSecondIsSound(c, t);
    }
  }

  // ---- next_after ------------------------------------------------------------------------------

  /** An `OffsetDateTime` in UTC with its sub-second part. */
  datatype Instant = Instant(t: DateTime, nanosecond: int)

  predicate ValidInstant(i: Instant) { Valid(i.t) && 0 <= i.nanosecond < 1_000_000_000 }

  predicate Precedes(t: DateTime, i: Instant) {
    Seconds(t) < Seconds(i.t) || (Seconds(t) == Seconds(i.t) && 0 < i.nanosecond)
  }

  datatype Search = Found(t: DateTime) | NotFound | Panicked

  const WINDOW_DAYS := 366 * 4

  function Limit(after: Instant): int { Seconds(after.t) + WINDOW_DAYS * DAY_SECONDS }

  /** The window's end is a representable date. */
  predicate LimitFits(after: Instant) { DayNumber(after.t) + WINDOW_DAYS <= DayNumber(MAX_TIME) }

  /** Some matching second lies between the floored time and 1464 days after `after`. */
  ghost predicate MatchAhead(c: CronExpr, after: Instant) {
    exists t: DateTime ::
      Valid(t) && Matches(c, t) && Seconds(Floor(c, after.t)) <= Seconds(t) <= Seconds(after.t) + 4 * 366 * 86_400
  }

  /** Some matching second is no later than the same date and clock time four years on. */
  ghost predicate MatchInFourYears(c: CronExpr, after: Instant) {
    exists t: DateTime :: Valid(t) && Matches(c, t) && Seconds(Floor(c, after.t)) <= Seconds(t) && NotAfter(t, YearsOn(after.t, 4))
  }

  /** The window in seconds, and when its end is representable. */
  lemma WindowAhead(c: CronExpr, after: Instant)
    requires ValidInstant(after)
    ensures Limit(after) == Seconds(after.t) + 4 * 366 * 86_400
    ensures LimitFits(after) <==> Seconds(after.t) + 4 * 366 * 86_400 <= Seconds(MAX_TIME)
  {
  }

  /** Four years of the calendar always fit into it. */
  lemma FourYearsAreAhead(c: CronExpr, after: Instant)
    requires ValidInstant(after) && MatchInFourYears(c, after)
    ensures MatchAhead(c, after)
  {
    var t: DateTime :| Valid(t) && Matches(c, t) && Seconds(Floor(c, after.t)) <= Seconds(t) && NotAfter(t, YearsOn(after.t, 4));
    FourYearsInSeconds(t, after.t);
  }

  lemma NothingAhead(c: CronExpr, after: Instant)
    requires ValidInstant(after)
    ensures MatchAhead(c, after) <==> !NoMatch(c, Seconds(Floor(c, after.t)), Limit(after) + 1)
  {
    hide Matches;
    WindowAhead(c, after);
  }

  lemma FloorIsValid(c: CronExpr, t: DateTime)
    requires Valid(t)
    ensures Valid(Floor(c, t)) && Seconds(t) - 59 <= Seconds(Floor(c, t)) <= Seconds(t)
    ensures DayNumber(Floor(c, t)) == DayNumber(t)
  {
  }

  /** On the last representable day, where a search that finds nothing comes to a unit it cannot advance. */
  function LastStop(c: CronExpr): DateTime {
    if !DomOk(c, MAX_TIME) || !DowOk(c, MAX_TIME) then MAX_TIME.(hour := 0, minute := 0, second := 0)
    else if !HourOk(c, MAX_TIME) then MAX_TIME.(minute := 0, second := 0)
    else if !MinuteOk(c, MAX_TIME) then MAX_TIME.(second := 0)
    else MAX_TIME
  }

  /** Nothing matches, December is allowed, and the window reaches the stop on the last day. */
  ghost predicate PanicsAtEnd(c: CronExpr, after: Instant) {
    && LimitFits(after) && MonthOk(c, MAX_TIME) && Seconds(LastStop(c)) <= Limit(after)
    && NoMatch(c, Seconds(Floor(c, after.t)), Limit(after) + 1)
  }

  /** An advance overflows only on the last day, at or after the stop. */
  lemma OverflowIsLastStop(c: CronExpr, t: DateTime)
    requires Valid(t) && Advance(c, t) == Overflow
    ensures MonthOk(c, MAX_TIME) && Seconds(LastStop(c)) <= Seconds(t)
  {
    OverflowIsLastDay(c, t);
    SameDay(t, MAX_TIME);
    AddHourIsNext(t.(minute := 0, second := 0));
    AddMinuteIsNext(t.(second := 0));
    AddSecondIsNext(t);
  }

  lemma OverflowIsLastDay(c: CronExpr, t: DateTime)
    requires Valid(t) && Advance(c, t) == Overflow
    ensures DayNumber(t) == DayNumber(MAX_TIME)
  {
    AdvanceIsSound(c, t);
  }

  /** No advance leaps over the stop. */
  lemma StopIsReached(c: CronExpr, t: DateTime, n: DateTime)
    requires Valid(t) && Advance(c, t) == To(n) && Seconds(t) <= Seconds(LastStop(c))
    ensures Seconds(n) <= Seconds(LastStop(c))
  {
    AdvanceIsSound(c, t);
    DayBounds(n);
    DayBounds(t);
    if DayNumber(n) == DayNumber(MAX_TIME) && (n.hour, n.minute, n.second) != (0, 0, 0) {
      SameDay(n, MAX_TIME);
      LeapWithinDay(c, t, n);
    }
  }

  /** What an advance within a day skips: the rest of an hour, of a minute, or a second. */
  lemma WithinDay(c: CronExpr, t: DateTime, n: DateTime)
    requires Valid(t) && Advance(c, t) == To(n) && (n.hour, n.minute, n.second) != (0, 0, 0)
    ensures t.year == n.year && t.month == n.month && t.day == n.day && DomOk(c, t) && DowOk(c, t)
    ensures ClockTime(n) <= (t.hour + 1) * 3600
    ensures !HourOk(c, t) ==> n.minute == 0 && n.second == 0
    ensures HourOk(c, t) && !MinuteOk(c, t) ==> n.second == 0
    ensures HourOk(c, t) && MinuteOk(c, t) ==> ClockTime(n) == ClockTime(t) + 1
  {
    hide DomOk, DowOk, HourOk, MinuteOk, SecondOk, MonthOk;
  }

  lemma LeapWithinDay(c: CronExpr, t: DateTime, n: DateTime)
    requires Valid(t) && Valid(n) && Advance(c, t) == To(n) && (n.hour, n.minute, n.second) != (0, 0, 0)
    requires DayNumber(n) == DayNumber(MAX_TIME) && n.year == MAX_YEAR && n.month == 12 && n.day == 31
    requires Seconds(t) <= Seconds(LastStop(c))
    ensures Seconds(n) <= Seconds(LastStop(c))
  {
    WithinDay(c, t, n);
    var stop := LastStop(c);
    assert Seconds(t) == DayNumber(MAX_TIME) * DAY_SECONDS + ClockTime(t);
    assert Seconds(n) == DayNumber(MAX_TIME) * DAY_SECONDS + ClockTime(n);
    assert Seconds(stop) == DayNumber(MAX_TIME) * DAY_SECONDS + ClockTime(stop);
    LeapBelow(c, t, n);
  }

  lemma LeapBelow(c: CronExpr, t: DateTime, n: DateTime)
    requires Valid(t) && Valid(n) && t.month == 12 && t.day == 31 && DomOk(c, t) && DowOk(c, t) && DowOk(c, MAX_TIME)
    requires ClockTime(n) <= (t.hour + 1) * 3600 && ClockTime(t) <= ClockTime(LastStop(c))
    requires !HourOk(c, t) ==> n.minute == 0 && n.second == 0
    requires HourOk(c, t) && !MinuteOk(c, t) ==> n.second == 0
    requires HourOk(c, t) && MinuteOk(c, t) ==> ClockTime(n) == ClockTime(t) + 1
    ensures ClockTime(n) <= ClockTime(LastStop(c))
  {
    hide DowOk, Weekday, DayNumber;
  }

  lemma FloorBelowStop(c: CronExpr, after: Instant)
    requires ValidInstant(after) && LimitFits(after)
    ensures Seconds(Floor(c, after.t)) <= Seconds(LastStop(c))
  {
    FloorIsValid(c, after.t);
  }

  lemma NoMatchJoins(c: CronExpr, lo: int, mid: int, hi: int)
    requires NoMatch(c, lo, mid) && NoMatch(c, mid, hi)
    ensures NoMatch(c, lo, hi)
  {
  }

  /** The walk from the floored time has come to `dt` within the window and found nothing. */
  ghost predicate CameTo(c: CronExpr, after: Instant, dt: DateTime) {
    && ValidInstant(after) && LimitFits(after) && Valid(dt) && Seconds(Floor(c, after.t)) <= Seconds(dt) <= Limit(after)
    && NoMatch(c, Seconds(Floor(c, after.t)), Seconds(dt))
  }

  lemma GiveUpFindsNothing(c: CronExpr, after: Instant, dt: DateTime)
    requires CameTo(c, after, dt) && Advance(c, dt) == GiveUp
    ensures NoMatch(c, Seconds(Floor(c, after.t)), Limit(after) + 1) && !PanicsAtEnd(c, after)
  {
    AdvanceIsSound(c, dt);
    NoMatchJoins(c, Seconds(Floor(c, after.t)), Seconds(dt), Seconds(MAX_TIME) + 1);
  }

  lemma OverflowPanicsAtEnd(c: CronExpr, after: Instant, dt: DateTime)
    requires CameTo(c, after, dt) && Advance(c, dt) == Overflow
    ensures PanicsAtEnd(c, after)
  {
    AdvanceIsSound(c, dt);
    NoMatchJoins(c, Seconds(Floor(c, after.t)), Seconds(dt), Seconds(MAX_TIME) + 1);
    OverflowIsLastStop(c, dt);
  }

  /**
   * The least matching second of [floor(after), after + 1464 days], or None exactly when there is
   * none. The addition of the window, or of a unit on the very last representable day, can panic.
   */
  method NextAfter(c: CronExpr, after: Instant) returns (r: Search)
    requires ValidInstant(after)
    ensures r.Found? ==> LimitFits(after) && IsFirstMatch(c, Seconds(Floor(c, after.t)), Limit(after), r.t)
    ensures r.NotFound? ==> LimitFits(after) && NoMatch(c, Seconds(Floor(c, after.t)), Limit(after) + 1)
    ensures r.Panicked? <==> !LimitFits(after) || PanicsAtEnd(c, after)
    // It finds exactly what lies within 1464 days; four years of the calendar always do.
    ensures r.Found? <==> LimitFits(after) && MatchAhead(c, after)
    ensures LimitFits(after) && MatchInFourYears(c, after) ==> r.Found?
    ensures r.Found? ==> Seconds(r.t) <= Seconds(after.t) + 4 * 366 * 86_400
  {
    hide MatchAhead, MatchInFourYears;
    WindowAhead(c, after);
    NothingAhead(c, after);
    if MatchInFourYears(c, after) { FourYearsAreAhead(c, after); }
    FloorIsValid(c, after.t);
    ghost var lo := Seconds(Floor(c, after.t));
    var dt := Floor(c, after.t);
    if !LimitFits(after) {
      return Panicked;
    }
    FloorBelowStop(c, after);
    hide LastStop, DayNumber;
    while Seconds(dt) <= Limit(after)
      invariant Valid(dt) && lo <= Seconds(dt) && NoMatch(c, lo, Seconds(dt))
      invariant PanicsAtEnd(c, after) ==> Seconds(dt) <= Seconds(LastStop(c))
      decreases Limit(after) - Seconds(dt)
    {
      AdvanceIsSound(c, dt);
      match Advance(c, dt) {
        case Here =>
          return Found(dt);
        case To(next) =>
          NoMatchJoins(c, lo, Seconds(dt), Seconds(next));
          if PanicsAtEnd(c, after) { StopIsReached(c, dt, next); }
          dt := next;
        case GiveUp =>
          GiveUpFindsNothing(c, after, dt);
          return NotFound;
        case Overflow =>
          OverflowPanicsAtEnd(c, after, dt);
          return Panicked;
      }
    }
    return NotFound;
  }

  lemma FirstMatchIsUnique(c: CronExpr, lo: int, hi: int, a: DateTime, b: DateTime)
    requires IsFirstMatch(c, lo, hi, a) && IsFirstMatch(c, lo, hi, b)
    ensures a == b
  {
    SameSecond(a, b);
  }

  lemma OnlySecondZero(k: int)
    ensures Bit(1, k) <==> k == 0
  {
    BitOfPow2(0, k);
  }

  /** An expression that allows another second than 0 never answers with an earlier second. */
  lemma SecondsAreKept(c: CronExpr, after: Instant, t: DateTime, k: int)
    requires ValidInstant(after) && k != 0 && Bit(c.second, k)
    requires IsFirstMatch(c, Seconds(Floor(c, after.t)), Limit(after), t)
    ensures Seconds(after.t) <= Seconds(t)
  {
    OnlySecondZero(k);
  }

  /**
   * The comment above `next_after` promises a match at or after `after`. It returns an earlier one
   * exactly when flooring moved `after` and the floored instant matches.
   */
  lemma EarlierThanAsked(c: CronExpr, after: Instant, t: DateTime)
    requires ValidInstant(after) && IsFirstMatch(c, Seconds(Floor(c, after.t)), Limit(after), t)
    ensures Precedes(t, after) <==> Precedes(Floor(c, after.t), after) && Matches(c, Floor(c, after.t))
  {
    var floor := Floor(c, after.t);
    FloorIsValid(c, after.t);
    if Precedes(t, after) {
      OnlySecondZero(t.second);
      assert Minutes(t) == Minutes(after.t);
      assert Seconds(t) == Seconds(floor);
      SameSecond(t, floor);
    }
    if Matches(c, floor) { SameSecond(t, floor); }
  }
}
