/** dtn-hdy-ham/src/coordinator/cron.rs: what a whole line says, down to the instants that match. */
module CronLine {
  import opened Basics
  import opened Bits
  import opened Calendar
  import opened Cron
  import opened LeapDays
  import opened CronText
  import opened CronParse
  import opened CronMeaning
  import opened CronSchedule

  // ---- The names -------------------------------------------------------------------------------

  lemma NameTables()
    ensures NameTable(MONTH_NAMES) && NameTable(DOW_NAMES) && NameTable([])
  {
  }

  /** The months and days by name, in any letter case. */
  lemma Names(s: string)
    ensures Upper(s) == "JAN" ==> Spells(s, 1, 1, MONTH_NAMES)
    ensures Upper(s) == "FEB" ==> Spells(s, 2, 1, MONTH_NAMES)
    ensures Upper(s) == "MAR" ==> Spells(s, 3, 1, MONTH_NAMES)
    ensures Upper(s) == "APR" ==> Spells(s, 4, 1, MONTH_NAMES)
    ensures Upper(s) == "MAY" ==> Spells(s, 5, 1, MONTH_NAMES)
    ensures Upper(s) == "JUN" ==> Spells(s, 6, 1, MONTH_NAMES)
    ensures Upper(s) == "JUL" ==> Spells(s, 7, 1, MONTH_NAMES)
    ensures Upper(s) == "AUG" ==> Spells(s, 8, 1, MONTH_NAMES)
    ensures Upper(s) == "SEP" ==> Spells(s, 9, 1, MONTH_NAMES)
    ensures Upper(s) == "OCT" ==> Spells(s, 10, 1, MONTH_NAMES)
    ensures Upper(s) == "NOV" ==> Spells(s, 11, 1, MONTH_NAMES)
    ensures Upper(s) == "DEC" ==> Spells(s, 12, 1, MONTH_NAMES)
    ensures Upper(s) == "SUN" ==> Spells(s, 0, 0, DOW_NAMES)
    ensures Upper(s) == "MON" ==> Spells(s, 1, 0, DOW_NAMES)
    ensures Upper(s) == "TUE" ==> Spells(s, 2, 0, DOW_NAMES)
    ensures Upper(s) == "WED" ==> Spells(s, 3, 0, DOW_NAMES)
    ensures Upper(s) == "THU" ==> Spells(s, 4, 0, DOW_NAMES)
    ensures Upper(s) == "FRI" ==> Spells(s, 5, 0, DOW_NAMES)
    ensures Upper(s) == "SAT" ==> Spells(s, 6, 0, DOW_NAMES)
  {
    hide Number;
  }

  // ---- Lines -----------------------------------------------------------------------------------

  /** Five fields within the bounds of minute, hour, day, month and weekday. */
  ghost predicate IsFive(f: seq<string>)
    requires |f| == 5
  {
    && IsField(f[0], 0, 59, []) && IsField(f[1], 0, 23, []) && IsField(f[2], 1, 31, [])
    && IsField(f[3], 1, 12, MONTH_NAMES) && IsField(f[4], 0, 7, DOW_NAMES)
  }

  /** What five fields say of an instant, leaving its seconds aside; Sunday is 0 and 7. */
  ghost predicate FiveAllow(f: seq<string>, t: DateTime, weekday: int)
    requires |f| == 5
  {
    && FieldAllows(f[0], 0, 59, [], t.minute) && FieldAllows(f[1], 0, 23, [], t.hour)
    && FieldAllows(f[2], 1, 31, [], t.day) && FieldAllows(f[3], 1, 12, MONTH_NAMES, t.month)
    && (FieldAllows(f[4], 0, 7, DOW_NAMES, weekday) || (weekday == 0 && FieldAllows(f[4], 0, 7, DOW_NAMES, 7)))
  }

  /** A list of fields is read exactly when it is five or six fields within their bounds. */
  lemma LineReadIff(f: seq<string>)
    ensures Fields(f).Ok? <==>
      (|f| == 5 && IsFive(f)) || (|f| == 6 && IsField(f[0], 0, 59, []) && IsFive(f[1..]))
    ensures |f| != 5 && |f| != 6 ==> Fields(f) == Err(FieldCount(|f|))
  {
    hide IsField, FieldValues;
    NameTables();
    if |f| == 5 { FiveMean(f); }
    if |f| == 6 {
      FieldMeans(f[0], 0, 59, []);
      FiveMean(f[1..]);
    }
  }

  lemma FiveMean(f: seq<string>)
    requires |f| == 5
    ensures IsFive(f) <==>
      && FieldValues(f[0], 0, 59, []).Ok? && FieldValues(f[1], 0, 23, []).Ok? && FieldValues(f[2], 1, 31, []).Ok?
      && FieldValues(f[3], 1, 12, MONTH_NAMES).Ok? && FieldValues(f[4], 0, 7, DOW_NAMES).Ok?
  {
    hide IsField, FieldValues, FieldAllows;
    NameTables();
    FieldMeans(f[0], 0, 59, []);
    FieldMeans(f[1], 0, 23, []);
    FieldMeans(f[2], 1, 31, []);
    FieldMeans(f[3], 1, 12, MONTH_NAMES);
    FieldMeans(f[4], 0, 7, DOW_NAMES);
  }

  /** What the five shared fields of a schedule hold. */
  lemma ScheduleMeans(f: seq<string>, second: Parsed<set<int>>, t: DateTime, weekday: int)
    requires |f| == 5 && FiveValues(second, f).Ok? && weekday != 7
    ensures second.Ok?
    ensures
      var s := FiveValues(second, f).value;
      && s.second == second.value
      && (FiveAllow(f, t, weekday) <==>
        t.minute in s.minute && t.hour in s.hour && t.day in s.dom && t.month in s.month && weekday in s.dow)
  {
    hide IsField, FieldValues, FieldAllows;
    NameTables();
    FieldMeans(f[0], 0, 59, []);
    FieldMeans(f[1], 0, 23, []);
    FieldMeans(f[2], 1, 31, []);
    FieldMeans(f[3], 1, 12, MONTH_NAMES);
    FieldMeans(f[4], 0, 7, DOW_NAMES);
  }

  lemma WeekdayBounds(t: DateTime)
    ensures 0 <= Weekday(t) < 7
  {
  }

  lemma FieldsMatch(c: CronExpr, f: seq<string>, t: DateTime)
    requires ExprAgrees(Ok(c), Fields(f))
    ensures |f| == 5 || |f| == 6
    ensures |f| == 5 ==> (Matches(c, t) <==> t.second == 0 && FiveAllow(f, t, Weekday(t)))
    ensures |f| == 6 ==> (Matches(c, t) <==> FieldAllows(f[0], 0, 59, [], t.second) && FiveAllow(f[1..], t, Weekday(t)))
  {
    hide FiveAllow, FieldAllows, FiveValues, FieldValues, Matches, Represents, Weekday;
    WeekdayBounds(t);
    LineReadIff(f);
    MatchesMeans(c, Fields(f).value, t, Weekday(t));
    if |f| == 5 {
      ScheduleMeans(f, Ok({0}), t, Weekday(t));
    } else {
      NameTables();
      ScheduleMeans(f[1..], FieldValues(f[0], 0, 59, []), t, Weekday(t));
      FieldMeans(f[0], 0, 59, []);
    }
  }

  /**
   * From text to instants: the expression parsed from a line matches exactly the instants whose every
   * part one of the items of its field allows; five fields match at second 0.
   */
  lemma LineMatches(s: string, c: CronExpr, f: seq<string>, t: DateTime)
    requires f == Words(Trim(s)) && (Trim(s) == "" || Trim(s)[0] != '@') && ExprAgrees(Ok(c), Expression(s))
    ensures |f| == 5 || |f| == 6
    ensures |f| == 5 ==> (Matches(c, t) <==> t.second == 0 && FiveAllow(f, t, Weekday(t)))
    ensures |f| == 6 ==> (Matches(c, t) <==> FieldAllows(f[0], 0, 59, [], t.second) && FiveAllow(f[1..], t, Weekday(t)))
  {
    hide Fields, Matches, FiveAllow, FieldAllows, Weekday;
    FieldsMatch(c, f, t);
  }

  /** The first of five fields that is wrong, and what is wrong with it. */
  ghost predicate FiveError(f: seq<string>, e: Error)
    requires |f| == 5
  {
    if !IsField(f[0], 0, 59, []) then FieldError(f[0], 0, 59, [], e)
    else if !IsField(f[1], 0, 23, []) then FieldError(f[1], 0, 23, [], e)
    else if !IsField(f[2], 1, 31, []) then FieldError(f[2], 1, 31, [], e)
    else if !IsField(f[3], 1, 12, MONTH_NAMES) then FieldError(f[3], 1, 12, MONTH_NAMES, e)
    else FieldError(f[4], 0, 7, DOW_NAMES, e)
  }

  lemma FieldEither(field: string, min: nat, max: nat, names: seq<string>, e: Error)
    requires min <= max < 64 && NameTable(names)
    ensures FieldValues(field, min, max, names).Ok? <==> IsField(field, min, max, names)
    ensures FieldValues(field, min, max, names) == Err(e) <==> FieldError(field, min, max, names, e)
  {
    FieldMeans(field, min, max, names);
    FieldErrorIff(field, min, max, names, e);
  }

  lemma FiveErrorIff(second: Parsed<set<int>>, f: seq<string>, e: Error)
    requires |f| == 5 && second.Ok?
    ensures FiveValues(second, f) == Err(e) <==> FiveError(f, e)
  {
    hide FieldValues, IsField, FieldError;
    NameTables();
    FieldEither(f[0], 0, 59, [], e);
    FieldEither(f[1], 0, 23, [], e);
    FieldEither(f[2], 1, 31, [], e);
    FieldEither(f[3], 1, 12, MONTH_NAMES, e);
    FieldEither(f[4], 0, 7, DOW_NAMES, e);
  }

  /** Exactly when a line is refused, and with which error. */
  lemma LineErrorIff(f: seq<string>, e: Error)
    ensures Fields(f) == Err(e) <==>
      if |f| == 5 then FiveError(f, e)
      else if |f| == 6 then if !IsField(f[0], 0, 59, []) then FieldError(f[0], 0, 59, [], e) else FiveError(f[1..], e)
      else e == FieldCount(|f|)
  {
    hide FieldValues, FiveError, IsField, FieldError;
    NameTables();
    if |f| == 5 { FiveErrorIff(Ok({0}), f, e); }
    if |f| == 6 {
      FieldEither(f[0], 0, 59, [], e);
      if IsField(f[0], 0, 59, []) { FiveErrorIff(FieldValues(f[0], 0, 59, []), f[1..], e); }
    }
  }

  // ---- Shortcuts -------------------------------------------------------------------------------

  predicate AtMidnight(t: DateTime) { t.hour == 0 && t.minute == 0 && t.second == 0 }

  /** The instants each shortcut stands for. */
  lemma ShortcutMatches(name: string, t: DateTime)
    requires Valid(t)
    ensures Shortcut(name).Some? <==> name in ["yearly", "annually", "monthly", "weekly", "daily", "midnight", "hourly"]
    ensures name == "yearly" || name == "annually" ==>
      (Matches(Shortcut(name).value, t) <==> t.month == 1 && t.day == 1 && AtMidnight(t))
    ensures name == "monthly" ==> (Matches(Shortcut(name).value, t) <==> t.day == 1 && AtMidnight(t))
    ensures name == "weekly" ==> (Matches(Shortcut(name).value, t) <==> Weekday(t) == 0 && AtMidnight(t))
    ensures name == "daily" || name == "midnight" ==> (Matches(Shortcut(name).value, t) <==> AtMidnight(t))
    ensures name == "hourly" ==> (Matches(Shortcut(name).value, t) <==> t.minute == 0 && t.second == 0)
  {
    hide Weekday, Bit;
    WeekdayBounds(t);
    LowBits(t.second);
    LowBits(t.minute);
    LowBits(t.hour);
    LowBits(t.day);
    LowBits(t.month);
    LowBits(Weekday(t));
  }

  lemma LowBits(k: int)
    ensures Bit(1, k) <==> k == 0
    ensures Bit(2, k) <==> k == 1
    ensures Bit(0xFF_FFFF, k) <==> 0 <= k < 24
    ensures Bit(0xFFFF_FFFE, k) <==> 1 <= k < 32
    ensures Bit(0x1FFE, k) <==> 1 <= k < 13
    ensures Bit(0x7F, k) <==> 0 <= k < 7
  {
    BitOfPow2(0, k);
    BitOfPow2(1, k);
    AllDenote(k);
  }

  // ---- Lines of one item a field -----------------------------------------------------------------

  lemma OneItemField(item: string, form: Form, min: nat, max: nat, names: seq<string>, k: int)
    requires min <= max < 64 && NameTable(names) && Writes(item, form, min, names) && InBounds(form, min, max) && ',' !in item
    ensures IsField(item, min, max, names)
    ensures FieldAllows(item, min, max, names, k) <==> AllowedBy(form, min, max, k)
  {
    hide Writes, AllowedBy, InBounds, ItemAllows;
    var items := Split(item, ',');
    assert items == [item];
    assert IsItem(item, min, max, names);
    OneItemAllows(item, form, min, max, names, k);
    if ItemAllows(item, min, max, names, k) { assert ItemAllows(items[0], min, max, names, k); }
  }

  lemma OneItemAllows(item: string, form: Form, min: nat, max: nat, names: seq<string>, k: int)
    requires min <= max < 64 && NameTable(names) && Writes(item, form, min, names) && InBounds(form, min, max)
    ensures ItemAllows(item, min, max, names, k) <==> AllowedBy(form, min, max, k)
  {
    hide Writes, InBounds, Allows, AllowsDownward, Wraps, ItemValues;
    VisitedByMeans(item, min, max, names, k);
    ItemMeans(item, form, min, max, names, k);
  }

  lemma StarField(min: nat, max: nat, names: seq<string>, k: int)
    requires min <= max < 64 && NameTable(names)
    ensures IsField("*", min, max, names)
    ensures FieldAllows("*", min, max, names, k) <==> min <= k <= max
  {
    OneItemField("*", Form(All, None), min, max, names, k);
  }

  lemma NumberField(s: string, n: nat, min: nat, max: nat, names: seq<string>, k: int)
    requires NameTable(names) && min <= n <= max < 64 && s == DecimalText(n)
    ensures IsField(s, min, max, names)
    ensures FieldAllows(s, min, max, names, k) <==> k == n
  {
    NumberIsSpelled(s, n, min, names);
    hide FieldAllows, IsField;
    OneItemField(s, Form(One(n), None), min, max, names, k);
  }

  lemma NumberIsSpelled(s: string, n: nat, min: nat, names: seq<string>)
    requires NameTable(names) && n < 64 && s == DecimalText(n)
    ensures Spells(s, n, min, names) && ',' !in s
  {
    assert NumberWith(s, n, false, 0);
    ValueIff(s, n, min, names);
  }

  lemma RangeField(x: string, a: nat, y: string, b: nat, min: nat, max: nat, names: seq<string>, k: int)
    requires NameTable(names) && min <= a <= b <= max < 64 && x == DecimalText(a) && y == DecimalText(b)
    ensures IsField(x + "-" + y, min, max, names)
    ensures FieldAllows(x + "-" + y, min, max, names, k) <==> a <= k <= b
  {
    NumberIsSpelled(x, a, min, names);
    NumberIsSpelled(y, b, min, names);
    hide FieldAllows, IsField;
    OneItemField(x + "-" + y, Form(Between(a, b), None), min, max, names, k);
  }

  const OFFICE := ["0", "9-17", "*", "*", "*"]

  /** `0 9-17 * * *`: every full hour from nine to five. */
  lemma OfficeHours(c: CronExpr, t: DateTime)
    requires ExprAgrees(Ok(c), Expression("0 9-17 * * *")) && Valid(t)
    ensures Matches(c, t) <==> 9 <= t.hour <= 17 && t.minute == 0 && t.second == 0
  {
    hide FiveAllow, Matches, Weekday, Fields, Expression;
    OfficeLine();
    FieldsMatch(c, OFFICE, t);
    WeekdayBounds(t);
    OfficeAllows(t, Weekday(t));
  }

  lemma OfficeAllows(t: DateTime, weekday: int)
    requires Valid(t) && 0 <= weekday < 7
    ensures FiveAllow(OFFICE, t, weekday) <==> 9 <= t.hour <= 17 && t.minute == 0
  {
    NameTables();
    hide FieldAllows, IsField, NameTable;
    NumberField("0", 0, 0, 59, [], t.minute);
    assert "9" + "-" + "17" == "9-17";
    RangeField("9", 9, "17", 17, 0, 23, [], t.hour);
    StarField(1, 31, [], t.day);
    StarField(1, 12, MONTH_NAMES, t.month);
    StarField(0, 7, DOW_NAMES, weekday);
  }

  lemma OfficeLine()
    ensures Expression("0 9-17 * * *") == Fields(OFFICE)
  {
    assert Line(OFFICE) == "0 9-17 * * *";
    LineIsFields(OFFICE);
  }

  const LEAP_DAY := ["0", "0", "29", "2", "*"]

  /** `0 0 29 2 *`: the expression of lemma LeapDayFoundIff. */
  lemma LeapDayText(c: CronExpr)
    requires ExprAgrees(Ok(c), Expression("0 0 29 2 *"))
    ensures OnlyLeapDays(c)
  {
    LeapDayLine();
    NameTables();
    hide Fields, Matches;
    forall t: DateTime | Valid(t)
      ensures Matches(c, t) <==> t.month == 2 && t.day == 29 && t.hour == 0 && t.minute == 0 && t.second == 0
    {
      LeapDayMatches(c, t);
    }
    SecondZero(c, LEAP_DAY);
  }

  lemma SecondZero(c: CronExpr, f: seq<string>)
    requires |f| == 5 && ExprAgrees(Ok(c), Fields(f))
    ensures c.second == 1
  {
    OneDenotes(0);
    DenotesOneWay(c.second, 1, {0});
  }

  lemma LeapDayMatches(c: CronExpr, t: DateTime)
    requires ExprAgrees(Ok(c), Fields(LEAP_DAY)) && Valid(t)
    ensures Matches(c, t) <==> t.month == 2 && t.day == 29 && t.hour == 0 && t.minute == 0 && t.second == 0
  {
    hide FiveAllow, Matches, Weekday, Fields;
    FieldsMatch(c, LEAP_DAY, t);
    WeekdayBounds(t);
    LeapDayAllows(t, Weekday(t));
  }

  lemma LeapDayAllows(t: DateTime, weekday: int)
    requires Valid(t) && 0 <= weekday < 7
    ensures FiveAllow(LEAP_DAY, t, weekday) <==> t.month == 2 && t.day == 29 && t.hour == 0 && t.minute == 0
  {
    NameTables();
    hide FieldAllows, IsField, NameTable;
    NumberField("0", 0, 0, 59, [], t.minute);
    NumberField("0", 0, 0, 23, [], t.hour);
    NumberField("29", 29, 1, 31, [], t.day);
    NumberField("2", 2, 1, 12, MONTH_NAMES, t.month);
    StarField(0, 7, DOW_NAMES, weekday);
  }

  lemma LeapDayLine()
    ensures Expression("0 0 29 2 *") == Fields(LEAP_DAY)
  {
    assert Line(LEAP_DAY) == "0 0 29 2 *";
    LineIsFields(LEAP_DAY);
  }
}
