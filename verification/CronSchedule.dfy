/** dtn-hdy-ham/src/coordinator/cron.rs: whole expressions, five or six fields or a shortcut. */
module CronSchedule {
  import opened Basics
  import opened Bits
  import opened Calendar
  import opened Cron
  import opened CronText
  import opened CronParse

  /** The values each field of an expression allows. */
  datatype Schedule = Schedule(second: set<int>, minute: set<int>, hour: set<int>, dom: set<int>, month: set<int>, dow: set<int>)

  /** The bitsets hold exactly the schedule's values. */
  ghost predicate Represents(c: CronExpr, s: Schedule) {
    && Denotes(c.second, s.second) && Denotes(c.minute, s.minute) && Denotes(c.hour, s.hour)
    && Denotes(c.dom, s.dom) && Denotes(c.month, s.month) && Denotes(c.dow, s.dow)
  }

  lemma RepresentsOneWay(c: CronExpr, d: CronExpr, s: Schedule)
    requires Represents(c, s) && Represents(d, s)
    ensures c == d
  {
    DenotesOneWay(c.second, d.second, s.second);
    DenotesOneWay(c.minute, d.minute, s.minute);
    DenotesOneWay(c.hour, d.hour, s.hour);
    DenotesOneWay(c.dom, d.dom, s.dom);
    DenotesOneWay(c.month, d.month, s.month);
    DenotesOneWay(c.dow, d.dow, s.dow);
  }

  lemma InMeansBit(bits: nat, values: set<int>, k: int)
    requires Denotes(bits, values)
    ensures k in values <==> Bit(bits, k)
  {
  }

  /** The search and the parser mean the same by an expression. */
  lemma MatchesMeans(c: CronExpr, s: Schedule, t: DateTime, weekday: int)
    requires Represents(c, s) && weekday == Weekday(t)
    ensures Matches(c, t) <==>
      && t.second in s.second && t.minute in s.minute && t.hour in s.hour
      && t.day in s.dom && t.month in s.month && weekday in s.dow
  {
    InMeansBit(c.second, s.second, t.second);
    InMeansBit(c.minute, s.minute, t.minute);
    InMeansBit(c.hour, s.hour, t.hour);
    InMeansBit(c.dom, s.dom, t.day);
    InMeansBit(c.month, s.month, t.month);
    InMeansBit(c.dow, s.dow, weekday);
  }

  // ---- Day of week -----------------------------------------------------------------------------

  /** Sunday may be written 0 or 7. */
  ghost function Folded(days: set<int>): set<int> {
    (days - {7}) + if 7 in days then {0} else {}
  }

  ghost function DowValues(field: string): Parsed<set<int>> {
    var days := FieldValues(field, 0, 7, DOW_NAMES);
    if days.Ok? then Ok(Folded(days.value)) else days
  }

  lemma FoldDenotes(bits: nat, days: set<int>)
    requires Denotes(bits, days) && forall k :: k in days ==> 0 <= k <= 7
    ensures Denotes(Or(bits % 0x80, Shr(bits, 7) % 2), Folded(days))
  {
    assert Pow2(7) == 0x80 && Pow2(1) == 2;
    forall k ensures Bit(Or(bits % 0x80, Shr(bits, 7) % 2), k) <==> k in Folded(days) {
      BitOfOr(bits % 0x80, Shr(bits, 7) % 2, k);
      BitOfMod(bits, 7, k);
      BitOfMod(Shr(bits, 7), 1, k);
      if k == 0 { BitOfShr(bits, 7, k); }
    }
  }

  lemma FoldIsByte(bits: nat)
    ensures Or(bits % 0x80, Shr(bits, 7) % 2) < 0x80
  {
    assert Pow2(7) == 0x80;
    OrFits(bits % 0x80, Shr(bits, 7) % 2, 7);
  }

  /** `parse_dow` */
  method ParseDow(field: string) returns (r: Parsed<byte>)
    ensures Agrees(r, DowValues(field))
  {
    var bits := ParseField(field, 0, 7, DOW_NAMES);
    if bits.Err? { return Err(bits.error); }
    var days := FieldValues(field, 0, 7, DOW_NAMES);
    forall k | k in days.value ensures 0 <= k <= 7 { FieldInBounds(field, 0, 7, DOW_NAMES, k); }
    FoldDenotes(bits.value, days.value);
    FoldIsByte(bits.value);
    r := Ok(Or(bits.value % 0x80, Shr(bits.value, 7) % 2));
  }

  // ---- Five and six fields ---------------------------------------------------------------------

  /** The fields in order; the first that cannot be read decides the error. */
  ghost function Combined(second: Parsed<set<int>>, minute: Parsed<set<int>>, hour: Parsed<set<int>>,
                          dom: Parsed<set<int>>, month: Parsed<set<int>>, dow: Parsed<set<int>>): Parsed<Schedule> {
    if second.Err? then Err(second.error)
    else if minute.Err? then Err(minute.error)
    else if hour.Err? then Err(hour.error)
    else if dom.Err? then Err(dom.error)
    else if month.Err? then Err(month.error)
    else if dow.Err? then Err(dow.error)
    else Ok(Schedule(second.value, minute.value, hour.value, dom.value, month.value, dow.value))
  }

  /** Minute, hour, day of month, month and day of week, after the seconds. */
  ghost function FiveValues(second: Parsed<set<int>>, f: seq<string>): Parsed<Schedule>
    requires |f| == 5
  {
    Combined(second, FieldValues(f[0], 0, 59, []), FieldValues(f[1], 0, 23, []), FieldValues(f[2], 1, 31, []),
             FieldValues(f[3], 1, 12, MONTH_NAMES), DowValues(f[4]))
  }

  /** What a list of fields stands for: five fields fire at second 0. */
  ghost function Fields(f: seq<string>): Parsed<Schedule> {
    if |f| == 5 then FiveValues(Ok({0}), f)
    else if |f| == 6 then FiveValues(FieldValues(f[0], 0, 59, []), f[1..])
    else Err(FieldCount(|f|))
  }

  ghost predicate ExprAgrees(r: Parsed<CronExpr>, s: Parsed<Schedule>) {
    if s.Err? then r == Err(s.error) else r.Ok? && Represents(r.value, s.value)
  }

  /** A narrowing `as` cast loses nothing, as no value reaches the cut-off bits. */
  lemma CastKeeps(bits: nat, n: nat, field: string, min: nat, max: nat, names: seq<string>)
    requires min <= max < n && max < 64 && FieldValues(field, min, max, names).Ok?
    requires Denotes(bits, FieldValues(field, min, max, names).value)
    ensures Denotes(bits % Pow2(n), FieldValues(field, min, max, names).value)
  {
    forall k ensures Bit(bits % Pow2(n), k) <==> Bit(bits, k) {
      BitOfMod(bits, n, k);
      if Bit(bits, k) { FieldInBounds(field, min, max, names, k); }
    }
  }

  lemma Widths()
    ensures Pow2(16) == 0x1_0000 && Pow2(32) == 0x1_0000_0000
  {
    assert Pow2(4) == 16;
    Pow2Sum(4, 4);
    Pow2Sum(8, 8);
    Pow2Sum(16, 16);
  }

  method ParseAs32(field: string, min: nat, max: nat) returns (r: Parsed<u32>)
    requires min <= max < 32
    ensures Agrees(r, FieldValues(field, min, max, []))
  {
    var bits := ParseField(field, min, max, []);
    if bits.Err? { return Err(bits.error); }
    Widths();
    CastKeeps(bits.value, 32, field, min, max, []);
    r := Ok(bits.value % 0x1_0000_0000);
  }

  method ParseMonth(field: string) returns (r: Parsed<u16>)
    ensures Agrees(r, FieldValues(field, 1, 12, MONTH_NAMES))
  {
    var bits := ParseField(field, 1, 12, MONTH_NAMES);
    if bits.Err? { return Err(bits.error); }
    Widths();
    CastKeeps(bits.value, 16, field, 1, 12, MONTH_NAMES);
    r := Ok(bits.value % 0x1_0000);
  }

  /** The five fields that both forms share. */
  method ParseRest(second: u64, ghost seconds: set<int>, f: seq<string>) returns (r: Parsed<CronExpr>)
    requires |f| == 5 && Denotes(second, seconds)
    ensures ExprAgrees(r, FiveValues(Ok(seconds), f))
  {
    var minute := ParseField(f[0], 0, 59, []);
    if minute.Err? { return Err(minute.error); }
    var hour := ParseAs32(f[1], 0, 23);
    if hour.Err? { return Err(hour.error); }
    var dom := ParseAs32(f[2], 1, 31);
    if dom.Err? { return Err(dom.error); }
    var month := ParseMonth(f[3]);
    if month.Err? { return Err(month.error); }
    var dow := ParseDow(f[4]);
    if dow.Err? { return Err(dow.error); }
    r := Ok(CronExpr(second, minute.value, hour.value, dom.value, month.value, dow.value));
  }

  /** `parse_5` */
  method Parse5(f: seq<string>) returns (r: Parsed<CronExpr>)
    requires |f| == 5
    ensures ExprAgrees(r, Fields(f))
  {
    OneDenotes(0);
    r := ParseRest(1, {0}, f);
  }

  /** `parse_6` */
  method Parse6(f: seq<string>) returns (r: Parsed<CronExpr>)
    requires |f| == 6
    ensures ExprAgrees(r, Fields(f))
  {
    var second := ParseField(f[0], 0, 59, []);
    if second.Err? { return Err(second.error); }
    r := ParseRest(second.value, FieldValues(f[0], 0, 59, []).value, f[1..]);
  }

  // ---- Shortcuts -------------------------------------------------------------------------------

  const ALL_HOURS := 0xFF_FFFF
  const ALL_DOM := 0xFFFF_FFFE
  const ALL_MONTHS := 0x1FFE
  const ALL_DOW := 0x7F

  /** `parse_shortcut`, by the lower-case name. */
  function Shortcut(name: string): Option<CronExpr> {
    if name == "yearly" || name == "annually" then Some(CronExpr(1, 1, 1, 2, 2, ALL_DOW))
    else if name == "monthly" then Some(CronExpr(1, 1, 1, 2, ALL_MONTHS, ALL_DOW))
    else if name == "weekly" then Some(CronExpr(1, 1, 1, ALL_DOM, ALL_MONTHS, 1))
    else if name == "daily" || name == "midnight" then Some(CronExpr(1, 1, 1, ALL_DOM, ALL_MONTHS, ALL_DOW))
    else if name == "hourly" then Some(CronExpr(1, 1, ALL_HOURS, ALL_DOM, ALL_MONTHS, ALL_DOW))
    else None
  }

  /** The five fields a shortcut abbreviates. */
  function LongForm(name: string): Option<seq<string>> {
    if name == "yearly" || name == "annually" then Some(["0", "0", "1", "1", "*"])
    else if name == "monthly" then Some(["0", "0", "1", "*", "*"])
    else if name == "weekly" then Some(["0", "0", "*", "*", "0"])
    else if name == "daily" || name == "midnight" then Some(["0", "0", "*", "*", "*"])
    else if name == "hourly" then Some(["0", "*", "*", "*", "*"])
    else None
  }

  ghost predicate LongNames(names: seq<string>) { forall i :: 0 <= i < |names| ==> |names[i]| == 3 }

  lemma OneItem(field: string, min: nat, max: nat, names: seq<string>)
    requires min <= max < 64 && field != "" && ',' !in field
    ensures FieldValues(field, min, max, names) == NonEmpty(ItemValues(field, min, max, names))
  {
    assert Split(field, ',') == [field] && [field][1..] == [];
    assert ListValues([field], min, max, names) == Both(ItemValues(field, min, max, names), ListValues([], min, max, names));
    BothIsAssociative(ItemValues(field, min, max, names), Ok({}), Ok({}));
  }

  /** `*` allows every value of the field. */
  lemma Star(min: nat, max: nat, names: seq<string>)
    requires min <= max < 64
    ensures FieldValues("*", min, max, names).Ok?
    ensures forall k :: k in FieldValues("*", min, max, names).value <==> min <= k <= max
  {
    OneItem("*", min, max, names);
    assert ReadItem("*", min, max, names) == Ok(Run(min, max, 1));
    SweepIsRun(min, max, 1);
    assert min in Sweep(min, max, 1);
    forall k | min <= k <= max ensures OnStep(min, 1, k) {}
  }

  /** One digit allows its value alone. */
  lemma OneDigit(c: char, min: nat, max: nat, names: seq<string>)
    requires c == '0' || c == '1'
    requires min <= max < 64 && min <= c as int - '0' as int <= max && LongNames(names)
    ensures FieldValues([c], min, max, names) == Ok({c as int - '0' as int})
  {
    var v: nat := c as int - '0' as int;
    OneItem([c], min, max, names);
    assert Decimal([c]) == v;
    assert AllDigits([c]) && ParseU32([c]) == Some(v);
    assert Position(names, Upper([c])) == None;
    assert ReadItem([c], min, max, names) == Ok(Single(v));
    assert v as int in {v as int};
  }

  lemma StarDay()
    ensures DowValues("*").Ok? && forall k :: k in DowValues("*").value <==> 0 <= k < 7
  {
    Star(0, 7, DOW_NAMES);
  }

  lemma Sunday()
    ensures DowValues("0") == Ok({0})
  {
    OneDigit('0', 0, 7, DOW_NAMES);
    assert Folded({0}) == {0};
  }

  lemma AllDenote(k: int)
    ensures Bit(ALL_HOURS, k) <==> 0 <= k < 24
    ensures Bit(ALL_DOM, k) <==> 1 <= k < 32
    ensures Bit(ALL_MONTHS, k) <==> 1 <= k < 13
    ensures Bit(ALL_DOW, k) <==> 0 <= k < 7
  {
    Widths();
    assert Pow2(7) == 0x80 && Pow2(12) == 0x1000;
    Pow2Sum(12, 12);
    Pow2Sum(16, 15);
    BitOfLow(24, k);
    BitOfLow(7, k);
    if 0 < k {
      BitOfLow(31, k - 1);
      BitOfLow(12, k - 1);
    }
  }

  /** `mask` is what reading the field gives. */
  ghost predicate Reads(mask: nat, values: Parsed<set<int>>) { values.Ok? && Denotes(mask, values.value) }

  lemma DigitsRead()
    ensures Reads(1, FieldValues("0", 0, 59, [])) && Reads(1, FieldValues("0", 0, 23, []))
    ensures Reads(2, FieldValues("1", 1, 31, [])) && Reads(2, FieldValues("1", 1, 12, MONTH_NAMES))
    ensures Reads(1, DowValues("0"))
  {
    DigitReads('0', 0, 59, []);
    DigitReads('0', 0, 23, []);
    DigitReads('1', 1, 31, []);
    DigitReads('1', 1, 12, MONTH_NAMES);
    OneDenotes(0);
    Sunday();
  }

  lemma DigitReads(c: char, min: nat, max: nat, names: seq<string>)
    requires c == '0' || c == '1'
    requires min <= max < 64 && min <= c as int - '0' as int <= max && LongNames(names)
    ensures Reads(if c == '0' then 1 else 2, FieldValues([c], min, max, names))
  {
    OneDenotes(if c == '0' then 0 else 1);
    OneDigit(c, min, max, names);
  }

  lemma StarsRead()
    ensures Reads(ALL_HOURS, FieldValues("*", 0, 23, [])) && Reads(ALL_DOM, FieldValues("*", 1, 31, []))
    ensures Reads(ALL_MONTHS, FieldValues("*", 1, 12, MONTH_NAMES)) && Reads(ALL_DOW, DowValues("*"))
  {
    Star(0, 23, []);
    Star(1, 31, []);
    Star(1, 12, MONTH_NAMES);
    StarDay();
    forall k {
      AllDenote(k);
    }
  }

  lemma FieldsRead(c: CronExpr, f: seq<string>)
    requires |f| == 5 && c.second == 1
    requires Reads(c.minute, FieldValues(f[0], 0, 59, [])) && Reads(c.hour, FieldValues(f[1], 0, 23, []))
    requires Reads(c.dom, FieldValues(f[2], 1, 31, [])) && Reads(c.month, FieldValues(f[3], 1, 12, MONTH_NAMES))
    requires Reads(c.dow, DowValues(f[4]))
    ensures Fields(f).Ok? && Represents(c, Fields(f).value)
  {
    OneDenotes(0);
  }

  /** Each shortcut is the bitset form of its five fields. */
  lemma ShortcutIsLongForm(name: string)
    ensures Shortcut(name).Some? <==> LongForm(name).Some?
    ensures LongForm(name).Some? ==>
      Fields(LongForm(name).value).Ok? && Represents(Shortcut(name).value, Fields(LongForm(name).value).value)
  {
    if LongForm(name).Some? { LongFormReads(Shortcut(name).value, LongForm(name).value); }
  }

  lemma LongFormReads(c: CronExpr, f: seq<string>)
    requires |f| == 5 && c.second == 1
    requires (c.minute == 1 && f[0] == "0")
    requires (c.hour == 1 && f[1] == "0") || (c.hour == ALL_HOURS && f[1] == "*")
    requires (c.dom == 2 && f[2] == "1") || (c.dom == ALL_DOM && f[2] == "*")
    requires (c.month == 2 && f[3] == "1") || (c.month == ALL_MONTHS && f[3] == "*")
    requires (c.dow == 1 && f[4] == "0") || (c.dow == ALL_DOW && f[4] == "*")
    ensures Fields(f).Ok? && Represents(c, Fields(f).value)
  {
    DigitsRead();
    StarsRead();
    FieldsRead(c, f);
  }

  // ---- Whole expressions -------------------------------------------------------------------------

  /** What a text stands for: a shortcut is an abbreviation, anything else is fields between spaces. */
  ghost function Expression(s: string): Parsed<Schedule> {
    var text := Trim(s);
    if text != "" && text[0] == '@' then
      match LongForm(Lower(text[1..]))
      case None => Err(UnknownShortcut(text[1..]))
      case Some(f) => Fields(f)
    else Fields(Words(text))
  }

  /** `CronExpr::parse` */
  method Parse(s: string) returns (r: Parsed<CronExpr>)
    ensures ExprAgrees(r, Expression(s))
  {
    var text := Trim(s);
    if text != "" && text[0] == '@' {
      var expr := Shortcut(Lower(text[1..]));
      ShortcutIsLongForm(Lower(text[1..]));
      return if expr.Some? then Ok(expr.value) else Err(UnknownShortcut(text[1..]));
    }
    var f := Words(text);
    if |f| == 5 {
      r := Parse5(f);
    } else if |f| == 6 {
      r := Parse6(f);
    } else {
      r := Err(FieldCount(|f|));
    }
  }

  /** Five fields are six with second 0. */
  lemma FiveIsSixAtZero(f: seq<string>)
    requires |f| == 5
    ensures Fields(["0"] + f) == Fields(f)
  {
    OneDigit('0', 0, 59, []);
    assert (["0"] + f)[1..] == f;
  }

  function Line(f: seq<string>): string {
    if f == [] then "" else if |f| == 1 then f[0] else f[0] + " " + Line(f[1..])
  }

  ghost predicate AreWords(f: seq<string>) { forall i :: 0 <= i < |f| ==> f[i] != "" && NoSpace(f[i]) }

  lemma {:induction false} WordsOfLine(f: seq<string>)
    requires AreWords(f)
    ensures Words(Line(f)) == f
    ensures f != [] ==> Line(f) != "" && Line(f)[0] == f[0][0] && !IsSpace(Line(f)[|Line(f)| - 1])
  {
    if |f| == 1 {
      FirstWordOf(f[0], "");
    } else if |f| > 1 {
      FirstWordOf(f[0], Line(f[1..]));
      WordsOfLine(f[1..]);
    }
  }

  /** Fields written on one line with single spaces are read as those fields. */
  lemma LineIsFields(f: seq<string>)
    requires f != [] && AreWords(f) && f[0][0] != '@'
    ensures Expression(Line(f)) == Fields(f)
  {
    WordsOfLine(f);
    assert !IsSpace(f[0][0]);
    assert TrimStart(Line(f)) == Line(f);
    assert Trim(Line(f)) == Line(f);
  }

  /** Writing `@daily` and writing `0 0 * * *` is the same, and so for every shortcut, in any letter case. */
  lemma ShortcutIsItsText(name: string, word: string)
    requires LongForm(name).Some? && Lower(word) == name && NoSpace(word)
    ensures Expression("@" + word) == Expression(Line(LongForm(name).value))
  {
    var text := "@" + word;
    assert text[1..] == word;
    assert text[|text| - 1] == word[|word| - 1];
    assert TrimStart(text) == text;
    assert Trim(text) == text;
    LongFormIsWords(name);
    LineIsFields(LongForm(name).value);
  }

  lemma LongFormIsWords(name: string)
    requires LongForm(name).Some?
    ensures AreWords(LongForm(name).value) && LongForm(name).value[0][0] != '@'
  {
  }

  // ---- An answer from the past -------------------------------------------------------------------------

  const EVERY_MINUTE := ["*", "*", "*", "*", "*"]

  /** The five stars allow every minute, at second 0. */
  lemma EveryMinuteMatches(c: CronExpr, t: DateTime)
    requires Fields(EVERY_MINUTE).Ok? && Represents(c, Fields(EVERY_MINUTE).value) && Valid(t)
    ensures c.second == 1 && (Matches(c, t) <==> t.second == 0)
  {
    OneDenotes(0);
    DenotesOneWay(c.second, 1, {0});
    Star(0, 59, []);
    Star(0, 23, []);
    Star(1, 31, []);
    Star(1, 12, MONTH_NAMES);
    StarDay();
    MatchesMeans(c, Fields(EVERY_MINUTE).value, t, Weekday(t));
  }

  /**
   * Asked at any time that is not on a minute, such as 12:00:30, `next_after` answers `* * * * *` with
   * the minute already begun.
   */
  lemma EveryMinuteAnswersEarlier(c: CronExpr, after: Instant)
    requires Fields(EVERY_MINUTE).Ok? && Represents(c, Fields(EVERY_MINUTE).value)
    requires ValidInstant(after) && (after.t.second > 0 || after.nanosecond > 0)
    ensures IsFirstMatch(c, Seconds(Floor(c, after.t)), Limit(after), Floor(c, after.t))
    ensures Precedes(Floor(c, after.t), after)
  {
    FloorIsValid(c, after.t);
    EveryMinuteMatches(c, Floor(c, after.t));
  }

  lemma EveryMinuteReads()
    ensures Fields(EVERY_MINUTE).Ok?
  {
    Star(0, 59, []);
    Star(0, 23, []);
    Star(1, 31, []);
    Star(1, 12, MONTH_NAMES);
    StarDay();
  }
}
