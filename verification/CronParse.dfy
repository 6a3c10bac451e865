/** dtn-hdy-ham/src/coordinator/cron.rs: reading an expression into bitsets. */
module CronParse {
  import opened Basics
  import opened Bits
  import opened Calendar
  import opened Cron
  import opened CronText

  datatype Error =
    | EmptyItem
    | InvalidValue(text: string)
    | InvalidStep(text: string)
    | ZeroStep
    | OutOfRange(value: nat)
    | EmptyRange(low: nat, high: nat)
    | MatchesNothing
    | FieldCount(count: nat)
    | UnknownShortcut(name: string)

  datatype Parsed<+T> = Ok(value: T) | Err(error: Error)

  const DOW_NAMES := ["SUN", "MON", "TUE", "WED", "THU", "FRI", "SAT"]

  const MONTH_NAMES := ["JAN", "FEB", "MAR", "APR", "MAY", "JUN", "JUL", "AUG", "SEP", "OCT", "NOV", "DEC"]

  // ---- Values ----------------------------------------------------------------------------------

  function Position(names: seq<string>, s: string): (p: Option<nat>)
    ensures p.Some? ==> p.value < |names| && names[p.value] == s
    ensures p.None? ==> s !in names
  {
    if names == [] then None
    else if names[0] == s then Some(0)
    else match Position(names[1..], s)
      case None => None
      case Some(p) => Some(p + 1)
  }

  /** `parse_value`: a name, in any letter case, or a number; the first name stands for `min`. */
  function ParseValue(s: string, min: nat, names: seq<string>): Parsed<nat> {
    match Position(names, Upper(s))
    case Some(p) => Ok(min + p)
    case None =>
      match ParseU32(s)
      case Some(n) => Ok(n)
      case None => Err(InvalidValue(s))
  }

  lemma ValuesIgnoreCase(a: string, b: string, min: nat, names: seq<string>)
    requires Upper(a) == Upper(b)
    ensures ParseValue(a, min, names).Ok? <==> ParseValue(b, min, names).Ok?
    ensures ParseValue(a, min, names).Ok? ==> ParseValue(a, min, names) == ParseValue(b, min, names)
  {
    NumbersHaveNoCase(a, b);
  }

  // ---- Items -----------------------------------------------------------------------------------

  /** One item of a list: a single value, or every `step`-th value from `start` to `end`. */
  datatype Item = Single(value: nat) | Run(start: nat, end: nat, step: nat)

  predicate InRange(v: nat, min: nat, max: nat) { min <= v <= max }

  function ReadRange(text: string, step: Option<nat>, min: nat, max: nat, names: seq<string>): Parsed<Item> {
    var stride := if step.Some? then step.value else 1;
    if text == "*" then Ok(Run(min, max, stride))
    else match SplitOnce(text, '-')
      case Some((low, high)) =>
        var a := ParseValue(low, min, names);
        var b := ParseValue(high, min, names);
        if a.Err? then Err(a.error)
        else if b.Err? then Err(b.error)
        else if !InRange(a.value, min, max) then Err(OutOfRange(a.value))
        else if !InRange(b.value, min, max) then Err(OutOfRange(b.value))
        else if b.value < a.value then Err(EmptyRange(a.value, b.value))
        else Ok(Run(a.value, b.value, stride))
      case None =>
        var v := ParseValue(text, min, names);
        if v.Err? then Err(v.error)
        else if !InRange(v.value, min, max) then Err(OutOfRange(v.value))
        else if step.Some? then Ok(Run(v.value, max, stride))
        else Ok(Single(v.value))
  }

  /** The reading part of `parse_item`: the step first, then the range. */
  function ReadItem(item: string, min: nat, max: nat, names: seq<string>): Parsed<Item> {
    match SplitOnce(item, '/')
    case None => ReadRange(item, None, min, max, names)
    case Some((range, text)) =>
      match ParseU32(text)
      case None => Err(InvalidStep(text))
      case Some(step) => if step == 0 then Err(ZeroStep) else ReadRange(range, Some(step), min, max, names)
  }

  /** An item within the field's bounds; every field's values fit below bit 64. */
  predicate Sound(item: Item, min: nat, max: nat) {
    match item
    case Single(v) => min <= v <= max < 64
    case Run(start, end, step) => min <= start <= end <= max < 64 && 0 < step < TWO_32
  }

  lemma ReadRangeIsSound(text: string, step: Option<nat>, min: nat, max: nat, names: seq<string>)
    requires min <= max < 64 && (step.Some? ==> 0 < step.value < TWO_32)
    ensures ReadRange(text, step, min, max, names).Ok? ==> Sound(ReadRange(text, step, min, max, names).value, min, max)
  {
  }

  lemma ReadItemIsSound(item: string, min: nat, max: nat, names: seq<string>)
    requires min <= max < 64
    ensures ReadItem(item, min, max, names).Ok? ==> Sound(ReadItem(item, min, max, names).value, min, max)
  {
    match SplitOnce(item, '/')
    case None => ReadRangeIsSound(item, None, min, max, names);
    case Some((range, text)) =>
      match ParseU32(text)
      case None =>
      case Some(step) => if step != 0 { ReadRangeIsSound(range, Some(step), min, max, names); }
  }

  predicate OnStep(start: int, step: nat, v: int)
    requires 0 < step
  {
    (v - start) % step == 0
  }

  /** What an item stands for: start, start + step, ... up to its end. */
  ghost function Meaning(item: Item): set<int>
    requires item.Run? ==> 0 < item.step
  {
    match item
    case Single(v) => {v}
    case Run(start, end, step) => set v | start <= v <= end && OnStep(start, step, v)
  }

  /** `v + step` on `u32` in a build without overflow checks. */
  function WrappingAdd(v: nat, step: nat): (sum: nat)
    requires v < TWO_32 && step < TWO_32
    ensures sum == (v + step) % TWO_32
  {
    if v + step < TWO_32 then v + step else v + step - TWO_32
  }

  /** The values the loop visits: the counter is a `u32`, and an optimised build lets it wrap around. */
  ghost function Sweep(v: nat, end: nat, step: nat): set<int>
    requires v < TWO_32 && end < 64 && 0 < step < TWO_32
    decreases if end < v then 0 else if step <= end then end - v + 1 else v + 1
  {
    if end < v then {} else {v as int} + Sweep(WrappingAdd(v, step), end, step)
  }

  ghost function Visited(item: Item, min: nat, max: nat): set<int>
    requires Sound(item, min, max)
  {
    match item
    case Single(v) => {v}
    case Run(start, end, step) => Sweep(start, end, step)
  }

  /** The first step stays below 2^32. */
  predicate NoWrap(item: Item) { item.Run? ==> item.start + item.step < TWO_32 }

  lemma OneStepOn(start: int, step: nat, v: int)
    requires 0 < step
    ensures OnStep(start + step, step, v) <==> OnStep(start, step, v)
    ensures OnStep(start, step, start)
    ensures start < v < start + step ==> !OnStep(start, step, v)
  {
    var x := v - start;
    QuotientIs(x - step, step, x / step - 1, x % step);
    if 0 < x < step { QuotientIs(x, step, 0, x); }
  }

  lemma {:induction false} SweepIsRun(v: nat, end: nat, step: nat)
    requires v <= end < 64 && 0 < step && v + step < TWO_32
    ensures Sweep(v, end, step) == Meaning(Run(v, end, step))
    decreases end - v
  {
    RunStep(v, end, step);
    if v + step <= end {
      SweepIsRun(v + step, end, step);
    } else {
      assert Meaning(Run(v + step, end, step)) == {};
    }
  }

  lemma RunStep(v: nat, end: nat, step: nat)
    requires v <= end && 0 < step
    ensures Meaning(Run(v, end, step)) == {v as int} + Meaning(Run(v + step, end, step))
  {
    forall w ensures w in Meaning(Run(v, end, step)) <==> w == v || w in Meaning(Run(v + step, end, step)) {
      OneStepOn(v, step, w);
    }
  }

  /** The values start, start - down, ... that are not negative. */
  ghost function Downward(start: nat, down: nat): set<int>
    requires 0 < down
  {
    set v | 0 <= v <= start && OnStep(start, down, v)
  }

  lemma {:induction false} SweepWraps(v: nat, end: nat, step: nat)
    requires v <= end < 64 && step < TWO_32 <= v + step
    ensures Sweep(v, end, step) == Downward(v, TWO_32 - step)
    decreases v
  {
    var down := TWO_32 - step;
    assert WrappingAdd(v, step) == v - down;
    forall w ensures w in Downward(v, down) <==> w == v || w in Downward(v - down, down) {
      OneStepOn(v - down, down, w);
      OneStepOn(v, down, w);
      OneStepDown(v, down, w);
    }
    if TWO_32 <= v - down + step {
      SweepWraps(v - down, end, step);
    } else {
      SweepIsRun(v - down, end, step);
      LoneStart(v - down, end, step, down);
    }
  }

  lemma OneStepDown(start: int, down: nat, v: int)
    requires 0 < down
    ensures start - down < v < start ==> !OnStep(start, down, v)
  {
    if start - down < v < start { QuotientIs(v - start, down, -1, v - start + down); }
  }

  lemma LoneStart(v: nat, end: nat, step: nat, down: nat)
    requires v <= end < step && v < down
    ensures Meaning(Run(v, end, step)) == {v as int} == Downward(v, down)
  {
    forall w ensures w in Meaning(Run(v, end, step)) <==> w == v { OneStepOn(v, step, w); }
    forall w ensures w in Downward(v, down) <==> w == v {
      OneStepOn(v, down, w);
      OneStepDown(v, down, w);
    }
  }

  /** Exactly when the loop visits what the item stands for: when its first step does not wrap. */
  lemma VisitedIsMeaningIff(item: Item, min: nat, max: nat)
    requires Sound(item, min, max)
    ensures Visited(item, min, max) == Meaning(item) <==> NoWrap(item)
    ensures item.Run? && !NoWrap(item) ==> Visited(item, min, max) == Downward(item.start, TWO_32 - item.step)
  {
    match item
    case Single(_) =>
    case Run(start, end, step) =>
      if NoWrap(item) {
        SweepIsRun(start, end, step);
      } else {
        SweepWraps(start, end, step);
        var below := start - (TWO_32 - step);
        OneStepOn(below, TWO_32 - step, below);
        OneStepOn(below, TWO_32 - step, start);
        QuotientIs(below - start, TWO_32 - step, -1, 0);
        assert below in Downward(start, TWO_32 - step);
      }
  }

  lemma VisitedBounds(item: Item, min: nat, max: nat)
    requires Sound(item, min, max)
    ensures forall v :: v in Visited(item, min, max) ==> 0 <= v <= max && (NoWrap(item) ==> min <= v)
    ensures Visited(item, min, max) != {}
  {
    VisitedIsMeaningIff(item, min, max);
    if item.Run? {
      assert item.start in Visited(item, min, max);
    } else {
      assert item.value in Visited(item, min, max);
    }
  }

  // ---- Bitsets ---------------------------------------------------------------------------------

  /** The bitset holds exactly these values. */
  ghost predicate Denotes(bits: nat, values: set<int>) {
    forall k :: k in values <==> Bit(bits, k)
  }

  lemma EmptyDenotes()
    ensures Denotes(0, {})
  {
    forall k ensures !Bit(0, k) { BitOfZero(k); }
  }

  lemma OneDenotes(v: nat)
    ensures Denotes(Pow2(v), {v as int})
  {
    forall k ensures Bit(Pow2(v), k) <==> k == v { BitOfPow2(v, k); }
  }

  lemma UnionDenotes(a: nat, b: nat, s: set<int>, t: set<int>)
    requires Denotes(a, s) && Denotes(b, t)
    ensures Denotes(Or(a, b), s + t)
  {
    forall k ensures Bit(Or(a, b), k) <==> k in s + t { BitOfOr(a, b, k); }
  }

  lemma DenotesOneWay(a: nat, b: nat, s: set<int>)
    requires Denotes(a, s) && Denotes(b, s)
    ensures a == b
  {
    SameBits(a, b);
  }

  /** What `parse_item` stands for: the values its loop visits. */
  ghost function ItemValues(item: string, min: nat, max: nat, names: seq<string>): Parsed<set<int>>
    requires min <= max < 64
  {
    match ReadItem(item, min, max, names)
    case Err(e) => Err(e)
    case Ok(read) =>
      ReadItemIsSound(item, min, max, names);
      Ok(Visited(read, min, max))
  }

  /** The parsed bitset holds exactly the values; the error is the same. */
  ghost predicate Agrees(r: Parsed<int>, values: Parsed<set<int>>) {
    if values.Err? then r == Err(values.error)
    else r.Ok? && 0 <= r.value && Denotes(r.value, values.value)
  }

  /** `parse_item` */
  method ParseItem(item: string, min: nat, max: nat, names: seq<string>) returns (r: Parsed<u64>)
    requires min <= max < 64
    ensures Agrees(r, ItemValues(item, min, max, names))
  {
    var read := ReadItem(item, min, max, names);
    ReadItemIsSound(item, min, max, names);
    match read
    case Err(e) => r := Err(e);
    case Ok(Single(v)) =>
      OneDenotes(v);
      Pow2IsU64(v);
      r := Ok(Pow2(v));
    case Ok(Run(start, end, step)) =>
      var bits := SweepBits(start, end, step);
      r := Ok(bits);
  }

  /** `while v <= end { bits |= 1 << v; v += step; }` */
  method SweepBits(start: nat, end: nat, step: nat) returns (bits: u64)
    requires start <= end < 64 && 0 < step < TWO_32
    ensures Denotes(bits, Sweep(start, end, step))
  {
    bits := 0;
    var v: nat := start;
    EmptyDenotes();
    while v <= end
      invariant v < TWO_32 && Gathered(bits, v, end, step, Sweep(start, end, step))
      decreases if end < v then 0 else if step <= end then end - v + 1 else v + 1
    {
      GatherOne(bits, v, end, step, Sweep(start, end, step));
      bits := Or(bits, Pow2(v));
      v := WrappingAdd(v, step);
    }
  }

  /** The bits set so far and the values still to be visited make up `all`. */
  ghost predicate Gathered(bits: nat, v: nat, end: nat, step: nat, all: set<int>)
    requires v < TWO_32 && end < 64 && 0 < step < TWO_32
  {
    forall k :: k in all <==> Bit(bits, k) || k in Sweep(v, end, step)
  }

  lemma GatherOne(bits: u64, v: nat, end: nat, step: nat, all: set<int>)
    requires v <= end < 64 && 0 < step < TWO_32 && Gathered(bits, v, end, step, all)
    ensures Gathered(Or(bits, Pow2(v)), WrappingAdd(v, step), end, step, all)
    ensures Or(bits, Pow2(v)) < 0x1_0000_0000_0000_0000
  {
    forall k ensures Bit(Or(bits, Pow2(v)), k) <==> Bit(bits, k) || k == v {
      BitOfPow2(v, k);
      BitOfOr(bits, Pow2(v), k);
    }
    Pow2IsU64(v);
    OrIsU64(bits, Pow2(v));
  }

  // ---- Fields ----------------------------------------------------------------------------------

  /** The values of a list of items; the first item that cannot be read decides the error. */
  ghost function ListValues(items: seq<string>, min: nat, max: nat, names: seq<string>): Parsed<set<int>>
    requires min <= max < 64
  {
    if items == [] then Ok({})
    else if items[0] == "" then Err(EmptyItem)
    else Both(ItemValues(items[0], min, max, names), ListValues(items[1..], min, max, names))
  }

  ghost function Both(some: Parsed<set<int>>, more: Parsed<set<int>>): Parsed<set<int>> {
    if some.Err? then some else if more.Err? then more else Ok(some.value + more.value)
  }

  lemma BothIsAssociative(a: Parsed<set<int>>, b: Parsed<set<int>>, c: Parsed<set<int>>)
    ensures Both(a, Both(b, c)) == Both(Both(a, b), c)
    ensures Both(Ok({}), a) == a
    ensures Both(a, Ok({})) == a
  {
    if a.Ok? && b.Ok? && c.Ok? { assert a.value + (b.value + c.value) == a.value + b.value + c.value; }
    if a.Ok? { assert {} + a.value == a.value == a.value + {}; }
  }

  /** What `parse_field` stands for. */
  ghost function FieldValues(field: string, min: nat, max: nat, names: seq<string>): Parsed<set<int>>
    requires min <= max < 64
  {
    NonEmpty(ListValues(Split(field, ','), min, max, names))
  }

  ghost function NonEmpty(values: Parsed<set<int>>): Parsed<set<int>> {
    if values.Ok? && values.value == {} then Err(MatchesNothing) else values
  }

  /** `parse_field` */
  method ParseField(field: string, min: nat, max: nat, names: seq<string>) returns (r: Parsed<u64>)
    requires min <= max < 64
    ensures Agrees(r, FieldValues(field, min, max, names))
  {
    r := ParseList(Split(field, ','), min, max, names);
    if r.Ok? {
      BitsOfSome(r.value, ListValues(Split(field, ','), min, max, names).value);
      if r.value == 0 { r := Err(MatchesNothing); }
    }
  }

  /** The loop of `parse_field`. */
  method ParseList(items: seq<string>, min: nat, max: nat, names: seq<string>) returns (r: Parsed<u64>)
    requires min <= max < 64
    ensures Agrees(r, ListValues(items, min, max, names))
  {
    var rest, bits: u64 := items, 0;
    ghost var seen: set<int> := {};
    EmptyDenotes();
    BothIsAssociative(ListValues(items, min, max, names), Ok({}), Ok({}));
    while rest != []
      invariant Denotes(bits, seen)
      invariant Both(Ok(seen), ListValues(rest, min, max, names)) == ListValues(items, min, max, names)
      decreases |rest|
    {
      if rest[0] == "" { return Err(EmptyItem); }
      var item := ParseItem(rest[0], min, max, names);
      if item.Err? { return Err(item.error); }
      ghost var more := ItemValues(rest[0], min, max, names);
      BothIsAssociative(Ok(seen), more, ListValues(rest[1..], min, max, names));
      UnionDenotes(bits, item.value, seen, more.value);
      OrIsU64(bits, item.value);
      bits, seen, rest := Or(bits, item.value), seen + more.value, rest[1..];
    }
    BothIsAssociative(Ok(seen), Ok({}), Ok({}));
    r := Ok(bits);
  }

  /** "field matches nothing" is never reported: a field that can be read matches something. */
  lemma FieldNeverEmpty(field: string, min: nat, max: nat, names: seq<string>)
    requires min <= max < 64
    ensures FieldValues(field, min, max, names) != Err(MatchesNothing)
  {
    var items := Split(field, ',');
    FirstItemVisits(items[0], min, max, names);
    NoListMatchesNothing(items, min, max, names);
  }

  lemma RangeErrors(text: string, step: Option<nat>, min: nat, max: nat, names: seq<string>)
    ensures ReadRange(text, step, min, max, names) != Err(MatchesNothing)
  {
  }

  lemma ReadErrors(item: string, min: nat, max: nat, names: seq<string>)
    ensures ReadItem(item, min, max, names) != Err(MatchesNothing)
  {
    match SplitOnce(item, '/')
    case None => RangeErrors(item, None, min, max, names);
    case Some((range, text)) => RangeErrors(range, ParseU32(text), min, max, names);
  }

  lemma FirstItemVisits(item: string, min: nat, max: nat, names: seq<string>)
    requires min <= max < 64
    ensures ItemValues(item, min, max, names).Ok? ==> ItemValues(item, min, max, names).value != {}
    ensures ItemValues(item, min, max, names) != Err(MatchesNothing)
  {
    ReadErrors(item, min, max, names);
    ReadItemIsSound(item, min, max, names);
    if ReadItem(item, min, max, names).Ok? { VisitedBounds(ReadItem(item, min, max, names).value, min, max); }
  }

  lemma {:induction false} NoListMatchesNothing(items: seq<string>, min: nat, max: nat, names: seq<string>)
    requires min <= max < 64
    ensures ListValues(items, min, max, names) != Err(MatchesNothing)
  {
    if items != [] {
      FirstItemVisits(items[0], min, max, names);
      NoListMatchesNothing(items[1..], min, max, names);
    }
  }

  lemma BitsOfSome(bits: nat, values: set<int>)
    requires Denotes(bits, values)
    ensures bits == 0 <==> values == {}
  {
    EmptyDenotes();
    if values == {} {
      DenotesOneWay(bits, 0, {});
    } else {
      var k := SomeElement(values);
      BitOfZero(k);
    }
  }

  /** The field is a list of items that can all be read. */
  ghost predicate AllRead(items: seq<string>, min: nat, max: nat, names: seq<string>) {
    forall i :: 0 <= i < |items| ==> items[i] != "" && ReadItem(items[i], min, max, names).Ok?
  }

  ghost predicate SomeVisits(items: seq<string>, min: nat, max: nat, names: seq<string>, k: int)
    requires min <= max < 64
  {
    exists i :: 0 <= i < |items| && VisitedBy(items[i], min, max, names, k)
  }

  ghost predicate VisitedBy(item: string, min: nat, max: nat, names: seq<string>, k: int)
    requires min <= max < 64
  {
    ItemValues(item, min, max, names).Ok? && k in ItemValues(item, min, max, names).value
  }

  lemma {:induction false} ListIsUnion(items: seq<string>, min: nat, max: nat, names: seq<string>)
    requires min <= max < 64
    ensures ListValues(items, min, max, names).Ok? <==> AllRead(items, min, max, names)
    ensures ListValues(items, min, max, names).Ok? ==>
      forall k :: k in ListValues(items, min, max, names).value <==> SomeVisits(items, min, max, names, k)
  {
    if items != [] {
      var rest := items[1..];
      ListIsUnion(rest, min, max, names);
      AllReadStep(items, min, max, names);
      forall k ensures SomeVisits(items, min, max, names, k) <==>
        VisitedBy(items[0], min, max, names, k) || SomeVisits(rest, min, max, names, k)
      {
        SomeVisitsStep(items, min, max, names, k);
      }
    }
  }

  lemma AllReadStep(items: seq<string>, min: nat, max: nat, names: seq<string>)
    requires items != []
    ensures AllRead(items, min, max, names) <==>
      items[0] != "" && ReadItem(items[0], min, max, names).Ok? && AllRead(items[1..], min, max, names)
  {
    assert forall i :: 0 < i < |items| ==> items[i] == items[1..][i - 1];
    assert forall i :: 0 <= i < |items| - 1 ==> items[1..][i] == items[i + 1];
  }

  lemma SomeVisitsStep(items: seq<string>, min: nat, max: nat, names: seq<string>, k: int)
    requires min <= max < 64 && items != []
    ensures SomeVisits(items, min, max, names, k) <==>
      VisitedBy(items[0], min, max, names, k) || SomeVisits(items[1..], min, max, names, k)
  {
    assert forall i :: 0 < i < |items| ==> items[i] == items[1..][i - 1];
    assert forall i :: 0 <= i < |items| - 1 ==> items[1..][i] == items[i + 1];
  }

  /** `k` is one of the values written in the item: start, start + step, ... up to its end. */
  ghost predicate Written(item: string, min: nat, max: nat, names: seq<string>, k: int) {
    var read := ReadItem(item, min, max, names);
    read.Ok? && (read.value.Run? ==> 0 < read.value.step) && k in Meaning(read.value)
  }

  ghost predicate NoneWraps(items: seq<string>, min: nat, max: nat, names: seq<string>) {
    forall i :: 0 <= i < |items| && ReadItem(items[i], min, max, names).Ok? ==> NoWrap(ReadItem(items[i], min, max, names).value)
  }

  /** A field can be read exactly when each item can; it then holds the union of what the items say. */
  lemma FieldIsUnion(field: string, min: nat, max: nat, names: seq<string>)
    requires min <= max < 64
    ensures FieldValues(field, min, max, names).Ok? <==> AllRead(Split(field, ','), min, max, names)
    ensures FieldValues(field, min, max, names).Ok? && NoneWraps(Split(field, ','), min, max, names) ==>
      forall k :: k in FieldValues(field, min, max, names).value <==>
        exists i :: 0 <= i < |Split(field, ',')| && Written(Split(field, ',')[i], min, max, names, k)
  {
    var items := Split(field, ',');
    ListIsUnion(items, min, max, names);
    FieldNeverEmpty(field, min, max, names);
    if AllRead(items, min, max, names) && NoneWraps(items, min, max, names) {
      forall i, k | 0 <= i < |items| ensures VisitedBy(items[i], min, max, names, k) <==> Written(items[i], min, max, names, k) {
        VisitedIsWritten(items[i], min, max, names, k);
      }
    }
  }

  lemma VisitedIsWritten(item: string, min: nat, max: nat, names: seq<string>, k: int)
    requires min <= max < 64 && ReadItem(item, min, max, names).Ok? && NoWrap(ReadItem(item, min, max, names).value)
    ensures VisitedBy(item, min, max, names, k) <==> Written(item, min, max, names, k)
  {
    ReadItemIsSound(item, min, max, names);
    VisitedIsMeaningIff(ReadItem(item, min, max, names).value, min, max);
  }

  /** Every value is at most `max`; it is below `min` only when a step wrapped around. */
  lemma FieldInBounds(field: string, min: nat, max: nat, names: seq<string>, k: int)
    requires min <= max < 64 && FieldValues(field, min, max, names).Ok? && k in FieldValues(field, min, max, names).value
    ensures 0 <= k <= max
    ensures NoneWraps(Split(field, ','), min, max, names) ==> min <= k
  {
    var items := Split(field, ',');
    ListIsUnion(items, min, max, names);
    assert SomeVisits(items, min, max, names, k);
    var i :| 0 <= i < |items| && VisitedBy(items[i], min, max, names, k);
    ReadItemIsSound(items[i], min, max, names);
    VisitedBounds(ReadItem(items[i], min, max, names).value, min, max);
  }
}
