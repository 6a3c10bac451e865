/**
 * dtn-hdy-ham/src/coordinator/cron.rs: what the text of a field says, from the ways to write numbers,
 * names, ranges and steps, and that the parser reads it so.
 */
module CronMeaning {
  import opened Basics
  import opened CronText
  import opened CronParse

  // ---- Values ----------------------------------------------------------------------------------

  /** Different names of capital letters. */
  ghost predicate NameTable(names: seq<string>) {
    && (forall i :: 0 <= i < |names| ==> names[i] != "" && forall j :: 0 <= j < |names[i]| ==> 'A' <= names[i][j] <= 'Z')
    && (forall i, j :: 0 <= i < j < |names| ==> names[i] != names[j])
  }

  /** `s` is the i-th name in any letter case. */
  predicate NamedAs(s: string, i: nat, names: seq<string>) { i < |names| && Upper(s) == names[i] }

  /** `s` is a way to write the value `v`: a number, or a name, the first of which stands for `min`. */
  ghost predicate Spells(s: string, v: nat, min: nat, names: seq<string>) {
    (Number(s, v) && v < 0x1_0000_0000) || (min <= v && NamedAs(s, v - min, names))
  }

  ghost predicate Spelled(s: string, min: nat, names: seq<string>) { exists v :: Spells(s, v, min, names) }

  ghost predicate WordChar(c: char) { '0' <= c <= '9' || c == '+' || 'A' <= c <= 'Z' || 'a' <= c <= 'z' }

  ghost predicate IsWord(s: string) { s != "" && forall i :: 0 <= i < |s| ==> WordChar(s[i]) }

  lemma NamesHaveLetters(s: string, i: nat, names: seq<string>)
    requires NameTable(names) && NamedAs(s, i, names)
    ensures IsWord(s) && ParseU32(s) == None
  {
    forall j | 0 <= j < |s| ensures WordChar(s[j]) && !IsDigit(s[j]) && s[j] != '+' {
      assert UpperChar(s[j]) == names[i][j];
    }
    assert !IsDigit(s[0]);
  }

  lemma NumbersAreWords(s: string)
    requires ParseU32(s).Some?
    ensures IsWord(s)
  {
    var digits := if s != "" && s[0] == '+' then s[1..] else s;
    forall i | 0 <= i < |s| ensures WordChar(s[i]) {
      if s[0] == '+' && 0 < i { assert s[i] == digits[i - 1]; }
    }
  }

  /** Exactly the values a text is read as, and exactly when it is invalid. */
  lemma ValueIff(s: string, v: nat, min: nat, names: seq<string>)
    requires NameTable(names)
    ensures ParseValue(s, min, names) == Ok(v) <==> Spells(s, v, min, names)
    ensures Spells(s, v, min, names) ==> IsWord(s)
  {
    NumberIff(s, v);
    if min <= v && NamedAs(s, v - min, names) {
      NamesHaveLetters(s, v - min, names);
      assert Position(names, Upper(s)) == Some(v - min);
    }
    match Position(names, Upper(s))
    case Some(p) =>
      NamesHaveLetters(s, p, names);
    case None =>
      if ParseU32(s) == Some(v) { NumbersAreWords(s); }
  }

  lemma InvalidIff(s: string, min: nat, names: seq<string>)
    requires NameTable(names)
    ensures ParseValue(s, min, names).Err? <==> !Spelled(s, min, names)
    ensures ParseValue(s, min, names).Err? ==> ParseValue(s, min, names) == Err(InvalidValue(s))
  {
    if Spelled(s, min, names) {
      var v :| Spells(s, v, min, names);
      ValueIff(s, v, min, names);
    } else if ParseValue(s, min, names).Ok? {
      ValueIff(s, ParseValue(s, min, names).value, min, names);
    }
  }

  // ---- Items -----------------------------------------------------------------------------------

  datatype Part = All | One(a: nat) | Between(a: nat, b: nat)

  /** An item: all values, one, or a range, and maybe a step. */
  datatype Form = Form(part: Part, step: Option<nat>)

  ghost predicate WritesPart(s: string, part: Part, min: nat, names: seq<string>) {
    match part
    case All => s == "*"
    case One(a) => Spells(s, a, min, names)
    case Between(a, b) => exists x, y :: s == x + "-" + y && Spells(x, a, min, names) && Spells(y, b, min, names)
  }

  /** `item` is a way to write `form`. */
  ghost predicate Writes(item: string, form: Form, min: nat, names: seq<string>) {
    match form.step
    case None => WritesPart(item, form.part, min, names)
    case Some(n) => exists r, t :: item == r + "/" + t && WritesPart(r, form.part, min, names) && Number(t, n)
  }

  predicate InBounds(form: Form, min: nat, max: nat) {
    && (form.step.Some? ==> 0 < form.step.value < 0x1_0000_0000)
    && match form.part
       case All => true
       case One(a) => min <= a <= max
       case Between(a, b) => min <= a <= b <= max
  }

  function First(form: Form, min: nat): nat {
    match form.part
    case All => min
    case One(a) => a
    case Between(a, _) => a
  }

  function Last(form: Form, max: nat): nat {
    match form.part
    case All => max
    case One(a) => if form.step.Some? then max else a
    case Between(_, b) => b
  }

  function Stride(form: Form): nat { if form.step.Some? then form.step.value else 1 }

  /** First value, every stride-th after it, up to the last one. */
  predicate Allows(form: Form, min: nat, max: nat, k: int)
    requires InBounds(form, min, max)
  {
    First(form, min) <= k <= Last(form, max) && (k - First(form, min)) % Stride(form) == 0
  }

  /** What a stride near 2^32 allows instead: the loop counter wraps around and steps down. */
  predicate AllowsDownward(form: Form, min: nat, max: nat, k: int)
    requires InBounds(form, min, max)
  {
    0 <= k <= First(form, min) && (k - First(form, min)) % (0x1_0000_0000 - Stride(form)) == 0
  }

  predicate Wraps(form: Form, min: nat) { First(form, min) + Stride(form) >= 0x1_0000_0000 }

  /** The item the form is read as. */
  function ReadAs(form: Form, min: nat, max: nat): Item {
    if form.part.One? && form.step.None? then Single(form.part.a)
    else Run(First(form, min), Last(form, max), Stride(form))
  }

  lemma PartIsRead(s: string, part: Part, step: Option<nat>, min: nat, max: nat, names: seq<string>)
    requires NameTable(names) && WritesPart(s, part, min, names) && InBounds(Form(part, step), min, max)
    ensures ReadRange(s, step, min, max, names) == Ok(ReadAs(Form(part, step), min, max))
    ensures '/' !in s
  {
    hide ParseValue, IsWord, Spells;
    match part
    case All =>
    case One(a) =>
      ValueIff(s, a, min, names);
      NoDash(s);
    case Between(a, b) =>
      var x, y :| s == x + "-" + y && Spells(x, a, min, names) && Spells(y, b, min, names);
      ValueIff(x, a, min, names);
      ValueIff(y, b, min, names);
      BetweenIsRead(x, y, a, b, step, min, max, names);
  }

  lemma BetweenIsRead(x: string, y: string, a: nat, b: nat, step: Option<nat>, min: nat, max: nat, names: seq<string>)
    requires ParseValue(x, min, names) == Ok(a) && ParseValue(y, min, names) == Ok(b) && IsWord(x) && IsWord(y)
    requires InBounds(Form(Between(a, b), step), min, max)
    ensures ReadRange(x + "-" + y, step, min, max, names) == Ok(ReadAs(Form(Between(a, b), step), min, max))
    ensures '/' !in x + "-" + y
  {
    hide ParseValue;
    NoDash(x);
    NoDash(y);
    hide IsWord;
    SplitOnceAt(x, '-', y);
    assert (x + "-" + y)[|x|] == '-';
  }

  lemma NoDash(s: string)
    requires IsWord(s)
    ensures '-' !in s && '/' !in s && '*' !in s && SplitOnce(s, '-') == None
  {
  }

  lemma FormIsRead(item: string, form: Form, min: nat, max: nat, names: seq<string>)
    requires NameTable(names) && Writes(item, form, min, names) && InBounds(form, min, max)
    ensures ReadItem(item, min, max, names) == Ok(ReadAs(form, min, max))
  {
    match form.step
    case None =>
      PartIsRead(item, form.part, None, min, max, names);
    case Some(n) =>
      var r, t :| item == r + "/" + t && WritesPart(r, form.part, min, names) && Number(t, n);
      PartIsRead(r, form.part, Some(n), min, max, names);
      SplitOnceAt(r, '/', t);
      NumberIff(t, n);
  }

  /** An item allows exactly what its text says, or, with a step near 2^32, what lies below its start. */
  lemma ItemMeans(item: string, form: Form, min: nat, max: nat, names: seq<string>, k: int)
    requires min <= max < 64 && NameTable(names) && Writes(item, form, min, names) && InBounds(form, min, max)
    ensures ItemValues(item, min, max, names).Ok?
    ensures k in ItemValues(item, min, max, names).value <==>
      if Wraps(form, min) then AllowsDownward(form, min, max, k) else Allows(form, min, max, k)
  {
    hide Writes, ReadItem, Visited, Allows, AllowsDownward, Wraps;
    FormIsRead(item, form, min, max, names);
    ReadItemIsSound(item, min, max, names);
    VisitedIsAllowed(form, min, max, k);
  }

  lemma VisitedIsAllowed(form: Form, min: nat, max: nat, k: int)
    requires min <= max < 64 && InBounds(form, min, max) && Sound(ReadAs(form, min, max), min, max)
    ensures k in Visited(ReadAs(form, min, max), min, max) <==>
      if Wraps(form, min) then AllowsDownward(form, min, max, k) else Allows(form, min, max, k)
  {
    hide Visited, Meaning, Downward;
    VisitedIsMeaningIff(ReadAs(form, min, max), min, max);
    MeaningIsAllowed(form, min, max, k);
  }

  lemma MeaningIsAllowed(form: Form, min: nat, max: nat, k: int)
    requires min <= max < 64 && InBounds(form, min, max) && Sound(ReadAs(form, min, max), min, max)
    ensures !Wraps(form, min) ==> (k in Meaning(ReadAs(form, min, max)) <==> Allows(form, min, max, k))
    ensures Wraps(form, min) ==>
      (k in Downward(First(form, min), 0x1_0000_0000 - Stride(form)) <==> AllowsDownward(form, min, max, k))
  {
  }

  // ---- Which texts are items, and what is wrong with the others ------------------------------------------

  ghost predicate IsItem(item: string, min: nat, max: nat, names: seq<string>) {
    exists form :: Writes(item, form, min, names) && InBounds(form, min, max)
  }

  /** What is wrong with a range or value, with or without a step behind it. */
  ghost predicate PartError(r: string, min: nat, max: nat, names: seq<string>, e: Error) {
    || (r != "*" && '-' !in r && ValueError(r, min, max, names, e))
    || exists x, y :: r == x + "-" + y && '-' !in x && RangeError(x, y, min, max, names, e)
  }

  ghost predicate ValueError(s: string, min: nat, max: nat, names: seq<string>, e: Error) {
    || (!Spelled(s, min, names) && e == InvalidValue(s))
    || exists v: nat :: Spells(s, v, min, names) && (v < min || max < v) && e == OutOfRange(v)
  }

  /** Both ends must be values; then the lower one must be in bounds, then the upper one, then their order. */
  ghost predicate RangeError(x: string, y: string, min: nat, max: nat, names: seq<string>, e: Error) {
    || (!Spelled(x, min, names) && e == InvalidValue(x))
    || (Spelled(x, min, names) && !Spelled(y, min, names) && e == InvalidValue(y))
    || exists a: nat, b: nat :: Spells(x, a, min, names) && Spells(y, b, min, names) && OrderError(a, b, min, max, e)
  }

  predicate OrderError(a: nat, b: nat, min: nat, max: nat, e: Error) {
    if a < min || max < a then e == OutOfRange(a)
    else if b < min || max < b then e == OutOfRange(b)
    else b < a && e == EmptyRange(a, b)
  }

  ghost predicate StepError(item: string, r: string, t: string, e: Error) {
    item == r + "/" + t && '/' !in r &&
    ((Number(t, 0) && e == ZeroStep) || ((forall n: nat :: Number(t, n) ==> 0x1_0000_0000 <= n) && e == InvalidStep(t)))
  }

  ghost predicate GoodStep(item: string, r: string, t: string) {
    item == r + "/" + t && '/' !in r && exists n: nat :: Number(t, n) && 0 < n < 0x1_0000_0000
  }

  /** What is wrong with an item: its step first, then its range or value. */
  ghost predicate ItemError(item: string, min: nat, max: nat, names: seq<string>, e: Error) {
    || (exists r, t :: StepError(item, r, t, e))
    || ('/' !in item && PartError(item, min, max, names, e))
    || (exists r, t :: GoodStep(item, r, t) && PartError(r, min, max, names, e))
  }

  lemma ReadsAlike(s: string, min: nat, names: seq<string>)
    requires NameTable(names)
    ensures forall v: nat :: Spells(s, v, min, names) <==> ParseValue(s, min, names) == Ok(v)
    ensures Spelled(s, min, names) <==> ParseValue(s, min, names).Ok?
    ensures ParseValue(s, min, names).Err? ==> ParseValue(s, min, names) == Err(InvalidValue(s))
  {
    InvalidIff(s, min, names);
    forall v: nat ensures Spells(s, v, min, names) <==> ParseValue(s, min, names) == Ok(v) { ValueIff(s, v, min, names); }
  }

  lemma ValueErrorIff(s: string, min: nat, max: nat, names: seq<string>, step: Option<nat>, e: Error)
    requires NameTable(names) && s != "*" && '-' !in s
    ensures ReadRange(s, step, min, max, names) == Err(e) <==> ValueError(s, min, max, names, e)
  {
    ReadsAlike(s, min, names);
    hide ParseValue, Spells, Spelled;
  }

  lemma RangeErrorIff(x: string, y: string, min: nat, max: nat, names: seq<string>, step: Option<nat>, e: Error)
    requires NameTable(names) && '-' !in x
    ensures ReadRange(x + "-" + y, step, min, max, names) == Err(e) <==> RangeError(x, y, min, max, names, e)
  {
    hide ReadRange, ParseValue, RangeError, EndsError;
    EndsAreRead(x, y, min, max, names, step);
    EndsErrorIff(x, y, min, max, names, e);
  }

  lemma EndsErrorIff(x: string, y: string, min: nat, max: nat, names: seq<string>, e: Error)
    requires NameTable(names)
    ensures EndsError(ParseValue(x, min, names), ParseValue(y, min, names), min, max) == Some(e) <==>
      RangeError(x, y, min, max, names, e)
  {
    ReadsAlike(x, min, names);
    ReadsAlike(y, min, names);
    hide ParseValue, Spells, Spelled;
    var a, b := ParseValue(x, min, names), ParseValue(y, min, names);
    if a.Ok? && b.Ok? {
      hide OrderError;
      assert RangeError(x, y, min, max, names, e) <==> OrderError(a.value, b.value, min, max, e);
      EndsOrder(a.value, b.value, min, max, e);
    }
  }

  lemma EndsOrder(a: nat, b: nat, min: nat, max: nat, e: Error)
    ensures EndsError(Ok(a), Ok(b), min, max) == Some(e) <==> OrderError(a, b, min, max, e)
  {
  }

  /** What a range with ends `a` and `b` is refused for. */
  ghost function EndsError(a: Parsed<nat>, b: Parsed<nat>, min: nat, max: nat): Option<Error> {
    if a.Err? then Some(a.error)
    else if b.Err? then Some(b.error)
    else if min <= a.value <= b.value <= max then None
    else if !InRange(a.value, min, max) then Some(OutOfRange(a.value))
    else if !InRange(b.value, min, max) then Some(OutOfRange(b.value))
    else Some(EmptyRange(a.value, b.value))
  }

  lemma EndsAreRead(x: string, y: string, min: nat, max: nat, names: seq<string>, step: Option<nat>)
    requires '-' !in x
    ensures
      var error := EndsError(ParseValue(x, min, names), ParseValue(y, min, names), min, max);
      var read := ReadRange(x + "-" + y, step, min, max, names);
      if error.Some? then read == Err(error.value) else read.Ok?
  {
    hide ParseValue;
    SplitOnceAt(x, '-', y);
    var s := x + "-" + y;
    assert s[|x|] == '-' && s != "*";
  }

  lemma PartErrorIff(r: string, min: nat, max: nat, names: seq<string>, step: Option<nat>, e: Error)
    requires NameTable(names)
    ensures ReadRange(r, step, min, max, names) == Err(e) <==> PartError(r, min, max, names, e)
  {
    match SplitOnce(r, '-')
    case None =>
      if r != "*" { ValueErrorIff(r, min, max, names, step, e); }
    case Some((x, y)) =>
      RangeErrorIff(x, y, min, max, names, step, e);
      forall p, q | r == p + "-" + q && '-' !in p ensures p == x && q == y { SplitOnceAt(p, '-', q); }
  }

  lemma StepIsRead(t: string)
    ensures ParseU32(t) == None <==> forall n: nat :: Number(t, n) ==> 0x1_0000_0000 <= n
    ensures ParseU32(t) == Some(0) <==> Number(t, 0)
    ensures (exists n: nat :: Number(t, n) && 0 < n < 0x1_0000_0000) <==> ParseU32(t).Some? && ParseU32(t).value > 0
  {
    forall n: nat ensures ParseU32(t) == Some(n) <==> Number(t, n) && n < TWO_32 { NumberIff(t, n); }
    if ParseU32(t).Some? { assert Number(t, ParseU32(t).value); }
  }

  /** Exactly when an item is refused, and with which error. */
  lemma ItemErrorIff(item: string, min: nat, max: nat, names: seq<string>, e: Error)
    requires min <= max < 64 && NameTable(names)
    ensures ItemValues(item, min, max, names) == Err(e) <==> ItemError(item, min, max, names, e)
  {
    hide ReadRange, PartError, ParseU32, Number;
    match SplitOnce(item, '/')
    case None =>
      PartErrorIff(item, min, max, names, None, e);
    case Some((r, t)) =>
      forall p, q ensures (StepError(item, p, q, e) || GoodStep(item, p, q)) ==> p == r && q == t {
        if item == p + "/" + q && '/' !in p { SplitOnceAt(p, '/', q); }
      }
      StepIsRead(t);
      assert StepError(item, r, t, e) <==> (ParseU32(t) == Some(0) && e == ZeroStep) || (ParseU32(t) == None && e == InvalidStep(t));
      assert GoodStep(item, r, t) <==> ParseU32(t).Some? && ParseU32(t).value > 0;
      PartErrorIff(r, min, max, names, ParseU32(t), e);
  }

  lemma PartHasForm(r: string, step: Option<nat>, min: nat, max: nat, names: seq<string>) returns (part: Part)
    requires NameTable(names) && ReadRange(r, step, min, max, names).Ok?
    requires step.Some? ==> 0 < step.value < TWO_32
    ensures WritesPart(r, part, min, names) && InBounds(Form(part, step), min, max)
  {
    if r == "*" { return All; }
    match SplitOnce(r, '-')
    case None =>
      var v := ParseValue(r, min, names).value;
      ValueIff(r, v, min, names);
      part := One(v);
    case Some((x, y)) =>
      var a, b := ParseValue(x, min, names).value, ParseValue(y, min, names).value;
      ValueIff(x, a, min, names);
      ValueIff(y, b, min, names);
      part := Between(a, b);
  }

  /** Exactly the texts that write a form within the bounds are read. */
  lemma ItemReadIff(item: string, min: nat, max: nat, names: seq<string>)
    requires min <= max < 64 && NameTable(names)
    ensures ItemValues(item, min, max, names).Ok? <==> IsItem(item, min, max, names)
  {
    if IsItem(item, min, max, names) {
      var form :| Writes(item, form, min, names) && InBounds(form, min, max);
      ItemMeans(item, form, min, max, names, 0);
    } else if ItemValues(item, min, max, names).Ok? {
      match SplitOnce(item, '/')
      case None =>
        var part := PartHasForm(item, None, min, max, names);
        assert Writes(item, Form(part, None), min, names);
      case Some((r, t)) =>
        var n := ParseU32(t).value;
        var part := PartHasForm(r, Some(n), min, max, names);
        NumberIff(t, n);
        assert Writes(item, Form(part, Some(n)), min, names);
    }
  }

  // ---- Fields ----------------------------------------------------------------------------------

  predicate AllowedBy(form: Form, min: nat, max: nat, k: int)
    requires InBounds(form, min, max)
  {
    if Wraps(form, min) then AllowsDownward(form, min, max, k) else Allows(form, min, max, k)
  }

  ghost predicate ItemAllows(item: string, min: nat, max: nat, names: seq<string>, k: int) {
    exists form :: Writes(item, form, min, names) && InBounds(form, min, max) && AllowedBy(form, min, max, k)
  }

  /** Some item of the comma-separated field allows `k`. */
  ghost predicate FieldAllows(field: string, min: nat, max: nat, names: seq<string>, k: int) {
    exists i :: 0 <= i < |Split(field, ',')| && ItemAllows(Split(field, ',')[i], min, max, names, k)
  }

  ghost predicate IsField(field: string, min: nat, max: nat, names: seq<string>) {
    forall i :: 0 <= i < |Split(field, ',')| ==> IsItem(Split(field, ',')[i], min, max, names)
  }

  /** The first item that is wrong, and what is wrong with it. */
  ghost predicate FieldError(field: string, min: nat, max: nat, names: seq<string>, e: Error) {
    exists i :: FirstError(Split(field, ','), i, min, max, names, e)
  }

  ghost predicate FirstError(items: seq<string>, i: int, min: nat, max: nat, names: seq<string>, e: Error) {
    && 0 <= i < |items| && (forall j :: 0 <= j < i ==> IsItem(items[j], min, max, names))
    && if items[i] == "" then e == EmptyItem else ItemError(items[i], min, max, names, e)
  }

  lemma EmptyIsNoItem(min: nat, max: nat, names: seq<string>)
    requires min <= max < 64 && NameTable(names)
    ensures !IsItem("", min, max, names)
  {
    ItemReadIff("", min, max, names);
    if Spelled("", min, names) {
      var v :| Spells("", v, min, names);
      ValueIff("", v, min, names);
    }
    InvalidIff("", min, names);
  }

  lemma VisitedByMeans(item: string, min: nat, max: nat, names: seq<string>, k: int)
    requires min <= max < 64 && NameTable(names)
    ensures VisitedBy(item, min, max, names, k) <==> ItemAllows(item, min, max, names, k)
  {
    hide Writes, InBounds, ItemValues, Allows, AllowsDownward, Wraps;
    ItemReadIff(item, min, max, names);
    forall form | Writes(item, form, min, names) && InBounds(form, min, max)
      ensures VisitedBy(item, min, max, names, k) <==> AllowedBy(form, min, max, k)
    {
      ItemMeans(item, form, min, max, names, k);
    }
  }

  /** A field is read exactly when all its items are items; it then allows what one of them allows. */
  lemma FieldMeans(field: string, min: nat, max: nat, names: seq<string>)
    requires min <= max < 64 && NameTable(names)
    ensures FieldValues(field, min, max, names).Ok? <==> IsField(field, min, max, names)
    ensures FieldValues(field, min, max, names).Ok? ==>
      forall k :: k in FieldValues(field, min, max, names).value <==> FieldAllows(field, min, max, names, k)
  {
    var items := Split(field, ',');
    hide IsItem, ItemAllows, VisitedBy, ItemValues, ReadItem;
    FieldNeverEmpty(field, min, max, names);
    ListIsUnion(items, min, max, names);
    AllReadMeans(items, min, max, names);
    forall i, k | 0 <= i < |items| ensures VisitedBy(items[i], min, max, names, k) <==> ItemAllows(items[i], min, max, names, k) {
      VisitedByMeans(items[i], min, max, names, k);
    }
  }

  lemma AllReadMeans(items: seq<string>, min: nat, max: nat, names: seq<string>)
    requires min <= max < 64 && NameTable(names)
    ensures AllRead(items, min, max, names) <==> forall i :: 0 <= i < |items| ==> IsItem(items[i], min, max, names)
  {
    hide IsItem, ReadItem;
    EmptyIsNoItem(min, max, names);
    forall i | 0 <= i < |items| ensures ReadItem(items[i], min, max, names).Ok? <==> IsItem(items[i], min, max, names) {
      ItemReadIff(items[i], min, max, names);
    }
  }

  lemma FirstErrorStep(items: seq<string>, i: int, min: nat, max: nat, names: seq<string>, e: Error)
    requires items != [] && i > 0
    ensures FirstError(items, i, min, max, names, e) <==>
      IsItem(items[0], min, max, names) && FirstError(items[1..], i - 1, min, max, names, e)
  {
    hide IsItem, ItemError;
    assert forall j :: 0 < j < |items| ==> items[j] == items[1..][j - 1];
    assert forall j :: 0 <= j < |items| - 1 ==> items[1..][j] == items[j + 1];
  }

  lemma {:induction false} ListErrorIff(items: seq<string>, min: nat, max: nat, names: seq<string>, e: Error)
    requires min <= max < 64 && NameTable(names)
    ensures ListValues(items, min, max, names) == Err(e) <==> exists i :: FirstError(items, i, min, max, names, e)
  {
    if items != [] {
      hide IsItem, ItemError, ItemValues;
      ListErrorIff(items[1..], min, max, names, e);
      EmptyIsNoItem(min, max, names);
      ItemReadIff(items[0], min, max, names);
      ItemErrorIff(items[0], min, max, names, e);
      ErrorHereOrLater(items, min, max, names, e);
    }
  }

  lemma ErrorHereOrLater(items: seq<string>, min: nat, max: nat, names: seq<string>, e: Error)
    requires items != []
    ensures (exists i :: FirstError(items, i, min, max, names, e)) <==>
      FirstError(items, 0, min, max, names, e)
      || (IsItem(items[0], min, max, names) && exists i :: FirstError(items[1..], i, min, max, names, e))
  {
    hide IsItem, ItemError;
    if i :| FirstError(items, i, min, max, names, e) {
      if i > 0 { FirstErrorStep(items, i, min, max, names, e); }
    }
    if i :| FirstError(items[1..], i, min, max, names, e) {
      FirstErrorStep(items, i + 1, min, max, names, e);
    }
  }

  /** Exactly when a field is refused, and with which error. */
  lemma FieldErrorIff(field: string, min: nat, max: nat, names: seq<string>, e: Error)
    requires min <= max < 64 && NameTable(names)
    ensures FieldValues(field, min, max, names) == Err(e) <==> FieldError(field, min, max, names, e)
  {
    hide FirstError;
    FieldNeverEmpty(field, min, max, names);
    ListErrorIff(Split(field, ','), min, max, names, e);
  }
}
