/** src/basket.rs: the scalar readers, and how optional map entries are counted, written and read. */
module BasketFields {
  import opened Basics
  import opened Cbor
  import opened CronText

  /** How deep an unknown value may nest. */
  const SKIP_DEPTH := 10

  // ---- Scalar readers ------------------------------------------------------------------------------

  function Concat<T>(parts: seq<seq<T>>): seq<T> {
    if parts == [] then [] else parts[0] + Concat(parts[1..])
  }

  /** `CborString` */
  function AsText(t: Item): Result<string> {
    if t.Tagged? then Err(UnexpectedTag)
    else if t.Leaf? && t.atom.Text? then Ok(t.atom.text)
    else if t.Leaf? && t.atom.TextStream? then Ok(Concat(t.atom.parts))
    else Err(IncorrectType)
  }

  /** `CborBytes` */
  function AsBytes(t: Item): Result<seq<byte>> {
    if t.Tagged? then Err(UnexpectedTag)
    else if t.Leaf? && t.atom.Bytes? then Ok(t.atom.data)
    else if t.Leaf? && t.atom.ByteStream? then Ok(Concat(t.atom.chunks))
    else Err(IncorrectType)
  }

  /** An array in an array in an array ... */
  function Nest(levels: nat): Item {
    if levels == 0 then Leaf(Uint(0)) else Array([Nest(levels - 1)])
  }

  /** Values nested ten deep are skipped, deeper ones are not. */
  lemma {:induction false} SkipsTenLevels(levels: nat)
    ensures Skip(Nest(levels), SKIP_DEPTH) == if levels <= 10 then Ok(()) else Err(MaxRecursion)
  {
    NestSkippable(levels, SKIP_DEPTH);
  }

  lemma {:induction false} NestSkippable(levels: nat, depth: nat)
    ensures Skippable(Nest(levels), depth) <==> levels <= depth
  {
    if 0 < levels && 0 < depth {
      NestSkippable(levels - 1, depth - 1);
      assert [Nest(levels - 1)][0] == Nest(levels - 1);
    }
  }

  /** `CborFormat`: a content-format number or a media type; tags are ignored, chunked text is refused. */
  function AsFormat(t: Item): Result<string> {
    var v := Untagged(t);
    if v.Leaf? && v.atom.Uint? then Ok(DecimalText(v.atom.n))
    else if v.Leaf? && v.atom.Text? then Ok(v.atom.text)
    else Err(IncorrectType)
  }

  function HexDigit(n: nat): char
    requires n < 16
  {
    "0123456789abcdef"[n]
  }

  function Hex(data: seq<byte>): string {
    if data == [] then "" else [HexDigit(data[0] / 16), HexDigit(data[0] % 16)] + Hex(data[1..])
  }

  function HexValue(c: char): nat {
    if '0' <= c <= '9' then c as int - '0' as int else if 'a' <= c <= 'f' then c as int - 'a' as int + 10 else 0
  }

  /** Two digits an octet, the high one first. */
  function Unhex(s: string): seq<nat> {
    if |s| < 2 then [] else [16 * HexValue(s[0]) + HexValue(s[1])] + Unhex(s[2..])
  }

  /** Hexadecimal text has two digits for each octet, and they are its value. */
  lemma {:induction false} HexReadsBack(data: seq<byte>)
    ensures |Hex(data)| == 2 * |data| && Unhex(Hex(data)) == data
  {
    if data != [] {
      HexReadsBack(data[1..]);
      HexOctet(data[0]);
      hide HexDigit, HexValue, IsHexDigit, Unhex;
      UnhexStep(HexDigit(data[0] / 16), HexDigit(data[0] % 16), Hex(data[1..]));
    }
  }

  lemma UnhexStep(a: char, b: char, s: string)
    ensures Unhex([a, b] + s) == [16 * HexValue(a) + HexValue(b)] + Unhex(s)
  {
    assert ([a, b] + s)[2..] == s;
  }

  lemma {:induction false} HexHasDigits(data: seq<byte>, i: nat)
    requires i < |Hex(data)|
    ensures IsHexDigit(Hex(data)[i])
  {
    HexOctet(data[0]);
    if 2 <= i { HexHasDigits(data[1..], i - 2); }
  }

  predicate IsHexDigit(c: char) { '0' <= c <= '9' || 'a' <= c <= 'f' }

  lemma HexOctet(b: byte)
    ensures IsHexDigit(HexDigit(b / 16)) && IsHexDigit(HexDigit(b % 16))
    ensures 16 * HexValue(HexDigit(b / 16)) + HexValue(HexDigit(b % 16)) == b
  {
    HexDigitIs(b / 16);
    HexDigitIs(b % 16);
  }

  lemma HexDigitIs(n: nat)
    requires n < 16
    ensures HexValue(HexDigit(n)) == n && IsHexDigit(HexDigit(n))
  {
  }

  /** A content format given as a number is read as its decimal digits, without leading zeros. */
  lemma FormatOfNumber(n: u64) returns (s: string)
    ensures AsFormat(Leaf(Uint(n))) == Ok(s) && Decimal(s) == n && AllDigits(s)
    ensures s != "" && (s[0] == '0' ==> n == 0 && s == "0")
  {
    s := DecimalText(n);
    DecimalOfText(n);
    NoLeadingZero(n);
  }

  lemma {:induction false} NoLeadingZero(n: nat)
    ensures DecimalText(n) != "" && (DecimalText(n)[0] == '0' ==> n == 0)
    decreases n
  {
    if 10 <= n { NoLeadingZero(n / 10); }
  }

  lemma HexDigitsDiffer(a: nat, b: nat)
    requires a < 16 && b < 16 && HexDigit(a) == HexDigit(b)
    ensures a == b
  {
  }

  /** Request ids given as bytes stay distinct. */
  lemma {:induction false} HexOneWay(a: seq<byte>, b: seq<byte>)
    requires Hex(a) == Hex(b)
    ensures a == b
  {
    assert |Hex(a)| == 0 <==> a == [];
    assert |Hex(b)| == 0 <==> b == [];
    if a != [] {
      assert Hex(a)[0] == Hex(b)[0] && Hex(a)[1] == Hex(b)[1];
      HexDigitsDiffer(a[0] / 16, b[0] / 16);
      HexDigitsDiffer(a[0] % 16, b[0] % 16);
      assert Hex(a)[2..] == Hex(a[1..]) && Hex(b)[2..] == Hex(b[1..]);
      HexOneWay(a[1..], b[1..]);
      assert [a[0]] + a[1..] == a && [b[0]] + b[1..] == b;
    }
  }

  /** `CborReqId`: text as it is, bytes in hexadecimal; only text refuses tags. */
  function AsReqId(t: Item): Result<string> {
    var v := Untagged(t);
    if v.Leaf? && (v.atom.Text? || v.atom.TextStream?) then AsText(t)
    else if v.Leaf? && v.atom.Bytes? then Ok(Hex(v.atom.data))
    else if v.Leaf? && v.atom.ByteStream? then Ok(Hex(Concat(v.atom.chunks)))
    else Err(IncorrectType)
  }

  // ---- Writing -------------------------------------------------------------------------------------

  function U(n: u64): Item { Leaf(Uint(n)) }

  function T(s: string): Item { Leaf(Text(s)) }

  function B(data: seq<byte>): Item { Leaf(Bytes(data)) }

  /** No entry for None, one entry for Some. */
  function Opt<V>(key: u64, value: Option<V>, write: V -> Item): seq<Entry> {
    if value.Some? then [Entry(U(key), write(value.value))] else []
  }

  /** A map under construction: its head, which already announces `count` entries, and those written. */
  ghost function Opened(base: seq<Token>, count: nat, done: seq<Entry>): seq<Token> {
    base + [MapHead(count)] + FlatEntries(done)
  }

  lemma OpenedOne(base: seq<Token>, count: nat, done: seq<Entry>, e: Entry)
    ensures Opened(base, count, done + [e]) == Opened(base, count, done) + Flat(e.key) + Flat(e.value)
  {
    FlatEntriesOfConcat(done, [e]);
    assert FlatEntries([e]) == FlatEntry(e);
  }

  /** The map is whole, and its head tells the truth, when as many entries were written as announced. */
  lemma OpenedAll(base: seq<Token>, done: seq<Entry>)
    ensures Opened(base, |done|, done) == base + Flat(Map(done))
  {
    assert base + [MapHead(|done|)] + FlatEntries(done) == base + ([MapHead(|done|)] + FlatEntries(done));
  }

  /** `m.emit(&key); m.emit(value)` */
  method Emit(encoder: seq<Token>, key: Item, value: Item, ghost base: seq<Token>, ghost count: nat, ghost done: seq<Entry>)
    returns (out: seq<Token>)
    requires encoder == Opened(base, count, done) && key.Leaf? && value.Leaf?
    ensures out == Opened(base, count, done + [Entry(key, value)])
  {
    OpenedOne(base, count, done, Entry(key, value));
    out := encoder + [Scalar(key.atom)] + [Scalar(value.atom)];
  }

  /** The first two fields of a map. */
  method EmitTwo(encoder: seq<Token>, key: Item, value: Item, key1: Item, value1: Item, ghost base: seq<Token>, ghost count: nat)
    returns (out: seq<Token>)
    requires encoder == base + [MapHead(count)] && key.Leaf? && value.Leaf? && key1.Leaf? && value1.Leaf?
    ensures out == Opened(base, count, [Entry(key, value), Entry(key1, value1)])
  {
    OpenedNone(base, count);
    assert [] + [Entry(key, value)] == [Entry(key, value)];
    out := Emit(encoder, key, value, base, count, []);
    out := Emit(out, key1, value1, base, count, [Entry(key, value)]);
    assert [Entry(key, value)] + [Entry(key1, value1)] == [Entry(key, value), Entry(key1, value1)];
  }

  lemma OpenedNone(base: seq<Token>, count: nat)
    ensures Opened(base, count, []) == base + [MapHead(count)]
  {
  }

  /** `if let Some(v) = value { m.emit(&key); m.emit(v) }` for a scalar field. */
  method EmitOpt<V>(encoder: seq<Token>, key: u64, value: Option<V>, write: V -> Item,
                    ghost base: seq<Token>, ghost count: nat, ghost done: seq<Entry>)
    returns (out: seq<Token>)
    requires encoder == Opened(base, count, done) && (value.Some? ==> write(value.value).Leaf?)
    ensures out == Opened(base, count, done + Opt(key, value, write))
  {
    if value.Some? {
      out := Emit(encoder, U(key), write(value.value), base, count, done);
    } else {
      assert done + [] == done;
      out := encoder;
    }
  }

  /** `m.emit_array(Some(v.len()), |a| for x in v { a.emit(x) })` for scalar elements. */
  method EmitArray<V>(encoder: seq<Token>, values: seq<V>, write: V -> Item) returns (out: seq<Token>)
    requires forall i :: 0 <= i < |values| ==> write(values[i]).Leaf?
    ensures out == encoder + Flat(Array(Mapped(write, values)))
  {
    out := encoder + [ArrayHead(|values|)];
    var rest := values;
    ghost var whole := out + FlatAll(Mapped(write, values));
    while rest != []
      invariant out + FlatAll(Mapped(write, rest)) == whole
      invariant forall i :: 0 <= i < |rest| ==> write(rest[i]).Leaf?
      decreases |rest|
    {
      MappedStep(out, write, rest);
      out := out + [Scalar(write(rest[0]).atom)];
      rest := rest[1..];
    }
    assert whole == encoder + ([ArrayHead(|values|)] + FlatAll(Mapped(write, values)));
  }

  lemma MappedStep<V>(out: seq<Token>, write: V -> Item, rest: seq<V>)
    requires rest != []
    ensures out + FlatAll(Mapped(write, rest)) == out + Flat(write(rest[0])) + FlatAll(Mapped(write, rest[1..]))
  {
    assert Mapped(write, rest)[1..] == Mapped(write, rest[1..]);
  }

  /** An optional array field. */
  method EmitOptArray<V>(encoder: seq<Token>, key: u64, value: Option<seq<V>>, write: V -> Item,
                         ghost base: seq<Token>, ghost count: nat, ghost done: seq<Entry>)
    returns (out: seq<Token>)
    requires encoder == Opened(base, count, done)
    requires value.Some? ==> forall i :: 0 <= i < |value.value| ==> write(value.value[i]).Leaf?
    ensures out == Opened(base, count, done + OptArray(key, value, write))
  {
    if value.Some? {
      OpenedOne(base, count, done, Entry(U(key), Array(Mapped(write, value.value))));
      out := encoder + [Scalar(Uint(key))];
      out := EmitArray(out, value.value, write);
    } else {
      assert done + [] == done;
      out := encoder;
    }
  }

  function OptArray<V>(key: u64, value: Option<seq<V>>, write: V -> Item): seq<Entry> {
    if value.Some? then [Entry(U(key), Array(Mapped(write, value.value)))] else []
  }

  // ---- Reading what was written --------------------------------------------------------------------

  /** One more field: taking its entry, if there is one, sets the field; None is the default. */
  lemma FoldField<S>(take: (Entry, S) -> Result<S>, done: seq<Entry>, start: S, before: S, opt: seq<Entry>, after: S)
    requires Fold(take, done, start) == Ok(before) && |opt| <= 1
    requires if opt == [] then after == before else take(opt[0], before) == Ok(after)
    ensures Fold(take, done + opt, start) == Ok(after)
  {
    FoldConcat(take, done, opt, start);
    if opt != [] {
      assert opt == [opt[0]];
      FoldOne(take, opt[0], before);
    }
  }

  lemma TextsRead(values: seq<string>)
    ensures AllOf(AsFormat, Mapped(T, values)) == Ok(values)
  {
    AllOfMapped(AsFormat, T, values);
  }

  lemma BytesRead(values: seq<seq<byte>>)
    ensures AllOf(AsBytes, Mapped(B, values)) == Ok(values)
  {
    AllOfMapped(AsBytes, B, values);
  }

  lemma TwoFields<S>(a: Entry, b: Entry, take: (Entry, S) -> Result<S>, start: S, middle: S, end: S)
    requires take(a, start) == Ok(middle) && take(b, middle) == Ok(end)
    ensures Fold(take, [a, b], start) == Ok(end)
  {
    assert [a] + [b] == [a, b];
    FoldConcat(take, [a], [b], start);
    FoldOne(take, a, start);
    FoldOne(take, b, middle);
  }

  // ---- Tags and unknown entries ----------------------------------------------------------------------

  /** `tags` in front of an item, outermost first. */
  function WithTags(tags: seq<u64>, t: Item): Item {
    if tags == [] then t else Tagged(tags[0], WithTags(tags[1..], t))
  }

  lemma {:induction false} TagsOfWithTags(tags: seq<u64>, t: Item)
    requires !t.Tagged?
    ensures TagsOf(WithTags(tags, t)) == tags && Untagged(WithTags(tags, t)) == t
  {
    if tags != [] {
      TagsOfWithTags(tags[1..], t);
      assert [tags[0]] + tags[1..] == tags;
    }
  }

  /** `take` skips the entry, whatever was taken before, if the value is not nested too deep. */
  ghost predicate Skips<S(!new)>(take: (Entry, S) -> Result<S>, e: Entry) {
    forall s: S :: take(e, s) == if Skippable(e.value, SKIP_DEPTH) then Ok(s) else Err(MaxRecursion)
  }

  /** Exactly what a skipped entry does wherever it stands: nothing, or failure when nested too deep. */
  lemma SkippedAnywhere<S(!new)>(take: (Entry, S) -> Result<S>, a: seq<Entry>, e: Entry, b: seq<Entry>, start: S)
    requires Skips(take, e)
    ensures Skippable(e.value, SKIP_DEPTH) ==> Fold(take, a + [e] + b, start) == Fold(take, a + b, start)
    ensures !Skippable(e.value, SKIP_DEPTH) ==>
      Fold(take, a + [e] + b, start) == if Fold(take, a, start).Ok? then Err(MaxRecursion) else Fold(take, a, start)
  {
    if Skippable(e.value, SKIP_DEPTH) {
      FoldIgnores(take, a, e, b, start);
    } else {
      FoldFails(take, a, e, b, start, MaxRecursion);
    }
  }
}
