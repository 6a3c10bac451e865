/**
 * Section 3 of RFC 8949 as far as src/basket.rs uses it: data items, the tokens that write them, and
 * the reading and skipping interface of the CBOR library.
 */
module Cbor {
  import opened Basics

  /** Items without parts. Streams are strings sent in chunks; `Simple` is any other item. */
  datatype Atom =
    | Uint(n: u64)
    /** The integer -1 - n. */
    | Nint(n: u64)
    | Bytes(data: seq<byte>)
    | ByteStream(chunks: seq<seq<byte>>)
    | Text(text: string)
    | TextStream(parts: seq<string>)
    | Simple(code: nat)

  datatype Token = Scalar(atom: Atom) | ArrayHead(n: nat) | MapHead(n: nat) | TagHead(tag: u64)

  datatype Item =
    | Leaf(atom: Atom)
    | Array(items: seq<Item>)
    | Map(entries: seq<Entry>)
    | Tagged(tag: u64, inner: Item)

  datatype Entry = Entry(key: Item, value: Item)

  // ---- Writing and reading tokens ----------------------------------------------------------------

  function Flat(t: Item): (ts: seq<Token>)
    ensures ts != []
    decreases t
  {
    match t
    case Leaf(a) => [Scalar(a)]
    case Array(xs) => [ArrayHead(|xs|)] + FlatAll(xs)
    case Map(es) => [MapHead(|es|)] + FlatEntries(es)
    case Tagged(tag, x) => [TagHead(tag)] + Flat(x)
  }

  function FlatAll(xs: seq<Item>): seq<Token>
    decreases xs
  {
    if xs == [] then [] else Flat(xs[0]) + FlatAll(xs[1..])
  }

  function FlatEntries(es: seq<Entry>): seq<Token>
    decreases es
  {
    if es == [] then [] else FlatEntry(es[0]) + FlatEntries(es[1..])
  }

  function FlatEntry(e: Entry): seq<Token>
    decreases e
  {
    Flat(e.key) + Flat(e.value)
  }

  /** Reads one item off the front of a token stream. */
  ghost function ReadOne(ts: seq<Token>): (r: Option<(Item, seq<Token>)>)
    ensures r.Some? ==> |r.value.1| < |ts|
    decreases |ts|, 0
  {
    if ts == [] then None
    else match ts[0]
      case Scalar(a) => Some((Leaf(a), ts[1..]))
      case TagHead(tag) =>
        (match ReadOne(ts[1..])
         case None => None
         case Some((x, rest)) => Some((Tagged(tag, x), rest)))
      case ArrayHead(n) =>
        (match ReadMany(n, ts[1..])
         case None => None
         case Some((xs, rest)) => Some((Array(xs), rest)))
      case MapHead(n) =>
        (match ReadEntries(n, ts[1..])
         case None => None
         case Some((es, rest)) => Some((Map(es), rest)))
  }

  ghost function ReadMany(n: nat, ts: seq<Token>): (r: Option<(seq<Item>, seq<Token>)>)
    ensures r.Some? ==> |r.value.1| <= |ts|
    decreases |ts|, 1
  {
    if n == 0 then Some(([], ts))
    else match ReadOne(ts)
      case None => None
      case Some((x, more)) =>
        match ReadMany(n - 1, more)
        case None => None
        case Some((xs, rest)) => Some(([x] + xs, rest))
  }

  ghost function ReadEntry(ts: seq<Token>): (r: Option<(Entry, seq<Token>)>)
    ensures r.Some? ==> |r.value.1| < |ts|
    decreases |ts|, 1
  {
    match ReadOne(ts)
    case None => None
    case Some((key, after)) =>
      match ReadOne(after)
      case None => None
      case Some((value, rest)) => Some((Entry(key, value), rest))
  }

  ghost function ReadEntries(n: nat, ts: seq<Token>): (r: Option<(seq<Entry>, seq<Token>)>)
    ensures r.Some? ==> |r.value.1| <= |ts|
    decreases |ts|, 2
  {
    if n == 0 then Some(([], ts))
    else match ReadEntry(ts)
      case None => None
      case Some((e, more)) =>
        match ReadEntries(n - 1, more)
        case None => None
        case Some((es, rest)) => Some(([e] + es, rest))
  }

  lemma HeadThen(h: Token, a: seq<Token>, rest: seq<Token>)
    ensures ([h] + a + rest)[0] == h && ([h] + a + rest)[1..] == a + rest
  {
  }

  /** What is written for an item is read back as that item, whatever follows. */
  lemma {:induction false} ReadFlat(t: Item, rest: seq<Token>)
    ensures ReadOne(Flat(t) + rest) == Some((t, rest))
    decreases t
  {
    match t
    case Leaf(a) =>
      assert (Flat(t) + rest)[1..] == rest;
    case Tagged(tag, x) =>
      HeadThen(TagHead(tag), Flat(x), rest);
      ReadFlat(x, rest);
    case Array(xs) =>
      HeadThen(ArrayHead(|xs|), FlatAll(xs), rest);
      ReadFlatAll(xs, rest);
    case Map(es) =>
      HeadThen(MapHead(|es|), FlatEntries(es), rest);
      ReadFlatEntries(es, rest);
  }

  lemma {:induction false} ReadFlatAll(xs: seq<Item>, rest: seq<Token>)
    ensures ReadMany(|xs|, FlatAll(xs) + rest) == Some((xs, rest))
    decreases xs
  {
    if xs == [] {
      assert FlatAll(xs) + rest == rest;
    } else {
      assert FlatAll(xs) + rest == Flat(xs[0]) + (FlatAll(xs[1..]) + rest);
      ReadFlat(xs[0], FlatAll(xs[1..]) + rest);
      ReadFlatAll(xs[1..], rest);
      assert [xs[0]] + xs[1..] == xs;
    }
  }

  lemma {:induction false} ReadFlatEntries(es: seq<Entry>, rest: seq<Token>)
    ensures ReadEntries(|es|, FlatEntries(es) + rest) == Some((es, rest))
    decreases es
  {
    if es == [] {
      assert FlatEntries(es) + rest == rest;
    } else {
      assert FlatEntries(es) + rest == FlatEntry(es[0]) + (FlatEntries(es[1..]) + rest);
      ReadFlatEntry(es[0], FlatEntries(es[1..]) + rest);
      ReadFlatEntries(es[1..], rest);
      assert [es[0]] + es[1..] == es;
    }
  }

  lemma {:induction false} ReadFlatEntry(e: Entry, more: seq<Token>)
    ensures ReadEntry(FlatEntry(e) + more) == Some((e, more))
    decreases e
  {
    assert FlatEntry(e) + more == Flat(e.key) + (Flat(e.value) + more);
    ReadFlat(e.key, Flat(e.value) + more);
    ReadFlat(e.value, more);
  }

  /** Whatever can be read was written for exactly that item: heads and contents always agree. */
  lemma {:induction false} FlatOfRead(ts: seq<Token>)
    ensures ReadOne(ts).Some? ==> ts == Flat(ReadOne(ts).value.0) + ReadOne(ts).value.1
    decreases |ts|, 0
  {
    if ts != [] {
      var more := ts[1..];
      assert ts == [ts[0]] + more;
      match ts[0]
      case Scalar(_) =>
      case TagHead(_) => FlatOfRead(more);
      case ArrayHead(n) => FlatOfReadMany(n, more);
      case MapHead(n) => FlatOfReadEntries(n, more);
    }
  }

  lemma {:induction false} FlatOfReadMany(n: nat, ts: seq<Token>)
    ensures ReadMany(n, ts).Some? ==>
      |ReadMany(n, ts).value.0| == n && ts == FlatAll(ReadMany(n, ts).value.0) + ReadMany(n, ts).value.1
    decreases |ts|, 1
  {
    if n > 0 && ReadMany(n, ts).Some? {
      FlatOfRead(ts);
      FlatOfReadMany(n - 1, ReadOne(ts).value.1);
      assert ReadMany(n, ts).value.0[1..] == ReadMany(n - 1, ReadOne(ts).value.1).value.0;
    }
  }

  lemma {:induction false} FlatOfReadEntry(ts: seq<Token>)
    ensures ReadEntry(ts).Some? ==> ts == FlatEntry(ReadEntry(ts).value.0) + ReadEntry(ts).value.1
    decreases |ts|, 1
  {
    if ReadEntry(ts).Some? {
      FlatOfRead(ts);
      FlatOfRead(ReadOne(ts).value.1);
    }
  }

  lemma {:induction false} FlatOfReadEntries(n: nat, ts: seq<Token>)
    ensures ReadEntries(n, ts).Some? ==>
      |ReadEntries(n, ts).value.0| == n && ts == FlatEntries(ReadEntries(n, ts).value.0) + ReadEntries(n, ts).value.1
    decreases |ts|, 2
  {
    if n > 0 && ReadEntries(n, ts).Some? {
      FlatOfReadEntry(ts);
      FlatOfReadEntries(n - 1, ReadEntry(ts).value.1);
      assert ReadEntries(n, ts).value.0[1..] == ReadEntries(n - 1, ReadEntry(ts).value.1).value.0;
    }
  }

  lemma {:induction false} FlatEntriesOfConcat(a: seq<Entry>, b: seq<Entry>)
    ensures FlatEntries(a + b) == FlatEntries(a) + FlatEntries(b)
  {
    if a == [] {
      assert a + b == b;
    } else {
      assert (a + b)[1..] == a[1..] + b;
      FlatEntriesOfConcat(a[1..], b);
    }
  }

  lemma {:induction false} FlatAllOfConcat(a: seq<Item>, b: seq<Item>)
    ensures FlatAll(a + b) == FlatAll(a) + FlatAll(b)
  {
    if a == [] {
      assert a + b == b;
    } else {
      assert (a + b)[1..] == a[1..] + b;
      FlatAllOfConcat(a[1..], b);
    }
  }

  // ---- The reading interface ---------------------------------------------------------------------

  datatype Error = UnexpectedTag | IncorrectType | OutOfRange | PartialMap | MaxRecursion | NotEnoughData

  datatype Result<+T> = Ok(value: T) | Err(error: Error) {
    predicate IsFailure() { Err? }

    function PropagateFailure<U>(): Result<U>
      requires Err?
    {
      Err(error)
    }

    function Extract(): T
      requires Ok?
    {
      value
    }
  }

  /** The item under any tags, and the tags, outermost first. */
  function Untagged(t: Item): Item {
    if t.Tagged? then Untagged(t.inner) else t
  }

  function TagsOf(t: Item): seq<u64> {
    if t.Tagged? then [t.tag] + TagsOf(t.inner) else []
  }

  function AsU64(t: Item): Result<u64> {
    if t.Tagged? then Err(UnexpectedTag)
    else if t.Leaf? && t.atom.Uint? then Ok(t.atom.n)
    else Err(IncorrectType)
  }

  /** `i64`: magnitudes of 2^63 and more do not fit. */
  function AsI64(t: Item): Result<int> {
    if t.Tagged? then Err(UnexpectedTag)
    else if t.Leaf? && (t.atom.Uint? || t.atom.Nint?) then
      if t.atom.n >= 0x8000_0000_0000_0000 then Err(OutOfRange)
      else Ok(if t.atom.Uint? then t.atom.n else -1 - t.atom.n)
    else Err(IncorrectType)
  }

  /** Nesting of arrays and maps an item is allowed when it is skipped. */
  predicate Skippable(t: Item, depth: nat)
    decreases t
  {
    match t
    case Leaf(_) => true
    case Tagged(_, x) => Skippable(x, depth)
    case Array(xs) => 0 < depth && forall i :: 0 <= i < |xs| ==> Skippable(xs[i], depth - 1)
    case Map(es) => 0 < depth && forall i :: 0 <= i < |es| ==> SkippableEntry(es[i], depth - 1)
  }

  predicate SkippableEntry(e: Entry, depth: nat)
    decreases e
  {
    Skippable(e.key, depth) && Skippable(e.value, depth)
  }

  /** `skip_value` */
  function Skip(t: Item, depth: nat): Result<()> {
    if Skippable(t, depth) then Ok(()) else Err(MaxRecursion)
  }

  /** Reads every item of an array in order; tags around the array are ignored. */
  function ArrayOf<T>(read: Item -> Result<T>, t: Item): Result<seq<T>> {
    if Untagged(t).Array? then AllOf(read, Untagged(t).items) else Err(IncorrectType)
  }

  function AllOf<T>(read: Item -> Result<T>, xs: seq<Item>): Result<seq<T>> {
    if xs == [] then Ok([])
    else
      var first :- read(xs[0]);
      var rest :- AllOf(read, xs[1..]);
      Ok([first] + rest)
  }

  /** Takes the entries of a map one after the other; the first error ends it. */
  function Fold<S>(take: (Entry, S) -> Result<S>, es: seq<Entry>, s: S): Result<S> {
    if es == [] then Ok(s)
    else
      var next :- take(es[0], s);
      Fold(take, es[1..], next)
  }

  function MapOf<S>(take: (Entry, S) -> Result<S>, t: Item, s: S): Result<S> {
    if Untagged(t).Map? then Fold(take, Untagged(t).entries, s) else Err(IncorrectType)
  }

  /** `while !arr.at_end() { v.push(arr.parse()?) }` */
  method ReadArray<T>(read: Item -> Result<T>, t: Item) returns (r: Result<seq<T>>)
    ensures r == ArrayOf(read, t)
  {
    var a := Untagged(t);
    if !a.Array? { return Err(IncorrectType); }
    var values := [];
    PrependNothing(AllOf(read, a.items));
    assert a.items[0..] == a.items;
    for i := 0 to |a.items|
      invariant AllOf(read, a.items) == Prepend(values, AllOf(read, a.items[i..]))
    {
      var value :- read(a.items[i]);
      PrependOne(values, value, AllOf(read, a.items[i + 1..]));
      assert a.items[i..][1..] == a.items[i + 1..];
      values := values + [value];
    }
    assert values + [] == values;
    r := Ok(values);
  }

  /** `while !m.at_end() { key and value }` */
  method ReadMap<S>(take: (Entry, S) -> Result<S>, t: Item, start: S) returns (r: Result<S>)
    ensures r == MapOf(take, t, start)
  {
    var m := Untagged(t);
    if !m.Map? { return Err(IncorrectType); }
    var s := start;
    for i := 0 to |m.entries|
      invariant Fold(take, m.entries, start) == Fold(take, m.entries[i..], s)
    {
      assert m.entries[i..][1..] == m.entries[i + 1..];
      s :- take(m.entries[i], s);
    }
    r := Ok(s);
  }

  function Prepend<T>(values: seq<T>, r: Result<seq<T>>): Result<seq<T>> {
    if r.Ok? then Ok(values + r.value) else r
  }

  lemma PrependNothing<T>(r: Result<seq<T>>)
    ensures Prepend([], r) == r
  {
    if r.Ok? { assert [] + r.value == r.value; }
  }

  lemma PrependOne<T>(values: seq<T>, value: T, r: Result<seq<T>>)
    ensures Prepend(values, Prepend([value], r)) == Prepend(values + [value], r)
  {
    if r.Ok? { assert values + ([value] + r.value) == values + [value] + r.value; }
  }

  // ---- Laws of reading maps and arrays -------------------------------------------------------------

  lemma {:induction false} FoldConcat<S>(take: (Entry, S) -> Result<S>, a: seq<Entry>, b: seq<Entry>, s: S)
    ensures Fold(take, a + b, s) == if Fold(take, a, s).Ok? then Fold(take, b, Fold(take, a, s).value) else Fold(take, a, s)
  {
    if a == [] {
      assert a + b == b;
    } else {
      assert (a + b)[1..] == a[1..] + b;
      if take(a[0], s).Ok? { FoldConcat(take, a[1..], b, take(a[0], s).value); }
    }
  }

  /** An entry that changes no state may stand anywhere. */
  lemma FoldIgnores<S(!new)>(take: (Entry, S) -> Result<S>, a: seq<Entry>, e: Entry, b: seq<Entry>, s: S)
    requires forall x: S :: take(e, x) == Ok(x)
    ensures Fold(take, a + [e] + b, s) == Fold(take, a + b, s)
  {
    FoldConcat(take, a + [e], b, s);
    FoldConcat(take, a, [e], s);
    FoldConcat(take, a, b, s);
    if Fold(take, a, s).Ok? { FoldOne(take, e, Fold(take, a, s).value); }
  }

  /** Entries may be exchanged for others that do the same to every state. */
  lemma FoldPartReplaced<S(!new)>(take: (Entry, S) -> Result<S>, a: seq<Entry>, e: seq<Entry>, f: seq<Entry>, b: seq<Entry>, s: S)
    requires forall x: S :: Fold(take, e, x) == Fold(take, f, x)
    ensures Fold(take, a + e + b, s) == Fold(take, a + f + b, s)
  {
    FoldConcat(take, a + e, b, s);
    FoldConcat(take, a, e, s);
    FoldConcat(take, a + f, b, s);
    FoldConcat(take, a, f, s);
  }

  lemma FoldReplaced<S(!new)>(take: (Entry, S) -> Result<S>, a: seq<Entry>, e: Entry, f: Entry, b: seq<Entry>, s: S)
    requires forall x: S :: take(e, x) == take(f, x)
    ensures Fold(take, a + [e] + b, s) == Fold(take, a + [f] + b, s)
  {
    forall x: S ensures Fold(take, [e], x) == Fold(take, [f], x) {
      FoldOne(take, e, x);
      FoldOne(take, f, x);
    }
    FoldPartReplaced(take, a, [e], [f], b, s);
  }

  lemma FoldOne<S>(take: (Entry, S) -> Result<S>, e: Entry, s: S)
    ensures Fold(take, [e], s) == take(e, s)
  {
  }

  /** An entry that always fails makes the map fail, unless something before it already did. */
  lemma FoldFails<S(!new)>(take: (Entry, S) -> Result<S>, a: seq<Entry>, e: Entry, b: seq<Entry>, s: S, error: Error)
    requires forall x: S :: take(e, x) == Err(error)
    ensures Fold(take, a + [e] + b, s) == if Fold(take, a, s).Ok? then Err(error) else Fold(take, a, s)
  {
    FoldConcat(take, a + [e], b, s);
    FoldConcat(take, a, [e], s);
    if Fold(take, a, s).Ok? { FoldOne(take, e, Fold(take, a, s).value); }
  }

  function Mapped<T>(write: T -> Item, values: seq<T>): (items: seq<Item>)
    ensures |items| == |values|
  {
    if values == [] then [] else [write(values[0])] + Mapped(write, values[1..])
  }

  /** Reading undoes writing, element by element. */
  lemma {:induction false} AllOfMapped<T>(read: Item -> Result<T>, write: T -> Item, values: seq<T>)
    requires forall i :: 0 <= i < |values| ==> read(write(values[i])) == Ok(values[i])
    ensures AllOf(read, Mapped(write, values)) == Ok(values)
  {
    if values != [] {
      assert read(write(values[0])) == Ok(values[0]);
      AllOfMapped(read, write, values[1..]);
      assert Mapped(write, values)[1..] == Mapped(write, values[1..]);
      assert [values[0]] + values[1..] == values;
    }
  }

  /** Reading two arrays one after the other is reading them joined. */
  lemma {:induction false} AllOfConcat<T>(read: Item -> Result<T>, xs: seq<Item>, ys: seq<Item>)
    ensures AllOf(read, xs + ys) == if AllOf(read, xs).Ok? then Prepend(AllOf(read, xs).value, AllOf(read, ys)) else AllOf(read, xs)
  {
    if xs == [] {
      assert xs + ys == ys;
      PrependNothing(AllOf(read, ys));
    } else {
      assert (xs + ys)[1..] == xs[1..] + ys;
      AllOfConcat(read, xs[1..], ys);
      if read(xs[0]).Ok? && AllOf(read, xs[1..]).Ok? {
        PrependMore(read(xs[0]).value, AllOf(read, xs[1..]).value, AllOf(read, ys));
      }
    }
  }

  lemma PrependMore<T>(first: T, values: seq<T>, r: Result<seq<T>>)
    ensures Prepend([first], Prepend(values, r)) == Prepend([first] + values, r)
  {
    if r.Ok? { assert [first] + (values + r.value) == [first] + values + r.value; }
  }

  /** An array reads the same when one item is replaced by one that reads the same. */
  lemma {:induction false} AllOfReplaced<T>(read: Item -> Result<T>, xs: seq<Item>, i: nat, y: Item)
    requires i < |xs| && read(xs[i]) == read(y)
    ensures AllOf(read, xs[i := y]) == AllOf(read, xs)
  {
    if i == 0 {
      assert xs[i := y][1..] == xs[1..];
    } else {
      AllOfReplaced(read, xs[1..], i - 1, y);
      assert xs[i := y][1..] == xs[1..][i - 1 := y];
    }
  }
}
