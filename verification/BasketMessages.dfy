/** src/basket.rs: whole requests and responses, sent under the experiment tag 44444. */
module BasketMessages {
  import opened Basics
  import opened Cbor
  import opened BasketFields
  import opened BasketItems

  const EXPERIMENT: u64 := 44444

  /** `tags.contains(&44444)` */
  function TagSeen(t: Item): Option<u64> { if EXPERIMENT in TagsOf(t) then Some(EXPERIMENT) else None }

  // ---- Requests --------------------------------------------------------------------------------------

  datatype BasketRequest = BasketRequest(
    experimentTag: Option<u64>,
    version: u64,
    reqId: string,
    replyTo: Option<string>,
    defaultLifetime: Option<u64>,
    items: seq<RequestItem>)

  /** The local variables of `BasketRequest::from_cbor`. */
  datatype RequestFields = RequestFields(
    version: Option<u64>,
    reqId: Option<string>,
    replyTo: Option<string>,
    defaultLifetime: Option<u64>,
    items: seq<RequestItem>)

  const NO_REQUEST := RequestFields(None, None, None, None, [])

  /** One turn of its loop. Items accumulate; the key -1 is read and dropped. */
  function TakeRequest(e: Entry, s: RequestFields): Result<RequestFields> {
    var key :- AsI64(e.key);
    match key
    case -1 => var _ :- AsU64(e.value); Ok(s)
    case 0 => var v :- AsU64(e.value); Ok(s.(version := Some(v)))
    case 1 => var v :- AsReqId(e.value); Ok(s.(reqId := Some(v)))
    case 2 => var v :- AsText(e.value); Ok(s.(replyTo := Some(v)))
    case 3 => var v :- AsU64(e.value); Ok(s.(defaultLifetime := Some(v)))
    case 4 => var v :- ArrayOf(RequestItemOf, e.value); Ok(s.(items := s.items + v))
    case _ => var _ :- Skip(e.value, SKIP_DEPTH); Ok(s)
  }

  /** What follows the loop: version and request id must have been there. */
  function FinishRequest(tag: Option<u64>, s: RequestFields): Result<BasketRequest> {
    if s.version.None? || s.reqId.None? then Err(PartialMap)
    else Ok(BasketRequest(tag, s.version.value, s.reqId.value, s.replyTo, s.defaultLifetime, s.items))
  }

  function RequestOf(t: Item): Result<BasketRequest> {
    var s :- MapOf(TakeRequest, t, NO_REQUEST);
    FinishRequest(TagSeen(t), s)
  }

  /** `BasketRequest::from_cbor` */
  method RequestFromCbor(t: Item) returns (r: Result<BasketRequest>)
    ensures r == RequestOf(t)
  {
    var s :- ReadMap(TakeRequest, t, NO_REQUEST);
    if s.version.None? { return Err(PartialMap); }
    if s.reqId.None? { return Err(PartialMap); }
    r := Ok(BasketRequest(TagSeen(t), s.version.value, s.reqId.value, s.replyTo, s.defaultLifetime, s.items));
  }

  /** The in-map copy of the tag, which precedes the required fields. */
  function TagEntry(tag: Option<u64>): seq<Entry> {
    if tag.Some? then [Entry(Leaf(Nint(0)), U(tag.value))] else []
  }

  function VersionAndId(version: u64, reqId: string): seq<Entry> {
    [Entry(U(0), U(version)), Entry(U(1), T(reqId))]
  }

  function RequestEntries(x: BasketRequest): seq<Entry> {
    TagEntry(x.experimentTag) + VersionAndId(x.version, x.reqId) + Opt(2, x.replyTo, T) + Opt(3, x.defaultLifetime, U)
    + [Entry(U(4), Array(Mapped(RequestItemTree, x.items)))]
  }

  function RequestTree(x: BasketRequest): Item { Map(RequestEntries(x)) }

  /** The tag, version and request id open both kinds of message. */
  method EmitOpening(encoder: seq<Token>, tag: Option<u64>, version: u64, reqId: string, ghost base: seq<Token>, ghost count: nat)
    returns (out: seq<Token>)
    requires encoder == base + [MapHead(count)]
    ensures out == Opened(base, count, TagEntry(tag) + VersionAndId(version, reqId))
  {
    OpenedNone(base, count);
    out := encoder;
    if tag.Some? {
      assert [] + TagEntry(tag) == TagEntry(tag);
      out := Emit(out, Leaf(Nint(0)), U(tag.value), base, count, []);
    }
    ghost var a := TagEntry(tag);
    out := Emit(out, U(0), U(version), base, count, a);
    out := Emit(out, U(1), T(reqId), base, count, a + [Entry(U(0), U(version))]);
    assert a + [Entry(U(0), U(version))] + [Entry(U(1), T(reqId))] == a + VersionAndId(version, reqId);
  }

  /** `BasketRequest::to_cbor` */
  method EmitRequest(x: BasketRequest, encoder: seq<Token>) returns (out: seq<Token>)
    ensures out == encoder + Flat(RequestTree(x))
  {
    var count := 3;
    if x.experimentTag.Some? { count := count + 1; }
    if x.replyTo.Some? { count := count + 1; }
    if x.defaultLifetime.Some? { count := count + 1; }
    assert count == |RequestEntries(x)|;
    ghost var a := TagEntry(x.experimentTag) + VersionAndId(x.version, x.reqId);
    ghost var b := a + Opt(2, x.replyTo, T);
    ghost var c := b + Opt(3, x.defaultLifetime, U);
    out := EmitOpening(encoder + [MapHead(count)], x.experimentTag, x.version, x.reqId, encoder, count);
    out := EmitOpt(out, 2, x.replyTo, T, encoder, count, a);
    out := EmitOpt(out, 3, x.defaultLifetime, U, encoder, count, b);
    OpenedOne(encoder, count, c, Entry(U(4), Array(Mapped(RequestItemTree, x.items))));
    out := EmitRequestItems(x.items, out + [Scalar(Uint(4))]);
    OpenedAll(encoder, RequestEntries(x));
  }

  method EmitRequestItems(items: seq<RequestItem>, encoder: seq<Token>) returns (out: seq<Token>)
    ensures out == encoder + Flat(Array(Mapped(RequestItemTree, items)))
  {
    out := encoder + [ArrayHead(|items|)];
    var rest := items;
    ghost var whole := out + FlatAll(Mapped(RequestItemTree, items));
    while rest != []
      invariant out + FlatAll(Mapped(RequestItemTree, rest)) == whole
      decreases |rest|
    {
      MappedStep(out, RequestItemTree, rest);
      out := EmitRequestItem(rest[0], out);
      rest := rest[1..];
    }
    assert whole == encoder + ([ArrayHead(|items|)] + FlatAll(Mapped(RequestItemTree, items)));
  }

  /** The in-map tag is read and dropped; then version and request id are set. */
  lemma RequestOpening(tag: Option<u64>, version: u64, reqId: string)
    ensures Fold(TakeRequest, TagEntry(tag) + VersionAndId(version, reqId), NO_REQUEST) ==
      Ok(NO_REQUEST.(version := Some(version), reqId := Some(reqId)))
  {
    var s := NO_REQUEST.(version := Some(version));
    var two := VersionAndId(version, reqId);
    TwoFields(two[0], two[1], TakeRequest, NO_REQUEST, s, s.(reqId := Some(reqId)));
    FoldConcat(TakeRequest, TagEntry(tag), two, NO_REQUEST);
    if tag.Some? { FoldOne(TakeRequest, TagEntry(tag)[0], NO_REQUEST); }
  }

  lemma RequestItemsRead(items: seq<RequestItem>)
    ensures AllOf(RequestItemOf, Mapped(RequestItemTree, items)) == Ok(items)
  {
    forall i | 0 <= i < |items| ensures RequestItemOf(RequestItemTree(items[i])) == Ok(items[i]) {
      RequestItemRoundTrip(items[i]);
    }
    AllOfMapped(RequestItemOf, RequestItemTree, items);
  }

  /** The entries before the items. */
  ghost function BeforeItems(x: BasketRequest): seq<Entry> {
    TagEntry(x.experimentTag) + VersionAndId(x.version, x.reqId) + Opt(2, x.replyTo, T) + Opt(3, x.defaultLifetime, U)
  }

  lemma BeforeItemsRead(x: BasketRequest)
    ensures Fold(TakeRequest, BeforeItems(x), NO_REQUEST) ==
      Ok(RequestFields(Some(x.version), Some(x.reqId), x.replyTo, x.defaultLifetime, []))
  {
    var a := TagEntry(x.experimentTag) + VersionAndId(x.version, x.reqId);
    var s2 := NO_REQUEST.(version := Some(x.version), reqId := Some(x.reqId));
    var s3 := s2.(replyTo := x.replyTo);
    RequestOpening(x.experimentTag, x.version, x.reqId);
    FoldField(TakeRequest, a, NO_REQUEST, s2, Opt(2, x.replyTo, T), s3);
    FoldField(TakeRequest, a + Opt(2, x.replyTo, T), NO_REQUEST, s3, Opt(3, x.defaultLifetime, U), s3.(defaultLifetime := x.defaultLifetime));
  }

  lemma RequestFieldsRead(x: BasketRequest)
    ensures Fold(TakeRequest, RequestEntries(x), NO_REQUEST) ==
      Ok(RequestFields(Some(x.version), Some(x.reqId), x.replyTo, x.defaultLifetime, x.items))
  {
    hide TagEntry, VersionAndId, Mapped, RequestItemTree, RequestItemOf;
    var e := Entry(U(4), Array(Mapped(RequestItemTree, x.items)));
    BeforeItemsRead(x);
    RequestItemsRead(x.items);
    assert [] + x.items == x.items;
    FoldConcat(TakeRequest, BeforeItems(x), [e], NO_REQUEST);
    FoldOne(TakeRequest, e, RequestFields(Some(x.version), Some(x.reqId), x.replyTo, x.defaultLifetime, []));
  }

  /** Round trip of a request under any tags: only the tags in front decide the experiment tag. */
  lemma RequestRoundTrip(x: BasketRequest, tags: seq<u64>)
    ensures RequestOf(WithTags(tags, RequestTree(x))) ==
      Ok(x.(experimentTag := if EXPERIMENT in tags then Some(EXPERIMENT) else None))
  {
    TagsOfWithTags(tags, RequestTree(x));
    RequestFieldsRead(x);
  }

  /** On the wire: what is sent under tag 44444 is read back as sent, with the tag noted. */
  lemma RequestOnTheWire(x: BasketRequest, rest: seq<Token>)
    ensures
      var r := ReadOne([TagHead(EXPERIMENT)] + Flat(RequestTree(x)) + rest);
      && r.Some? && r.value.1 == rest
      && RequestOf(r.value.0) == Ok(x.(experimentTag := Some(EXPERIMENT)))
  {
    ReadFlat(Tagged(EXPERIMENT, RequestTree(x)), rest);
    RequestRoundTrip(x, [EXPERIMENT]);
    assert WithTags([EXPERIMENT], RequestTree(x)) == Tagged(EXPERIMENT, WithTags([], RequestTree(x)));
  }

  /** Unsigned keys from 5 on are unknown; they must fit an `i64`, or the whole message is refused. */
  lemma RequestSkips(key: u64, value: Item)
    requires 5 <= key
    ensures key < 0x8000_0000_0000_0000 ==> Skips(TakeRequest, Entry(U(key), value))
    ensures 0x8000_0000_0000_0000 <= key ==> forall s :: TakeRequest(Entry(U(key), value), s) == Err(OutOfRange)
  {
  }

  /**
   * Exactly what an entry with an unknown unsigned key does wherever it stands: a key that fits no `i64`
   * and a value nested too deep refuse the whole message, unless an error came before; any other changes
   * nothing.
   */
  lemma RequestWithUnknown(tags: seq<u64>, a: seq<Entry>, key: u64, value: Item, b: seq<Entry>)
    requires 5 <= key
    ensures RequestOf(WithTags(tags, Map(a + [Entry(U(key), value)] + b))) ==
      if Fold(TakeRequest, a, NO_REQUEST).Ok? && 0x8000_0000_0000_0000 <= key then Err(OutOfRange)
      else if Fold(TakeRequest, a, NO_REQUEST).Ok? && !Skippable(value, SKIP_DEPTH) then Err(MaxRecursion)
      else RequestOf(WithTags(tags, Map(a + b)))
  {
    hide TakeRequest, Skippable;
    var e := Entry(U(key), value);
    TagsOfWithTags(tags, Map(a + [e] + b));
    TagsOfWithTags(tags, Map(a + b));
    RequestSkips(key, value);
    FoldConcat(TakeRequest, a, b, NO_REQUEST);
    if 0x8000_0000_0000_0000 <= key {
      FoldFails(TakeRequest, a, e, b, NO_REQUEST, OutOfRange);
    } else {
      SkippedAnywhere(TakeRequest, a, e, b, NO_REQUEST);
    }
  }

  /** An unknown entry anywhere in a request, under any tags, changes nothing. */
  lemma RequestIgnoresUnknown(tags: seq<u64>, a: seq<Entry>, key: u64, value: Item, b: seq<Entry>)
    requires 5 <= key < 0x8000_0000_0000_0000 && Skippable(value, SKIP_DEPTH)
    ensures RequestOf(WithTags(tags, Map(a + [Entry(U(key), value)] + b))) == RequestOf(WithTags(tags, Map(a + b)))
  {
    RequestWithUnknown(tags, a, key, value, b);
  }

  /** It changes nothing inside the items either: a request item may be replaced by one that reads the same. */
  lemma RequestItemReplaced(tags: seq<u64>, a: seq<Entry>, xs: seq<Item>, i: nat, y: Item, b: seq<Entry>)
    requires i < |xs| && RequestItemOf(xs[i]) == RequestItemOf(y)
    ensures RequestOf(WithTags(tags, Map(a + [Entry(U(4), Array(xs[i := y]))] + b)))
         == RequestOf(WithTags(tags, Map(a + [Entry(U(4), Array(xs))] + b)))
  {
    var e, f := Entry(U(4), Array(xs[i := y])), Entry(U(4), Array(xs));
    AllOfReplaced(RequestItemOf, xs, i, y);
    forall s ensures TakeRequest(e, s) == TakeRequest(f, s) {}
    FoldReplaced(TakeRequest, a, e, f, b, NO_REQUEST);
    TagsOfWithTags(tags, Map(a + [e] + b));
    TagsOfWithTags(tags, Map(a + [f] + b));
  }

  /** Two items arrays in a row are one longer array: repeating the key adds to the list. */
  lemma RequestItemsAddUp(tags: seq<u64>, a: seq<Entry>, xs: seq<Item>, ys: seq<Item>, b: seq<Entry>)
    ensures RequestOf(WithTags(tags, Map(a + [Entry(U(4), Array(xs)), Entry(U(4), Array(ys))] + b)))
         == RequestOf(WithTags(tags, Map(a + [Entry(U(4), Array(xs + ys))] + b)))
  {
    var e, f, both := Entry(U(4), Array(xs)), Entry(U(4), Array(ys)), Entry(U(4), Array(xs + ys));
    forall s ensures Fold(TakeRequest, [e, f], s) == Fold(TakeRequest, [both], s) { TakeBoth(xs, ys, s); }
    FoldPartReplaced(TakeRequest, a, [e, f], [both], b, NO_REQUEST);
    TagsOfWithTags(tags, Map(a + [e, f] + b));
    TagsOfWithTags(tags, Map(a + [both] + b));
  }

  lemma TakeBoth(xs: seq<Item>, ys: seq<Item>, s: RequestFields)
    ensures Fold(TakeRequest, [Entry(U(4), Array(xs)), Entry(U(4), Array(ys))], s) ==
      Fold(TakeRequest, [Entry(U(4), Array(xs + ys))], s)
  {
    var e, f := Entry(U(4), Array(xs)), Entry(U(4), Array(ys));
    AllOfConcat(RequestItemOf, xs, ys);
    FoldOne(TakeRequest, Entry(U(4), Array(xs + ys)), s);
    FoldOne(TakeRequest, e, s);
    assert [e] + [f] == [e, f];
    FoldConcat(TakeRequest, [e], [f], s);
    var first, second := AllOf(RequestItemOf, xs), AllOf(RequestItemOf, ys);
    if first.Ok? {
      FoldOne(TakeRequest, f, s.(items := s.items + first.value));
      if second.Ok? { assert s.items + first.value + second.value == s.items + (first.value + second.value); }
    }
  }

  ghost predicate HasKey(es: seq<Entry>, key: int) { exists i :: 0 <= i < |es| && AsI64(es[i].key) == Ok(key) }

  lemma HasKeyStep(es: seq<Entry>, key: int)
    requires es != []
    ensures HasKey(es, key) <==> AsI64(es[0].key) == Ok(key) || HasKey(es[1..], key)
  {
    assert forall i :: 0 < i < |es| ==> es[i] == es[1..][i - 1];
    assert forall i :: 0 <= i < |es| - 1 ==> es[1..][i] == es[i + 1];
  }

  lemma {:induction false} RequiredFields(es: seq<Entry>, s: RequestFields)
    requires Fold(TakeRequest, es, s).Ok?
    ensures Fold(TakeRequest, es, s).value.version.Some? <==> s.version.Some? || HasKey(es, 0)
    ensures Fold(TakeRequest, es, s).value.reqId.Some? <==> s.reqId.Some? || HasKey(es, 1)
  {
    if es != [] {
      HasKeyStep(es, 0);
      HasKeyStep(es, 1);
      RequiredFields(es[1..], TakeRequest(es[0], s).value);
    }
  }

  /** When every entry can be read, a request is refused exactly when version or request id is missing. */
  lemma RequestNeedsBoth(tags: seq<u64>, es: seq<Entry>)
    requires Fold(TakeRequest, es, NO_REQUEST).Ok?
    ensures RequestOf(WithTags(tags, Map(es))) == Err(PartialMap) <==> !HasKey(es, 0) || !HasKey(es, 1)
    ensures RequestOf(WithTags(tags, Map(es))).Ok? <==> HasKey(es, 0) && HasKey(es, 1)
  {
    TagsOfWithTags(tags, Map(es));
    RequiredFields(es, NO_REQUEST);
  }
}
