/** src/basket.rs: whole responses. */
module BasketResponses {
  import opened Basics
  import opened Cbor
  import opened BasketFields
  import opened BasketItems
  import opened BasketMessages

  datatype BasketResponse = BasketResponse(experimentTag: Option<u64>, version: u64, reqId: string, items: seq<ItemResponse>)

  /** The local variables of `BasketResponse::from_cbor`. */
  datatype ReplyFields = ReplyFields(version: Option<u64>, reqId: Option<string>, items: seq<ItemResponse>)

  const NO_REPLY := ReplyFields(None, None, [])

  /** One turn of its loop. */
  function TakeReply(e: Entry, s: ReplyFields): Result<ReplyFields> {
    var key :- AsI64(e.key);
    match key
    case -1 => var _ :- AsU64(e.value); Ok(s)
    case 0 => var v :- AsU64(e.value); Ok(s.(version := Some(v)))
    case 1 => var v :- AsReqId(e.value); Ok(s.(reqId := Some(v)))
    case 2 => var v :- ArrayOf(ResponseOf, e.value); Ok(s.(items := s.items + v))
    case _ => var _ :- Skip(e.value, SKIP_DEPTH); Ok(s)
  }

  function FinishReply(tag: Option<u64>, s: ReplyFields): Result<BasketResponse> {
    if s.version.None? || s.reqId.None? then Err(PartialMap)
    else Ok(BasketResponse(tag, s.version.value, s.reqId.value, s.items))
  }

  function ReplyOf(t: Item): Result<BasketResponse> {
    var s :- MapOf(TakeReply, t, NO_REPLY);
    FinishReply(TagSeen(t), s)
  }

  /** `BasketResponse::from_cbor` */
  method ReplyFromCbor(t: Item) returns (r: Result<BasketResponse>)
    ensures r == ReplyOf(t)
  {
    var s :- ReadMap(TakeReply, t, NO_REPLY);
    if s.version.None? { return Err(PartialMap); }
    if s.reqId.None? { return Err(PartialMap); }
    r := Ok(BasketResponse(TagSeen(t), s.version.value, s.reqId.value, s.items));
  }

  function ReplyEntries(x: BasketResponse): seq<Entry> {
    TagEntry(x.experimentTag) + VersionAndId(x.version, x.reqId) + [Entry(U(2), Array(Mapped(ResponseTree, x.items)))]
  }

  function ReplyTree(x: BasketResponse): Item { Map(ReplyEntries(x)) }

  /** `BasketResponse::to_cbor` */
  method EmitReply(x: BasketResponse, encoder: seq<Token>) returns (out: seq<Token>)
    ensures out == encoder + Flat(ReplyTree(x))
  {
    var count := 3;
    if x.experimentTag.Some? { count := count + 1; }
    assert count == |ReplyEntries(x)|;
    ghost var a := TagEntry(x.experimentTag) + VersionAndId(x.version, x.reqId);
    out := EmitOpening(encoder + [MapHead(count)], x.experimentTag, x.version, x.reqId, encoder, count);
    OpenedOne(encoder, count, a, Entry(U(2), Array(Mapped(ResponseTree, x.items))));
    out := EmitResponses(x.items, out + [Scalar(Uint(2))]);
    OpenedAll(encoder, ReplyEntries(x));
  }

  method EmitResponses(items: seq<ItemResponse>, encoder: seq<Token>) returns (out: seq<Token>)
    ensures out == encoder + Flat(Array(Mapped(ResponseTree, items)))
  {
    out := encoder + [ArrayHead(|items|)];
    var rest := items;
    ghost var whole := out + FlatAll(Mapped(ResponseTree, items));
    while rest != []
      invariant out + FlatAll(Mapped(ResponseTree, rest)) == whole
      decreases |rest|
    {
      MappedStep(out, ResponseTree, rest);
      out := EmitResponse(rest[0], out);
      rest := rest[1..];
    }
    assert whole == encoder + ([ArrayHead(|items|)] + FlatAll(Mapped(ResponseTree, items)));
  }

  lemma ResponsesRead(items: seq<ItemResponse>)
    ensures AllOf(ResponseOf, Mapped(ResponseTree, items)) == Ok(items)
  {
    forall i | 0 <= i < |items| ensures ResponseOf(ResponseTree(items[i])) == Ok(items[i]) {
      ResponseRoundTrip(items[i]);
    }
    AllOfMapped(ResponseOf, ResponseTree, items);
  }

  lemma ReplyOpening(tag: Option<u64>, version: u64, reqId: string)
    ensures Fold(TakeReply, TagEntry(tag) + VersionAndId(version, reqId), NO_REPLY) == Ok(ReplyFields(Some(version), Some(reqId), []))
  {
    var two := VersionAndId(version, reqId);
    TwoFields(two[0], two[1], TakeReply, NO_REPLY, NO_REPLY.(version := Some(version)), ReplyFields(Some(version), Some(reqId), []));
    FoldConcat(TakeReply, TagEntry(tag), two, NO_REPLY);
    if tag.Some? { FoldOne(TakeReply, TagEntry(tag)[0], NO_REPLY); }
  }

  /** Round trip of a response under any tags. */
  lemma ReplyRoundTrip(x: BasketResponse, tags: seq<u64>)
    ensures ReplyOf(WithTags(tags, ReplyTree(x))) ==
      Ok(x.(experimentTag := if EXPERIMENT in tags then Some(EXPERIMENT) else None))
  {
    hide TagEntry, VersionAndId, TagsOf, WithTags;
    var e := Entry(U(2), Array(Mapped(ResponseTree, x.items)));
    TagsOfWithTags(tags, ReplyTree(x));
    ReplyOpening(x.experimentTag, x.version, x.reqId);
    ResponsesRead(x.items);
    assert [] + x.items == x.items;
    FoldConcat(TakeReply, TagEntry(x.experimentTag) + VersionAndId(x.version, x.reqId), [e], NO_REPLY);
    FoldOne(TakeReply, e, ReplyFields(Some(x.version), Some(x.reqId), []));
  }

  /** On the wire: what is sent under tag 44444 is read back as sent, with the tag noted. */
  lemma ReplyOnTheWire(x: BasketResponse, rest: seq<Token>)
    ensures
      var r := ReadOne([TagHead(EXPERIMENT)] + Flat(ReplyTree(x)) + rest);
      && r.Some? && r.value.1 == rest
      && ReplyOf(r.value.0) == Ok(x.(experimentTag := Some(EXPERIMENT)))
  {
    ReadFlat(Tagged(EXPERIMENT, ReplyTree(x)), rest);
    ReplyRoundTrip(x, [EXPERIMENT]);
    assert WithTags([EXPERIMENT], ReplyTree(x)) == Tagged(EXPERIMENT, WithTags([], ReplyTree(x)));
  }

  /** Unsigned keys from 3 on are unknown; they must fit an `i64`, or the whole message is refused. */
  lemma ReplySkips(key: u64, value: Item)
    requires 3 <= key
    ensures key < 0x8000_0000_0000_0000 ==> Skips(TakeReply, Entry(U(key), value))
    ensures 0x8000_0000_0000_0000 <= key ==> forall s :: TakeReply(Entry(U(key), value), s) == Err(OutOfRange)
  {
  }

  /**
   * Exactly what an entry with an unknown unsigned key does wherever it stands: a key that fits no `i64`
   * and a value nested too deep refuse the whole message, unless an error came before; any other changes
   * nothing.
   */
  lemma ReplyWithUnknown(tags: seq<u64>, a: seq<Entry>, key: u64, value: Item, b: seq<Entry>)
    requires 3 <= key
    ensures ReplyOf(WithTags(tags, Map(a + [Entry(U(key), value)] + b))) ==
      if Fold(TakeReply, a, NO_REPLY).Ok? && 0x8000_0000_0000_0000 <= key then Err(OutOfRange)
      else if Fold(TakeReply, a, NO_REPLY).Ok? && !Skippable(value, SKIP_DEPTH) then Err(MaxRecursion)
      else ReplyOf(WithTags(tags, Map(a + b)))
  {
    hide TakeReply, Skippable;
    var e := Entry(U(key), value);
    TagsOfWithTags(tags, Map(a + [e] + b));
    TagsOfWithTags(tags, Map(a + b));
    ReplySkips(key, value);
    FoldConcat(TakeReply, a, b, NO_REPLY);
    if 0x8000_0000_0000_0000 <= key {
      FoldFails(TakeReply, a, e, b, NO_REPLY, OutOfRange);
    } else {
      SkippedAnywhere(TakeReply, a, e, b, NO_REPLY);
    }
  }

  /** An unknown entry anywhere in a response, under any tags, changes nothing. */
  lemma ReplyIgnoresUnknown(tags: seq<u64>, a: seq<Entry>, key: u64, value: Item, b: seq<Entry>)
    requires 3 <= key < 0x8000_0000_0000_0000 && Skippable(value, SKIP_DEPTH)
    ensures ReplyOf(WithTags(tags, Map(a + [Entry(U(key), value)] + b))) == ReplyOf(WithTags(tags, Map(a + b)))
  {
    ReplyWithUnknown(tags, a, key, value, b);
  }

  /** An item response may be replaced by one that reads the same, such as one with unknown entries. */
  lemma ResponseReplaced(tags: seq<u64>, a: seq<Entry>, xs: seq<Item>, i: nat, y: Item, b: seq<Entry>)
    requires i < |xs| && ResponseOf(xs[i]) == ResponseOf(y)
    ensures ReplyOf(WithTags(tags, Map(a + [Entry(U(2), Array(xs[i := y]))] + b)))
         == ReplyOf(WithTags(tags, Map(a + [Entry(U(2), Array(xs))] + b)))
  {
    var e, f := Entry(U(2), Array(xs[i := y])), Entry(U(2), Array(xs));
    AllOfReplaced(ResponseOf, xs, i, y);
    forall s ensures TakeReply(e, s) == TakeReply(f, s) {}
    FoldReplaced(TakeReply, a, e, f, b, NO_REPLY);
    TagsOfWithTags(tags, Map(a + [e] + b));
    TagsOfWithTags(tags, Map(a + [f] + b));
  }

  /** And so may its metadata. */
  lemma MetadataReplaced(a: seq<Entry>, x: Item, y: Item, b: seq<Entry>)
    requires MetadataOf(x) == MetadataOf(y)
    ensures ResponseOf(Map(a + [Entry(U(2), x)] + b)) == ResponseOf(Map(a + [Entry(U(2), y)] + b))
  {
    forall s ensures TakeResponse(Entry(U(2), x), s) == TakeResponse(Entry(U(2), y), s) {}
    FoldReplaced(TakeResponse, a, Entry(U(2), x), Entry(U(2), y), b, NO_RESPONSE);
  }

  lemma {:induction false} RequiredReplyFields(es: seq<Entry>, s: ReplyFields)
    requires Fold(TakeReply, es, s).Ok?
    ensures Fold(TakeReply, es, s).value.version.Some? <==> s.version.Some? || HasKey(es, 0)
    ensures Fold(TakeReply, es, s).value.reqId.Some? <==> s.reqId.Some? || HasKey(es, 1)
  {
    if es != [] {
      HasKeyStep(es, 0);
      HasKeyStep(es, 1);
      RequiredReplyFields(es[1..], TakeReply(es[0], s).value);
    }
  }

  /** When every entry can be read, a response is refused exactly when version or request id is missing. */
  lemma ReplyNeedsBoth(tags: seq<u64>, es: seq<Entry>)
    requires Fold(TakeReply, es, NO_REPLY).Ok?
    ensures ReplyOf(WithTags(tags, Map(es))) == Err(PartialMap) <==> !HasKey(es, 0) || !HasKey(es, 1)
    ensures ReplyOf(WithTags(tags, Map(es))).Ok? <==> HasKey(es, 0) && HasKey(es, 1)
  {
    TagsOfWithTags(tags, Map(es));
    RequiredReplyFields(es, NO_REPLY);
  }
}
