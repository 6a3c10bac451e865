/**
 * src/basket.rs: what the readers make of a map, by key: each field is the value of the last entry with
 * its key, in whatever order the entries come.
 */
module BasketLookup {
  import opened Basics
  import opened Cbor
  import opened BasketFields
  import opened BasketItems
  import opened BasketMessages
  import opened BasketResponses

  type KeyReader = Item -> Result<int>

  function UnsignedKey(t: Item): Result<int> { AsU64(t) }

  function SignedKey(t: Item): Result<int> { AsI64(t) }

  /** The value of the last entry with key `k`. */
  ghost function Lookup(key: KeyReader, es: seq<Entry>, k: int): Option<Item> {
    if es == [] then None
    else if key(es[|es| - 1].key) == Ok(k) then Some(es[|es| - 1].value)
    else Lookup(key, es[..|es| - 1], k)
  }

  /** An optional field is what the entry found reads as. */
  ghost predicate Is<V>(field: Option<V>, read: Item -> Result<V>, found: Option<Item>) {
    match found
    case None => field == None
    case Some(v) => field.Some? && read(v) == Ok(field.value)
  }

  /** A field with a default. */
  ghost predicate IsOr<V>(field: V, default: V, read: Item -> Result<V>, found: Option<Item>) {
    match found
    case None => field == default
    case Some(v) => read(v) == Ok(field)
  }

  function Formats(t: Item): Result<seq<string>> { ArrayOf(AsFormat, t) }

  function Hashes(t: Item): Result<seq<seq<byte>>> { ArrayOf(AsBytes, t) }

  lemma LastEntry(es: seq<Entry>)
    requires es != []
    ensures es == es[..|es| - 1] + [es[|es| - 1]]
  {
  }

  /** Taking one more entry at the end. */
  lemma FoldPush<S>(take: (Entry, S) -> Result<S>, es: seq<Entry>, s: S)
    requires es != [] && Fold(take, es, s).Ok?
    ensures
      var before := Fold(take, es[..|es| - 1], s);
      before.Ok? && take(es[|es| - 1], before.value) == Fold(take, es, s)
  {
    LastEntry(es);
    FoldConcat(take, es[..|es| - 1], [es[|es| - 1]], s);
    if Fold(take, es[..|es| - 1], s).Ok? { FoldOne(take, es[|es| - 1], Fold(take, es[..|es| - 1], s).value); }
  }

  // ---- Items -----------------------------------------------------------------------------------

  ghost predicate RequestItemIs(x: RequestItem, es: seq<Entry>) { WantedIs(x, es) && RefinedIs(x, es) }

  ghost predicate WantedIs(x: RequestItem, es: seq<Entry>) {
    && IsOr(x.op, 0, AsU64, Lookup(UnsignedKey, es, 0)) && IsOr(x.uri, "", AsText, Lookup(UnsignedKey, es, 1))
    && Is(x.maxSize, AsU64, Lookup(UnsignedKey, es, 2)) && Is(x.acceptedFormats, Formats, Lookup(UnsignedKey, es, 3))
  }

  ghost predicate RefinedIs(x: RequestItem, es: seq<Entry>) {
    && Is(x.haveHashes, Hashes, Lookup(UnsignedKey, es, 4)) && Is(x.ifModifiedSince, AsU64, Lookup(UnsignedKey, es, 5))
    && Is(x.lifetimeOverride, AsU64, Lookup(UnsignedKey, es, 6))
  }

  lemma {:induction false} RequestItemIsLookup(es: seq<Entry>)
    requires Fold(TakeRequestItem, es, NO_REQUEST_ITEM).Ok?
    ensures RequestItemIs(Fold(TakeRequestItem, es, NO_REQUEST_ITEM).value, es)
  {
    if es != [] {
      FoldPush(TakeRequestItem, es, NO_REQUEST_ITEM);
      RequestItemIsLookup(es[..|es| - 1]);
      RequestItemStep(Fold(TakeRequestItem, es[..|es| - 1], NO_REQUEST_ITEM).value, es);
    }
  }

  lemma RequestItemStep(x: RequestItem, es: seq<Entry>)
    requires es != [] && RequestItemIs(x, es[..|es| - 1]) && TakeRequestItem(es[|es| - 1], x).Ok?
    ensures RequestItemIs(TakeRequestItem(es[|es| - 1], x).value, es)
  {
    hide TakeRequestItem, WantedIs, RefinedIs;
    WantedStep(x, es);
    RefinedStep(x, es);
  }

  lemma WantedStep(x: RequestItem, es: seq<Entry>)
    requires es != [] && WantedIs(x, es[..|es| - 1]) && TakeRequestItem(es[|es| - 1], x).Ok?
    ensures WantedIs(TakeRequestItem(es[|es| - 1], x).value, es)
  {
    hide ArrayOf, AsText, AsBytes, AsFormat, Skip;
  }

  lemma RefinedStep(x: RequestItem, es: seq<Entry>)
    requires es != [] && RefinedIs(x, es[..|es| - 1]) && TakeRequestItem(es[|es| - 1], x).Ok?
    ensures RefinedIs(TakeRequestItem(es[|es| - 1], x).value, es)
  {
    hide ArrayOf, AsText, AsBytes, AsFormat, Skip;
  }

  ghost predicate MetadataIs(x: ItemMetadata, es: seq<Entry>) {
    && IsOr(x.hash, [], AsBytes, Lookup(UnsignedKey, es, 0)) && Is(x.size, AsU64, Lookup(UnsignedKey, es, 1))
    && Is(x.mimeType, AsText, Lookup(UnsignedKey, es, 2)) && Is(x.uri, AsText, Lookup(UnsignedKey, es, 3))
    && Is(x.lastModified, AsU64, Lookup(UnsignedKey, es, 4))
  }

  lemma {:induction false} MetadataIsLookup(es: seq<Entry>)
    requires Fold(TakeMetadata, es, NO_METADATA).Ok?
    ensures MetadataIs(Fold(TakeMetadata, es, NO_METADATA).value, es)
  {
    if es != [] {
      FoldPush(TakeMetadata, es, NO_METADATA);
      MetadataIsLookup(es[..|es| - 1]);
      MetadataStep(Fold(TakeMetadata, es[..|es| - 1], NO_METADATA).value, es);
    }
  }

  lemma MetadataStep(x: ItemMetadata, es: seq<Entry>)
    requires es != [] && MetadataIs(x, es[..|es| - 1]) && TakeMetadata(es[|es| - 1], x).Ok?
    ensures MetadataIs(TakeMetadata(es[|es| - 1], x).value, es)
  {
    hide ArrayOf, AsText, AsBytes, AsFormat, Skip, Concat, Untagged;
  }

  ghost predicate ResponseIs(x: ItemResponse, es: seq<Entry>) {
    && IsOr(x.itemIdx, 0, AsU64, Lookup(UnsignedKey, es, 0)) && IsOr(x.coapStatus, 0, AsU8, Lookup(UnsignedKey, es, 1))
    && Is(x.metadata, MetadataOf, Lookup(UnsignedKey, es, 2)) && Is(x.diagnostic, AsText, Lookup(UnsignedKey, es, 3))
  }

  lemma {:induction false} ResponseIsLookup(es: seq<Entry>)
    requires Fold(TakeResponse, es, NO_RESPONSE).Ok?
    ensures ResponseIs(Fold(TakeResponse, es, NO_RESPONSE).value, es)
  {
    if es != [] {
      FoldPush(TakeResponse, es, NO_RESPONSE);
      ResponseIsLookup(es[..|es| - 1]);
      ResponseStep(Fold(TakeResponse, es[..|es| - 1], NO_RESPONSE).value, es);
    }
  }

  lemma ResponseStep(x: ItemResponse, es: seq<Entry>)
    requires es != [] && ResponseIs(x, es[..|es| - 1]) && TakeResponse(es[|es| - 1], x).Ok?
    ensures ResponseIs(TakeResponse(es[|es| - 1], x).value, es)
  {
    hide ArrayOf, AsText, AsBytes, AsFormat, Skip, MetadataOf;
  }

  // ---- Messages --------------------------------------------------------------------------------

  /** The elements of all arrays with key `k`, in order. */
  ghost function Elements(es: seq<Entry>, k: int): seq<Item> {
    if es == [] then []
    else
      var v := Untagged(es[|es| - 1].value);
      Elements(es[..|es| - 1], k) + if SignedKey(es[|es| - 1].key) == Ok(k) && v.Array? then v.items else []
  }

  ghost predicate RequestIs(x: RequestFields, es: seq<Entry>) {
    && Is(x.version, AsU64, Lookup(SignedKey, es, 0)) && Is(x.reqId, AsReqId, Lookup(SignedKey, es, 1))
    && Is(x.replyTo, AsText, Lookup(SignedKey, es, 2)) && Is(x.defaultLifetime, AsU64, Lookup(SignedKey, es, 3))
    && AllOf(RequestItemOf, Elements(es, 4)) == Ok(x.items)
  }

  lemma {:induction false} RequestIsLookup(es: seq<Entry>)
    requires Fold(TakeRequest, es, NO_REQUEST).Ok?
    ensures RequestIs(Fold(TakeRequest, es, NO_REQUEST).value, es)
  {
    if es != [] {
      FoldPush(TakeRequest, es, NO_REQUEST);
      RequestIsLookup(es[..|es| - 1]);
      RequestStep(Fold(TakeRequest, es[..|es| - 1], NO_REQUEST).value, es);
    }
  }

  lemma RequestStep(x: RequestFields, es: seq<Entry>)
    requires es != [] && RequestIs(x, es[..|es| - 1]) && TakeRequest(es[|es| - 1], x).Ok?
    ensures RequestIs(TakeRequest(es[|es| - 1], x).value, es)
  {
    hide AsText, AsReqId, Skip, AllOf, RequestItemOf;
    var v := Untagged(es[|es| - 1].value);
    var front := Elements(es[..|es| - 1], 4);
    if v.Array? { AllOfConcat(RequestItemOf, front, v.items); }
    assert front + [] == front;
  }

  ghost predicate ReplyIs(x: ReplyFields, es: seq<Entry>) {
    && Is(x.version, AsU64, Lookup(SignedKey, es, 0)) && Is(x.reqId, AsReqId, Lookup(SignedKey, es, 1))
    && AllOf(ResponseOf, Elements(es, 2)) == Ok(x.items)
  }

  lemma {:induction false} ReplyIsLookup(es: seq<Entry>)
    requires Fold(TakeReply, es, NO_REPLY).Ok?
    ensures ReplyIs(Fold(TakeReply, es, NO_REPLY).value, es)
  {
    if es != [] {
      FoldPush(TakeReply, es, NO_REPLY);
      ReplyIsLookup(es[..|es| - 1]);
      ReplyStep(Fold(TakeReply, es[..|es| - 1], NO_REPLY).value, es);
    }
  }

  lemma ReplyStep(x: ReplyFields, es: seq<Entry>)
    requires es != [] && ReplyIs(x, es[..|es| - 1]) && TakeReply(es[|es| - 1], x).Ok?
    ensures ReplyIs(TakeReply(es[|es| - 1], x).value, es)
  {
    hide AsText, AsReqId, Skip, AllOf, ResponseOf;
    var v := Untagged(es[|es| - 1].value);
    var front := Elements(es[..|es| - 1], 2);
    if v.Array? { AllOfConcat(ResponseOf, front, v.items); }
    assert front + [] == front;
  }

  /** A request that is read: its fields by key, whatever stands in front of the map. */
  lemma RequestByKeys(tags: seq<u64>, es: seq<Entry>, r: BasketRequest)
    requires RequestOf(WithTags(tags, Map(es))) == Ok(r)
    ensures RequestIs(RequestFields(Some(r.version), Some(r.reqId), r.replyTo, r.defaultLifetime, r.items), es)
    ensures r.experimentTag == if 44444 in tags then Some(44444) else None
  {
    TagsOfWithTags(tags, Map(es));
    RequestIsLookup(es);
  }

  /** ... and a response. */
  lemma ReplyByKeys(tags: seq<u64>, es: seq<Entry>, r: BasketResponse)
    requires ReplyOf(WithTags(tags, Map(es))) == Ok(r)
    ensures ReplyIs(ReplyFields(Some(r.version), Some(r.reqId), r.items), es)
    ensures r.experimentTag == if 44444 in tags then Some(44444) else None
  {
    TagsOfWithTags(tags, Map(es));
    ReplyIsLookup(es);
  }
}
