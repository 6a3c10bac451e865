/** src/basket.rs: the items of requests and responses. */
module BasketItems {
  import opened Basics
  import opened Cbor
  import opened BasketFields

  // ---- Request items -------------------------------------------------------------------------------

  datatype RequestItem = RequestItem(
    op: u64,
    uri: string,
    maxSize: Option<u64>,
    acceptedFormats: Option<seq<string>>,
    haveHashes: Option<seq<seq<byte>>>,
    ifModifiedSince: Option<u64>,
    lifetimeOverride: Option<u64>)

  const NO_REQUEST_ITEM := RequestItem(0, "", None, None, None, None, None)

  /** One turn of the loop of `RequestItem::from_cbor`. */
  function TakeRequestItem(e: Entry, s: RequestItem): Result<RequestItem> {
    var key :- AsU64(e.key);
    match key
    case 0 => var v :- AsU64(e.value); Ok(s.(op := v))
    case 1 => var v :- AsText(e.value); Ok(s.(uri := v))
    case 2 => var v :- AsU64(e.value); Ok(s.(maxSize := Some(v)))
    case 3 => var v :- ArrayOf(AsFormat, e.value); Ok(s.(acceptedFormats := Some(v)))
    case 4 => var v :- ArrayOf(AsBytes, e.value); Ok(s.(haveHashes := Some(v)))
    case 5 => var v :- AsU64(e.value); Ok(s.(ifModifiedSince := Some(v)))
    case 6 => var v :- AsU64(e.value); Ok(s.(lifetimeOverride := Some(v)))
    case _ => var _ :- Skip(e.value, SKIP_DEPTH); Ok(s)
  }

  function RequestItemOf(t: Item): Result<RequestItem> { MapOf(TakeRequestItem, t, NO_REQUEST_ITEM) }

  function RequestItemEntries(x: RequestItem): seq<Entry> {
    [Entry(U(0), U(x.op)), Entry(U(1), T(x.uri))] + Opt(2, x.maxSize, U) + OptArray(3, x.acceptedFormats, T)
    + OptArray(4, x.haveHashes, B) + Opt(5, x.ifModifiedSince, U) + Opt(6, x.lifetimeOverride, U)
  }

  function RequestItemTree(x: RequestItem): Item { Map(RequestItemEntries(x)) }

  /** The count `RequestItem::to_cbor` announces. */
  method CountRequestItem(x: RequestItem) returns (count: nat)
    ensures count == |RequestItemEntries(x)|
  {
    count := 2;
    if x.maxSize.Some? { count := count + 1; }
    if x.acceptedFormats.Some? { count := count + 1; }
    if x.haveHashes.Some? { count := count + 1; }
    if x.ifModifiedSince.Some? { count := count + 1; }
    if x.lifetimeOverride.Some? { count := count + 1; }
  }

  /** `RequestItem::to_cbor`: the head announces exactly the entries that follow. */
  method EmitRequestItem(x: RequestItem, encoder: seq<Token>) returns (out: seq<Token>)
    ensures out == encoder + Flat(RequestItemTree(x))
  {
    var count := CountRequestItem(x);
    ghost var a := [Entry(U(0), U(x.op)), Entry(U(1), T(x.uri))];
    ghost var b := a + Opt(2, x.maxSize, U);
    ghost var c := b + OptArray(3, x.acceptedFormats, T);
    ghost var d := c + OptArray(4, x.haveHashes, B);
    ghost var e := d + Opt(5, x.ifModifiedSince, U);
    out := EmitTwo(encoder + [MapHead(count)], U(0), U(x.op), U(1), T(x.uri), encoder, count);
    out := EmitOpt(out, 2, x.maxSize, U, encoder, count, a);
    out := EmitOptArray(out, 3, x.acceptedFormats, T, encoder, count, b);
    out := EmitOptArray(out, 4, x.haveHashes, B, encoder, count, c);
    out := EmitOpt(out, 5, x.ifModifiedSince, U, encoder, count, d);
    out := EmitOpt(out, 6, x.lifetimeOverride, U, encoder, count, e);
    OpenedAll(encoder, RequestItemEntries(x));
  }

  /** `RequestItem::from_cbor` */
  method RequestItemFromCbor(t: Item) returns (r: Result<RequestItem>)
    ensures r == RequestItemOf(t)
  {
    r := ReadMap(TakeRequestItem, t, NO_REQUEST_ITEM);
  }

  lemma RequestItemTakesArrays(x: RequestItem, s: RequestItem)
    ensures x.acceptedFormats.Some? ==>
      TakeRequestItem(OptArray(3, x.acceptedFormats, T)[0], s) == Ok(s.(acceptedFormats := x.acceptedFormats))
    ensures x.haveHashes.Some? ==>
      TakeRequestItem(OptArray(4, x.haveHashes, B)[0], s) == Ok(s.(haveHashes := x.haveHashes))
  {
    if x.acceptedFormats.Some? { TextsRead(x.acceptedFormats.value); }
    if x.haveHashes.Some? { BytesRead(x.haveHashes.value); }
  }

  /** Round trip of a request item. */
  lemma RequestItemRoundTrip(x: RequestItem)
    ensures RequestItemOf(RequestItemTree(x)) == Ok(x)
  {
    var two := [Entry(U(0), U(x.op)), Entry(U(1), T(x.uri))];
    var s2 := NO_REQUEST_ITEM.(op := x.op, uri := x.uri);
    var s3, s4 := s2.(maxSize := x.maxSize), s2.(maxSize := x.maxSize, acceptedFormats := x.acceptedFormats);
    var s5 := s4.(haveHashes := x.haveHashes);
    var s6 := s5.(ifModifiedSince := x.ifModifiedSince);
    var c := two + Opt(2, x.maxSize, U);
    var d := c + OptArray(3, x.acceptedFormats, T);
    var e := d + OptArray(4, x.haveHashes, B);
    var f := e + Opt(5, x.ifModifiedSince, U);
    TwoFields(two[0], two[1], TakeRequestItem, NO_REQUEST_ITEM, NO_REQUEST_ITEM.(op := x.op), s2);
    FoldField(TakeRequestItem, two, NO_REQUEST_ITEM, s2, Opt(2, x.maxSize, U), s3);
    RequestItemTakesArrays(x, s3);
    FoldField(TakeRequestItem, c, NO_REQUEST_ITEM, s3, OptArray(3, x.acceptedFormats, T), s4);
    RequestItemTakesArrays(x, s4);
    FoldField(TakeRequestItem, d, NO_REQUEST_ITEM, s4, OptArray(4, x.haveHashes, B), s5);
    FoldField(TakeRequestItem, e, NO_REQUEST_ITEM, s5, Opt(5, x.ifModifiedSince, U), s6);
    FoldField(TakeRequestItem, f, NO_REQUEST_ITEM, s6, Opt(6, x.lifetimeOverride, U), x);
  }

  /** Keys from 7 on are unknown. */
  lemma RequestItemSkips(key: u64, value: Item)
    requires 7 <= key
    ensures Skips(TakeRequestItem, Entry(U(key), value))
  {
  }

  /** An unknown entry anywhere in a request item changes nothing. */
  lemma RequestItemIgnoresUnknown(a: seq<Entry>, key: u64, value: Item, b: seq<Entry>)
    requires 7 <= key && Skippable(value, SKIP_DEPTH)
    ensures RequestItemOf(Map(a + [Entry(U(key), value)] + b)) == RequestItemOf(Map(a + b))
  {
    RequestItemSkips(key, value);
    SkippedAnywhere(TakeRequestItem, a, Entry(U(key), value), b, NO_REQUEST_ITEM);
  }

  // ---- Item metadata -------------------------------------------------------------------------------

  datatype ItemMetadata = ItemMetadata(
    hash: seq<byte>,
    size: Option<u64>,
    mimeType: Option<string>,
    uri: Option<string>,
    lastModified: Option<u64>)

  const NO_METADATA := ItemMetadata([], None, None, None, None)

  /** One turn of the loop of `ItemMetadata::from_cbor`. */
  function TakeMetadata(e: Entry, s: ItemMetadata): Result<ItemMetadata> {
    var key :- AsU64(e.key);
    match key
    case 0 => var v :- AsBytes(e.value); Ok(s.(hash := v))
    case 1 => var v :- AsU64(e.value); Ok(s.(size := Some(v)))
    case 2 => var v :- AsText(e.value); Ok(s.(mimeType := Some(v)))
    case 3 => var v :- AsText(e.value); Ok(s.(uri := Some(v)))
    case 4 => var v :- AsU64(e.value); Ok(s.(lastModified := Some(v)))
    case _ => var _ :- Skip(e.value, SKIP_DEPTH); Ok(s)
  }

  function MetadataOf(t: Item): Result<ItemMetadata> { MapOf(TakeMetadata, t, NO_METADATA) }

  function MetadataEntries(x: ItemMetadata): seq<Entry> {
    [Entry(U(0), B(x.hash))] + Opt(1, x.size, U) + Opt(2, x.mimeType, T) + Opt(3, x.uri, T) + Opt(4, x.lastModified, U)
  }

  function MetadataTree(x: ItemMetadata): Item { Map(MetadataEntries(x)) }

  /** The count `ItemMetadata::to_cbor` announces. */
  method CountMetadata(x: ItemMetadata) returns (count: nat)
    ensures count == |MetadataEntries(x)|
  {
    count := 1;
    if x.size.Some? { count := count + 1; }
    if x.mimeType.Some? { count := count + 1; }
    if x.uri.Some? { count := count + 1; }
    if x.lastModified.Some? { count := count + 1; }
  }

  /** `ItemMetadata::to_cbor` */
  method EmitMetadata(x: ItemMetadata, encoder: seq<Token>) returns (out: seq<Token>)
    ensures out == encoder + Flat(MetadataTree(x))
  {
    var count := CountMetadata(x);
    ghost var a := [Entry(U(0), B(x.hash))];
    ghost var b := a + Opt(1, x.size, U);
    ghost var c := b + Opt(2, x.mimeType, T);
    ghost var d := c + Opt(3, x.uri, T);
    OpenedNone(encoder, count);
    assert [] + a == a;
    out := Emit(encoder + [MapHead(count)], U(0), B(x.hash), encoder, count, []);
    out := EmitOpt(out, 1, x.size, U, encoder, count, a);
    out := EmitOpt(out, 2, x.mimeType, T, encoder, count, b);
    out := EmitOpt(out, 3, x.uri, T, encoder, count, c);
    out := EmitOpt(out, 4, x.lastModified, U, encoder, count, d);
    OpenedAll(encoder, MetadataEntries(x));
  }

  /** `ItemMetadata::from_cbor` */
  method MetadataFromCbor(t: Item) returns (r: Result<ItemMetadata>)
    ensures r == MetadataOf(t)
  {
    r := ReadMap(TakeMetadata, t, NO_METADATA);
  }

  /** Round trip of metadata. */
  lemma MetadataRoundTrip(x: ItemMetadata)
    ensures MetadataOf(MetadataTree(x)) == Ok(x)
  {
    var a := [Entry(U(0), B(x.hash))];
    var b := a + Opt(1, x.size, U);
    var c := b + Opt(2, x.mimeType, T);
    var d := c + Opt(3, x.uri, T);
    var s1 := NO_METADATA.(hash := x.hash);
    var s2 := s1.(size := x.size);
    var s3 := s2.(mimeType := x.mimeType);
    var s4 := s3.(uri := x.uri);
    FoldOne(TakeMetadata, a[0], NO_METADATA);
    FoldField(TakeMetadata, a, NO_METADATA, s1, Opt(1, x.size, U), s2);
    FoldField(TakeMetadata, b, NO_METADATA, s2, Opt(2, x.mimeType, T), s3);
    FoldField(TakeMetadata, c, NO_METADATA, s3, Opt(3, x.uri, T), s4);
    FoldField(TakeMetadata, d, NO_METADATA, s4, Opt(4, x.lastModified, U), x);
  }

  /** Keys from 5 on are unknown. */
  lemma MetadataSkips(key: u64, value: Item)
    requires 5 <= key
    ensures Skips(TakeMetadata, Entry(U(key), value))
  {
  }

  /** An unknown entry anywhere in a metadata map changes nothing. */
  lemma MetadataIgnoresUnknown(a: seq<Entry>, key: u64, value: Item, b: seq<Entry>)
    requires 5 <= key && Skippable(value, SKIP_DEPTH)
    ensures MetadataOf(Map(a + [Entry(U(key), value)] + b)) == MetadataOf(Map(a + b))
  {
    MetadataSkips(key, value);
    SkippedAnywhere(TakeMetadata, a, Entry(U(key), value), b, NO_METADATA);
  }

  // ---- Item responses ------------------------------------------------------------------------------

  datatype ItemResponse = ItemResponse(itemIdx: u64, coapStatus: byte, metadata: Option<ItemMetadata>, diagnostic: Option<string>)

  const NO_RESPONSE := ItemResponse(0, 0, None, None)

  /** `u8::try_from` */
  function AsU8(t: Item): Result<byte> {
    var v :- AsU64(t);
    if v < 0x100 then Ok(v) else Err(OutOfRange)
  }

  /** One turn of the loop of `ItemResponse::from_cbor`. */
  function TakeResponse(e: Entry, s: ItemResponse): Result<ItemResponse> {
    var key :- AsU64(e.key);
    match key
    case 0 => var v :- AsU64(e.value); Ok(s.(itemIdx := v))
    case 1 => var v :- AsU8(e.value); Ok(s.(coapStatus := v))
    case 2 => var v :- MetadataOf(e.value); Ok(s.(metadata := Some(v)))
    case 3 => var v :- AsText(e.value); Ok(s.(diagnostic := Some(v)))
    case _ => var _ :- Skip(e.value, SKIP_DEPTH); Ok(s)
  }

  function ResponseOf(t: Item): Result<ItemResponse> { MapOf(TakeResponse, t, NO_RESPONSE) }

  function ResponseEntries(x: ItemResponse): seq<Entry> {
    [Entry(U(0), U(x.itemIdx)), Entry(U(1), U(x.coapStatus))] + Opt(2, x.metadata, MetadataTree) + Opt(3, x.diagnostic, T)
  }

  function ResponseTree(x: ItemResponse): Item { Map(ResponseEntries(x)) }

  method EmitOptMetadata(encoder: seq<Token>, value: Option<ItemMetadata>,
                         ghost base: seq<Token>, ghost count: nat, ghost done: seq<Entry>)
    returns (out: seq<Token>)
    requires encoder == Opened(base, count, done)
    ensures out == Opened(base, count, done + Opt(2, value, MetadataTree))
  {
    if value.Some? {
      OpenedOne(base, count, done, Entry(U(2), MetadataTree(value.value)));
      out := EmitMetadata(value.value, encoder + [Scalar(Uint(2))]);
    } else {
      assert done + [] == done;
      out := encoder;
    }
  }

  /** `ItemResponse::to_cbor` */
  method EmitResponse(x: ItemResponse, encoder: seq<Token>) returns (out: seq<Token>)
    ensures out == encoder + Flat(ResponseTree(x))
  {
    var count := 2;
    if x.metadata.Some? { count := count + 1; }
    if x.diagnostic.Some? { count := count + 1; }
    assert count == |ResponseEntries(x)|;
    ghost var a := [Entry(U(0), U(x.itemIdx)), Entry(U(1), U(x.coapStatus))];
    ghost var b := a + Opt(2, x.metadata, MetadataTree);
    out := EmitTwo(encoder + [MapHead(count)], U(0), U(x.itemIdx), U(1), U(x.coapStatus), encoder, count);
    out := EmitOptMetadata(out, x.metadata, encoder, count, a);
    out := EmitOpt(out, 3, x.diagnostic, T, encoder, count, b);
    OpenedAll(encoder, ResponseEntries(x));
  }

  /** `ItemResponse::from_cbor` */
  method ResponseFromCbor(t: Item) returns (r: Result<ItemResponse>)
    ensures r == ResponseOf(t)
  {
    r := ReadMap(TakeResponse, t, NO_RESPONSE);
  }

  /** Round trip of an item response. */
  lemma ResponseRoundTrip(x: ItemResponse)
    ensures ResponseOf(ResponseTree(x)) == Ok(x)
  {
    var a := [Entry(U(0), U(x.itemIdx)), Entry(U(1), U(x.coapStatus))];
    var b := a + Opt(2, x.metadata, MetadataTree);
    var s1 := NO_RESPONSE.(itemIdx := x.itemIdx);
    var s2 := s1.(coapStatus := x.coapStatus);
    var s3 := s2.(metadata := x.metadata);
    TwoFields(a[0], a[1], TakeResponse, NO_RESPONSE, s1, s2);
    if x.metadata.Some? { MetadataRoundTrip(x.metadata.value); }
    FoldField(TakeResponse, a, NO_RESPONSE, s2, Opt(2, x.metadata, MetadataTree), s3);
    FoldField(TakeResponse, b, NO_RESPONSE, s3, Opt(3, x.diagnostic, T), x);
  }

  /** Keys from 4 on are unknown. */
  lemma ResponseSkips(key: u64, value: Item)
    requires 4 <= key
    ensures Skips(TakeResponse, Entry(U(key), value))
  {
  }

  /** An unknown entry anywhere in an item response changes nothing. */
  lemma ResponseIgnoresUnknown(a: seq<Entry>, key: u64, value: Item, b: seq<Entry>)
    requires 4 <= key && Skippable(value, SKIP_DEPTH)
    ensures ResponseOf(Map(a + [Entry(U(key), value)] + b)) == ResponseOf(Map(a + b))
  {
    ResponseSkips(key, value);
    SkippedAnywhere(TakeResponse, a, Entry(U(key), value), b, NO_RESPONSE);
  }
}
