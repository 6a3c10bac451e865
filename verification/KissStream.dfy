/** ltp-cla/src/driver.rs: the KISS accumulator of the TCP read loop. */
module KissStream {
  import opened Basics
  import opened Kiss
  import opened FendStream
  import opened KissFrames

  const MAX_KISS_ACCUMULATOR := 2 * 1024 * 1024

  /** The payloads handed to the engine: those of data frames. */
  function DataPayloads(frames: seq<Frame>): seq<seq<byte>> {
    if frames == [] then []
    else (if frames[0].command == Data then [frames[0].payload] else []) + DataPayloads(frames[1..])
  }

  lemma {:induction false} DataPayloadsOfConcat(a: seq<Frame>, b: seq<Frame>)
    ensures DataPayloads(a + b) == DataPayloads(a) + DataPayloads(b)
  {
    if a == [] {
      assert a + b == b;
    } else {
      assert (a + b)[1..] == a[1..] + b;
      DataPayloadsOfConcat(a[1..], b);
    }
  }

  function Flatten(chunks: seq<seq<byte>>): seq<byte> {
    if chunks == [] then [] else chunks[0] + Flatten(chunks[1..])
  }

  /** The accumulator `acc` stands for the stream read so far: no frame is left in it, only its tail counts. */
  ghost predicate StandsFor(acc: seq<byte>, stream: seq<byte>) {
    KissFramesOf(acc) == [] && Tail(acc) == Tail(stream) && |acc| <= |stream|
  }

  lemma ReadOn(acc: seq<byte>, stream: seq<byte>, more: seq<byte>)
    requires StandsFor(acc, stream)
    ensures KissFramesOf(stream + more) == KissFramesOf(stream) + KissFramesOf(acc + more)
    ensures Tail(acc + more) == Tail(stream + more)
  {
    hide Frames, Tail;
    FramesOfConcat(ReadPiece, stream, more);
    FramesOfConcat(ReadPiece, acc, more);
    assert [] + KissFramesOf(acc + more) == KissFramesOf(acc + more);
    TailOfConcat(stream, more);
    TailOfConcat(acc, more);
  }

  class KissReader {
    var acc: seq<byte>
    /** Everything read since the accumulator was last dropped, and what was handed on from it. */
    ghost var stream: seq<byte>
    ghost var delivered: seq<seq<byte>>

    /** What was handed on is what one reading of the whole stream gives. */
    ghost predicate Valid()
      reads this
    {
      StandsFor(acc, stream) && delivered == DataPayloads(KissFramesOf(stream))
    }

    constructor ()
      ensures Valid() && acc == [] && stream == [] && delivered == []
    {
      acc, stream, delivered := [], [], [];
    }

    /** One successful `read` of the socket. `dropped` tells that the cap made it forget the past. */
    method Read(chunk: seq<byte>) returns (payloads: seq<seq<byte>>, dropped: bool)
      requires Valid()
      modifies this
      ensures Valid()
      ensures dropped <==> |old(acc)| + |chunk| > 2_097_152
      ensures stream == (if dropped then [] else old(stream)) + chunk
      ensures delivered == (if dropped then [] else old(delivered)) + payloads
      ensures acc == Unread((if dropped then [] else old(acc)) + chunk)
      ensures |acc| <= Max(MAX_KISS_ACCUMULATOR, |chunk|)
    {
      dropped := |acc| + |chunk| > MAX_KISS_ACCUMULATOR;
      if dropped {
        acc, stream, delivered := [], [], [];
      }
      ReadOn(acc, stream, chunk);
      var frames;
      frames, acc := TakeFrames(acc + chunk);
      payloads := DataPayloads(frames);
      DataPayloadsOfConcat(KissFramesOf(stream), frames);
      stream, delivered := stream + chunk, delivered + payloads;
    }

    /** Reads a list of chunks one after the other. */
    method ReadAll(chunks: seq<seq<byte>>) returns (payloads: seq<seq<byte>>, dropped: bool)
      requires Valid()
      modifies this
      ensures Valid()
      // However the bytes were cut into chunks, the payloads are those of the whole stream.
      ensures !dropped ==> stream == old(stream) + Flatten(chunks) && old(delivered) + payloads == DataPayloads(KissFramesOf(stream))
      // Up to the cap nothing is ever dropped.
      ensures |old(stream)| + |Flatten(chunks)| <= MAX_KISS_ACCUMULATOR ==> !dropped
    {
      hide KissFramesOf, DataPayloads, Tail;
      payloads, dropped := [], false;
      var rest := chunks;
      ghost var whole := stream + Flatten(chunks);
      while rest != []
        invariant Valid()
        invariant !dropped ==> stream + Flatten(rest) == whole && delivered == old(delivered) + payloads
        invariant |whole| <= MAX_KISS_ACCUMULATOR ==> !dropped
        decreases |rest|
      {
        FlattenStep(stream, rest);
        var more, cut := Read(rest[0]);
        payloads, dropped := payloads + more, dropped || cut;
        rest := rest[1..];
      }
    }
  }

  // ---- From the sender to the engine -------------------------------------------------------------------

  /** The payloads sent as data: those with command code 0. */
  ghost function SentData(items: seq<WireItem>): seq<seq<byte>> {
    if items == [] then []
    else
      (match items[0]
       case Sent(_, command, payload) => if ToCode(command) % 16 == 0 then [payload] else []
       case Noise(_) => []) + SentData(items[1..])
  }

  ghost predicate QuietNoise(items: seq<WireItem>) {
    forall i :: 0 <= i < |items| && items[i].Noise? ==> Quiet(items[i].bytes)
  }

  lemma {:induction false} SentFramesCarryData(items: seq<WireItem>)
    ensures DataPayloads(SentFrames(items)) == SentData(items)
  {
    if items != [] {
      SentFramesCarryData(items[1..]);
      if items[0].Sent? {
        var f := Received(items[0].port, items[0].command, items[0].payload);
        DataPayloadsOfConcat([f], SentFrames(items[1..]));
        assert [f][1..] == [];
        DataHasCodeZero(items[0].command);
      } else {
        assert [] + SentFrames(items[1..]) == SentFrames(items[1..]);
      }
    }
  }

  lemma DataHasCodeZero(c: Command)
    ensures FromCode(ToCode(c)) == Data <==> ToCode(c) % 16 == 0
  {
  }

  lemma {:induction false} WireEndsClean(items: seq<WireItem>)
    ensures Tail(Wire(items)) == []
  {
    if items != [] {
      WireEndsClean(items[1..]);
      hide OnWire, Tail;
      ItemEndsClean(items[0]);
      TailOfConcat(OnWire(items[0]), Wire(items[1..]));
      assert [] + Wire(items[1..]) == Wire(items[1..]);
    }
  }

  lemma ItemEndsClean(item: WireItem)
    ensures Tail(OnWire(item)) == []
  {
    var body := match item
      case Sent(port, command, payload) => [FEND] + Escaped([CommandByte(port, command)] + payload)
      case Noise(bytes) => bytes;
    assert OnWire(item) == body + [FEND];
    TailAfterFend(body);
  }

  /** What is handed on of a whole wire, whatever unfinished frame follows. */
  lemma PayloadsOfWire(items: seq<WireItem>, tail: seq<byte>)
    requires QuietNoise(items) && 0xC0 !in tail
    ensures DataPayloads(KissFramesOf(Wire(items) + tail)) == SentData(items)
  {
    hide Quiet, QuietNoise, Wire, SentFrames, Tail, Frames, DataPayloads, SentData;
    QuietIsHarmless(items);
    NoiseIsSkipped(items);
    SentFramesCarryData(items);
    WireEndsClean(items);
    FramesOfConcat(ReadPiece, Wire(items), tail);
    assert [] + tail == tail;
    NothingUnfinished(tail);
    assert SentFrames(items) + [] == SentFrames(items);
  }

  lemma QuietIsHarmless(items: seq<WireItem>)
    requires QuietNoise(items)
    ensures Harmless(items)
  {
    hide Quiet, KissFramesOf;
    forall i | 0 <= i < |items| && items[i].Noise? ensures KissFramesOf(items[i].bytes + [FEND]) == [] {
      QuietIffNoFrame(items[i].bytes);
    }
  }

  lemma NothingUnfinished(tail: seq<byte>)
    requires 0xC0 !in tail
    ensures KissFramesOf(tail) == []
  {
    FirstOfFinds(tail, FEND, FEND);
  }

  /**
   * End to end: frames sent with any ports and commands, harmless noise between them, cut into any
   * chunks. What the engine gets is the payloads of the data frames, in order.
   */
  method ReceiveWire(chunks: seq<seq<byte>>, ghost items: seq<WireItem>, ghost tail: seq<byte>) returns (payloads: seq<seq<byte>>)
    requires Flatten(chunks) == Wire(items) + tail && QuietNoise(items) && 0xC0 !in tail
    requires |Wire(items) + tail| <= 2_097_152
    ensures payloads == SentData(items)
  {
    PayloadsOfWire(items, tail);
    hide DataPayloads, KissFramesOf, Quiet, QuietNoise, Tail, SentData;
    var reader := new KissReader();
    var dropped;
    assert [] + Flatten(chunks) == Flatten(chunks);
    payloads, dropped := reader.ReadAll(chunks);
    assert [] + payloads == payloads;
  }

  /** The octets of three short frames: data, a transmit delay, and data with an escaped byte on port 1. */
  lemma ShortFrames()
    ensures Wire([Sent(0, Data, [0x41])]) == [0xC0, 0x00, 0x41, 0xC0]
    ensures Wire([Sent(0, TxDelay, [0x32])]) == [0xC0, 0x01, 0x32, 0xC0]
    ensures Wire([Sent(1, Data, [0xC0])]) == [0xC0, 0x10, 0xDB, 0xDC, 0xC0]
  {
    ShortFrame(0, Data, 0x41);
    ShortFrame(0, TxDelay, 0x32);
    ShortFrame(1, Data, 0xC0);
  }

  lemma ShortFrame(port: byte, command: Command, b: byte)
    ensures Wire([Sent(port, command, [b])]) == [0xC0] + EscapeOne(CommandByte(port, command)) + EscapeOne(b) + [0xC0]
  {
    EncodedParts(port, command, [b]);
    assert [b][1..] == [];
    assert [Sent(port, command, [b])][1..] == [];
  }

  lemma FlattenStep(stream: seq<byte>, rest: seq<seq<byte>>)
    requires rest != []
    ensures stream + Flatten(rest) == stream + rest[0] + Flatten(rest[1..])
  {
  }

  /** What stays in the accumulator: the bytes after the last frame, unreadable pieces included. */
  function Unread(s: seq<byte>): seq<byte>
    decreases |s|
  {
    match FirstFrame(ReadPiece, s)
    case None => s
    case Some((_, n)) => if 0 < n <= |s| then Unread(s[n..]) else s
  }

  /** The frames before `offset` have been taken. */
  ghost predicate Taken(buffer: seq<byte>, frames: seq<Frame>, offset: nat)
    requires offset <= |buffer|
  {
    && KissFramesOf(buffer) == frames + KissFramesOf(buffer[offset..]) && Tail(buffer) == Tail(buffer[offset..])
    && Unread(buffer) == Unread(buffer[offset..])
  }

  lemma TakeNone(buffer: seq<byte>)
    ensures Taken(buffer, [], 0)
  {
    assert buffer[0..] == buffer;
  }

  lemma TakeOne(buffer: seq<byte>, frames: seq<Frame>, offset: nat, f: Frame, n: nat)
    requires offset <= |buffer| && Taken(buffer, frames, offset) && FirstFrame(ReadPiece, buffer[offset..]) == Some((f, n))
    ensures 0 < n && offset + n <= |buffer| && Taken(buffer, frames + [f], offset + n)
  {
    FirstFrameIsHead(ReadPiece, buffer[offset..]);
    SliceOfSlice(buffer, offset, n);
  }

  lemma TakeAll(buffer: seq<byte>, frames: seq<Frame>, offset: nat)
    requires offset <= |buffer| && Taken(buffer, frames, offset) && FirstFrame(ReadPiece, buffer[offset..]) == None
    ensures frames == KissFramesOf(buffer) && StandsFor(buffer[offset..], buffer) && buffer[offset..] == Unread(buffer)
  {
    FirstFrameIsHead(ReadPiece, buffer[offset..]);
  }

  /** Extracts every complete frame with a moving offset and keeps what follows the last one. */
  method TakeFrames(buffer: seq<byte>) returns (frames: seq<Frame>, rest: seq<byte>)
    ensures frames == KissFramesOf(buffer) && StandsFor(rest, buffer) && rest == Unread(buffer)
  {
    hide Taken, StandsFor, KissFramesOf;
    frames := [];
    var offset := 0;
    TakeNone(buffer);
    while true
      invariant offset <= |buffer| && Taken(buffer, frames, offset)
      decreases |buffer| - offset
    {
      var next := DecodeFrame(buffer[offset..]);
      if next.None? {
        TakeAll(buffer, frames, offset);
        break;
      }
      var (frame, consumed) := next.value;
      TakeOne(buffer, frames, offset, frame, consumed);
      frames := frames + [frame];
      offset := offset + consumed;
    }
    rest := buffer[offset..];
  }
}
