/** ltp/src/kiss.rs: frames on the wire, and `decode_frame` against the plain cut-at-FEND reading. */
module KissFrames {
  import opened Basics
  import opened Kiss
  import opened FendStream

  /** A piece is a frame when it is not empty and unescapes; its first octet is port and command. */
  function ReadPiece(piece: seq<byte>): Option<Frame> {
    match Unescape(piece)
    case Plain(bytes) =>
      if bytes == [] then None else Some(Frame(bytes[0] / 16, FromCode(bytes[0] % 16), bytes[1..]))
    case Bad(_) => None
  }

  /** All frames of a stream. */
  function KissFramesOf(s: seq<byte>): seq<Frame> { Frames(ReadPiece, s) }

  // ---- Encoding ------------------------------------------------------------------------------------

  /** `((port & 0x0F) << 4) | (u8::from(command) & 0x0F)` */
  function CommandByte(port: byte, command: Command): byte { (port % 16) * 16 + ToCode(command) % 16 }

  function Encoded(port: byte, command: Command, payload: seq<byte>): seq<byte> {
    [FEND] + Escaped([CommandByte(port, command)] + payload) + [FEND]
  }

  /** What an encoded frame reads back as: port and command code modulo 16. */
  function Received(port: byte, command: Command, payload: seq<byte>): Frame {
    Frame(port % 16, FromCode(ToCode(command)), payload)
  }

  lemma EncodedParts(port: byte, command: Command, payload: seq<byte>)
    ensures Encoded(port, command, payload) ==
      [FEND] + EscapeOne(CommandByte(port, command)) + Escaped(payload) + [FEND]
  {
    assert ([CommandByte(port, command)] + payload)[1..] == payload;
  }

  /** `encode_frame` */
  method EncodeFrame(port: byte, command: Command, payload: seq<byte>, sofar: seq<byte>) returns (out: seq<byte>)
    ensures out == sofar + Encoded(port, command, payload)
  {
    var cmdByte := CommandByte(port, command);
    out := sofar + [FEND];
    if cmdByte == FEND {
      out := out + [FESC, TFEND];
    } else if cmdByte == FESC {
      out := out + [FESC, TFESC];
    } else {
      out := out + [cmdByte];
    }
    out := Escape(payload, out);
    out := out + [FEND];
    EncodedParts(port, command, payload);
  }

  lemma CommandByteParts(port: byte, command: Command)
    ensures CommandByte(port, command) / 16 == port % 16
    ensures FromCode(CommandByte(port, command) % 16) == FromCode(ToCode(command))
  {
    assert ToCode(command) < 16;
  }

  lemma ReadEncodedPiece(port: byte, command: Command, payload: seq<byte>)
    ensures ReadPiece(Escaped([CommandByte(port, command)] + payload)) == Some(Received(port, command, payload))
  {
    var bytes := [CommandByte(port, command)] + payload;
    UnescapeEscaped(bytes);
    CommandByteParts(port, command);
    assert bytes[0] == CommandByte(port, command) && bytes[1..] == payload;
  }

  /** One encoded frame on the wire yields exactly that frame. */
  lemma FramesOfEncoded(port: byte, command: Command, payload: seq<byte>, rest: seq<byte>)
    ensures KissFramesOf(Encoded(port, command, payload) + rest) == [Received(port, command, payload)] + KissFramesOf(rest)
  {
    var body := Escaped([CommandByte(port, command)] + payload);
    EscapedHasNoFend([CommandByte(port, command)] + payload);
    ReadEncodedPiece(port, command, payload);
    assert Encoded(port, command, payload) + rest == [] + [FEND] + (body + [FEND] + rest);
    FramesOfPiece(ReadPiece, [], body + [FEND] + rest);
    FramesOfPiece(ReadPiece, body, rest);
  }

  // ---- A noisy wire --------------------------------------------------------------------------------

  datatype WireItem =
    | Sent(port: byte, command: Command, payload: seq<byte>)
    | Noise(bytes: seq<byte>)

  function Wire(items: seq<WireItem>): seq<byte> {
    if items == [] then [] else OnWire(items[0]) + Wire(items[1..])
  }

  function OnWire(item: WireItem): seq<byte> {
    match item
    case Sent(port, command, payload) => Encoded(port, command, payload)
    case Noise(bytes) => bytes + [FEND]
  }

  /** No piece of the noise, once cut off by a FEND, unescapes to a frame. */
  predicate Harmless(items: seq<WireItem>) {
    forall i :: 0 <= i < |items| && items[i].Noise? ==> KissFramesOf(items[i].bytes + [FEND]) == []
  }

  function SentFrames(items: seq<WireItem>): seq<Frame> {
    if items == [] then []
    else
      (match items[0]
       case Sent(port, command, payload) => [Received(port, command, payload)]
       case Noise(_) => []) + SentFrames(items[1..])
  }

  /** Whatever badly escaped pieces lie between them, exactly the frames sent are read, in order. */
  lemma {:induction false} NoiseIsSkipped(items: seq<WireItem>)
    requires Harmless(items)
    ensures KissFramesOf(Wire(items)) == SentFrames(items)
  {
    if items != [] {
      var rest := items[1..];
      assert forall i :: 0 <= i < |rest| ==> rest[i] == items[i + 1];
      NoiseIsSkipped(rest);
      match items[0]
      case Sent(port, command, payload) =>
        FramesOfEncoded(port, command, payload, Wire(rest));
      case Noise(bytes) =>
        TailAfterFend(bytes);
        FramesOfConcat(ReadPiece, bytes + [FEND], Wire(rest));
        assert [] + Wire(rest) == Wire(rest);
    }
  }

  /** From `i` to `j` nothing is delimited, and either end is that of the noise or of a piece. */
  ghost predicate PieceAt(s: seq<byte>, i: int, j: int) {
    && 0 <= i <= j <= |s| && 0xC0 !in s[i..j]
    && (i == 0 || s[i - 1] == 0xC0) && (j == |s| || s[j] == 0xC0)
  }

  /** Every piece between two delimiters is empty or has a broken escape. */
  ghost predicate Quiet(s: seq<byte>) {
    forall i, j :: PieceAt(s, i, j) ==> i == j || exists k :: BrokenAt(s[i..j], k)
  }

  lemma QuietPiece(piece: seq<byte>)
    ensures ReadPiece(piece).None? <==> piece == [] || exists k :: BrokenAt(piece, k)
  {
    BadIffBroken(piece);
    if piece != [] && Unescape(piece).Plain? { PlainIsNotEmpty(piece); }
  }

  lemma PlainIsNotEmpty(s: seq<byte>)
    requires s != [] && Unescape(s).Plain?
    ensures Unescape(s).bytes != []
  {
  }

  lemma CutOfCut(s: seq<byte>, a: nat, i: nat, j: nat)
    requires a <= i <= j <= |s|
    ensures s[a..][i - a..j - a] == s[i..j]
  {
  }

  /** The first piece and the ones after its delimiter. */
  lemma PiecesAfter(s: seq<byte>, k: nat, i: int, j: int)
    requires k == NextFend(s)
    ensures PieceAt(s, 0, k)
    ensures PieceAt(s, i, j) && i <= k ==> i == 0 && j == k
    ensures k < |s| && i > k ==> (PieceAt(s, i, j) <==> PieceAt(s[k + 1..], i - k - 1, j - k - 1))
  {
    FirstOfFinds(s, FEND, FEND);
    if k < |s| && i > k && k < j <= |s| && i <= j { CutOfCut(s, k + 1, i, j); }
  }

  /** Exactly which noise is harmless. */
  lemma {:induction false} QuietIffNoFrame(s: seq<byte>)
    ensures KissFramesOf(s + [FEND]) == [] <==> Quiet(s)
    decreases |s|
  {
    var k := NextFend(s);
    PiecesAfter(s, k, 0, k);
    QuietPiece(s[..k]);
    assert s[0..k] == s[..k];
    if k == |s| {
      LastPiece(s);
      forall i, j | PieceAt(s, i, j) ensures i == 0 && j == k && s[i..j] == s[..k] { PiecesAfter(s, k, i, j); }
      assert s[..k] == s;
    } else {
      var rest := s[k + 1..];
      assert s + [FEND] == s[..k] + [FEND] + (rest + [FEND]);
      FirstOfFinds(s, FEND, FEND);
      FramesOfPiece(ReadPiece, s[..k], rest + [FEND]);
      QuietIffNoFrame(rest);
      QuietStep(s, k);
    }
  }

  lemma LastPiece(s: seq<byte>)
    requires NextFend(s) == |s|
    ensures KissFramesOf(s + [FEND]) == PieceFrames(ReadPiece, s)
  {
    FirstOfFinds(s, FEND, FEND);
    assert s[..|s|] == s;
    FramesOfPiece(ReadPiece, s, []);
    assert s + [FEND] + [] == s + [FEND];
  }

  lemma QuietStep(s: seq<byte>, k: nat)
    requires k == NextFend(s) < |s|
    ensures Quiet(s) <==> (s[..k] == [] || exists b :: BrokenAt(s[..k], b)) && Quiet(s[k + 1..])
  {
    var rest := s[k + 1..];
    assert s[0..k] == s[..k];
    if Quiet(s) {
      PiecesAfter(s, k, 0, k);
      forall i, j | PieceAt(rest, i, j) ensures i == j || exists b :: BrokenAt(rest[i..j], b) {
        PiecesAfter(s, k, i + k + 1, j + k + 1);
        assert PieceAt(s, i + k + 1, j + k + 1);
        assert s[i + k + 1..j + k + 1] == rest[i..j];
      }
    }
    if (s[..k] == [] || exists b :: BrokenAt(s[..k], b)) && Quiet(rest) {
      forall i, j | PieceAt(s, i, j) ensures i == j || exists b :: BrokenAt(s[i..j], b) {
        PiecesAfter(s, k, i, j);
        if i > k {
          assert PieceAt(rest, i - k - 1, j - k - 1);
          assert s[i..j] == rest[i - k - 1..j - k - 1];
        }
      }
    }
  }

  // ---- decode_frame --------------------------------------------------------------------------------

  /** Reads one piece: the command octet first, escaped or not, then the payload. */
  method DecodePiece(piece: seq<byte>) returns (r: Option<Frame>)
    requires piece != []
    ensures r == ReadPiece(piece)
  {
    var cmdByte: byte;
    var payloadSlice;
    if piece[0] == FESC {
      if |piece| < 2 {
        return None;
      }
      if piece[1] == TFEND {
        cmdByte := FEND;
      } else if piece[1] == TFESC {
        cmdByte := FESC;
      } else {
        return None;
      }
      payloadSlice := piece[2..];
    } else {
      cmdByte, payloadSlice := piece[0], piece[1..];
    }
    var payload := UnescapeBytes(payloadSlice);
    if payload.Bad? {
      return None;
    }
    assert ([cmdByte] + payload.bytes)[1..] == payload.bytes;
    return Some(Frame(cmdByte / 16, FromCode(cmdByte % 16), payload.bytes));
  }

  /** The inner loop: leading FENDs only cut off empty pieces. */
  method SkipFends(buf: seq<byte>, base: nat) returns (next: nat)
    requires base <= |buf|
    ensures base <= next <= |buf| && FirstFrom(ReadPiece, buf, next) == FirstFrom(ReadPiece, buf, base)
    ensures next < |buf| ==> buf[next] != FEND
  {
    next := base;
    while next < |buf| && buf[next] == FEND
      invariant base <= next <= |buf| && FirstFrom(ReadPiece, buf, next) == FirstFrom(ReadPiece, buf, base)
    {
      EmptyPiece(buf, next);
      SkipPiece(ReadPiece, buf, next, 0);
      next := next + 1;
    }
  }

  lemma EmptyPiece(buf: seq<byte>, n: nat)
    requires n < |buf| && buf[n] == FEND
    ensures NextFend(buf[n..]) == 0 && ReadPiece(buf[n..][..0]).None?
  {
  }

  /**
   * `decode_frame`: the first piece that is a frame, with the bytes consumed up to and including its
   * FEND; None when there is none yet. Lemma FirstFrameIsHead relates this to the list of all frames.
   */
  method DecodeFrame(buf: seq<byte>) returns (r: Option<(Frame, nat)>)
    ensures r == FirstFrame(ReadPiece, buf)
  {
    var base := 0;
    assert buf[0..] == buf;
    while base < |buf|
      invariant base <= |buf| && FirstFrom(ReadPiece, buf, base) == FirstFrame(ReadPiece, buf)
    {
      var start := SkipFends(buf, base);
      if start >= |buf| {
        NoPieceLeft(ReadPiece, buf, start);
        return None;
      }
      var endOffset := NextFend(buf[start..]);
      if endOffset == |buf[start..]| {
        NoPieceLeft(ReadPiece, buf, start);
        return None;
      }
      var frame := DecodePiece(buf[start..][..endOffset]);
      if frame.Some? {
        PieceFound(ReadPiece, buf, start, endOffset);
        return Some((frame.value, start + endOffset + 1));
      }
      SkipPiece(ReadPiece, buf, start, endOffset);
      base := start + endOffset + 1;
    }
    NoPieceLeft(ReadPiece, buf, base);
    return None;
  }
}
