/** ltp/src/kiss.rs: KISS framing, byte escaping, and the decoder that resynchronises on noise. */
module Kiss {
  import opened Basics

  const FEND: byte := 0xC0
  const FESC: byte := 0xDB
  const TFEND: byte := 0xDC
  const TFESC: byte := 0xDD

  datatype UnescapeError = InvalidEscape(octet: byte) | TruncatedEscape

  datatype Unescaped = Plain(bytes: seq<byte>) | Bad(error: UnescapeError)

  datatype Command =
    | Data | TxDelay | Persistence | SlotTime | TxTail | FullDuplex | SetHardware | Return
    | Unknown(code: byte)

  datatype Frame = Frame(port: byte, command: Command, payload: seq<byte>)

  // ---- Commands --------------------------------------------------------------------------------

  /** `Command::from(u8)` */
  function FromCode(code: byte): Command {
    match code % 16
    case 0 => Data
    case 1 => TxDelay
    case 2 => Persistence
    case 3 => SlotTime
    case 4 => TxTail
    case 5 => FullDuplex
    case 6 => SetHardware
    case 15 => Return
    case other => Unknown(other)
  }

  /** `u8::from(Command)` */
  function ToCode(c: Command): byte {
    match c
    case Data => 0
    case TxDelay => 1
    case Persistence => 2
    case SlotTime => 3
    case TxTail => 4
    case FullDuplex => 5
    case SetHardware => 6
    case Return => 15
    case Unknown(code) => code % 16
  }

  /** A command survives the wire exactly when it is named, or unknown with a code of 7 to 14. */
  lemma CommandSurvives(c: Command)
    ensures FromCode(ToCode(c)) == c <==> (c.Unknown? ==> 7 <= c.code <= 14)
    ensures ToCode(FromCode(ToCode(c))) == ToCode(c)
  {
  }

  /** The command codes of the KISS protocol, both ways. */
  lemma CommandCodes()
    ensures [Data, TxDelay, Persistence, SlotTime, TxTail, FullDuplex, SetHardware, Return] ==
      [FromCode(0), FromCode(1), FromCode(2), FromCode(3), FromCode(4), FromCode(5), FromCode(6), FromCode(15)]
    ensures [ToCode(Data), ToCode(TxDelay), ToCode(Persistence), ToCode(SlotTime), ToCode(TxTail), ToCode(FullDuplex),
             ToCode(SetHardware), ToCode(Return)] == [0, 1, 2, 3, 4, 5, 6, 15]
  {
  }

  // ---- Escaping ----------------------------------------------------------------------------------

  function EscapeOne(b: byte): seq<byte> {
    if b == FEND then [FESC, TFEND] else if b == FESC then [FESC, TFESC] else [b]
  }

  function Escaped(s: seq<byte>): seq<byte> {
    if s == [] then [] else EscapeOne(s[0]) + Escaped(s[1..])
  }

  function Unescape(s: seq<byte>): Unescaped {
    if s == [] then Plain([])
    else if s[0] != FESC then Prepend(s[0], Unescape(s[1..]))
    else if |s| == 1 then Bad(TruncatedEscape)
    else if s[1] == TFEND then Prepend(FEND, Unescape(s[2..]))
    else if s[1] == TFESC then Prepend(FESC, Unescape(s[2..]))
    else Bad(InvalidEscape(s[1]))
  }

  function Prepend(b: byte, r: Unescaped): Unescaped {
    if r.Plain? then Plain([b] + r.bytes) else r
  }

  lemma {:induction false} UnescapeEscaped(s: seq<byte>)
    ensures Unescape(Escaped(s)) == Plain(s)
  {
    if s != [] {
      UnescapeEscaped(s[1..]);
      var e := Escaped(s);
      if s[0] == FEND || s[0] == FESC {
        assert e[2..] == Escaped(s[1..]);
      } else {
        assert e[1..] == Escaped(s[1..]);
      }
    }
  }

  /** An FESC that no TFEND or TFESC follows. */
  ghost predicate BrokenAt(s: seq<byte>, i: int) {
    0 <= i < |s| && s[i] == 0xDB && (i + 1 < |s| ==> s[i + 1] != 0xDC && s[i + 1] != 0xDD)
  }

  /** Exactly the pieces with a broken escape cannot be unescaped. */
  lemma {:induction false} BadIffBroken(s: seq<byte>)
    ensures Unescape(s).Bad? <==> exists i :: BrokenAt(s, i)
    decreases |s|
  {
    if s != [] {
      var step := if s[0] == FESC && !BrokenAt(s, 0) then 2 else 1;
      BadIffBroken(s[step..]);
      assert forall i :: 0 <= i < |s| - step ==> s[step..][i] == s[i + step];
      if exists i :: BrokenAt(s, i) {
        var i :| BrokenAt(s, i);
        assert i < step || BrokenAt(s[step..], i - step);
      }
      if exists i :: BrokenAt(s[step..], i) {
        var i :| BrokenAt(s[step..], i);
        assert BrokenAt(s, i + step);
      }
    }
  }

  /** The octets of the KISS protocol. */
  lemma EscapedOctets(b: byte)
    ensures Escaped([b]) == if b == 0xC0 then [0xDB, 0xDC] else if b == 0xDB then [0xDB, 0xDD] else [b]
  {
    assert [b][1..] == [];
  }

  lemma {:induction false} EscapedHasNoFend(s: seq<byte>)
    ensures FEND !in Escaped(s)
  {
    if s != [] { EscapedHasNoFend(s[1..]); }
  }

  /** A run without special bytes is copied as it is. */
  lemma {:induction false} EscapePlainRun(run: seq<byte>, rest: seq<byte>)
    requires FEND !in run && FESC !in run
    ensures Escaped(run + rest) == run + Escaped(rest)
  {
    if run == [] {
      assert run + rest == rest;
    } else {
      EscapePlainRun(run[1..], rest);
      assert (run + rest)[1..] == run[1..] + rest;
    }
  }

  /** A run without FESC unescapes to itself. */
  lemma {:induction false} UnescapePlainRun(run: seq<byte>, rest: seq<byte>)
    requires FESC !in run
    ensures Unescape(run + rest) == PrependAll(run, Unescape(rest))
  {
    if run == [] {
      assert run + rest == rest;
    } else {
      UnescapePlainRun(run[1..], rest);
      assert (run + rest)[0] == run[0] && (run + rest)[1..] == run[1..] + rest;
      PrependTwice([run[0]], run[1..], Unescape(rest));
      assert [run[0]] + run[1..] == run;
    }
  }

  lemma PrependTwice(first: seq<byte>, second: seq<byte>, r: Unescaped)
    ensures PrependAll(first, PrependAll(second, r)) == PrependAll(first + second, r)
  {
    if r.Plain? { assert first + (second + r.bytes) == first + second + r.bytes; }
  }

  function PrependAll(run: seq<byte>, r: Unescaped): Unescaped {
    if r.Plain? then Plain(run + r.bytes) else r
  }

  /** `memchr2` and `memchr`: position of the first byte equal to `x` or `y`, or the length. */
  function FirstOf(s: seq<byte>, x: byte, y: byte): (k: nat)
    ensures k <= |s|
  {
    if s == [] || s[0] == x || s[0] == y then 0 else 1 + FirstOf(s[1..], x, y)
  }

  lemma {:induction false} FirstOfFinds(s: seq<byte>, x: byte, y: byte)
    ensures var k := FirstOf(s, x, y);
      x !in s[..k] && y !in s[..k] && (k < |s| ==> s[k] == x || s[k] == y)
  {
    if s != [] && s[0] != x && s[0] != y {
      FirstOfFinds(s[1..], x, y);
      var k := FirstOf(s[1..], x, y);
      assert s[..k + 1] == [s[0]] + s[1..][..k];
    }
  }

  lemma CutRun(input: seq<byte>, start: nat, rel: nat)
    requires start <= |input| && rel <= |input[start..]|
    ensures input[start..] == input[start..start + rel] + input[start + rel..]
    ensures input[start..][..rel] == input[start..start + rel]
  {
  }

  /** One turn of the `escape` loop: the plain run, then the special byte. */
  lemma EscapeTurn(whole: seq<byte>, input: seq<byte>, out: seq<byte>, start: nat, rel: nat)
    requires start <= |input| && rel <= |input[start..]|
    requires FEND !in input[start..][..rel] && FESC !in input[start..][..rel]
    requires out + Escaped(input[start..]) == whole
    ensures out + input[start..start + rel] + Escaped(input[start + rel..]) == whole
  {
    CutRun(input, start, rel);
    EscapePlainRun(input[start..start + rel], input[start + rel..]);
  }

  lemma EscapeNext(whole: seq<byte>, input: seq<byte>, out: seq<byte>, pos: nat)
    requires pos < |input| && out + Escaped(input[pos..]) == whole
    ensures out + EscapeOne(input[pos]) + Escaped(input[pos + 1..]) == whole
  {
    assert input[pos..][1..] == input[pos + 1..];
  }

  /** `escape`: copies runs of plain bytes, replaces the special ones. */
  method Escape(input: seq<byte>, sofar: seq<byte>) returns (out: seq<byte>)
    ensures out == sofar + Escaped(input)
  {
    out := sofar;
    var start := 0;
    assert input[start..] == input;
    while start < |input|
      invariant start <= |input| && out + Escaped(input[start..]) == sofar + Escaped(input)
    {
      var rel := FirstOf(input[start..], FEND, FESC);
      FirstOfFinds(input[start..], FEND, FESC);
      EscapeTurn(sofar + Escaped(input), input, out, start, rel);
      var pos := start + rel;
      out := out + input[start..pos];
      if pos == |input| {
        start := pos;
        break;
      }
      EscapeNext(sofar + Escaped(input), input, out, pos);
      if input[pos] == FEND {
        out := out + [FESC, TFEND];
      } else {
        out := out + [FESC, TFESC];
      }
      start := pos + 1;
    }
  }

  /** One turn of the `unescape` loop: the plain run up to the next FESC. */
  lemma UnescapeTurn(input: seq<byte>, out: seq<byte>, start: nat, rel: nat)
    requires start <= |input| && rel <= |input[start..]| && FESC !in input[start..][..rel]
    requires Unescape(input) == PrependAll(out, Unescape(input[start..]))
    ensures Unescape(input) == PrependAll(out + input[start..start + rel], Unescape(input[start + rel..]))
  {
    hide Unescape, PrependAll;
    var run, left := input[start..start + rel], input[start + rel..];
    CutRun(input, start, rel);
    UnescapePlainRun(run, left);
    PrependTwice(out, run, Unescape(left));
  }

  /** ... and the escape that follows it. */
  lemma UnescapeOne(input: seq<byte>, out: seq<byte>, pos: nat, b: byte)
    requires pos + 1 < |input| && input[pos] == FESC
    requires (b == FEND && input[pos + 1] == TFEND) || (b == FESC && input[pos + 1] == TFESC)
    requires Unescape(input) == PrependAll(out, Unescape(input[pos..]))
    ensures Unescape(input) == PrependAll(out + [b], Unescape(input[pos + 2..]))
  {
    EscapeAt(input, pos, b);
    hide Unescape;
    PrependTwice(out, [b], Unescape(input[pos + 2..]));
  }

  lemma EscapeAt(input: seq<byte>, pos: nat, b: byte)
    requires pos + 1 < |input| && input[pos] == FESC
    requires (b == FEND && input[pos + 1] == TFEND) || (b == FESC && input[pos + 1] == TFESC)
    ensures Unescape(input[pos..]) == PrependAll([b], Unescape(input[pos + 2..]))
  {
    assert input[pos..][2..] == input[pos + 2..];
  }

  /** `unescape`: bulk-copies plain runs; the first bad escape decides the error. */
  method UnescapeBytes(input: seq<byte>) returns (r: Unescaped)
    ensures r == Unescape(input)
  {
    var out: seq<byte> := [];
    var start := 0;
    assert input[start..] == input;
    while start < |input|
      invariant start <= |input| && Unescape(input) == PrependAll(out, Unescape(input[start..]))
    {
      var rel := FirstOf(input[start..], FESC, FESC);
      var pos := start + rel;
      FirstOfFinds(input[start..], FESC, FESC);
      UnescapeTurn(input, out, start, rel);
      out := out + input[start..pos];
      if pos == |input| {
        start := pos;
        break;
      }
      if pos + 1 >= |input| {
        return Bad(TruncatedEscape);
      }
      if input[pos + 1] == TFEND {
        UnescapeOne(input, out, pos, FEND);
        out := out + [FEND];
      } else if input[pos + 1] == TFESC {
        UnescapeOne(input, out, pos, FESC);
        out := out + [FESC];
      } else {
        return Bad(InvalidEscape(input[pos + 1]));
      }
      start := pos + 2;
    }
    r := Plain(out);
  }
}
