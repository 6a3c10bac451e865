/**
 * Reading a byte stream that is cut at FEND, whatever a piece between two FENDs means: the plain
 * reading of ltp/src/kiss.rs, and what a decoder that looks for the first good piece relies on.
 */
module FendStream {
  import opened Basics
  import opened Kiss

  /** What a piece means, if anything. */
  type Reader<!T> = seq<byte> -> Option<T>

  function NextFend(s: seq<byte>): (k: nat)
    ensures k <= |s|
  {
    FirstOf(s, FEND, FEND)
  }

  /** The frame of one piece: one or none. */
  function PieceFrames<T>(read: Reader<T>, piece: seq<byte>): seq<T> {
    if read(piece).Some? then [read(piece).value] else []
  }

  /** Cut at FEND, drop the unterminated rest, keep what can be read. */
  function Frames<T>(read: Reader<T>, s: seq<byte>): seq<T>
    decreases |s|
  {
    var k := NextFend(s);
    if k == |s| then [] else PieceFrames(read, s[..k]) + Frames(read, s[k + 1..])
  }

  /** The unterminated rest after the last FEND. */
  function Tail(s: seq<byte>): seq<byte>
    decreases |s|
  {
    var k := NextFend(s);
    if k == |s| then s else Tail(s[k + 1..])
  }

  lemma {:induction false} NextFendOfConcat(a: seq<byte>, b: seq<byte>)
    ensures NextFend(a) < |a| ==> NextFend(a + b) == NextFend(a)
    ensures NextFend(a) == |a| ==> NextFend(a + b) == |a| + NextFend(b)
    decreases |a|
  {
    if a == [] {
      assert a + b == b;
    } else {
      assert (a + b)[0] == a[0] && (a + b)[1..] == a[1..] + b;
      NextFendOfConcat(a[1..], b);
    }
  }

  lemma CutConcat(a: seq<byte>, b: seq<byte>, k: nat)
    requires k < |a|
    ensures (a + b)[..k] == a[..k] && (a + b)[k + 1..] == a[k + 1..] + b
  {
  }

  /** Reading on: only the unterminated tail of what came before matters. */
  lemma {:induction false} FramesOfConcat<T>(read: Reader<T>, a: seq<byte>, b: seq<byte>)
    ensures Frames(read, a + b) == Frames(read, a) + Frames(read, Tail(a) + b)
    decreases |a|
  {
    var k := NextFend(a);
    NextFendOfConcat(a, b);
    if k < |a| {
      CutConcat(a, b, k);
      FramesOfConcat(read, a[k + 1..], b);
    }
  }

  lemma {:induction false} TailOfConcat(a: seq<byte>, b: seq<byte>)
    ensures Tail(a + b) == Tail(Tail(a) + b)
    decreases |a|
  {
    var k := NextFend(a);
    if k < |a| {
      NextFendOfConcat(a, b);
      CutConcat(a, b, k);
      TailOfConcat(a[k + 1..], b);
    }
  }

  lemma {:induction false} TailAfterFend(a: seq<byte>)
    ensures Tail(a + [FEND]) == []
    decreases |a|
  {
    var k := NextFend(a);
    NextFendOfConcat(a, [FEND]);
    if k < |a| {
      CutConcat(a, [FEND], k);
      TailAfterFend(a[k + 1..]);
    } else {
      assert (a + [FEND])[|a| + 1..] == [];
    }
  }

  /** One piece followed by its FEND. */
  lemma FramesOfPiece<T>(read: Reader<T>, piece: seq<byte>, rest: seq<byte>)
    requires FEND !in piece
    ensures Frames(read, piece + [FEND] + rest) == PieceFrames(read, piece) + Frames(read, rest)
  {
    var s := piece + [FEND] + rest;
    FirstOfFinds(piece, FEND, FEND);
    assert NextFend(piece) == |piece|;
    NextFendOfConcat(piece, [FEND] + rest);
    assert s == piece + ([FEND] + rest);
    assert s[..|piece|] == piece && s[|piece| + 1..] == rest;
  }

  // ---- The first frame -----------------------------------------------------------------------------

  function Shifted<T>(r: Option<(T, nat)>, skipped: nat): Option<(T, nat)> {
    if r.Some? then Some((r.value.0, r.value.1 + skipped)) else None
  }

  lemma ShiftTwice<T>(r: Option<(T, nat)>, a: nat, b: nat)
    ensures Shifted(Shifted(r, a), b) == Shifted(r, a + b)
  {
  }

  /** The first piece that can be read, and how many bytes end with it. */
  function FirstFrame<T>(read: Reader<T>, s: seq<byte>): Option<(T, nat)>
    decreases |s|
  {
    var k := NextFend(s);
    if k == |s| then None
    else if read(s[..k]).Some? then Some((read(s[..k]).value, k + 1))
    else Shifted(FirstFrame(read, s[k + 1..]), k + 1)
  }

  /** `r` is the first frame of `s` with the position after it, or None when `s` holds no frame. */
  ghost predicate IsHead<T>(read: Reader<T>, s: seq<byte>, r: Option<(T, nat)>) {
    match r
    case None => Frames(read, s) == []
    case Some((f, n)) => 0 < n <= |s| && Frames(read, s) == [f] + Frames(read, s[n..]) && Tail(s) == Tail(s[n..])
  }

  lemma SliceOfSlice(s: seq<byte>, m: nat, n: nat)
    requires m + n <= |s|
    ensures s[m..][n..] == s[m + n..]
  {
  }

  lemma HeadShifts<T>(read: Reader<T>, s: seq<byte>, m: nat, r: Option<(T, nat)>)
    requires m <= |s| && IsHead(read, s[m..], r)
    requires Frames(read, s) == Frames(read, s[m..]) && Tail(s) == Tail(s[m..])
    ensures IsHead(read, s, Shifted(r, m))
  {
    hide Frames, Tail;
    if r.Some? { SliceOfSlice(s, m, r.value.1); }
  }

  /** The first frame is the head of the frame list, and what follows it reads as the rest. */
  lemma {:induction false} FirstFrameIsHead<T>(read: Reader<T>, s: seq<byte>)
    ensures IsHead(read, s, FirstFrame(read, s))
    decreases |s|
  {
    var k := NextFend(s);
    if k < |s| && read(s[..k]).None? {
      FirstFrameIsHead(read, s[k + 1..]);
      HeadShifts(read, s, k + 1, FirstFrame(read, s[k + 1..]));
    }
  }

  /** A frame once found stays the same however the buffer is extended. */
  lemma {:induction false} FirstFrameStable<T>(read: Reader<T>, s: seq<byte>, more: seq<byte>)
    requires FirstFrame(read, s).Some?
    ensures FirstFrame(read, s + more) == FirstFrame(read, s)
    decreases |s|
  {
    var k := NextFend(s);
    NextFendOfConcat(s, more);
    CutConcat(s, more, k);
    if read(s[..k]).None? { FirstFrameStable(read, s[k + 1..], more); }
  }

  /** The first frame after the first `n` bytes; the same as that of `s` while no frame was skipped. */
  ghost function FirstFrom<T>(read: Reader<T>, s: seq<byte>, n: nat): Option<(T, nat)>
    requires n <= |s|
  {
    Shifted(FirstFrame(read, s[n..]), n)
  }

  lemma SkipPiece<T>(read: Reader<T>, s: seq<byte>, n: nat, k: nat)
    requires n <= |s| && k == NextFend(s[n..]) < |s[n..]| && read(s[n..][..k]).None?
    ensures FirstFrom(read, s, n + k + 1) == FirstFrom(read, s, n)
  {
    SliceOfSlice(s, n, k + 1);
    ShiftTwice(FirstFrame(read, s[n + k + 1..]), k + 1, n);
  }

  lemma PieceFound<T>(read: Reader<T>, s: seq<byte>, n: nat, k: nat)
    requires n <= |s| && k == NextFend(s[n..]) < |s[n..]| && read(s[n..][..k]).Some?
    ensures FirstFrom(read, s, n) == Some((read(s[n..][..k]).value, n + k + 1))
  {
  }

  lemma NoPieceLeft<T>(read: Reader<T>, s: seq<byte>, n: nat)
    requires n <= |s| && NextFend(s[n..]) == |s[n..]|
    ensures FirstFrom(read, s, n) == None
  {
  }
}
