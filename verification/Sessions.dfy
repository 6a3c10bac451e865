/**
 * ltp/src/engine/session.rs: reassembly of a red (reliable) block part from segments that arrive in
 * any order, repeated or overlapping, and the two completion tests.
 */
module Sessions {
  import opened Basics
  import opened RangeSets

  // ---- What was received -------------------------------------------------------------------

  /** The bytes one segment carries, each with its offset in the block. */
  ghost function SegmentBytes(offset: nat, data: seq<byte>): set<(int, byte)> {
    set i | 0 <= i < |data| :: (offset + i, data[i])
  }

  lemma SegmentByte(offset: nat, data: seq<byte>, p: int)
    requires offset <= p < offset + |data|
    ensures (p, data[p - offset]) in SegmentBytes(offset, data)
  {
    assert (offset + (p - offset), data[p - offset]) in SegmentBytes(offset, data);
  }

  /** Some byte was received for offset `p`. */
  ghost predicate Known(got: set<(int, byte)>, p: int) {
    exists b: byte :: (p, b) in got
  }

  ghost predicate HeldAt(sparse: map<nat, seq<byte>>, k: nat, p: int) {
    k in sparse && k <= p < k + |sparse[k]|
  }

  ghost predicate InSparse(sparse: map<nat, seq<byte>>, p: int) {
    exists k :: HeldAt(sparse, k, p)
  }

  ghost function Lengths(sparse: map<nat, seq<byte>>): map<nat, nat> {
    map k | k in sparse :: |sparse[k]|
  }

  /** Every stored byte was received for the place it is stored at: nothing is invented. */
  ghost predicate Faithful(buf: seq<byte>, sparse: map<nat, seq<byte>>, got: set<(int, byte)>) {
    && (forall p :: 0 <= p < |buf| ==> (p, buf[p]) in got)
    && (forall k, i :: k in sparse && 0 <= i < |sparse[k]| ==> (k + i, sparse[k][i]) in got)
  }

  /** The range set, the contiguous buffer and the sparse map describe the same offsets. */
  ghost predicate SameCoverage(buf: seq<byte>, sparse: map<nat, seq<byte>>, runs: seq<Range>) {
    forall p :: Contains(runs, p) <==> 0 <= p < |buf| || InSparse(sparse, p)
  }

  // ---- Writing into the buffer ---------------------------------------------------------------

  /** `Vec::resize(n, 0)` when n is larger, then `copy_from_slice` at `start`. */
  function Written(buf: seq<byte>, start: nat, data: seq<byte>): (out: seq<byte>)
    requires start <= |buf|
    ensures |out| == Max(|buf|, start + |data|)
    ensures forall p :: 0 <= p < |out| ==>
      out[p] == if start <= p < start + |data| then data[p - start] else buf[p]
  {
    var end := start + |data|;
    var grown := if end > |buf| then buf + seq(end - |buf|, _ => 0) else buf;
    grown[..start] + data + grown[end..]
  }

  lemma WriteIsFaithful(buf: seq<byte>, sparse: map<nat, seq<byte>>, got: set<(int, byte)>, start: nat, data: seq<byte>)
    requires start <= |buf| && Faithful(buf, sparse, got)
    ensures Faithful(Written(buf, start, data), sparse, got + SegmentBytes(start, data))
  {
    var out, more := Written(buf, start, data), got + SegmentBytes(start, data);
    forall p | 0 <= p < |out| ensures (p, out[p]) in more {
      if start <= p < start + |data| { SegmentByte(start, data, p); }
    }
  }

  lemma WriteCovers(buf: seq<byte>, sparse: map<nat, seq<byte>>, runs: seq<Range>, now: seq<Range>, start: u64, data: seq<byte>)
    requires start <= |buf| && start + |data| < 0x1_0000_0000_0000_0000
    requires SameCoverage(buf, sparse, runs) && IsUnion(now, runs, Range(start, start + |data|))
    ensures SameCoverage(Written(buf, start, data), sparse, now)
  {
    forall p ensures Contains(now, p) <==> 0 <= p < |Written(buf, start, data)| || InSparse(sparse, p) {
      assert InRange(Range(start, start + |data|), p) <==> start <= p < start + |data|;
    }
  }

  /** Moving one sparse segment that touches the buffer into it keeps coverage. */
  lemma DrainCovers(buf: seq<byte>, sparse: map<nat, seq<byte>>, runs: seq<Range>, k: nat)
    requires k in sparse && k <= |buf| && SameCoverage(buf, sparse, runs)
    ensures SameCoverage(Written(buf, k, sparse[k]), sparse - {k}, runs)
  {
    var out, rest := Written(buf, k, sparse[k]), sparse - {k};
    forall p ensures Contains(runs, p) <==> 0 <= p < |out| || InSparse(rest, p) {
      if InSparse(rest, p) {
        var j :| HeldAt(rest, j, p);
        assert HeldAt(sparse, j, p);
      }
      if 0 <= p < |out| && p >= |buf| { assert HeldAt(sparse, k, p); }
      if InSparse(sparse, p) {
        var j :| HeldAt(sparse, j, p);
        if j != k { assert HeldAt(rest, j, p); }
      }
    }
  }

  lemma DrainIsFaithful(buf: seq<byte>, sparse: map<nat, seq<byte>>, got: set<(int, byte)>, k: nat)
    requires k in sparse && k <= |buf| && Faithful(buf, sparse, got)
    ensures Faithful(Written(buf, k, sparse[k]), sparse - {k}, got)
  {
    var out := Written(buf, k, sparse[k]);
    forall p | 0 <= p < |out| ensures (p, out[p]) in got {
      if k <= p < k + |sparse[k]| { assert (k + (p - k), sparse[k][p - k]) in got; }
    }
  }

  /** The sparse segments that still lie beyond a gap after a buffer of length `len`. */
  ghost function BeyondGap(sparse: map<nat, seq<byte>>, len: nat): map<nat, seq<byte>> {
    map k | k in sparse && len < k :: sparse[k]
  }

  /** Some segments that touch a buffer of length `len` were taken out of the map, and no others. */
  ghost predicate PoppedBelow(was: map<nat, seq<byte>>, now: map<nat, seq<byte>>, len: nat) {
    && (forall k :: k in now ==> k in was && now[k] == was[k])
    && (forall k :: k in was && len < k ==> k in now)
  }

  lemma DrainSum(sparse: map<nat, seq<byte>>, k: nat)
    requires k in sparse
    ensures MapSum(Lengths(sparse)) == |sparse[k]| + MapSum(Lengths(sparse - {k}))
  {
    MapSumRemove(Lengths(sparse), k);
    assert Lengths(sparse) - {k} == Lengths(sparse - {k});
  }

  /** Storing an out-of-order segment; an older, shorter one at the same offset is replaced. */
  lemma StoreCovers(buf: seq<byte>, sparse: map<nat, seq<byte>>, runs: seq<Range>, now: seq<Range>, start: u64, data: seq<byte>)
    requires start + |data| < 0x1_0000_0000_0000_0000
    requires start in sparse ==> |sparse[start]| <= |data|
    requires SameCoverage(buf, sparse, runs) && IsUnion(now, runs, Range(start, start + |data|))
    ensures SameCoverage(buf, sparse[start := data], now)
  {
    var more := sparse[start := data];
    forall p ensures Contains(now, p) <==> 0 <= p < |buf| || InSparse(more, p) {
      assert InRange(Range(start, start + |data|), p) <==> HeldAt(more, start, p);
      if InSparse(sparse, p) {
        var j :| HeldAt(sparse, j, p);
        assert HeldAt(more, j, p);
      }
      if InSparse(more, p) {
        var j :| HeldAt(more, j, p);
        if j != start { assert HeldAt(sparse, j, p); }
      }
    }
  }

  /** A new segment that starts where a sparse one does is the longer of the two. */
  lemma NewIsLonger(buf: seq<byte>, sparse: map<nat, seq<byte>>, runs: seq<Range>, start: u64, data: seq<byte>)
    requires WellFormed(runs) && start + |data| < 0x1_0000_0000_0000_0000
    requires SameCoverage(buf, sparse, runs) && !Covers(runs, Range(start, start + |data|))
    ensures start in sparse ==> |sparse[start]| < |data|
  {
    var p := MissingValue(runs, Range(start, start + |data|));
    assert !HeldAt(sparse, start, p);
  }

  lemma FaithfulGrows(buf: seq<byte>, sparse: map<nat, seq<byte>>, got: set<(int, byte)>, more: set<(int, byte)>)
    requires Faithful(buf, sparse, got)
    ensures Faithful(buf, sparse, got + more)
  {
  }

  lemma StoreIsFaithful(buf: seq<byte>, sparse: map<nat, seq<byte>>, got: set<(int, byte)>, start: nat, data: seq<byte>)
    requires Faithful(buf, sparse, got)
    ensures Faithful(buf, sparse[start := data], got + SegmentBytes(start, data))
  {
  }

  lemma StoreSum(sparse: map<nat, seq<byte>>, start: nat, data: seq<byte>)
    ensures MapSum(Lengths(sparse[start := data])) ==
      MapSum(Lengths(sparse)) + |data| - if start in sparse then |sparse[start]| else 0
  {
    MapSumUpdate(Lengths(sparse), start, |data|);
    assert Lengths(sparse[start := data]) == Lengths(sparse)[start := |data|];
  }

  lemma KnownAfter(got: set<(int, byte)>, start: nat, data: seq<byte>, p: int)
    ensures Known(got + SegmentBytes(start, data), p) <==> Known(got, p) || start <= p < start + |data|
  {
    var more := got + SegmentBytes(start, data);
    if Known(got, p) {
      var b: byte :| (p, b) in got;
      assert (p, b) in more;
    }
    if start <= p < start + |data| { SegmentByte(start, data, p); }
  }

  lemma KnownAfterInsert(runs: seq<Range>, now: seq<Range>, got: set<(int, byte)>, start: u64, data: seq<byte>)
    requires start + |data| < 0x1_0000_0000_0000_0000
    requires forall p :: Contains(runs, p) <==> Known(got, p)
    requires IsUnion(now, runs, Range(start, start + |data|))
    ensures forall p :: Contains(now, p) <==> Known(got + SegmentBytes(start, data), p)
  {
    forall p ensures Contains(now, p) <==> Known(got + SegmentBytes(start, data), p) {
      KnownAfter(got, start, data, p);
      assert InRange(Range(start, start + |data|), p) <==> start <= p < start + |data|;
    }
  }

  // ---- The receiving session -----------------------------------------------------------------

  class RecvSession {
    /** The limit the engine passes with every segment, from its configuration. */
    const maxBlockSize: u64
    var redBuf: seq<byte>
    const redReceived: RangeSet
    var redPartLen: Option<u64>
    var sparseRed: map<nat, seq<byte>>
    var totalReceivedBytes: nat
    var maxRedEnd: nat
    /** Every (offset, byte) of every accepted segment so far. */
    ghost var got: set<(int, byte)>

    /** Buffer, sparse map and range set agree; sparse segments may still touch the buffer. */
    ghost predicate Assembled()
      reads this, redReceived
    {
      && redReceived.Valid()
      && SameCoverage(redBuf, sparseRed, redReceived.runs)
      && Faithful(redBuf, sparseRed, got)
      && (forall p :: Contains(redReceived.runs, p) <==> Known(got, p))
      && MapSum(Lengths(sparseRed)) <= totalReceivedBytes <= maxBlockSize
    }

    /** Between calls every sparse segment lies beyond a gap after the buffer. */
    ghost predicate Valid()
      reads this, redReceived
    {
      Assembled() && forall k :: k in sparseRed ==> |redBuf| < k
    }

    /** What the byte budget counts beyond the sparse map: segments replaced by a longer one. */
    ghost function Surplus(): int
      reads this
    {
      totalReceivedBytes - MapSum(Lengths(sparseRed))
    }

    constructor (maxBlockSize: u64)
      ensures Valid() && fresh(redReceived) && this.maxBlockSize == maxBlockSize && redReceived.runs == [] && sparseRed == map[]
      ensures redBuf == [] && redPartLen == None && totalReceivedBytes == 0 && maxRedEnd == 0 && got == {}
    {
      this.maxBlockSize := maxBlockSize;
      redReceived := new RangeSet();
      redBuf, redPartLen, sparseRed, totalReceivedBytes, maxRedEnd, got := [], None, map[], 0, 0, {};
    }

    /**
     * Refused exactly when the segment overruns `maxBlockSize`, or is new, leaves a gap before it,
     * and does not fit the sparse budget. An accepted segment adds exactly its bytes; a refused one
     * adds nothing.
     */
    method InsertRed(offset: u64, data: seq<byte>) returns (ok: bool)
      requires Valid()
      modifies this, redReceived
      ensures Valid()
      ensures ok == (offset + |data| <= maxBlockSize
        && (Covers(old(redReceived.runs), Range(offset, offset + |data|))
            || offset <= |old(redBuf)|
            || old(totalReceivedBytes) + |data| <= maxBlockSize))
      ensures got == if ok then old(got) + SegmentBytes(offset, data) else old(got)
      ensures !ok ==>
        && redBuf == old(redBuf) && sparseRed == old(sparseRed)
        && totalReceivedBytes == old(totalReceivedBytes) && redReceived.runs == old(redReceived.runs)
      ensures ok && offset <= |old(redBuf)| ==> sparseRed == BeyondGap(old(sparseRed), |redBuf|)
      ensures ok && offset > |old(redBuf)| ==>
        redBuf == old(redBuf) && sparseRed ==
          if Covers(old(redReceived.runs), Range(offset, offset + |data|)) then old(sparseRed) else old(sparseRed)[offset := data]
      ensures |old(redBuf)| <= |redBuf|
      ensures redBuf[..|old(redBuf)|] ==
        if ok && offset <= |old(redBuf)| && !Covers(old(redReceived.runs), Range(offset, offset + |data|))
        then Written(old(redBuf), offset, data)[..|old(redBuf)|] else old(redBuf)
      ensures Surplus() == old(Surplus()) +
        if sparseRed != old(sparseRed) && |old(redBuf)| < offset && offset in old(sparseRed)
        then |old(sparseRed)[offset]| else 0
      ensures redPartLen == old(redPartLen)
      ensures maxRedEnd ==
        if offset + |data| <= maxBlockSize && !Covers(old(redReceived.runs), Range(offset, offset + |data|))
        then Max(old(maxRedEnd), offset + |data|) else old(maxRedEnd)
    {
      hide Faithful, SameCoverage, Lengths, MapSum, SegmentBytes;
      var end := offset + |data|;
      if end >= 0x1_0000_0000_0000_0000 {
        return false;
      }
      if end > maxBlockSize {
        return false;
      }
      if Covers(redReceived.runs, Range(offset, end)) {
        CoversIffEveryPoint(redReceived.runs, Range(offset, end));
        KnownAfterInsert(redReceived.runs, redReceived.runs, got, offset, data);
        FaithfulGrows(redBuf, sparseRed, got, SegmentBytes(offset, data));
        got := got + SegmentBytes(offset, data);
        return true;
      }
      maxRedEnd := Max(maxRedEnd, end);
      if offset <= |redBuf| {
        WriteRed(offset, data);
        DrainSparse(|old(redBuf)|);
      } else {
        if totalReceivedBytes + |data| > maxBlockSize {
          return false;
        }
        StoreRed(offset, data);
      }
      ok := true;
    }

    /** Contiguous with, or overlapping, the buffer. */
    method WriteRed(offset: u64, data: seq<byte>)
      requires Valid() && offset <= |redBuf| && offset + |data| < 0x1_0000_0000_0000_0000
      modifies this`redBuf, this`got, redReceived
      ensures Assembled()
      ensures got == old(got) + SegmentBytes(offset, data)
      ensures redBuf == Written(old(redBuf), offset, data)
    {
      WriteIsFaithful(redBuf, sparseRed, got, offset, data);
      redBuf := Written(redBuf, offset, data);
      var _ := redReceived.Insert(Range(offset, offset + |data|));
      WriteCovers(old(redBuf), sparseRed, old(redReceived.runs), redReceived.runs, offset, data);
      got := got + SegmentBytes(offset, data);
      KnownAfterInsert(old(redReceived.runs), redReceived.runs, old(got), offset, data);
    }

    /** Beyond a gap: kept aside without growing the buffer. */
    method StoreRed(offset: u64, data: seq<byte>)
      requires Valid() && offset > |redBuf| && offset + |data| < 0x1_0000_0000_0000_0000
      requires !Covers(redReceived.runs, Range(offset, offset + |data|)) && totalReceivedBytes + |data| <= maxBlockSize
      modifies this`sparseRed, this`totalReceivedBytes, this`got, redReceived
      ensures Valid()
      ensures got == old(got) + SegmentBytes(offset, data)
      ensures sparseRed == old(sparseRed)[offset := data] && sparseRed != old(sparseRed)
      ensures totalReceivedBytes == old(totalReceivedBytes) + |data|
      ensures Surplus() == old(Surplus()) + if offset in old(sparseRed) then |old(sparseRed)[offset]| else 0
    {
      NewIsLonger(redBuf, sparseRed, redReceived.runs, offset, data);
      StoreSum(sparseRed, offset, data);
      StoreIsFaithful(redBuf, sparseRed, got, offset, data);
      sparseRed := sparseRed[offset := data];
      totalReceivedBytes := totalReceivedBytes + |data|;
      var _ := redReceived.Insert(Range(offset, offset + |data|));
      StoreCovers(redBuf, old(sparseRed), old(redReceived.runs), redReceived.runs, offset, data);
      got := got + SegmentBytes(offset, data);
      KnownAfterInsert(old(redReceived.runs), redReceived.runs, old(got), offset, data);
    }

    /** Pops sparse segments in offset order into the buffer until the first one leaves a gap. */
    method DrainSparse(ghost keep: nat)
      requires Assembled() && keep <= |redBuf|
      requires forall k :: k in sparseRed ==> keep <= k
      modifies this`redBuf, this`sparseRed, this`totalReceivedBytes
      ensures Valid()
      ensures sparseRed == BeyondGap(old(sparseRed), |redBuf|)
      ensures keep <= |redBuf| && redBuf[..keep] == old(redBuf)[..keep]
      ensures Surplus() == old(Surplus()) && totalReceivedBytes <= old(totalReceivedBytes)
    {
      hide Faithful, SameCoverage, Lengths, MapSum, Covers;
      while sparseRed != map[]
        invariant Assembled() && Surplus() == old(Surplus()) && totalReceivedBytes <= old(totalReceivedBytes)
        invariant keep <= |redBuf| && redBuf[..keep] == old(redBuf)[..keep]
        invariant PoppedBelow(old(sparseRed), sparseRed, |redBuf|)
        decreases |sparseRed|
      {
        ghost var least := Least(sparseRed.Keys);
        var k :| k in sparseRed && forall j :: j in sparseRed ==> k <= j;
        if k > |redBuf| {
          break;
        }
        PopInto(k);
      }
    }

    /** Moves one sparse segment that touches the buffer into it. */
    method PopInto(k: nat)
      requires Assembled() && k in sparseRed && k <= |redBuf|
      modifies this`redBuf, this`sparseRed, this`totalReceivedBytes
      ensures Assembled()
      ensures sparseRed == old(sparseRed) - {k}
      ensures redBuf == Written(old(redBuf), k, old(sparseRed)[k])
      ensures Surplus() == old(Surplus()) && totalReceivedBytes <= old(totalReceivedBytes)
    {
      DrainCovers(redBuf, sparseRed, redReceived.runs, k);
      DrainIsFaithful(redBuf, sparseRed, got, k);
      DrainSum(sparseRed, k);
      var bytes := sparseRed[k];
      sparseRed := sparseRed - {k};
      totalReceivedBytes := SatSub(totalReceivedBytes, |bytes|);
      redBuf := Written(redBuf, k, bytes);
    }

    /** `is_red_complete` */
    predicate IsRedComplete()
      requires redReceived.Valid()
      reads this, redReceived
    {
      redPartLen.Some? && Covers(redReceived.runs, Range(0, redPartLen.value))
    }
  }

  // ---- What a valid session guarantees -------------------------------------------------------

  /** Everything received so far came from the block `block`. */
  ghost predicate FromBlock(got: set<(int, byte)>, block: seq<byte>) {
    forall p, b: byte :: (p, b) in got ==> 0 <= p < |block| && block[p] == b
  }

  lemma SliceIsFromBlock(block: seq<byte>, offset: nat, end: nat)
    requires offset <= end <= |block|
    ensures FromBlock(SegmentBytes(offset, block[offset..end]), block)
  {
  }

  /** Slices of one block, in any order and with any overlaps: the buffer is a prefix of the block. */
  lemma BufferIsPrefix(s: RecvSession, block: seq<byte>)
    requires s.Valid() && FromBlock(s.got, block)
    ensures |s.redBuf| <= |block| && s.redBuf == block[..|s.redBuf|]
  {
    forall p | 0 <= p < |s.redBuf| ensures p < |block| && s.redBuf[p] == block[p] {
      BufferedByte(s, block, p);
    }
    if s.redBuf != [] { BufferedByte(s, block, |s.redBuf| - 1); }
  }

  lemma BufferedByte(s: RecvSession, block: seq<byte>, p: nat)
    requires s.Valid() && FromBlock(s.got, block) && p < |s.redBuf|
    ensures p < |block| && s.redBuf[p] == block[p]
  {
    assert (p, s.redBuf[p]) in s.got;
  }

  /** The buffer is as long as it can be: it stops exactly at the first offset never received. */
  lemma BufferIsMaximal(s: RecvSession)
    requires s.Valid()
    ensures !Known(s.got, |s.redBuf|) && forall p :: 0 <= p < |s.redBuf| ==> Known(s.got, p)
  {
    assert !InSparse(s.sparseRed, |s.redBuf|);
    assert !Contains(s.redReceived.runs, |s.redBuf|);
  }

  /** Coverage says complete exactly when the buffer holds the whole red part. */
  lemma CompleteMeansBuffered(s: RecvSession)
    requires s.Valid() && s.redPartLen.Some?
    ensures s.IsRedComplete() <==> s.redPartLen.value <= |s.redBuf|
    ensures s.IsRedComplete() <==> forall p :: 0 <= p < s.redPartLen.value ==> Known(s.got, p)
  {
    var all := Range(0, s.redPartLen.value);
    CoversIffEveryPoint(s.redReceived.runs, all);
    BufferIsMaximal(s);
    assert forall p :: InRange(all, p) <==> 0 <= p < s.redPartLen.value;
  }

  /**
   * The reassembly theorem: when all accepted segments were slices of one block and the session
   * reports completion, the delivered bytes are exactly the red part of that block.
   */
  lemma CompletedBlockIsTheBlock(s: RecvSession, block: seq<byte>)
    requires s.Valid() && FromBlock(s.got, block) && s.IsRedComplete()
    ensures s.redPartLen.value <= |s.redBuf|
    ensures s.redPartLen.value <= |block| && s.redBuf[..s.redPartLen.value] == block[..s.redPartLen.value]
  {
    CompleteMeansBuffered(s);
    BufferIsPrefix(s, block);
  }

  /**
   * A whole reception: slices of one block, cut and ordered in any way, with any repeats. Once the
   * session reports completion, its buffer starts with the red part of the block.
   */
  method ReceiveSlices(s: RecvSession, block: seq<byte>, cuts: seq<(nat, nat)>)
    requires s.Valid() && FromBlock(s.got, block) && |block| < 0x1_0000_0000_0000_0000
    requires forall i :: 0 <= i < |cuts| ==> cuts[i].0 <= cuts[i].1 <= |block|
    modifies s, s.redReceived
    ensures s.Valid() && FromBlock(s.got, block) && s.redPartLen == old(s.redPartLen)
    ensures s.redBuf <= block
    ensures s.IsRedComplete() ==>
      s.redPartLen.value <= |s.redBuf| && s.redBuf[..s.redPartLen.value] == block[..s.redPartLen.value]
  {
    for i := 0 to |cuts|
      invariant s.Valid() && FromBlock(s.got, block) && s.redPartLen == old(s.redPartLen)
    {
      var (start, end) := cuts[i];
      SliceIsFromBlock(block, start, end);
      var _ := s.InsertRed(start, block[start..end]);
    }
    BufferIsPrefix(s, block);
    if s.IsRedComplete() { CompletedBlockIsTheBlock(s, block); }
  }

  /** Memory: the sparse bytes never exceed the limit. */
  lemma SparseIsBounded(s: RecvSession)
    requires s.Valid()
    ensures MapSum(Lengths(s.sparseRed)) <= s.totalReceivedBytes <= s.maxBlockSize
    ensures forall k :: k in s.sparseRed ==> |s.sparseRed[k]| <= s.maxBlockSize
  {
    forall k | k in s.sparseRed ensures |s.sparseRed[k]| <= s.maxBlockSize {
      DrainSum(s.sparseRed, k);
    }
  }

  /**
   * The budget goes on counting segments that longer ones replaced. Two bytes replace one at the same
   * offset; then two more are refused, although the four would fit.
   */
  method ReplacedBytesCount(a: byte, b: byte, c: byte) returns (s: RecvSession, ok: bool)
    ensures fresh(s) && s.Valid() && !ok && MapSum(Lengths(s.sparseRed)) + 2 <= s.maxBlockSize
  {
    s := ReplaceOne(a, b);
    hide Faithful, SameCoverage, SegmentBytes;
    Uncovered(s, Range(2, 4), 3);
    OneLength(s.sparseRed, 1);
    ok := s.InsertRed(2, [b, c]);
  }

  /** One byte at offset 1, replaced by two: two bytes are held, three are counted. */
  method ReplaceOne(a: byte, b: byte) returns (s: RecvSession)
    ensures fresh(s) && fresh(s.redReceived) && s.Valid() && s.maxBlockSize == 4 && s.redBuf == []
    ensures s.sparseRed == map[1 := [a, b]] && s.totalReceivedBytes == 3 && !Known(s.got, 3)
  {
    hide Faithful, SameCoverage, SegmentBytes, Lengths, MapSum, Covers, Written;
    s := new RecvSession(4);
    Uncovered(s, Range(1, 2), 1);
    var _ := s.InsertRed(1, [a]);
    OneLength(s.sparseRed, 1);
    KnownAfter({}, 1, [a], 2);
    KnownAfter({}, 1, [a], 3);
    Uncovered(s, Range(1, 3), 2);
    KnownAfter(s.got, 1, [a, b], 3);
    var _ := s.InsertRed(1, [a, b]);
    OneLength(s.sparseRed, 1);
  }

  lemma OneLength(sparse: map<nat, seq<byte>>, k: nat)
    requires k in sparse && sparse.Keys == {k}
    ensures MapSum(Lengths(sparse)) == |sparse[k]|
  {
    DrainSum(sparse, k);
    assert sparse - {k} == map[];
    assert Lengths(map[]) == map[];
  }

  lemma Uncovered(s: RecvSession, r: Range, p: int)
    requires s.Valid() && InRange(r, p) && !Known(s.got, p)
    ensures !Covers(s.redReceived.runs, r)
  {
    CoversIffEveryPoint(s.redReceived.runs, r);
  }

  // ---- The sending session -------------------------------------------------------------------

  class SendSession {
    const redLen: u64
    var eobSent: bool
    const claimsReceived: RangeSet

    ghost predicate Valid() reads this, claimsReceived { claimsReceived.Valid() }

    constructor (redLen: u64)
      ensures Valid() && fresh(claimsReceived) && this.redLen == redLen && !eobSent && claimsReceived.runs == []
    {
      this.redLen, eobSent := redLen, false;
      claimsReceived := new RangeSet();
    }

    /** `is_complete` */
    predicate IsComplete()
      requires Valid()
      reads this, claimsReceived
    {
      eobSent && Covers(claimsReceived.runs, Range(0, redLen))
    }

    /** A report claim: the clamped range joins the claims, and completion is never undone. */
    method Claim(start: u64, end: u64)
      requires Valid()
      modifies claimsReceived
      ensures Valid()
      ensures forall p :: Contains(claimsReceived.runs, p) <==>
        Contains(old(claimsReceived.runs), p) || (start <= p < end && p < redLen)
      ensures old(IsComplete()) ==> IsComplete()
    {
      var clamped := Range(Min(start, redLen), Min(end, redLen));
      if clamped.start < clamped.end {
        var _ := claimsReceived.Insert(clamped);
      }
      assert forall p :: InRange(clamped, p) <==> start <= p < end && p < redLen;
      if old(IsComplete()) {
        CoversMonotone(old(claimsReceived.runs), claimsReceived.runs, Range(0, redLen));
      }
    }
  }

  /** Complete exactly when the end was sent and every offset of the red part is claimed. */
  lemma CompleteIff(s: SendSession)
    requires s.Valid()
    ensures s.IsComplete() <==> s.eobSent && forall p :: 0 <= p < s.redLen ==> Contains(s.claimsReceived.runs, p)
  {
    CoversIffEveryPoint(s.claimsReceived.runs, Range(0, s.redLen));
    assert forall p :: InRange(Range(0, s.redLen), p) <==> 0 <= p < s.redLen;
  }

  lemma CoversMonotone(was: seq<Range>, now: seq<Range>, r: Range)
    requires WellFormed(was) && WellFormed(now)
    requires forall p :: Contains(was, p) ==> Contains(now, p)
    ensures Covers(was, r) ==> Covers(now, r)
  {
    CoversIffEveryPoint(was, r);
    CoversIffEveryPoint(now, r);
  }
}
