/** ltp-cla/src/driver.rs: reassembly of green (unreliable) blocks from more than one segment. */
module GreenBlocks {
  import opened Basics
  import opened Timers
  import opened RangeSets

  const MAX_REASSEMBLIES := 64

  const MAX_BUNDLE := 16 * 1024 * 1024

  /** Seconds after which an idle reassembly may be dropped to make room. */
  const IDLE_LIMIT := 60

  datatype Segment = Segment(offset: u64, data: seq<byte>, eob: bool)

  function End(g: Segment): nat { g.offset + |g.data| }

  datatype Reassembly = Reassembly(data: seq<byte>, received: nat, total: Option<nat>, lastUpdate: nat)

  const EMPTY := Reassembly([], 0, None, 0)

  // ---- One reassembly ------------------------------------------------------------------------

  /** `resize(end, 0)` when longer, then `copy_from_slice`. */
  function Painted(buf: seq<byte>, at: nat, data: seq<byte>): (out: seq<byte>)
    ensures |out| == Max(|buf|, at + |data|)
    ensures forall p :: 0 <= p < |out| ==>
      out[p] == if at <= p < at + |data| then data[p - at] else if p < |buf| then buf[p] else 0
  {
    var end := at + |data|;
    var grown := if |buf| < end then buf + seq(end - |buf|, _ => 0) else buf;
    grown[..at] + data + grown[end..]
  }

  /** What accepting a segment does to its reassembly. */
  function Absorb(r: Reassembly, g: Segment, now: nat): Reassembly {
    Reassembly(Painted(r.data, g.offset, g.data), r.received + |g.data|, if g.eob then Some(End(g)) else r.total, now)
  }

  /** The byte-count test that delivers the block. */
  predicate Fires(r: Reassembly) {
    r.total.Some? && r.total.value <= r.received && |r.data| == r.total.value
  }

  // ---- What a list of accepted segments amounts to -------------------------------------------

  /** The offsets the segments carry. */
  ghost function Covered(gs: seq<Segment>): set<int> {
    if gs == [] then {} else Covered(gs[..|gs| - 1]) + Offsets(gs[|gs| - 1])
  }

  ghost function Offsets(g: Segment): set<int> {
    Interval(g.offset, End(g))
  }

  ghost function TotalBytes(gs: seq<Segment>): nat {
    if gs == [] then 0 else TotalBytes(gs[..|gs| - 1]) + |gs[|gs| - 1].data|
  }

  /** The reassembly after the segments, in the order they came. */
  ghost function Assembled(gs: seq<Segment>): seq<byte> {
    if gs == [] then [] else Painted(Assembled(gs[..|gs| - 1]), gs[|gs| - 1].offset, gs[|gs| - 1].data)
  }

  ghost function TotalOf(gs: seq<Segment>): Option<nat> {
    if gs == [] then None
    else if gs[|gs| - 1].eob then Some(End(gs[|gs| - 1]))
    else TotalOf(gs[..|gs| - 1])
  }

  /** `r` is what is left of exactly the segments `gs`. */
  ghost predicate Holds(r: Reassembly, gs: seq<Segment>) {
    r.data == Assembled(gs) && r.received == TotalBytes(gs) && r.total == TotalOf(gs) && |r.data| <= MAX_BUNDLE
  }

  lemma AbsorbHolds(r: Reassembly, gs: seq<Segment>, g: Segment, now: nat)
    requires Holds(r, gs) && End(g) <= MAX_BUNDLE
    ensures Holds(Absorb(r, g, now), gs + [g])
  {
    assert (gs + [g])[..|gs|] == gs;
  }

  /** The segment is a slice of `block`, and the end-of-block mark is only on its end. */
  ghost predicate IsSlice(g: Segment, block: seq<byte>) {
    && End(g) <= |block| && (g.eob ==> End(g) == |block|)
    && g.data == block[g.offset..End(g)]
  }

  ghost predicate AreSlices(gs: seq<Segment>, block: seq<byte>) {
    forall i :: 0 <= i < |gs| ==> IsSlice(gs[i], block)
  }

  ghost predicate PairwiseDisjoint(gs: seq<Segment>) {
    forall i, j :: 0 <= i < j < |gs| ==> Offsets(gs[i]) !! Offsets(gs[j])
  }

  ghost function Shown(block: seq<byte>, covered: set<int>, p: nat): byte
    requires p < |block|
  {
    if p in covered then block[p] else 0
  }

  /** The buffer shows the block where it is covered and zeros elsewhere. */
  ghost predicate Shows(buf: seq<byte>, block: seq<byte>, covered: set<int>) {
    && |buf| <= |block|
    && (forall p :: p in covered ==> 0 <= p < |buf|)
    && (forall p :: 0 <= p < |buf| ==> buf[p] == Shown(block, covered, p))
  }

  /** For slices of one block, repeats and overlaps included. */
  lemma {:induction false} AssembledShows(gs: seq<Segment>, block: seq<byte>)
    requires AreSlices(gs, block)
    ensures Shows(Assembled(gs), block, Covered(gs))
  {
    if gs != [] {
      AssembledShows(gs[..|gs| - 1], block);
      PaintShows(Assembled(gs[..|gs| - 1]), block, Covered(gs[..|gs| - 1]), gs[|gs| - 1]);
    }
  }

  lemma PaintShows(buf: seq<byte>, block: seq<byte>, covered: set<int>, g: Segment)
    requires Shows(buf, block, covered) && IsSlice(g, block)
    ensures Shows(Painted(buf, g.offset, g.data), block, covered + Offsets(g))
  {
  }

  lemma {:induction false} TotalOfSlices(gs: seq<Segment>, block: seq<byte>)
    requires AreSlices(gs, block) && TotalOf(gs).Some?
    ensures TotalOf(gs).value == |block|
  {
    if !gs[|gs| - 1].eob { TotalOfSlices(gs[..|gs| - 1], block); }
  }

  lemma OffsetsCount(g: Segment)
    ensures |Offsets(g)| == |g.data|
  {
    IntervalSize(g.offset, End(g));
  }

  lemma {:induction false} CoveredIn(gs: seq<Segment>, p: int)
    requires p in Covered(gs)
    ensures exists i :: 0 <= i < |gs| && p in Offsets(gs[i])
  {
    if p in Covered(gs[..|gs| - 1]) { CoveredIn(gs[..|gs| - 1], p); }
  }

  /** Counting bytes counts offsets exactly when no two segments overlap; otherwise it overcounts. */
  lemma {:induction false} CountIsCoverage(gs: seq<Segment>)
    ensures |Covered(gs)| <= TotalBytes(gs)
    ensures PairwiseDisjoint(gs) ==> |Covered(gs)| == TotalBytes(gs)
  {
    if gs != [] {
      var front, g := gs[..|gs| - 1], gs[|gs| - 1];
      CountIsCoverage(front);
      OffsetsCount(g);
      if PairwiseDisjoint(gs) {
        LastIsDisjoint(gs);
        CardUnion(Covered(front), Offsets(g));
      } else {
        CardUnion(Covered(front), Offsets(g) - Covered(front));
        CardSubset(Offsets(g) - Covered(front), Offsets(g));
        assert Covered(front) + (Offsets(g) - Covered(front)) == Covered(gs);
      }
    }
  }

  lemma LastIsDisjoint(gs: seq<Segment>)
    requires gs != [] && PairwiseDisjoint(gs)
    ensures PairwiseDisjoint(gs[..|gs| - 1]) && Covered(gs[..|gs| - 1]) !! Offsets(gs[|gs| - 1])
  {
    var front := gs[..|gs| - 1];
    forall p | p in Covered(front) ensures p !in Offsets(gs[|gs| - 1]) {
      CoveredIn(front, p);
    }
  }

  lemma {:induction false} CardSubset(a: set<int>, b: set<int>)
    requires a <= b
    ensures |a| <= |b|
    ensures |a| == |b| ==> a == b
  {
    CardUnion(a, b - a);
    assert a + (b - a) == b;
    if |a| == |b| { assert b - a == {}; }
  }

  // ---- The main results ------------------------------------------------------------------------

  /** Everything the covered offsets leave open is zero in the block itself. */
  ghost predicate GapsAreZero(block: seq<byte>, covered: set<int>) {
    forall p :: 0 <= p < |block| && p !in covered ==> block[p] == 0
  }

  /** Exactly when what is delivered is the block, for any slices of it. */
  lemma DeliveredIsBlockIff(r: Reassembly, gs: seq<Segment>, block: seq<byte>)
    requires Holds(r, gs) && AreSlices(gs, block) && Fires(r)
    ensures |r.data| == |block|
    ensures r.data == block <==> GapsAreZero(block, Covered(gs))
  {
    AssembledShows(gs, block);
    TotalOfSlices(gs, block);
    if GapsAreZero(block, Covered(gs)) {
      assert forall p :: 0 <= p < |block| ==> r.data[p] == Shown(block, Covered(gs), p) == block[p];
    } else if r.data == block {
      assert forall p :: 0 <= p < |block| ==> block[p] == Shown(block, Covered(gs), p);
    }
  }

  /** For disjoint slices the test fires exactly when the whole block has arrived, its end mark included. */
  lemma FiresIffWhole(r: Reassembly, gs: seq<Segment>, block: seq<byte>)
    requires Holds(r, gs) && AreSlices(gs, block) && PairwiseDisjoint(gs)
    ensures Fires(r) <==> TotalOf(gs).Some? && Covered(gs) == Interval(0, |block|)
  {
    var all := Interval(0, |block|);
    AssembledShows(gs, block);
    CountIsCoverage(gs);
    IntervalSize(0, |block|);
    CardSubset(Covered(gs), all);
    if TotalOf(gs).Some? {
      TotalOfSlices(gs, block);
      if Covered(gs) == all && block != [] { assert |block| - 1 in Covered(gs); }
    }
  }

  /** So for disjoint slices, what is delivered is the block. */
  lemma DisjointDeliverBlock(r: Reassembly, gs: seq<Segment>, block: seq<byte>)
    requires Holds(r, gs) && AreSlices(gs, block) && PairwiseDisjoint(gs) && Fires(r)
    ensures r.data == block
  {
    FiresIffWhole(r, gs, block);
    DeliveredIsBlockIff(r, gs, block);
  }

  lemma PaintedTwice(at: nat, data: seq<byte>)
    ensures Painted([], at, data) == seq(at, _ => 0) + data
    ensures Painted(Painted([], at, data), at, data) == Painted([], at, data)
  {
  }

  lemma HoldsTwice(g: Segment, now: nat)
    requires End(g) <= MAX_BUNDLE
    ensures Holds(Absorb(Absorb(EMPTY, g, now), g, now), [g, g])
  {
    assert Holds(EMPTY, []);
    AbsorbHolds(EMPTY, [], g, now);
    assert [] + [g] == [g];
    AbsorbHolds(Absorb(EMPTY, g, now), [g], g, now);
    assert [g] + [g] == [g, g];
  }

  /** Repeats are counted twice: any block's last half received twice passes for the whole block. */
  lemma RepeatPassesForWhole(block: seq<byte>, g: Segment, now: nat)
    requires |block| % 2 == 0 && 0 < |block| <= MAX_BUNDLE && g == Segment(|block| / 2, block[|block| / 2..], true)
    ensures AreSlices([g, g], block)
    ensures
      var r := Absorb(Absorb(EMPTY, g, now), g, now);
      Holds(r, [g, g]) && Fires(r) && (block[0] != 0 ==> r.data != block)
  {
    HoldsTwice(g, now);
    PaintedTwice(g.offset, g.data);
  }

  // ---- The table of open reassemblies ----------------------------------------------------------

  /** `retain` of the reassemblies updated less than `IDLE_LIMIT` ago; elapsed time saturates at zero. */
  function Recent(entries: map<SessionId, Reassembly>, now: nat): map<SessionId, Reassembly> {
    map s | s in entries && SatSub(now, entries[s].lastUpdate) < IDLE_LIMIT :: entries[s]
  }

  /** What making room for session `s` leaves: everything, unless a new session finds the table full. */
  function AfterRoom(entries: map<SessionId, Reassembly>, s: SessionId, now: nat): map<SessionId, Reassembly> {
    if s in entries || |entries| < MAX_REASSEMBLIES then entries else Recent(entries, now)
  }

  function Restricted<T>(m: map<SessionId, T>, keys: set<SessionId>): map<SessionId, T> {
    map s | s in m && s in keys :: m[s]
  }

  ghost function SoFar(history: map<SessionId, seq<Segment>>, s: SessionId): seq<Segment> {
    if s in history then history[s] else []
  }

  ghost predicate Consistent(entries: map<SessionId, Reassembly>, history: map<SessionId, seq<Segment>>) {
    && |entries| <= MAX_REASSEMBLIES
    && entries.Keys == history.Keys
    && forall s :: s in entries ==> Holds(entries[s], history[s])
  }

  lemma RecentIsFewer(entries: map<SessionId, Reassembly>, now: nat)
    ensures |Recent(entries, now)| <= |entries|
  {
    FewerKeys(Recent(entries, now).Keys, entries.Keys);
  }

  lemma FewerKeys(a: set<SessionId>, b: set<SessionId>)
    requires a <= b
    ensures |a| <= |b|
  {
    assert a + (b - a) == b;
  }

  lemma PutKeeps(entries: map<SessionId, Reassembly>, history: map<SessionId, seq<Segment>>, s: SessionId,
                 r: Reassembly, gs: seq<Segment>)
    requires Consistent(entries, history) && Holds(r, gs)
    requires s in entries || |entries| < MAX_REASSEMBLIES
    ensures Consistent(entries[s := r], history[s := gs]) && OthersKept(history, history[s := gs], s)
  {
    PutSize(entries, s, r);
  }

  lemma PutSize(entries: map<SessionId, Reassembly>, s: SessionId, r: Reassembly)
    ensures |entries[s := r]| == if s in entries then |entries| else |entries| + 1
  {
    assert entries[s := r].Keys == entries.Keys + {s};
    assert s in entries ==> entries.Keys + {s} == entries.Keys;
  }

  lemma RemoveKeeps(entries: map<SessionId, Reassembly>, history: map<SessionId, seq<Segment>>, s: SessionId)
    requires Consistent(entries, history)
    ensures Consistent(entries - {s}, history - {s}) && OthersKept(history, history - {s}, s)
  {
    FewerKeys((entries - {s}).Keys, entries.Keys);
  }

  /** The segments `gs` of session `s` either completed its block, which is delivered, or are all kept. */
  ghost predicate TakenAs(gs: seq<Segment>, entries: map<SessionId, Reassembly>, history: map<SessionId, seq<Segment>>,
                          s: SessionId, now: nat, delivered: Option<seq<byte>>) {
    exists r :: Holds(r, gs) && r.lastUpdate == now &&
      if Fires(r) then delivered == Some(r.data) && s !in entries
      else delivered == None && s in entries && entries[s] == r && SoFar(history, s) == gs
  }

  /** The reassemblies of other sessions that are still there have the segments they had. */
  ghost predicate OthersKept(was: map<SessionId, seq<Segment>>, now: map<SessionId, seq<Segment>>, s: SessionId) {
    forall o :: o != s && o in now ==> o in was && now[o] == was[o]
  }

  /** The entry of session `s`, made when missing, takes the segment; a complete one is removed. */
  method TakeInto(entries: map<SessionId, Reassembly>, ghost history: map<SessionId, seq<Segment>>,
                  s: SessionId, g: Segment, now: nat)
    returns (left: map<SessionId, Reassembly>, ghost kept: map<SessionId, seq<Segment>>, delivered: Option<seq<byte>>)
    requires Consistent(entries, history) && End(g) <= MAX_BUNDLE && (s in entries || |entries| < MAX_REASSEMBLIES)
    ensures Consistent(left, kept) && left - {s} == entries - {s} && OthersKept(history, kept, s)
    ensures TakenAs(SoFar(history, s) + [g], left, kept, s, now, delivered)
  {
    hide Holds, TakenAs, Absorb, Fires, Consistent, OthersKept, SoFar;
    var entry := if s in entries then entries[s] else EMPTY;
    ghost var gs := SoFar(history, s) + [g];
    EntryTakes(entries, history, s, g, now);
    entry := Absorb(entry, g, now);
    SameElsewhere(entries, s, entry);
    if Fires(entry) {
      RemoveKeeps(entries, history, s);
      DeliverTakes(entries - {s}, history - {s}, s, entry, gs);
      left, kept, delivered := entries - {s}, history - {s}, Some(entry.data);
    } else {
      PutKeeps(entries, history, s, entry, gs);
      PutTakes(entries, history, s, entry, gs);
      left, kept, delivered := entries[s := entry], history[s := gs], None;
    }
  }

  lemma EntryTakes(entries: map<SessionId, Reassembly>, history: map<SessionId, seq<Segment>>, s: SessionId, g: Segment, now: nat)
    requires Consistent(entries, history) && End(g) <= MAX_BUNDLE
    ensures
      var r := Absorb(if s in entries then entries[s] else EMPTY, g, now);
      Holds(r, SoFar(history, s) + [g]) && r.lastUpdate == now
  {
    AbsorbHolds(if s in entries then entries[s] else EMPTY, SoFar(history, s), g, now);
  }

  lemma SameElsewhere(entries: map<SessionId, Reassembly>, s: SessionId, r: Reassembly)
    ensures entries[s := r] - {s} == entries - {s} == entries - {s} - {s}
  {
  }

  lemma DeliverTakes(left: map<SessionId, Reassembly>, kept: map<SessionId, seq<Segment>>, s: SessionId, r: Reassembly, gs: seq<Segment>)
    requires Holds(r, gs) && Fires(r) && s !in left
    ensures TakenAs(gs, left, kept, s, r.lastUpdate, Some(r.data))
  {
  }

  lemma PutTakes(entries: map<SessionId, Reassembly>, history: map<SessionId, seq<Segment>>, s: SessionId, r: Reassembly, gs: seq<Segment>)
    requires Holds(r, gs) && !Fires(r)
    ensures TakenAs(gs, entries[s := r], history[s := gs], s, r.lastUpdate, None)
  {
    assert entries[s := r][s] == r;
  }

  /**
   * Another session's arrival takes nothing away from a reassembly while fewer than 64 are open, nor
   * from one updated less than 60 seconds ago; when a new session finds 64 open, all others go.
   */
  ghost predicate Spared(was: map<SessionId, Reassembly>, left: map<SessionId, Reassembly>, s: SessionId, now: nat) {
    forall o :: o != s ==>
      if s in was || |was| < 64 then (o in left <==> o in was) && (o in left ==> left[o] == was[o])
      else (o in left <==> o in was && now < was[o].lastUpdate + 60) && (o in left ==> left[o] == was[o])
  }

  lemma RoomSpares(was: map<SessionId, Reassembly>, left: map<SessionId, Reassembly>, s: SessionId, now: nat)
    requires left - {s} == AfterRoom(was, s, now) - {s}
    ensures Spared(was, left, s, now)
  {
    forall o | o != s ensures o in left <==> o in AfterRoom(was, s, now) {
      assert o in left <==> o in left - {s};
      assert o in AfterRoom(was, s, now) <==> o in AfterRoom(was, s, now) - {s};
    }
    forall o | o != s && o in left ensures left[o] == AfterRoom(was, s, now)[o] {
      assert left[o] == (left - {s})[o] == (AfterRoom(was, s, now) - {s})[o];
    }
  }

  datatype Arrival = Whole | TooFar | TooLarge | Crowded | Taken

  class GreenTable {
    var entries: map<SessionId, Reassembly>
    /** The segments each open reassembly has taken, in order. */
    ghost var history: map<SessionId, seq<Segment>>

    /** At most 64 reassemblies, each at most 16 MiB and exactly what its segments make it. */
    ghost predicate Valid()
      reads this
    {
      Consistent(entries, history)
    }

    constructor ()
      ensures Valid() && entries == map[] && history == map[]
    {
      entries, history := map[], map[];
    }

    /** Room for a session without a reassembly: when the table is full the idle ones go. */
    method MakeRoom(s: SessionId, now: nat) returns (room: bool)
      requires Valid()
      modifies this
      ensures Valid()
      ensures entries == AfterRoom(old(entries), s, now)
      ensures SoFar(history, s) == SoFar(old(history), s) && OthersKept(old(history), history, s)
      ensures room <==> s in entries || |entries| < MAX_REASSEMBLIES
    {
      room := true;
      if s !in entries && |entries| >= MAX_REASSEMBLIES {
        RecentIsFewer(entries, now);
        entries := Recent(entries, now);
        history := Restricted(history, entries.Keys);
        room := |entries| < MAX_REASSEMBLIES;
      }
    }

    /** One green segment. The reassembly it completes is delivered and forgotten. */
    method Arrive(s: SessionId, g: Segment, now: nat) returns (arrival: Arrival, delivered: Option<seq<byte>>)
      requires Valid()
      modifies this
      ensures Valid()
      ensures arrival == Whole <==> g.offset == 0 && g.eob
      ensures arrival == TooFar <==> arrival != Whole && 0x1_0000_0000_0000_0000 <= End(g)
      ensures arrival == TooLarge <==> arrival != Whole && MAX_BUNDLE < End(g) < 0x1_0000_0000_0000_0000
      // A block in one segment is delivered as it is; the table is not touched.
      ensures arrival == Whole ==> delivered == Some(g.data)
      ensures arrival in {Whole, TooFar} ==> entries == old(entries)
      ensures arrival == TooLarge ==> entries == old(entries) - {s}
      ensures arrival == Crowded ==>
        entries == AfterRoom(old(entries), s, now) && s !in entries && |entries| >= MAX_REASSEMBLIES
      ensures arrival in {TooFar, TooLarge, Crowded} ==> delivered == None
      ensures arrival == Taken ==> TakenAs(SoFar(old(history), s) + [g], entries, history, s, now, delivered)
      // Other reassemblies go only when the table was full and they were idle.
      ensures arrival == Taken ==> entries - {s} == AfterRoom(old(entries), s, now) - {s}
      ensures arrival in {Taken, Crowded} ==> Spared(old(entries), entries, s, now)
      ensures OthersKept(old(history), history, s)
      ensures arrival in {Whole, TooFar, Crowded} ==> SoFar(history, s) == SoFar(old(history), s)
    {
      delivered := None;
      if g.offset == 0 && g.eob { return Whole, Some(g.data); }
      if 0x1_0000_0000_0000_0000 <= End(g) { return TooFar, None; }
      if MAX_BUNDLE < End(g) {
        RemoveKeeps(entries, history, s);
        entries, history := entries - {s}, history - {s};
        return TooLarge, None;
      }
      var room := MakeRoom(s, now);
      if !room {
        RoomSpares(old(entries), entries, s, now);
        return Crowded, None;
      }
      delivered := Take(s, g, now);
      RoomSpares(old(entries), entries, s, now);
      arrival := Taken;
    }

    method Take(s: SessionId, g: Segment, now: nat) returns (delivered: Option<seq<byte>>)
      requires Valid() && End(g) <= MAX_BUNDLE && (s in entries || |entries| < MAX_REASSEMBLIES)
      modifies this
      ensures Valid()
      ensures TakenAs(SoFar(old(history), s) + [g], entries, history, s, now, delivered)
      ensures entries - {s} == old(entries) - {s} && OthersKept(old(history), history, s)
    {
      entries, history, delivered := TakeInto(entries, history, s, g, now);
      // The clean-up above 128 reassemblies never runs.
      assert |entries| <= 128;
    }
  }

  /** At most 64 open reassemblies, each of at most 16 MiB. */
  lemma TableIsBounded(t: GreenTable)
    requires t.Valid()
    ensures |t.entries| <= 64 && forall s :: s in t.entries ==> |t.entries[s].data| <= 16_777_216
  {
  }

  // ---- Interleaved sessions ----------------------------------------------------------------------------

  datatype Arrived = Arrived(session: SessionId, segment: Segment, now: nat)

  /** Every session sends slices of its own block, no two of them overlapping. */
  ghost predicate SentDisjointly(arrivals: seq<Arrived>, blocks: map<SessionId, seq<byte>>) {
    && (forall k :: 0 <= k < |arrivals| ==> OwnSlice(arrivals[k].session, arrivals[k].segment, blocks))
    && (forall i, j :: 0 <= i < j < |arrivals| ==> Apart(arrivals[i], arrivals[j]))
  }

  ghost predicate OwnSlice(s: SessionId, g: Segment, blocks: map<SessionId, seq<byte>>) {
    s in blocks && IsSlice(g, blocks[s])
  }

  ghost predicate Apart(a: Arrived, b: Arrived) {
    a.session == b.session ==> Offsets(a.segment) !! Offsets(b.segment)
  }

  /** The open reassembly of a session holds disjoint slices, none of which overlaps what is still to come. */
  ghost predicate ReadyFor(gs: seq<Segment>, s: SessionId, coming: seq<Arrived>, blocks: map<SessionId, seq<byte>>) {
    && s in blocks && AreSlices(gs, blocks[s]) && PairwiseDisjoint(gs)
    && forall i, k :: 0 <= i < |gs| && 0 <= k < |coming| && coming[k].session == s ==> Offsets(gs[i]) !! Offsets(coming[k].segment)
  }

  ghost predicate AllReady(history: map<SessionId, seq<Segment>>, coming: seq<Arrived>, blocks: map<SessionId, seq<byte>>) {
    forall s :: s in history ==> ReadyFor(history[s], s, coming, blocks)
  }

  /** Taking the next segment of its session keeps it ready for the rest. */
  lemma TakeNext(gs: seq<Segment>, coming: seq<Arrived>, blocks: map<SessionId, seq<byte>>)
    requires coming != [] && SentDisjointly(coming, blocks) && ReadyFor(gs, coming[0].session, coming, blocks)
    ensures ReadyFor(gs + [coming[0].segment], coming[0].session, coming[1..], blocks)
  {
    var s, g, rest := coming[0].session, coming[0].segment, coming[1..];
    forall k | 0 <= k < |rest| ensures Apart(coming[0], rest[k]) {
      assert rest[k] == coming[k + 1];
    }
    forall i, k | 0 <= i < |gs| && 0 <= k < |rest| && rest[k].session == s ensures Offsets(gs[i]) !! Offsets(rest[k].segment) {
      assert rest[k] == coming[k + 1];
    }
    assert OwnSlice(s, g, blocks);
  }

  lemma StaysReady(gs: seq<Segment>, s: SessionId, coming: seq<Arrived>, blocks: map<SessionId, seq<byte>>)
    requires coming != [] && ReadyFor(gs, s, coming, blocks)
    ensures ReadyFor(gs, s, coming[1..], blocks)
  {
    forall i, k | 0 <= i < |gs| && 0 <= k < |coming[1..]| && coming[1..][k].session == s
      ensures Offsets(gs[i]) !! Offsets(coming[1..][k].segment)
    {
      assert coming[1..][k] == coming[k + 1];
    }
  }

  lemma RestIsDisjoint(coming: seq<Arrived>, blocks: map<SessionId, seq<byte>>)
    requires coming != [] && SentDisjointly(coming, blocks)
    ensures SentDisjointly(coming[1..], blocks) && OwnSlice(coming[0].session, coming[0].segment, blocks)
  {
    forall k | 0 <= k < |coming[1..]| ensures OwnSlice(coming[1..][k].session, coming[1..][k].segment, blocks) {
      assert coming[1..][k] == coming[k + 1];
    }
    forall i, j | 0 <= i < j < |coming[1..]| ensures Apart(coming[1..][i], coming[1..][j]) {
      assert coming[1..][i] == coming[i + 1] && coming[1..][j] == coming[j + 1];
    }
  }

  lemma NothingIsReady(s: SessionId, coming: seq<Arrived>, blocks: map<SessionId, seq<byte>>)
    requires s in blocks
    ensures ReadyFor([], s, coming, blocks)
  {
  }

  /** After an arrival every open reassembly is ready for what is still to come. */
  lemma ArrivalKeepsReady(was: map<SessionId, seq<Segment>>, now: map<SessionId, seq<Segment>>, coming: seq<Arrived>,
                          blocks: map<SessionId, seq<byte>>)
    requires coming != [] && SentDisjointly(coming, blocks) && AllReady(was, coming, blocks)
    requires OthersKept(was, now, coming[0].session)
    requires
      var s, g := coming[0].session, coming[0].segment;
      s in now ==> (s in was && now[s] == was[s]) || now[s] == SoFar(was, s) + [g]
    ensures AllReady(now, coming[1..], blocks)
  {
    var s0 := coming[0].session;
    RestIsDisjoint(coming, blocks);
    NothingIsReady(s0, coming, blocks);
    TakeNext(SoFar(was, s0), coming, blocks);
    forall s | s in now ensures ReadyFor(now[s], s, coming[1..], blocks) {
      if s in was { StaysReady(was[s], s, coming, blocks); }
    }
  }

  /** What one arrival delivers is the block of its session. */
  lemma DeliveredIsOwnBlock(gs: seq<Segment>, coming: seq<Arrived>, blocks: map<SessionId, seq<byte>>, r: Reassembly)
    requires coming != [] && SentDisjointly(coming, blocks) && ReadyFor(gs, coming[0].session, coming, blocks)
    requires Holds(r, gs + [coming[0].segment]) && Fires(r)
    ensures r.data == blocks[coming[0].session]
  {
    TakeNext(gs, coming, blocks);
    DisjointDeliverBlock(r, gs + [coming[0].segment], blocks[coming[0].session]);
  }

  /**
   * Segments of any number of sessions, interleaved in any way: whatever is dropped or swept out in
   * between, everything delivered is the whole block of its session.
   */
  method ReceiveAll(t: GreenTable, arrivals: seq<Arrived>, ghost blocks: map<SessionId, seq<byte>>)
    returns (delivered: seq<(SessionId, seq<byte>)>)
    requires t.Valid() && AllReady(t.history, arrivals, blocks) && SentDisjointly(arrivals, blocks)
    modifies t
    ensures t.Valid()
    ensures forall i :: 0 <= i < |delivered| ==> delivered[i].0 in blocks && delivered[i].1 == blocks[delivered[i].0]
  {
    delivered := [];
    var rest := arrivals;
    while rest != []
      invariant t.Valid() && AllReady(t.history, rest, blocks) && SentDisjointly(rest, blocks)
      invariant forall i :: 0 <= i < |delivered| ==> delivered[i].0 in blocks && delivered[i].1 == blocks[delivered[i].0]
      decreases |rest|
    {
      var bytes := ReceiveOne(t, rest, blocks);
      if bytes.Some? {
        delivered := delivered + [(rest[0].session, bytes.value)];
      }
      RestIsDisjoint(rest, blocks);
      rest := rest[1..];
    }
  }

  method ReceiveOne(t: GreenTable, coming: seq<Arrived>, ghost blocks: map<SessionId, seq<byte>>) returns (bytes: Option<seq<byte>>)
    requires coming != [] && t.Valid() && AllReady(t.history, coming, blocks) && SentDisjointly(coming, blocks)
    modifies t
    ensures t.Valid() && AllReady(t.history, coming[1..], blocks)
    ensures coming[0].session in blocks && (bytes.Some? ==> bytes.value == blocks[coming[0].session])
  {
    hide Holds, Consistent, SentDisjointly, AllReady, TakenAs, OthersKept, IsSlice, Restricted, Recent, AfterRoom;
    var Arrived(s, g, now) := coming[0];
    ghost var was := t.history;
    OpenMeansKept(t.entries, was);
    var arrival;
    arrival, bytes := t.Arrive(s, g, now);
    OpenMeansKept(t.entries, t.history);
    if arrival == Taken {
      TakenIsOwnBlock(was, t.history, t.entries, coming, blocks, bytes);
    } else if arrival == Whole {
      WholeIsOwnBlock(coming, blocks);
    }
    RestIsDisjoint(coming, blocks);
    ArrivalKeepsReady(was, t.history, coming, blocks);
  }

  lemma OpenMeansKept(entries: map<SessionId, Reassembly>, history: map<SessionId, seq<Segment>>)
    requires Consistent(entries, history)
    ensures entries.Keys == history.Keys
  {
  }

  lemma WholeIsOwnBlock(coming: seq<Arrived>, blocks: map<SessionId, seq<byte>>)
    requires coming != [] && SentDisjointly(coming, blocks)
    requires coming[0].segment.offset == 0 && coming[0].segment.eob
    ensures coming[0].session in blocks && coming[0].segment.data == blocks[coming[0].session]
  {
    RestIsDisjoint(coming, blocks);
  }

  /** A taken segment is kept, or completes the block of its session. */
  lemma TakenIsOwnBlock(was: map<SessionId, seq<Segment>>, history: map<SessionId, seq<Segment>>,
                        entries: map<SessionId, Reassembly>, coming: seq<Arrived>, blocks: map<SessionId, seq<byte>>,
                        bytes: Option<seq<byte>>)
    requires coming != [] && SentDisjointly(coming, blocks) && AllReady(was, coming, blocks)
    requires entries.Keys == history.Keys
    requires
      var Arrived(s, g, now) := coming[0];
      TakenAs(SoFar(was, s) + [g], entries, history, s, now, bytes)
    ensures
      var Arrived(s, g, _) := coming[0];
      && s in blocks && (bytes.Some? ==> bytes.value == blocks[s])
      && (s in history ==> history[s] == SoFar(was, s) + [g])
  {
    hide SentDisjointly, Holds, IsSlice;
    var Arrived(s, g, now) := coming[0];
    var gs := SoFar(was, s);
    RestIsDisjoint(coming, blocks);
    OwnBlockExists(s, g, blocks);
    NothingIsReady(s, coming, blocks);
    var r :| Holds(r, gs + [g]) && r.lastUpdate == now &&
      if Fires(r) then bytes == Some(r.data) && s !in entries
      else bytes == None && s in entries && entries[s] == r && SoFar(history, s) == gs + [g];
    if Fires(r) { DeliveredIsOwnBlock(gs, coming, blocks, r); }
  }

  lemma OwnBlockExists(s: SessionId, g: Segment, blocks: map<SessionId, seq<byte>>)
    requires OwnSlice(s, g, blocks)
    ensures s in blocks
  {
  }
}
