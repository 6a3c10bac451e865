/** ltp/src/range.rs: a set of `u64` values kept as sorted, coalesced half-open ranges. */
module RangeSets {
  import opened Basics

  /** Rust's `core::ops::Range<u64>`. */
  datatype Range = Range(start: u64, end: u64)

  ghost predicate InRange(r: Range, p: int) { r.start <= p < r.end }

  /** Runs are non-empty, ascending, and never touch: there is a hole between two neighbours. */
  ghost predicate WellFormed(runs: seq<Range>) {
    && (forall i :: 0 <= i < |runs| ==> runs[i].start < runs[i].end)
    && (forall i, j :: 0 <= i < j < |runs| ==> runs[i].end < runs[j].start)
  }

  /** The mathematical set a run list stands for. */
  ghost predicate Contains(runs: seq<Range>, p: int) {
    exists i {:trigger InRange(runs[i], p)} :: 0 <= i < |runs| && InRange(runs[i], p)
  }

  // ---- partition_point ---------------------------------------------------------------------

  /** The standard library's binary search for the first run with `bound <= end`. */
  function PartitionPoint(runs: seq<Range>, bound: nat, lo: nat, hi: nat): (k: nat)
    requires lo <= hi <= |runs| && WellFormed(runs)
    requires forall i :: 0 <= i < lo ==> runs[i].end < bound
    requires forall i :: hi <= i < |runs| ==> bound <= runs[i].end
    ensures k <= |runs|
    ensures forall i :: 0 <= i < k ==> runs[i].end < bound
    ensures forall i :: k <= i < |runs| ==> bound <= runs[i].end
    decreases hi - lo
  {
    if lo == hi then lo
    else
      var mid := (lo + hi) / 2;
      if runs[mid].end < bound then PartitionPoint(runs, bound, mid + 1, hi)
      else PartitionPoint(runs, bound, lo, mid)
  }

  /** `partition_point(|run| run.end < bound)` */
  function FirstReaching(runs: seq<Range>, bound: nat): (k: nat)
    requires WellFormed(runs)
    ensures k <= |runs|
    ensures forall i :: 0 <= i < k ==> runs[i].end < bound
    ensures forall i :: k <= i < |runs| ==> bound <= runs[i].end
  {
    PartitionPoint(runs, bound, 0, |runs|)
  }

  /** `partition_point(|run| run.end <= bound)` */
  function FirstBeyond(runs: seq<Range>, bound: u64): (k: nat)
    requires WellFormed(runs)
    ensures k <= |runs|
    ensures forall i :: 0 <= i < k ==> runs[i].end <= bound
    ensures forall i :: k <= i < |runs| ==> bound < runs[i].end
  {
    FirstReaching(runs, bound + 1)
  }

  // ---- Counting ----------------------------------------------------------------------------

  function CoveredLen(runs: seq<Range>): int {
    if runs == [] then 0 else CoveredLen(runs[..|runs| - 1]) + runs[|runs| - 1].end - runs[|runs| - 1].start
  }

  lemma {:induction false} CoveredLenSplit(a: seq<Range>, b: seq<Range>)
    ensures CoveredLen(a + b) == CoveredLen(a) + CoveredLen(b)
  {
    if b == [] {
      assert a + b == a;
    } else {
      assert (a + b)[..|a + b| - 1] == a + b[..|b| - 1];
      CoveredLenSplit(a, b[..|b| - 1]);
    }
  }

  ghost predicate Between(lo: int, p: int, hi: int) { lo <= p < hi }

  ghost function Interval(lo: int, hi: int): set<int> { set p | lo <= p < hi && Between(lo, p, hi) }

  lemma {:induction false} IntervalSize(lo: int, hi: int)
    requires lo <= hi
    ensures |Interval(lo, hi)| == hi - lo
    decreases hi - lo
  {
    if lo < hi {
      IntervalSize(lo, hi - 1);
      assert Interval(lo, hi) == Interval(lo, hi - 1) + {hi - 1};
    }
  }

  ghost function Points(runs: seq<Range>): set<int> {
    set p | 0 <= p < 0x1_0000_0000_0000_0000 && Contains(runs, p)
  }

  lemma ContainsConcat(a: seq<Range>, b: seq<Range>, p: int)
    ensures Contains(a + b, p) <==> Contains(a, p) || Contains(b, p)
  {
    if Contains(a + b, p) {
      var i :| 0 <= i < |a + b| && InRange((a + b)[i], p);
      assert if i < |a| then InRange(a[i], p) else InRange(b[i - |a|], p);
    }
    if Contains(a, p) {
      var i :| 0 <= i < |a| && InRange(a[i], p);
      assert InRange((a + b)[i], p);
    }
    if Contains(b, p) {
      var i :| 0 <= i < |b| && InRange(b[i], p);
      assert InRange((a + b)[|a| + i], p);
    }
  }

  lemma PushContains(front: seq<Range>, last: Range, p: int)
    ensures Contains(front + [last], p) <==> Contains(front, p) || InRange(last, p)
  {
    ContainsConcat(front, [last], p);
    if InRange(last, p) { assert InRange([last][0], p); }
  }

  lemma PointsPush(front: seq<Range>, last: Range)
    requires forall i :: 0 <= i < |front| ==> front[i].end < last.start
    ensures Points(front + [last]) == Points(front) + Interval(last.start, last.end)
    ensures Points(front) !! Interval(last.start, last.end)
  {
    forall p ensures Contains(front + [last], p) <==> Contains(front, p) || InRange(last, p) {
      PushContains(front, last, p);
    }
  }

  lemma PointsPushSize(front: seq<Range>, last: Range)
    requires forall i :: 0 <= i < |front| ==> front[i].end < last.start
    requires last.start < last.end
    ensures |Points(front + [last])| == |Points(front)| + last.end - last.start
  {
    PointsPush(front, last);
    IntervalSize(last.start, last.end);
  }

  /** `covered_len` counts exactly the values of the set. */
  lemma {:induction false} CoveredLenCounts(runs: seq<Range>)
    requires WellFormed(runs)
    ensures CoveredLen(runs) == |Points(runs)|
  {
    if runs == [] {
      assert Points(runs) == {};
    } else {
      var front, last := runs[..|runs| - 1], runs[|runs| - 1];
      CoveredLenCounts(front);
      PointsPushSize(front, last);
      assert runs == front + [last];
    }
  }

  /** The ranges of a stretch of runs are disjoint, so they fit between its two ends. */
  lemma {:induction false} CoveredLenFits(runs: seq<Range>, first: nat, last: nat)
    requires WellFormed(runs) && first < last <= |runs|
    ensures 0 < CoveredLen(runs[first..last]) <= runs[last - 1].end - runs[first].start
    decreases last - first
  {
    CoveredLenPush(runs, first, last - 1);
    if first < last - 1 {
      CoveredLenFits(runs, first, last - 1);
    } else {
      assert runs[first..last - 1] == [];
    }
  }

  /** `covered_len` fits in a `u64`. */
  lemma CoveredLenIsU64(runs: seq<Range>)
    requires WellFormed(runs)
    ensures 0 <= CoveredLen(runs) < 0x1_0000_0000_0000_0000
  {
    assert runs[0..|runs|] == runs;
    if runs != [] { CoveredLenFits(runs, 0, |runs|); }
  }

  // ---- Canonical form ----------------------------------------------------------------------

  /** Two well-formed run lists for the same set are the same list. */
  lemma {:induction false} Canonical(a: seq<Range>, b: seq<Range>)
    requires WellFormed(a) && WellFormed(b)
    requires forall p :: Contains(a, p) <==> Contains(b, p)
    ensures a == b
    decreases |a|
  {
    if a == [] || b == [] {
      assert a != [] ==> InRange(a[0], a[0].start) && Contains(a, a[0].start);
      assert b != [] ==> InRange(b[0], b[0].start) && Contains(b, b[0].start);
    } else {
      FirstRunDetermined(a, b);
      TailsAgree(a, b);
      Canonical(a[1..], b[1..]);
      assert a == [a[0]] + a[1..] && b == [b[0]] + b[1..];
    }
  }

  lemma TailsAgree(a: seq<Range>, b: seq<Range>)
    requires WellFormed(a) && WellFormed(b) && a != [] && b != [] && a[0] == b[0]
    requires forall p :: Contains(a, p) <==> Contains(b, p)
    ensures forall p :: Contains(a[1..], p) <==> Contains(b[1..], p)
  {
    hide WellFormed, Contains;
    forall p ensures Contains(a[1..], p) <==> Contains(b[1..], p) {
      TailContains(a, p);
      TailContains(b, p);
    }
  }

  lemma TailContains(a: seq<Range>, p: int)
    requires WellFormed(a) && a != []
    ensures Contains(a[1..], p) <==> Contains(a, p) && !InRange(a[0], p)
  {
    if Contains(a[1..], p) {
      var i :| 0 <= i < |a[1..]| && InRange(a[1..][i], p);
      assert InRange(a[i + 1], p);
    }
    if Contains(a, p) && !InRange(a[0], p) {
      var i :| 0 <= i < |a| && InRange(a[i], p);
      assert InRange(a[1..][i - 1], p);
    }
  }

  lemma FirstRunDetermined(a: seq<Range>, b: seq<Range>)
    requires WellFormed(a) && WellFormed(b) && a != [] && b != []
    requires forall p :: Contains(a, p) <==> Contains(b, p)
    ensures a[0] == b[0]
  {
    FirstRunBelow(a, b);
    FirstRunBelow(b, a);
  }

  lemma FirstRunBelow(a: seq<Range>, b: seq<Range>)
    requires WellFormed(a) && WellFormed(b) && a != [] && b != []
    requires forall p :: Contains(a, p) <==> Contains(b, p)
    ensures b[0].start <= a[0].start
    ensures a[0].start == b[0].start ==> b[0].end <= a[0].end
  {
    assert InRange(a[0], a[0].start);
    assert Contains(b, a[0].start);
    assert !Contains(a, a[0].end);
    assert !InRange(b[0], a[0].end);
  }

  // ---- covers ------------------------------------------------------------------------------

  /** `RangeSet::covers`: one run must hold the whole range, found by binary search. */
  predicate Covers(runs: seq<Range>, r: Range)
    requires WellFormed(runs)
  {
    if r.start >= r.end then true
    else
      var i := FirstReaching(runs, r.end);
      i < |runs| && runs[i].start <= r.start && r.end <= runs[i].end
  }

  /** When `covers` says no, some value of the range is missing; this is where coalescing is needed. */
  lemma MissingValue(runs: seq<Range>, r: Range) returns (p: int)
    requires WellFormed(runs) && !Covers(runs, r)
    ensures InRange(r, p) && !Contains(runs, p)
  {
    var i := FirstReaching(runs, r.end);
    p := if i < |runs| && runs[i].start <= r.end then runs[i].start - 1 else r.end - 1;
  }

  /** Soundness and completeness of `covers`. */
  lemma CoversIffEveryPoint(runs: seq<Range>, r: Range)
    requires WellFormed(runs)
    ensures Covers(runs, r) <==> forall p :: InRange(r, p) ==> Contains(runs, p)
  {
    if !Covers(runs, r) {
      var p := MissingValue(runs, r);
    } else if r.start < r.end {
      var i := FirstReaching(runs, r.end);
      forall p | InRange(r, p) ensures Contains(runs, p) { assert InRange(runs[i], p); }
    }
  }

  // ---- runs_within and gaps ----------------------------------------------------------------

  /** The clipped runs from index `i` on, as `take_while` and `map` yield them. */
  function ClippedFrom(runs: seq<Range>, scope: Range, i: nat): seq<Range>
    requires i <= |runs|
    decreases |runs| - i
  {
    if i == |runs| || runs[i].start >= scope.end then []
    else
      [Range(Max(runs[i].start, scope.start), Min(runs[i].end, scope.end))] + ClippedFrom(runs, scope, i + 1)
  }

  function RunsWithin(runs: seq<Range>, scope: Range): seq<Range>
    requires WellFormed(runs)
  {
    ClippedFrom(runs, scope, FirstBeyond(runs, scope.start))
  }

  lemma {:induction false} ClippedElements(runs: seq<Range>, scope: Range, i: nat)
    requires WellFormed(runs) && i <= |runs|
    ensures var c := ClippedFrom(runs, scope, i);
      && i + |c| <= |runs|
      && (forall k :: 0 <= k < |c| ==>
        c[k] == Range(Max(runs[i + k].start, scope.start), Min(runs[i + k].end, scope.end)) && runs[i + k].start < scope.end)
      && (forall k :: i + |c| <= k < |runs| ==> scope.end <= runs[k].start)
    decreases |runs| - i
  {
    if i < |runs| && runs[i].start < scope.end {
      ClippedElements(runs, scope, i + 1);
      var c, rest := ClippedFrom(runs, scope, i), ClippedFrom(runs, scope, i + 1);
      forall k | 0 <= k < |c|
        ensures c[k] == Range(Max(runs[i + k].start, scope.start), Min(runs[i + k].end, scope.end)) && runs[i + k].start < scope.end
      {
        if 0 < k { assert c[k] == rest[k - 1]; }
      }
      assert i + |c| == i + 1 + |rest|;
    } else {
      forall k | i <= k < |runs| ensures scope.end <= runs[k].start {
        assert k == i || runs[i].end < runs[k].start;
      }
    }
  }

  lemma RunsWithinAt(runs: seq<Range>, scope: Range, p: int)
    requires WellFormed(runs) && scope.start < scope.end
    ensures Contains(RunsWithin(runs, scope), p) <==> Contains(runs, p) && InRange(scope, p)
  {
    hide ClippedFrom;
    var i := FirstBeyond(runs, scope.start);
    var c := ClippedFrom(runs, scope, i);
    ClippedElements(runs, scope, i);
    if Contains(c, p) {
      var k :| 0 <= k < |c| && InRange(c[k], p);
      assert InRange(runs[i + k], p);
    }
    if Contains(runs, p) && InRange(scope, p) {
      var k :| 0 <= k < |runs| && InRange(runs[k], p);
      assert InRange(c[k - i], p);
    }
  }

  /** For a non-empty scope the clipped runs are the canonical form of set ∩ scope. */
  lemma RunsWithinIsIntersection(runs: seq<Range>, scope: Range)
    requires WellFormed(runs) && scope.start < scope.end
    ensures WellFormed(RunsWithin(runs, scope))
    ensures forall p :: Contains(RunsWithin(runs, scope), p) <==> Contains(runs, p) && InRange(scope, p)
  {
    ClippedElements(runs, scope, FirstBeyond(runs, scope.start));
    forall p ensures Contains(RunsWithin(runs, scope), p) <==> Contains(runs, p) && InRange(scope, p) {
      RunsWithinAt(runs, scope, p);
    }
  }

  /** What the gap iterator still has to yield from cursor position on. */
  function GapsFrom(inner: seq<Range>, cursor: u64, end: u64): seq<Range>
    decreases |inner|
  {
    if inner == [] then (if cursor < end then [Range(cursor, end)] else [])
    else if inner[0].start > cursor then [Range(cursor, inner[0].start)] + GapsFrom(inner[1..], inner[0].end, end)
    else GapsFrom(inner[1..], inner[0].end, end)
  }

  function Gaps(runs: seq<Range>, scope: Range): seq<Range>
    requires WellFormed(runs)
  {
    GapsFrom(RunsWithin(runs, scope), scope.start, scope.end)
  }

  /** The gaps between clipped runs are the canonical form of the complement inside [cursor, end). */
  lemma {:induction false} GapsFromIsComplement(inner: seq<Range>, cursor: u64, end: u64)
    requires WellFormed(inner) && cursor <= end
    requires forall i :: 0 <= i < |inner| ==> cursor <= inner[i].start && inner[i].end <= end
    ensures var g := GapsFrom(inner, cursor, end);
      && WellFormed(g)
      && (forall p :: Contains(g, p) <==> cursor <= p < end && !Contains(inner, p))
    decreases |inner|
  {
    var g := GapsFrom(inner, cursor, end);
    if inner == [] {
      forall p ensures Contains(g, p) <==> cursor <= p < end && !Contains(inner, p) {
        if cursor <= p < end { assert InRange(g[0], p); }
      }
    } else {
      var rest := GapsFrom(inner[1..], inner[0].end, end);
      GapsFromIsComplement(inner[1..], inner[0].end, end);
      forall i | 0 <= i < |rest| ensures inner[0].end <= rest[i].start {
        assert InRange(rest[i], rest[i].start);
        assert Contains(rest, rest[i].start);
      }
      forall p ensures Contains(g, p) <==> cursor <= p < end && !Contains(inner, p) {
        TailContains(inner, p);
        assert InRange(inner[0], p) ==> Contains(inner, p);
        if inner[0].start > cursor {
          assert g == [Range(cursor, inner[0].start)] + rest;
          HeadContains(g[0], rest, p);
        }
      }
    }
  }

  lemma HeadContains(first: Range, rest: seq<Range>, p: int)
    ensures Contains([first] + rest, p) <==> InRange(first, p) || Contains(rest, p)
  {
    ContainsConcat([first], rest, p);
    if InRange(first, p) { assert InRange([first][0], p); }
  }

  /**
   * `runs_within` and `gaps` tile a non-empty scope: every value of the scope is in exactly one
   * of the two, both are ascending lists of non-empty ranges, and no range of either list can be
   * enlarged inside the scope.
   */
  lemma RunsAndGapsTile(runs: seq<Range>, scope: Range)
    requires WellFormed(runs) && scope.start < scope.end
    ensures WellFormed(RunsWithin(runs, scope)) && WellFormed(Gaps(runs, scope))
    ensures forall p :: Contains(RunsWithin(runs, scope), p) <==> InRange(scope, p) && Contains(runs, p)
    ensures forall p :: Contains(Gaps(runs, scope), p) <==> InRange(scope, p) && !Contains(runs, p)
  {
    var within, gaps := RunsWithin(runs, scope), Gaps(runs, scope);
    RunsWithinIsIntersection(runs, scope);
    forall i | 0 <= i < |within| ensures scope.start <= within[i].start && within[i].end <= scope.end {
      assert InRange(within[i], within[i].start) && InRange(within[i], within[i].end - 1);
      assert Contains(within, within[i].start) && Contains(within, within[i].end - 1);
    }
    GapsFromIsComplement(within, scope.start, scope.end);
  }

  /** Their lengths add up to the length of the scope. */
  lemma TileLengths(runs: seq<Range>, scope: Range)
    requires WellFormed(runs) && scope.start < scope.end
    ensures WellFormed(RunsWithin(runs, scope)) && WellFormed(Gaps(runs, scope))
    ensures CoveredLen(RunsWithin(runs, scope)) + CoveredLen(Gaps(runs, scope)) == scope.end - scope.start
  {
    RunsAndGapsTile(runs, scope);
    var within, gaps := Points(RunsWithin(runs, scope)), Points(Gaps(runs, scope));
    TilePoints(RunsWithin(runs, scope), Gaps(runs, scope), runs, scope);
    hide RunsWithin, Gaps, WellFormed, Contains, Points, CoveredLen, Interval;
    CardUnion(within, gaps);
    IntervalSize(scope.start, scope.end);
    CoveredLenCounts(RunsWithin(runs, scope));
    CoveredLenCounts(Gaps(runs, scope));
  }

  lemma TilePoints(within: seq<Range>, gaps: seq<Range>, runs: seq<Range>, scope: Range)
    requires forall p :: Contains(within, p) <==> InRange(scope, p) && Contains(runs, p)
    requires forall p :: Contains(gaps, p) <==> InRange(scope, p) && !Contains(runs, p)
    ensures Points(within) !! Points(gaps)
    ensures Points(within) + Points(gaps) == Interval(scope.start, scope.end)
  {
    hide Contains;
  }

  /** A well-formed list is maximal: the values just outside any of its ranges are not in the set. */
  lemma RunsAreMaximal(runs: seq<Range>, i: nat)
    requires WellFormed(runs) && i < |runs|
    ensures !Contains(runs, runs[i].start - 1) && !Contains(runs, runs[i].end)
  {
  }

  /**
   * An empty or inverted scope: no gap is ever reported, and a run is reported (degenerate, with
   * end <= start) exactly when some run strictly straddles the scope.
   */
  lemma EmptyScope(runs: seq<Range>, scope: Range)
    requires WellFormed(runs) && scope.end <= scope.start
    ensures Gaps(runs, scope) == []
    ensures if exists i :: 0 <= i < |runs| && runs[i].start < scope.end && scope.start < runs[i].end
            then RunsWithin(runs, scope) == [scope] else RunsWithin(runs, scope) == []
  {
    var k := FirstBeyond(runs, scope.start);
    var c := RunsWithin(runs, scope);
    ClippedElements(runs, scope, k);
    assert c == [] ==> Gaps(runs, scope) == [];
    if exists i :: 0 <= i < |runs| && runs[i].start < scope.end && scope.start < runs[i].end {
      var i :| 0 <= i < |runs| && runs[i].start < scope.end && scope.start < runs[i].end;
      assert i == k;
      assert c == [scope];
      assert c[1..] == [];
      assert GapsFrom(c[1..], scope.end, scope.end) == [];
    } else {
      assert c == [];
    }
  }

  /** `now` is the union of the set `was` with `r`. */
  ghost predicate IsUnion(now: seq<Range>, was: seq<Range>, r: Range) {
    forall p :: Contains(now, p) <==> Contains(was, p) || InRange(r, p)
  }

  /** The scan of the general path: the runs that `r` touches, their merged run, the new values. */
  method AbsorbRuns(runs: seq<Range>, r: Range) returns (first: nat, last: nat, merged: Range, newly: u64)
    requires WellFormed(runs) && r.start < r.end
    ensures Mergeable(runs, first, last, merged, r)
    ensures newly == merged.end - merged.start - CoveredLen(runs[first..last])
  {
    first := FirstReaching(runs, r.start);
    merged := r;
    newly := r.end - r.start;
    last := first;
    assert runs[first..last] == [];
    assert CoveredLen(runs[first..last]) == 0;
    hide CoveredLen, Mergeable;
    while last < |runs| && runs[last].start <= merged.end
      invariant Absorbed(runs, first, last, merged, newly, r)
    {
      AbsorbOne(runs, first, last, merged, newly, r);
      newly := newly - Overlap(runs[last], r);
      merged := Stretch(merged, runs[last]);
      last := last + 1;
    }
    AbsorbedAll(runs, first, last, merged, newly, r);
  }

  // ---- The mutable set ---------------------------------------------------------------------

  function Overlap(a: Range, b: Range): nat {
    SatSub(Min(a.end, b.end), Max(a.start, b.start))
  }

  class RangeSet {
    var runs: seq<Range>

    ghost predicate Valid() reads this { WellFormed(runs) }

    constructor ()
      ensures Valid() && runs == []
    {
      runs := [];
    }

    /**
     * Set union on every path. The new run list is the unique well-formed one (lemma Canonical),
     * and the result counts the values that were not in the set before (lemma NewlyCounts).
     */
    method Insert(r: Range) returns (newly: u64)
      requires Valid()
      modifies this
      ensures Valid()
      ensures IsUnion(runs, old(runs), r)
      ensures newly == CoveredLen(runs) - CoveredLen(old(runs))
    {
      if r.start >= r.end {
        return 0;
      }
      var n := |runs| - 1;
      if runs != [] {
        var last := runs[n];
        if last.end == r.start {
          assert runs[n..n + 1] == [last] && CoveredLen([last]) == last.end - last.start;
          SplicedInsert(runs, n, n + 1, Range(last.start, r.end), r);
          runs := runs[n := Range(last.start, r.end)];
          assert runs == Spliced(old(runs), n, n + 1, Range(last.start, r.end));
          return r.end - r.start;
        }
        if last.end < r.start {
          SplicedInsert(runs, n + 1, n + 1, r, r);
          runs := runs + [r];
          assert runs == Spliced(old(runs), n + 1, n + 1, r);
          return r.end - r.start;
        }
        if last.start <= r.start && r.end <= last.end {
          assert forall p :: InRange(r, p) ==> InRange(runs[n], p);
          return 0;
        }
      } else {
        SplicedInsert(runs, 0, 0, r, r);
        runs := runs + [r];
        assert runs == Spliced(old(runs), 0, 0, r);
        return r.end - r.start;
      }
      newly := InsertAnywhere(r);
    }

    /** The general path: binary search, absorb the touched runs, splice the merged run in. */
    method InsertAnywhere(r: Range) returns (newly: u64)
      requires Valid() && r.start < r.end
      modifies this
      ensures Valid()
      ensures IsUnion(runs, old(runs), r)
      ensures newly == CoveredLen(runs) - CoveredLen(old(runs))
    {
      var first, last, merged, count := AbsorbRuns(runs, r);
      SplicedInsert(runs, first, last, merged, r);
      ReplaceRuns(first, last, merged);
      newly := count;
    }

    /** Insert, overwrite or splice, depending on how many runs are replaced. */
    method ReplaceRuns(first: nat, last: nat, merged: Range)
      requires first <= last <= |runs|
      modifies this
      ensures runs == Spliced(old(runs), first, last, merged)
    {
      if first == last {
        runs := runs[..first] + [merged] + runs[first..];
      } else if last == first + 1 {
        runs := runs[first := merged];
      } else {
        runs := runs[..first] + [merged] + runs[last..];
      }
    }
  }

  function Stretch(a: Range, b: Range): Range {
    Range(Min(a.start, b.start), Max(a.end, b.end))
  }

  /** The loop has absorbed the runs first..last, all touching `r`, into `merged`. */
  ghost predicate Absorbed(runs: seq<Range>, first: nat, last: nat, merged: Range, newly: u64, r: Range)
  {
    && first <= last <= |runs| && r.start < r.end
    && (first < |runs| ==> r.start <= runs[first].end)
    && merged.start == (if first < last then Min(r.start, runs[first].start) else r.start)
    && merged.end == (if first < last then Max(r.end, runs[last - 1].end) else r.end)
    && (first < last ==> runs[last - 1].start <= r.end)
    && newly == merged.end - merged.start - CoveredLen(runs[first..last])
  }

  /** One more run: what it adds to the span is its length less its overlap with `r`; no underflow. */
  lemma AbsorbOne(runs: seq<Range>, first: nat, last: nat, merged: Range, newly: u64, r: Range)
    requires WellFormed(runs) && Absorbed(runs, first, last, merged, newly, r)
    requires last < |runs| && runs[last].start <= merged.end
    ensures Overlap(runs[last], r) <= newly
    ensures Absorbed(runs, first, last + 1, Stretch(merged, runs[last]), newly - Overlap(runs[last], r), r)
  {
    hide CoveredLen;
    CoveredLenPush(runs, first, last);
    CoveredLenFits(runs, first, last + 1);
    assert first < last ==> runs[last - 1].end < runs[last].start;
  }

  lemma AbsorbedAll(runs: seq<Range>, first: nat, last: nat, merged: Range, newly: u64, r: Range)
    requires WellFormed(runs) && Absorbed(runs, first, last, merged, newly, r)
    requires forall i :: 0 <= i < first ==> runs[i].end < r.start
    requires last < |runs| ==> merged.end < runs[last].start
    ensures Mergeable(runs, first, last, merged, r)
  {
  }

  lemma CoveredLenPush(runs: seq<Range>, first: nat, last: nat)
    requires first <= last < |runs|
    ensures CoveredLen(runs[first..last + 1]) == CoveredLen(runs[first..last]) + runs[last].end - runs[last].start
  {
    assert runs[first..last + 1][..last - first] == runs[first..last];
  }

  /** The runs first..last all touch `r`; `merged` spans them and `r` and touches no other run. */
  ghost predicate Mergeable(runs: seq<Range>, first: nat, last: nat, merged: Range, r: Range)
  {
    && first <= last <= |runs| && r.start < r.end
    && (forall i :: 0 <= i < first ==> runs[i].end < merged.start)
    && (forall i :: last <= i < |runs| ==> merged.end < runs[i].start)
    && merged.start == (if first < last then Min(r.start, runs[first].start) else r.start)
    && merged.end == (if first < last then Max(r.end, runs[last - 1].end) else r.end)
    && (first < last ==> runs[last - 1].start <= r.end && r.start <= runs[first].end)
  }

  function Spliced(runs: seq<Range>, first: nat, last: nat, merged: Range): seq<Range>
    requires first <= last <= |runs|
  {
    runs[..first] + [merged] + runs[last..]
  }

  /** The merged run holds exactly `r` and the runs it replaces. */
  lemma MergedContains(runs: seq<Range>, first: nat, last: nat, merged: Range, r: Range, p: int)
    requires WellFormed(runs) && Mergeable(runs, first, last, merged, r)
    ensures InRange(merged, p) <==> Contains(runs[first..last], p) || InRange(r, p)
  {
    var mid := runs[first..last];
    if Contains(mid, p) {
      var k :| 0 <= k < |mid| && InRange(mid[k], p);
      assert k == 0 || mid[0].end < mid[k].start;
      assert k == |mid| - 1 || mid[k].end < mid[|mid| - 1].start;
    }
    if InRange(merged, p) && p < r.start {
      assert InRange(mid[0], p);
    } else if InRange(merged, p) && r.end <= p {
      assert InRange(mid[|mid| - 1], p);
    }
  }

  lemma ContainsCut(runs: seq<Range>, first: nat, last: nat, p: int)
    requires first <= last <= |runs|
    ensures Contains(runs, p) <==>
      Contains(runs[..first], p) || Contains(runs[first..last], p) || Contains(runs[last..], p)
  {
    ContainsConcat(runs[..first], runs[first..last], p);
    ContainsConcat(runs[..last], runs[last..], p);
    assert runs[..last] == runs[..first] + runs[first..last];
    assert runs == runs[..last] + runs[last..];
  }

  lemma ContainsSpliced(runs: seq<Range>, first: nat, last: nat, merged: Range, p: int)
    requires first <= last <= |runs|
    ensures Contains(Spliced(runs, first, last, merged), p) <==>
      Contains(runs[..first], p) || InRange(merged, p) || Contains(runs[last..], p)
  {
    PushContains(runs[..first], merged, p);
    ContainsConcat(runs[..first] + [merged], runs[last..], p);
  }

  lemma SplicedLen(runs: seq<Range>, first: nat, last: nat, merged: Range)
    requires first <= last <= |runs|
    ensures CoveredLen(Spliced(runs, first, last, merged)) - CoveredLen(runs)
         == merged.end - merged.start - CoveredLen(runs[first..last])
  {
    hide CoveredLen;
    CoveredLenOf3(runs[..first], [merged], runs[last..]);
    CoveredLenOfOne(merged);
    assert runs == runs[..first] + runs[first..last] + runs[last..];
    CoveredLenOf3(runs[..first], runs[first..last], runs[last..]);
  }

  lemma CoveredLenOfOne(r: Range)
    ensures CoveredLen([r]) == r.end - r.start
  {
    assert [r][..0] == [];
  }

  lemma CoveredLenOf3(a: seq<Range>, b: seq<Range>, c: seq<Range>)
    ensures CoveredLen(a + b + c) == CoveredLen(a) + CoveredLen(b) + CoveredLen(c)
  {
    CoveredLenSplit(a + b, c);
    CoveredLenSplit(a, b);
  }

  lemma SplicedWellFormed(runs: seq<Range>, first: nat, last: nat, merged: Range)
    requires WellFormed(runs) && first <= last <= |runs| && merged.start < merged.end
    requires forall i :: 0 <= i < first ==> runs[i].end < merged.start
    requires forall i :: last <= i < |runs| ==> merged.end < runs[i].start
    ensures WellFormed(Spliced(runs, first, last, merged))
  {
    var out := Spliced(runs, first, last, merged);
    assert out[first] == merged;
    assert forall k :: 0 <= k < first ==> out[k] == runs[k];
    assert forall k :: first < k < |out| ==> out[k] == runs[k - first - 1 + last];
  }

  /** Replacing the touched runs by the merged one is set union with `r`. */
  lemma SplicedIsUnion(runs: seq<Range>, first: nat, last: nat, merged: Range, r: Range)
    requires WellFormed(runs) && Mergeable(runs, first, last, merged, r)
    ensures WellFormed(Spliced(runs, first, last, merged))
    ensures IsUnion(Spliced(runs, first, last, merged), runs, r)
  {
    SplicedWellFormed(runs, first, last, merged);
    var out := Spliced(runs, first, last, merged);
    forall p ensures Contains(out, p) <==> Contains(runs, p) || InRange(r, p) {
      MergedContains(runs, first, last, merged, r, p);
      ContainsSpliced(runs, first, last, merged, p);
      ContainsCut(runs, first, last, p);
    }
  }

  lemma SplicedInsert(runs: seq<Range>, first: nat, last: nat, merged: Range, r: Range)
    requires WellFormed(runs) && Mergeable(runs, first, last, merged, r)
    ensures var now := Spliced(runs, first, last, merged);
      && WellFormed(now)
      && IsUnion(now, runs, r)
      && CoveredLen(now) - CoveredLen(runs) == merged.end - merged.start - CoveredLen(runs[first..last])
  {
    SplicedIsUnion(runs, first, last, merged, r);
    SplicedLen(runs, first, last, merged);
  }

  /** Growth of `covered_len` under union is the number of values that were missing. */
  lemma NewlyCounts(was: seq<Range>, now: seq<Range>, r: Range)
    requires WellFormed(was) && WellFormed(now)
    requires IsUnion(now, was, r)
    ensures CoveredLen(now) - CoveredLen(was) == |Interval(r.start, r.end) - Points(was)|
  {
    hide WellFormed, CoveredLen, Points, Interval, IsUnion;
    CoveredLenCounts(was);
    CoveredLenCounts(now);
    PointsOfUnion(was, now, r);
    CardUnion(Points(was), Interval(r.start, r.end) - Points(was));
  }

  lemma PointsOfUnion(was: seq<Range>, now: seq<Range>, r: Range)
    requires IsUnion(now, was, r)
    ensures Points(now) == Points(was) + (Interval(r.start, r.end) - Points(was))
  {
    hide Contains;
  }

  // ---- The gap iterator --------------------------------------------------------------------

  class GapIter {
    var inner: seq<Range>
    var cursor: u64
    const end: u64
    var done: bool

    /** The gaps this iterator still has to yield. */
    ghost function Remaining(): seq<Range>
      reads this
    {
      if done then [] else GapsFrom(inner, cursor, end)
    }

    /** `RangeSet::gaps`. */
    constructor (runs: seq<Range>, scope: Range)
      requires WellFormed(runs)
      ensures Remaining() == Gaps(runs, scope)
    {
      inner, cursor, end, done := RunsWithin(runs, scope), scope.start, scope.end, false;
    }

    method Next() returns (gap: Option<Range>)
      modifies this
      ensures old(Remaining()) == if gap.Some? then [gap.value] + Remaining() else []
      ensures gap.None? ==> Remaining() == []
    {
      if done {
        return None;
      }
      while inner != []
        invariant !done && Remaining() == old(Remaining())
        decreases |inner|
      {
        var run := inner[0];
        inner := inner[1..];
        if run.start > cursor {
          gap := Some(Range(cursor, run.start));
          cursor := run.end;
          return;
        }
        cursor := run.end;
      }
      done := true;
      gap := if cursor < end then Some(Range(cursor, end)) else None;
    }
  }
}
