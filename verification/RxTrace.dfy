/**
 * hqfbp-cla/src/session.rs: what can be observed of duplicate suppression, and what keeps two equal
 * payloads of one sender apart.
 */
module RxTrace {
  import opened Basics
  import opened RxAccounting

  /** What happened: messages emitted, by sender and payload hash, and sweeps. */
  datatype Trace = Emitted(src: Sender, hash: int, at: nat) | Swept(now: nat, timeout: nat)

  /** `now.duration_since(since) >= timeout`, where a time in the future counts as no time at all. */
  predicate Aged(now: nat, since: nat, timeout: nat) { SatSub(now, since) >= timeout }

  /** After position `i` some sweep forgot what was emitted at time `at`. */
  ghost predicate SweptAfter(trace: seq<Trace>, i: nat, end: nat, at: nat) {
    exists k :: i < k < end <= |trace| && trace[k].Swept? && Aged(trace[k].now, at, trace[k].timeout)
  }

  /** Every emission is still remembered with its time, or an old enough sweep came after it. */
  ghost predicate Remembers(trace: seq<Trace>, payloads: map<(Sender, int), nat>) {
    forall i :: 0 <= i < |trace| && trace[i].Emitted? ==>
      || SweptAfter(trace, i, |trace|, trace[i].at)
      || ((trace[i].src, trace[i].hash) in payloads && payloads[(trace[i].src, trace[i].hash)] == trace[i].at)
  }

  ghost predicate SamePayload(a: Trace, b: Trace) {
    a.Emitted? && b.Emitted? && a.src == b.src && a.hash == b.hash
  }

  /** Two emissions of one payload by one sender are separated by a sweep old enough for the first. */
  ghost predicate NoEarlyRepeat(trace: seq<Trace>) {
    forall i, j :: 0 <= i < j < |trace| && SamePayload(trace[i], trace[j]) ==> SweptAfter(trace, i, j, trace[i].at)
  }

  ghost predicate Deduplicated(trace: seq<Trace>, payloads: map<(Sender, int), nat>) {
    Remembers(trace, payloads) && NoEarlyRepeat(trace)
  }

  lemma SweptLater(trace: seq<Trace>, e: Trace, i: nat, end: nat, at: nat)
    requires SweptAfter(trace, i, end, at)
    ensures SweptAfter(trace + [e], i, end, at) && SweptAfter(trace + [e], i, |trace| + 1, at)
  {
    var k :| i < k < end <= |trace| && trace[k].Swept? && Aged(trace[k].now, at, trace[k].timeout);
    assert (trace + [e])[k] == trace[k];
  }

  lemma EmitKeeps(trace: seq<Trace>, payloads: map<(Sender, int), nat>, src: Sender, hash: int, at: nat)
    requires Deduplicated(trace, payloads) && (src, hash) !in payloads
    ensures Deduplicated(trace + [Emitted(src, hash, at)], payloads[(src, hash) := at])
  {
    var e := Emitted(src, hash, at);
    var more := trace + [e];
    forall i | 0 <= i < |trace| && trace[i].Emitted? && SweptAfter(trace, i, |trace|, trace[i].at)
      ensures SweptAfter(more, i, |trace|, trace[i].at) && SweptAfter(more, i, |more|, trace[i].at)
    {
      SweptLater(trace, e, i, |trace|, trace[i].at);
    }
    forall i, j | 0 <= i < j < |more| && SamePayload(more[i], more[j])
      ensures SweptAfter(more, i, j, more[i].at)
    {
      if j < |trace| { SweptLater(trace, e, i, j, trace[i].at); }
    }
  }

  /** `retain(|_, time| now.duration_since(*time) < timeout)` */
  function Younger<K>(times: map<K, nat>, now: nat, timeout: nat): map<K, nat> {
    map k | k in times && !Aged(now, times[k], timeout) :: times[k]
  }

  lemma SweepKeeps(trace: seq<Trace>, payloads: map<(Sender, int), nat>, now: nat, timeout: nat)
    requires Deduplicated(trace, payloads)
    ensures Deduplicated(trace + [Swept(now, timeout)], Younger(payloads, now, timeout))
  {
    var e := Swept(now, timeout);
    var more := trace + [e];
    forall i | 0 <= i < |trace| && trace[i].Emitted?
      ensures SweptAfter(trace, i, |trace|, trace[i].at) ==> SweptAfter(more, i, |more|, trace[i].at)
      ensures Aged(now, trace[i].at, timeout) ==> SweptAfter(more, i, |more|, trace[i].at)
    {
      if SweptAfter(trace, i, |trace|, trace[i].at) { SweptLater(trace, e, i, |trace|, trace[i].at); }
      assert more[|trace|] == e;
    }
    forall i, j | 0 <= i < j < |more| && SamePayload(more[i], more[j])
      ensures SweptAfter(more, i, j, more[i].at)
    {
      SweptLater(trace, e, i, j, trace[i].at);
    }
  }

  // ---- Emissions in order --------------------------------------------------------------------------

  /** The keys of everything emitted, in order. */
  ghost function EmittedKeys(trace: seq<Trace>): seq<(Sender, int)> {
    if trace == [] then []
    else
      var front, e := EmittedKeys(trace[..|trace| - 1]), trace[|trace| - 1];
      if e.Emitted? then front + [(e.src, e.hash)] else front
  }

  lemma EmittedKeysStep(trace: seq<Trace>, e: Trace)
    ensures EmittedKeys(trace + [e]) == if e.Emitted? then EmittedKeys(trace) + [(e.src, e.hash)] else EmittedKeys(trace)
  {
    assert (trace + [e])[..|trace|] == trace;
  }

  /** The i-th key was emitted at position `p`. */
  ghost predicate EmittedAt(trace: seq<Trace>, i: nat, p: nat) {
    && i < |EmittedKeys(trace)| && p < |trace| && trace[p].Emitted?
    && EmittedKeys(trace)[i] == (trace[p].src, trace[p].hash)
  }

  /** Positions of emissions: two different ones lie at two places, in the same order. */
  lemma {:induction false} TwoEmissions(trace: seq<Trace>, i: nat, j: nat) returns (p: nat, q: nat)
    requires i < j < |EmittedKeys(trace)|
    ensures p < q && EmittedAt(trace, i, p) && EmittedAt(trace, j, q)
    decreases |trace|
  {
    var front, e := trace[..|trace| - 1], trace[|trace| - 1];
    assert trace == front + [e];
    if j < |EmittedKeys(front)| {
      p, q := TwoEmissions(front, i, j);
    } else {
      p := OneEmission(front, i);
      q := |front|;
    }
  }

  lemma {:induction false} OneEmission(trace: seq<Trace>, i: nat) returns (p: nat)
    requires i < |EmittedKeys(trace)|
    ensures EmittedAt(trace, i, p)
    decreases |trace|
  {
    var front := trace[..|trace| - 1];
    if i < |EmittedKeys(front)| { p := OneEmission(front, i); } else { p := |front|; }
  }
}
