/**
 * hqfbp-cla/src/session.rs: what the per-session byte counts are, from what happened to the sessions,
 * and what a completed message takes off.
 */
module RxTally {
  import opened Basics
  import opened RxAccounting
  import opened RxStates
  import opened RxSteps
  import opened RxRuns

  /** What happened: a PDU was taken in, a message was emitted, senders were evicted or swept out. */
  datatype Fact = Took(src: Sender, id: Option<nat>, len: nat) | Closed(src: Sender, id: Option<nat>) | Left(gone: set<Sender>)

  /** The bytes taken in for session `id` of `s` since it last ended; None when nothing was. */
  ghost function Tally(facts: seq<Fact>, s: Sender, id: nat): Option<nat> {
    if facts == [] then None
    else
      var before, f := Tally(facts[..|facts| - 1], s, id), facts[|facts| - 1];
      match f
      case Took(src, i, len) =>
        if src == s && i == Some(id) then Some(len + if before.Some? then before.value else 0) else before
      case Closed(src, i) => if src == s && (i == None || i == Some(id)) then None else before
      case Left(gone) => if s in gone then None else before
  }

  ghost function Count(senders: map<Sender, SenderState>, s: Sender, id: nat): Option<nat> {
    if s in senders && id in senders[s].sessionBytes then Some(senders[s].sessionBytes[id]) else None
  }

  /** Every session's count is its tally, and just those with a tally are tracked. */
  ghost predicate Tells(senders: map<Sender, SenderState>, facts: seq<Fact>) {
    forall s: Sender, id: nat :: Count(senders, s, id) == Tally(facts, s, id)
  }

  // ---- One fact --------------------------------------------------------------------------------

  lemma LastFact(facts: seq<Fact>, f: Fact)
    ensures (facts + [f])[..|facts + [f]| - 1] == facts && (facts + [f])[|facts + [f]| - 1] == f
  {
  }

  lemma TookTells(senders: map<Sender, SenderState>, facts: seq<Fact>, src: Sender, id: Option<nat>, len: nat, now: nat)
    requires Tells(senders, facts)
    ensures Tells(senders[src := Charged(senders, src, id, len, now)], facts + [Took(src, id, len)])
  {
    LastFact(facts, Took(src, id, len));
    forall s: Sender, i: nat
      ensures Count(senders[src := Charged(senders, src, id, len, now)], s, i) == Tally(facts + [Took(src, id, len)], s, i)
    {
      assert Count(senders, s, i) == Tally(facts, s, i);
    }
  }

  lemma ClosedTells(senders: map<Sender, SenderState>, facts: seq<Fact>, src: Sender, id: Option<nat>)
    requires Tells(senders, facts) && IdsMatch(senders)
    ensures Tells(AfterRelease(senders, src, id), facts + [Closed(src, id)])
  {
    LastFact(facts, Closed(src, id));
    forall s: Sender, i: nat
      ensures Count(AfterRelease(senders, src, id), s, i) == Tally(facts + [Closed(src, id)], s, i)
    {
      assert Count(senders, s, i) == Tally(facts, s, i);
    }
  }

  lemma LeftTells(was: map<Sender, SenderState>, now: map<Sender, SenderState>, facts: seq<Fact>)
    requires Tells(was, facts) && forall s :: s in now ==> s in was && now[s] == was[s]
    ensures Tells(now, facts + [Left(was.Keys - now.Keys)])
  {
    LastFact(facts, Left(was.Keys - now.Keys));
    forall s: Sender, i: nat ensures Count(now, s, i) == Tally(facts + [Left(was.Keys - now.Keys)], s, i) {
      assert Count(was, s, i) == Tally(facts, s, i);
    }
  }

  // ---- Batches, operations and runs --------------------------------------------------------------

  ghost function EventFact(st: RxState, hash: seq<byte> -> int, e: Event, last: map<Sender, nat>): seq<Fact> {
    if e.MessageDone? && (e.src, hash(e.payload)) !in st.payloads then [Closed(e.src, ResolvedId(e.id, e.src, last))] else []
  }

  ghost function EventFacts(st: RxState, hash: seq<byte> -> int, events: seq<Event>, last: map<Sender, nat>): seq<Fact>
    decreases |events|
  {
    if events == [] then []
    else
      EventFact(st, hash, events[0], last)
      + EventFacts(AfterEvent(st, hash, events[0], last), hash, events[1..], LastSeen(events[0], last))
  }

  ghost function OpFacts(st: RxState, cfg: Config, op: Op): seq<Fact> {
    match op
    case Pdu(len, peek, id, now, events) =>
      if !Considered(st, cfg, len, peek, id) then []
      else
        [Left(st.senders.Keys - MadeRoom(st, cfg, peek, len).senders.Keys)]
        + if Fits(st, cfg, len, peek) then
            [Took(peek, id, len)] + EventFacts(Admitted(st, cfg, len, peek, id, now), cfg.hash, events, map[])
          else []
    case Drain(events) => EventFacts(st, cfg.hash, events, map[])
    case Sweep(now, timeout) => [Left(st.senders.Keys - AfterSweep(st, now, timeout).senders.Keys)]
  }

  ghost function RunFacts(st: RxState, cfg: Config, ops: seq<Op>): seq<Fact>
    decreases |ops|
  {
    if ops == [] then [] else OpFacts(st, cfg, ops[0]) + RunFacts(After(st, cfg, ops[0]), cfg, ops[1..])
  }

  lemma Onward(a: seq<Fact>, b: seq<Fact>, c: seq<Fact>)
    ensures a + (b + c) == a + b + c && a + [] == a
  {
  }

  lemma EventTells(st: RxState, hash: seq<byte> -> int, e: Event, last: map<Sender, nat>, facts: seq<Fact>)
    requires Tells(st.senders, facts) && IdsMatch(st.senders)
    ensures Tells(AfterEvent(st, hash, e, last).senders, facts + EventFact(st, hash, e, last))
  {
    hide Tells, AfterRelease;
    if e.MessageDone? && (e.src, hash(e.payload)) !in st.payloads {
      ClosedTells(st.senders, facts, e.src, ResolvedId(e.id, e.src, last));
    } else {
      Onward(facts, [], []);
    }
  }

  lemma SoundIdsMatch(st: RxState, hash: seq<byte> -> int)
    requires Sound(st, hash)
    ensures IdsMatch(st.senders)
  {
  }

  lemma {:induction false} EventsTell(st: RxState, hash: seq<byte> -> int, events: seq<Event>, last: map<Sender, nat>, facts: seq<Fact>)
    requires Sound(st, hash) && Forward(events, st.clock) && Tells(st.senders, facts)
    ensures Tells(AfterEvents(st, hash, events, last).senders, facts + EventFacts(st, hash, events, last))
    decreases |events|
  {
    hide Tells, Sound, EventFact, AfterEvent;
    if events == [] {
      Onward(facts, [], []);
    } else {
      var next := AfterEvent(st, hash, events[0], last);
      var now := EventFact(st, hash, events[0], last);
      SoundIdsMatch(st, hash);
      EventTells(st, hash, events[0], last, facts);
      OneEventKeeps(st, hash, events[0], last);
      EventsTell(next, hash, events[1..], LastSeen(events[0], last), facts + now);
      Onward(facts, now, EventFacts(next, hash, events[1..], LastSeen(events[0], last)));
    }
  }

  lemma OneEventKeeps(st: RxState, hash: seq<byte> -> int, e: Event, last: map<Sender, nat>)
    requires Sound(st, hash) && (e.MessageDone? ==> st.clock <= e.at)
    ensures
      var next := AfterEvent(st, hash, e, last);
      Sound(next, hash) && next.clock == if e.MessageDone? then e.at else st.clock
  {
    if e.MessageDone? { CompletedKeeps(st, hash, e.src, e.dst, ResolvedId(e.id, e.src, last), e.payload, e.at); }
  }

  lemma RoomTells(st: RxState, cfg: Config, len: nat, peek: Sender, facts: seq<Fact>)
    requires Sound(st, cfg.hash) && Within(st, cfg) && len <= cfg.maxBytes && Tells(st.senders, facts)
    ensures
      var room := MadeRoom(st, cfg, peek, len);
      Tells(room.senders, facts + [Left(st.senders.Keys - room.senders.Keys)])
  {
    hide Tells, Sound, MadeRoom;
    MadeRoomKeeps(st, cfg, peek, len);
    LeftTells(st.senders, MadeRoom(st, cfg, peek, len).senders, facts);
  }

  lemma PduTells(st: RxState, cfg: Config, len: nat, peek: Sender, id: Option<nat>, now: nat, events: seq<Event>, facts: seq<Fact>)
    requires Sound(st, cfg.hash) && Within(st, cfg) && st.clock <= now && Forward(events, now) && Tells(st.senders, facts)
    ensures Tells(AfterPdu(st, cfg, len, peek, id, now, events).senders, facts + OpFacts(st, cfg, Pdu(len, peek, id, now, events)))
  {
    hide Tells, Sound, Within, MadeRoom, EventFacts, AfterEvents, Charged;
    if Considered(st, cfg, len, peek, id) {
      RoomTells(st, cfg, len, peek, facts);
      var room := MadeRoom(st, cfg, peek, len);
      var left := [Left(st.senders.Keys - room.senders.Keys)];
      if Fits(st, cfg, len, peek) {
        TookTells(room.senders, facts + left, peek, id, len, now);
        var admitted := Admitted(st, cfg, len, peek, id, now);
        AdmittedKeeps(st, cfg, len, peek, id, now);
        EventsTell(admitted, cfg.hash, events, map[], facts + left + [Took(peek, id, len)]);
        var more := EventFacts(admitted, cfg.hash, events, map[]);
        assert facts + (left + ([Took(peek, id, len)] + more)) == facts + left + [Took(peek, id, len)] + more;
      } else {
        assert facts + (left + []) == facts + left;
      }
    } else {
      Onward(facts, [], []);
    }
  }

  lemma OpTells(st: RxState, cfg: Config, ops: seq<Op>, from: nat, facts: seq<Fact>)
    requires ops != [] && Sound(st, cfg.hash) && Within(st, cfg) && st.clock <= from && Timely(ops, from) && Tells(st.senders, facts)
    ensures Tells(After(st, cfg, ops[0]).senders, facts + OpFacts(st, cfg, ops[0]))
  {
    hide Tells, Sound, AfterPdu;
    match ops[0]
    case Pdu(len, peek, id, now, events) => PduTells(st, cfg, len, peek, id, now, events, facts);
    case Drain(events) =>
      ForwardFromEarlier(events, st.clock, from);
      EventsTell(st, cfg.hash, events, map[], facts);
    case Sweep(now, timeout) => LeftTells(st.senders, AfterSweep(st, now, timeout).senders, facts);
  }

  /**
   * Over any run: each session's count is the sum of the PDUs taken in for it since it last ended, and
   * the sessions tracked are just those that took something in since.
   */
  lemma {:induction false} RunTells(st: RxState, cfg: Config, ops: seq<Op>, from: nat, facts: seq<Fact>)
    requires Sound(st, cfg.hash) && Within(st, cfg) && st.clock <= from && Timely(ops, from) && Tells(st.senders, facts)
    ensures Tells(AfterAll(st, cfg, ops).senders, facts + RunFacts(st, cfg, ops))
    decreases |ops|
  {
    hide Tells, Sound, Within, After, OpFacts;
    if ops == [] {
      Onward(facts, [], []);
    } else {
      var next := After(st, cfg, ops[0]);
      StepKeeps(st, cfg, ops, from);
      OpTells(st, cfg, ops, from, facts);
      RunTells(next, cfg, ops[1..], TimeAfter(ops[0], from), facts + OpFacts(st, cfg, ops[0]));
      Onward(facts, OpFacts(st, cfg, ops[0]), RunFacts(next, cfg, ops[1..]));
    }
  }

  lemma NothingToTell()
    ensures Tells(START.senders, [])
  {
  }

  // ---- What a completed message takes off ----------------------------------------------------------

  /** A message with a tracked id takes exactly what was taken in for that id, and ends that session alone. */
  lemma CompletionTakesTally(st: RxState, hash: seq<byte> -> int, e: Event, last: map<Sender, nat>, facts: seq<Fact>, id: nat, n: nat)
    requires Tells(st.senders, facts) && e.MessageDone? && (e.src, hash(e.payload)) !in st.payloads
    requires ResolvedId(e.id, e.src, last) == Some(id) && Tally(facts, e.src, id) == Some(n)
    ensures e.src in st.senders
    ensures
      var was, next := st.senders[e.src], AfterEvent(st, hash, e, last);
      && next.senders == st.senders[e.src := SenderState(was.lastActive, SatSub(was.bufferedBytes, n), was.activeIds - {id}, was.sessionBytes - {id})]
      && next.total == SatSub(st.total, n)
    ensures SessionsFit(st.senders) ==> n <= st.senders[e.src].bufferedBytes
    ensures SessionsFit(st.senders) && Exact(st) ==> n <= st.total
  {
    assert Count(st.senders, e.src, id) == Tally(facts, e.src, id);
    PartOfOne(st.senders[e.src].sessionBytes, id);
    MapSumRemove(st.senders[e.src].sessionBytes, id);
    BufferedWithout(st.senders, e.src);
  }

  lemma PartOfOne(m: map<nat, nat>, id: nat)
    requires id in m
    ensures Part(m, {id}) != map[] && MapSum(Part(m, {id})) == m[id]
  {
    var part := Part(m, {id});
    assert id in part;
    MapSumRemove(part, id);
    assert part - {id} == map[];
  }

  /** A message without any id takes everything tracked, or all its sender has when nothing is tracked. */
  lemma CompletionWithoutId(st: RxState, hash: seq<byte> -> int, e: Event, last: map<Sender, nat>)
    requires IdsMatch(st.senders) && e.MessageDone? && (e.src, hash(e.payload)) !in st.payloads && e.src in st.senders
    requires ResolvedId(e.id, e.src, last) == None
    ensures
      var was, next := st.senders[e.src], AfterEvent(st, hash, e, last);
      var bytes := if was.sessionBytes == map[] then was.bufferedBytes else MapSum(was.sessionBytes);
      && next.senders == st.senders[e.src := SenderState(was.lastActive, SatSub(was.bufferedBytes, bytes), {}, map[])]
      && next.total == SatSub(st.total, bytes)
  {
    var was := st.senders[e.src];
    assert Part(was.sessionBytes, was.activeIds) == was.sessionBytes;
    assert was.sessionBytes - was.activeIds == map[];
    assert was.activeIds - was.activeIds == {};
  }
}
