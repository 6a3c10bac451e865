/**
 * hqfbp-cla/src/session.rs: what is remembered and for how long, and which messages a batch of events
 * emits, said without the steps of the loop.
 */
module RxLaws {
  import opened Basics
  import opened RxAccounting
  import opened RxTrace
  import opened RxList
  import opened RxStates
  import opened RxSteps
  import opened RxRuns

  // ---- Which messages a batch emits ----------------------------------------------------------------

  /** The id of the last PDU seen from `s` in `events`. */
  ghost function LastIdIn(events: seq<Event>, s: Sender): Option<nat> {
    if events == [] then None
    else
      match events[|events| - 1]
      case PduSeen(src, Some(id)) => if src == s then Some(id) else LastIdIn(events[..|events| - 1], s)
      case _ => LastIdIn(events[..|events| - 1], s)
  }

  /** An earlier message has this sender and payload hash. */
  ghost predicate SeenIn(events: seq<Event>, hash: seq<byte> -> int, s: Sender, h: int) {
    exists i :: 0 <= i < |events| && events[i].MessageDone? && events[i].src == s && hash(events[i].payload) == h
  }

  /**
   * The messages of a batch whose payloads were neither remembered nor in an earlier message; each with
   * its own id, or that of the last PDU seen from its sender before it.
   */
  ghost function Fresh(events: seq<Event>, hash: seq<byte> -> int, known: set<(Sender, int)>): seq<CompletedMessage> {
    if events == [] then []
    else
      var before := events[..|events| - 1];
      match events[|events| - 1]
      case MessageDone(src, dst, id, payload, _) =>
        if (src, hash(payload)) in known || SeenIn(before, hash, src, hash(payload)) then Fresh(before, hash, known)
        else Fresh(before, hash, known) + [CompletedMessage(src, dst, if id.Some? then id else LastIdIn(before, src), payload)]
      case _ => Fresh(before, hash, known)
  }

  /** The state of the loop after some events: the ids last seen, and the payloads known. */
  ghost function LastAfter(events: seq<Event>, last: map<Sender, nat>): map<Sender, nat> {
    if events == [] then last else LastAfter(events[1..], LastSeen(events[0], last))
  }

  ghost function Keys(events: seq<Event>, hash: seq<byte> -> int): set<(Sender, int)> {
    set i | 0 <= i < |events| && events[i].MessageDone? :: (events[i].src, hash(events[i].payload))
  }

  lemma {:induction false} LastAfterPush(events: seq<Event>, e: Event, last: map<Sender, nat>)
    ensures LastAfter(events + [e], last) == LastSeen(e, LastAfter(events, last))
  {
    if events == [] {
      assert [] + [e] == [e] && [e][1..] == [];
    } else {
      assert (events + [e])[1..] == events[1..] + [e];
      LastAfterPush(events[1..], e, LastSeen(events[0], last));
    }
  }

  lemma {:induction false} LastAfterMeans(events: seq<Event>, s: Sender)
    ensures LastIdIn(events, s) == if s in LastAfter(events, map[]) then Some(LastAfter(events, map[])[s]) else None
  {
    if events != [] {
      var before, e := events[..|events| - 1], events[|events| - 1];
      assert events == before + [e];
      LastAfterMeans(before, s);
      LastAfterPush(before, e, map[]);
    }
  }

  /** What one more event emits. */
  ghost function EmittedBy(e: Event, hash: seq<byte> -> int, known: set<(Sender, int)>, last: map<Sender, nat>): seq<CompletedMessage> {
    if e.MessageDone? && (e.src, hash(e.payload)) !in known then
      [CompletedMessage(e.src, e.dst, ResolvedId(e.id, e.src, last), e.payload)]
    else []
  }

  lemma KeysStep(events: seq<Event>, hash: seq<byte> -> int)
    requires events != []
    ensures Keys(events, hash) ==
      Keys(events[1..], hash) + if events[0].MessageDone? then {(events[0].src, hash(events[0].payload))} else {}
  {
    var rest := events[1..];
    forall k | k in Keys(events, hash)
      ensures k in Keys(rest, hash) || (events[0].MessageDone? && k == (events[0].src, hash(events[0].payload)))
    {
      var i :| 0 <= i < |events| && events[i].MessageDone? && k == (events[i].src, hash(events[i].payload));
      if i > 0 { assert rest[i - 1] == events[i]; }
    }
    forall k | k in Keys(rest, hash) ensures k in Keys(events, hash) {
      var i :| 0 <= i < |rest| && rest[i].MessageDone? && k == (rest[i].src, hash(rest[i].payload));
      assert events[i + 1] == rest[i];
    }
  }

  lemma {:induction false} EmissionsPush(events: seq<Event>, e: Event, hash: seq<byte> -> int, known: set<(Sender, int)>, last: map<Sender, nat>)
    ensures Emissions(events + [e], hash, known, last) ==
      Emissions(events, hash, known, last) + EmittedBy(e, hash, known + Keys(events, hash), LastAfter(events, last))
  {
    if events == [] {
      assert [] + [e] == [e] && [e][1..] == [];
      assert known + Keys([], hash) == known;
    } else {
      assert (events + [e])[1..] == events[1..] + [e];
      KeysStep(events, hash);
      var first := events[0];
      var more := if first.MessageDone? then {(first.src, hash(first.payload))} else {};
      EmissionsPush(events[1..], e, hash, known + more, LastSeen(first, last));
      assert known + more + Keys(events[1..], hash) == known + Keys(events, hash);
      assert first.MessageDone? && (first.src, hash(first.payload)) in known ==> known + more == known;
      assert !first.MessageDone? ==> known + more == known;
    }
  }

  /** The loop emits exactly these messages. */
  lemma {:induction false} EmissionsAreFresh(events: seq<Event>, hash: seq<byte> -> int, known: set<(Sender, int)>)
    ensures Emissions(events, hash, known, map[]) == Fresh(events, hash, known)
  {
    if events != [] {
      var before, e := events[..|events| - 1], events[|events| - 1];
      assert events == before + [e];
      EmissionsAreFresh(before, hash, known);
      EmissionsPush(before, e, hash, known, map[]);
      if e.MessageDone? {
        LastAfterMeans(before, e.src);
        assert (e.src, hash(e.payload)) in Keys(before, hash) <==> SeenIn(before, hash, e.src, hash(e.payload));
      }
    }
  }

  // ---- Completed messages stay completed -----------------------------------------------------------

  /** Session `id` of `s` was completed at time `at` or later. */
  ghost predicate Done(st: RxState, s: Sender, id: nat, at: nat) {
    (s, id) in st.sessions && at <= st.sessions[(s, id)] && at <= st.clock
  }

  /** No sweep of the run reaches back to `at`. */
  ghost predicate NotSwept(ops: seq<Op>, at: nat) {
    forall i :: 0 <= i < |ops| && ops[i].Sweep? ==> 0 < ops[i].timeout && ops[i].now < at + ops[i].timeout
  }

  /** An emitted message completes its session, or all its sender's sessions when it has no id. */
  lemma CompletionIsRemembered(st: RxState, hash: seq<byte> -> int, e: Event, last: map<Sender, nat>, id: nat)
    requires e.MessageDone? && (e.src, hash(e.payload)) !in st.payloads && e.src in st.senders
    requires
      var i := ResolvedId(e.id, e.src, last);
      i == Some(id) || (i == None && id in st.senders[e.src].activeIds)
    ensures Done(AfterEvent(st, hash, e, last), e.src, id, e.at)
  {
    var finished := FinishedSessions(st.senders, e.src, ResolvedId(e.id, e.src, last), e.at);
    assert (e.src, id) in finished;
  }

  lemma EventStaysDone(st: RxState, hash: seq<byte> -> int, e: Event, last: map<Sender, nat>, s: Sender, id: nat, at: nat)
    requires Done(st, s, id, at) && (e.MessageDone? ==> st.clock <= e.at)
    ensures Done(AfterEvent(st, hash, e, last), s, id, at)
  {
    if e.MessageDone? {
      var finished := FinishedSessions(st.senders, e.src, ResolvedId(e.id, e.src, last), e.at);
      FinishedAt(st.senders, e.src, ResolvedId(e.id, e.src, last), e.at);
      hide FinishedSessions;
      assert (s, id) in finished ==> finished[(s, id)] == e.at;
    }
  }

  lemma FinishedAt(senders: map<Sender, SenderState>, src: Sender, id: Option<nat>, at: nat)
    ensures forall k :: k in FinishedSessions(senders, src, id, at) ==> FinishedSessions(senders, src, id, at)[k] == at
  {
  }

  lemma {:induction false} EventsStayDone(st: RxState, hash: seq<byte> -> int, events: seq<Event>, last: map<Sender, nat>,
                                          s: Sender, id: nat, at: nat)
    requires Done(st, s, id, at) && Forward(events, st.clock)
    ensures Done(AfterEvents(st, hash, events, last), s, id, at)
    decreases |events|
  {
    hide Done, AfterRelease, FinishedSessions, Deducted;
    if events != [] {
      EventStaysDone(st, hash, events[0], last, s, id, at);
      EventsStayDone(AfterEvent(st, hash, events[0], last), hash, events[1..], LastSeen(events[0], last), s, id, at);
    }
  }

  lemma OpStaysDone(st: RxState, cfg: Config, ops: seq<Op>, from: nat, s: Sender, id: nat, at: nat)
    requires ops != [] && Sound(st, cfg.hash) && Within(st, cfg) && st.clock <= from && Timely(ops, from)
    requires Done(st, s, id, at) && NotSwept(ops, at)
    ensures Done(After(st, cfg, ops[0]), s, id, at)
  {
    match ops[0]
    case Pdu(len, peek, i, now, events) =>
      if Considered(st, cfg, len, peek, i) {
        MadeRoomKeeps(st, cfg, peek, len);
        hide MadeRoom, Sound, KeptRecent, AfterEvents;
        if Fits(st, cfg, len, peek) {
          EventsStayDone(Admitted(st, cfg, len, peek, i, now), cfg.hash, events, map[], s, id, at);
        }
      }
    case Drain(events) =>
      ForwardFromEarlier(events, st.clock, from);
      EventsStayDone(st, cfg.hash, events, map[], s, id, at);
    case Sweep(now, timeout) =>
  }

  lemma {:induction false} StaysDone(st: RxState, cfg: Config, ops: seq<Op>, from: nat, s: Sender, id: nat, at: nat)
    requires Sound(st, cfg.hash) && Within(st, cfg) && st.clock <= from && Timely(ops, from)
    requires Done(st, s, id, at) && NotSwept(ops, at)
    ensures Done(AfterAll(st, cfg, ops), s, id, at)
    decreases |ops|
  {
    hide Done, Sound, Within, After;
    if ops != [] {
      StepKeeps(st, cfg, ops, from);
      OpStaysDone(st, cfg, ops, from, s, id, at);
      assert forall i :: 0 <= i < |ops| - 1 ==> ops[1..][i] == ops[i + 1];
      StaysDone(After(st, cfg, ops[0]), cfg, ops[1..], TimeAfter(ops[0], from), s, id, at);
    }
  }

  /**
   * Later chunks of a completed message change nothing, however long after it, until a sweep reaches
   * back to its completion.
   */
  lemma LaterChunksAreDropped(st: RxState, cfg: Config, ops: seq<Op>, from: nat, s: Sender, id: nat, at: nat,
                              len: nat, now: nat, events: seq<Event>)
    requires Sound(st, cfg.hash) && Within(st, cfg) && st.clock <= from && Timely(ops, from)
    requires Done(st, s, id, at) && NotSwept(ops, at)
    ensures
      var end := AfterAll(st, cfg, ops);
      && AfterPdu(end, cfg, len, s, Some(id), now, events) == end
      && (len <= cfg.maxBytes ==> PduOutcome(end, cfg, len, s, Some(id)) == Accepted)
  {
    hide Sound, Within, AfterAll;
    StaysDone(st, cfg, ops, from, s, id, at);
  }

  // ---- What a sweep forgets ------------------------------------------------------------------------

  /** At least `timeout` old at `now`; a time in the future is no age at all. */
  predicate Old(now: nat, since: nat, timeout: nat) { since + timeout <= now || timeout == 0 }

  /** Exactly what is old enough is forgotten; everything else is kept as it is. */
  lemma SweepForgetsExactly(st: RxState, now: nat, timeout: nat)
    ensures
      var after := AfterSweep(st, now, timeout);
      && (forall s :: s in after.senders <==> s in st.senders && !Old(now, st.senders[s].lastActive, timeout))
      && (forall k :: k in after.sessions <==> k in st.sessions && !Old(now, st.sessions[k], timeout))
      && (forall k :: k in after.payloads <==> k in st.payloads && !Old(now, st.payloads[k], timeout))
      && (forall s :: s in after.senders ==> after.senders[s] == st.senders[s])
      && (forall k :: k in after.sessions ==> after.sessions[k] == st.sessions[k])
      && (forall k :: k in after.payloads ==> after.payloads[k] == st.payloads[k])
      && after.messages == st.messages && after.handed == st.handed
  {
  }

  // ---- What a PDU is charged -------------------------------------------------------------------------

  /** Not a chunk of a completed message, and room for it with its own sender. */
  ghost predicate Welcome(st: RxState, cfg: Config, len: nat, peek: Sender, id: Option<nat>) {
    && len <= cfg.maxBytes && (id.Some? ==> (peek, id.value) !in st.sessions)
    && (if peek in st.senders then st.senders[peek].bufferedBytes + len <= cfg.maxBytes else true)
  }

  /**
   * Such a PDU is accepted. Its bytes are added to its sender, which is active now; other senders are as
   * they were, except those evicted to make room.
   */
  lemma WelcomeIsCharged(st: RxState, cfg: Config, len: nat, peek: Sender, id: Option<nat>, now: nat)
    requires Sound(st, cfg.hash) && Within(st, cfg) && Exact(st) && st.clock <= now && Welcome(st, cfg, len, peek, id)
    ensures PduOutcome(st, cfg, len, peek, id) == Accepted
    ensures
      var after := AfterPdu(st, cfg, len, peek, id, now, []).senders;
      && peek in after && after[peek].lastActive == now
      && after[peek].bufferedBytes == len + (if peek in st.senders then st.senders[peek].bufferedBytes else 0)
      && forall s :: s in after && s != peek ==> s in st.senders && after[s] == st.senders[s]
  {
    hide MadeRoom, Sound, Within, KeptRecent, Charged, BufferedSum, RoomKept;
    WelcomeFits(st, cfg, len, peek, id);
    AdmittedSenders(st, cfg, len, peek, id, now);
    var room := MadeRoom(st, cfg, peek, len).senders;
    ChargedInRoom(st.senders, room, len, peek, id, now);
  }

  lemma WelcomeFits(st: RxState, cfg: Config, len: nat, peek: Sender, id: Option<nat>)
    requires Sound(st, cfg.hash) && Within(st, cfg) && Exact(st) && Welcome(st, cfg, len, peek, id)
    ensures Considered(st, cfg, len, peek, id) && Fits(st, cfg, len, peek)
    ensures KeptRecent(st.senders, MadeRoom(st, cfg, peek, len).senders, peek)
  {
    hide MadeRoom, Sound, KeptRecent, BufferedSum;
    RefusedIffOverfull(st, cfg, len, peek);
    MadeRoomKeeps(st, cfg, peek, len);
  }

  lemma AdmittedSenders(st: RxState, cfg: Config, len: nat, peek: Sender, id: Option<nat>, now: nat)
    requires Considered(st, cfg, len, peek, id) && Fits(st, cfg, len, peek)
    ensures
      var room := MadeRoom(st, cfg, peek, len).senders;
      AfterPdu(st, cfg, len, peek, id, now, []).senders == room[peek := Charged(room, peek, id, len, now)]
    ensures PduOutcome(st, cfg, len, peek, id) == Accepted
  {
    hide MadeRoom, Charged, Untouched;
  }

  /** Nobody is evicted while there is a place for the sender and room for the bytes. */
  lemma NobodyEvicted(st: RxState, cfg: Config, len: nat, peek: Sender, id: Option<nat>, now: nat)
    requires Considered(st, cfg, len, peek, id) && (peek in st.senders || |st.senders| < cfg.maxSenders)
    requires st.total + len <= cfg.maxBytes
    ensures AfterPdu(st, cfg, len, peek, id, now, []).senders.Keys == st.senders.Keys + {peek}
  {
    hide Charged, Untouched;
    RoomAlready(st, cfg, peek, len);
    AdmittedSenders(st, cfg, len, peek, id, now);
  }

  lemma ChargedInRoom(was: map<Sender, SenderState>, room: map<Sender, SenderState>, len: nat, peek: Sender, id: Option<nat>, now: nat)
    requires KeptRecent(was, room, peek)
    ensures
      var after := room[peek := Charged(room, peek, id, len, now)];
      && peek in after && after[peek].lastActive == now
      && after[peek].bufferedBytes == len + (if peek in was then was[peek].bufferedBytes else 0)
      && forall s :: s in after && s != peek ==> s in was && after[s] == was[s]
  {
    hide EvictedFirst;
  }
}
