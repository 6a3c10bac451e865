/**
 * hqfbp-cla/src/session.rs: runs of the receive manager. Every state of a run keeps the invariant and
 * both limits; the byte count stays exact exactly as long as no completion overdraws its sender.
 */
module RxRuns {
  import opened Basics
  import opened RxAccounting
  import opened RxStates
  import opened RxSteps
  import opened RxTrace

  // ---- One batch of events ---------------------------------------------------------------------------

  /** The message is emitted and takes more off than its sender holds, while others hold bytes. */
  ghost predicate EventOverdraws(st: RxState, hash: seq<byte> -> int, e: Event, last: map<Sender, nat>) {
    e.MessageDone? && (e.src, hash(e.payload)) !in st.payloads && Overdrawn(st.senders, e.src, ResolvedId(e.id, e.src, last))
  }

  /** The message is emitted and takes everything its sender holds, while sessions with bytes stay tracked. */
  ghost predicate EventDrifts(st: RxState, hash: seq<byte> -> int, e: Event, last: map<Sender, nat>) {
    && e.MessageDone? && (e.src, hash(e.payload)) !in st.payloads
    && e.src in st.senders && Drifts(st.senders[e.src], ResolvedId(e.id, e.src, last))
  }

  ghost predicate BatchOverdraws(st: RxState, hash: seq<byte> -> int, events: seq<Event>, last: map<Sender, nat>)
    decreases |events|
  {
    events != [] && (EventOverdraws(st, hash, events[0], last)
                     || BatchOverdraws(AfterEvent(st, hash, events[0], last), hash, events[1..], LastSeen(events[0], last)))
  }

  ghost predicate BatchDrifts(st: RxState, hash: seq<byte> -> int, events: seq<Event>, last: map<Sender, nat>)
    decreases |events|
  {
    events != [] && (EventDrifts(st, hash, events[0], last)
                     || BatchDrifts(AfterEvent(st, hash, events[0], last), hash, events[1..], LastSeen(events[0], last)))
  }

  /** The total is exact before the batch and after each of its events. */
  ghost predicate BatchExact(st: RxState, hash: seq<byte> -> int, events: seq<Event>, last: map<Sender, nat>)
    decreases |events|
  {
    Exact(st) && (events == [] || BatchExact(AfterEvent(st, hash, events[0], last), hash, events[1..], LastSeen(events[0], last)))
  }

  /** The sessions fit before the batch and after each of its events. */
  ghost predicate BatchFits(st: RxState, hash: seq<byte> -> int, events: seq<Event>, last: map<Sender, nat>)
    decreases |events|
  {
    && SessionsFit(st.senders)
    && (events == [] || BatchFits(AfterEvent(st, hash, events[0], last), hash, events[1..], LastSeen(events[0], last)))
  }

  lemma EventExactIff(st: RxState, hash: seq<byte> -> int, e: Event, last: map<Sender, nat>)
    requires Exact(st)
    ensures Exact(AfterEvent(st, hash, e, last)) <==> !EventOverdraws(st, hash, e, last)
  {
    if e.MessageDone? && e.src in st.senders { ExactAfterReleaseIff(st.senders, e.src, ResolvedId(e.id, e.src, last)); }
  }

  lemma EventFitsIff(st: RxState, hash: seq<byte> -> int, e: Event, last: map<Sender, nat>)
    requires SessionsFit(st.senders)
    ensures SessionsFit(AfterEvent(st, hash, e, last).senders) <==> !EventDrifts(st, hash, e, last)
    ensures !EventOverdraws(st, hash, e, last)
  {
    if e.MessageDone? && e.src in st.senders {
      var id := ResolvedId(e.id, e.src, last);
      FitAfterReleaseIff(st.senders[e.src], id);
      ReplacedFits(st.senders, e.src, Released(st.senders[e.src], id));
    }
  }

  lemma ReplacedFits(senders: map<Sender, SenderState>, s: Sender, state: SenderState)
    requires SessionsFit(senders)
    ensures SessionsFit(senders[s := state]) <==> MapSum(state.sessionBytes) <= state.bufferedBytes
  {
    assert senders[s := state][s] == state;
  }

  lemma {:induction false} BatchExactIff(st: RxState, hash: seq<byte> -> int, events: seq<Event>, last: map<Sender, nat>)
    requires Exact(st)
    ensures BatchExact(st, hash, events, last) <==> !BatchOverdraws(st, hash, events, last)
    ensures BatchExact(st, hash, events, last) ==> Exact(AfterEvents(st, hash, events, last))
    decreases |events|
  {
    if events != [] {
      EventExactIff(st, hash, events[0], last);
      var next := AfterEvent(st, hash, events[0], last);
      if Exact(next) { BatchExactIff(next, hash, events[1..], LastSeen(events[0], last)); }
    }
  }

  lemma {:induction false} BatchFitsIff(st: RxState, hash: seq<byte> -> int, events: seq<Event>, last: map<Sender, nat>)
    requires SessionsFit(st.senders)
    ensures BatchFits(st, hash, events, last) <==> !BatchDrifts(st, hash, events, last)
    ensures BatchFits(st, hash, events, last) ==> SessionsFit(AfterEvents(st, hash, events, last).senders)
    ensures BatchFits(st, hash, events, last) ==> !BatchOverdraws(st, hash, events, last)
    decreases |events|
  {
    if events != [] {
      EventFitsIff(st, hash, events[0], last);
      var next := AfterEvent(st, hash, events[0], last);
      if SessionsFit(next.senders) { BatchFitsIff(next, hash, events[1..], LastSeen(events[0], last)); }
    }
  }

  // ---- Operations and runs -----------------------------------------------------------------------------

  datatype Op =
    | Pdu(len: nat, peek: Sender, id: Option<nat>, now: nat, events: seq<Event>)
    | Drain(events: seq<Event>)
    | Sweep(now: nat, timeout: nat)

  ghost function After(st: RxState, cfg: Config, op: Op): RxState {
    match op
    case Pdu(len, peek, id, now, events) => AfterPdu(st, cfg, len, peek, id, now, events)
    case Drain(events) => AfterDrain(st, cfg, events)
    case Sweep(now, timeout) => AfterSweep(st, now, timeout)
  }

  ghost function AfterAll(st: RxState, cfg: Config, ops: seq<Op>): RxState
    decreases |ops|
  {
    if ops == [] then st else AfterAll(After(st, cfg, ops[0]), cfg, ops[1..])
  }

  /** The operations come in the order of their times, none before `from`; a sweep may use any time. */
  ghost predicate Timely(ops: seq<Op>, from: nat) {
    ops == [] ||
    match ops[0]
    case Pdu(_, _, _, now, events) => from <= now && Forward(events, now) && Timely(ops[1..], Latest(events, now))
    case Drain(events) => Forward(events, from) && Timely(ops[1..], Latest(events, from))
    case Sweep(_, _) => Timely(ops[1..], from)
  }

  ghost function TimeAfter(op: Op, from: nat): nat {
    match op
    case Pdu(_, _, _, now, events) => Latest(events, now)
    case Drain(events) => Latest(events, from)
    case Sweep(_, _) => from
  }

  /** In every state of the run the invariant and both limits hold. */
  ghost predicate AlwaysSound(st: RxState, cfg: Config, ops: seq<Op>)
    decreases |ops|
  {
    Sound(st, cfg.hash) && Within(st, cfg) && (ops == [] || AlwaysSound(After(st, cfg, ops[0]), cfg, ops[1..]))
  }

  /** An event list that runs forward from later also runs forward from earlier. */
  lemma {:induction false} ForwardFromEarlier(events: seq<Event>, early: nat, late: nat)
    requires early <= late && Forward(events, late)
    ensures Forward(events, early) && Latest(events, early) <= Latest(events, late)
    decreases |events|
  {
    if events != [] && !events[0].MessageDone? { ForwardFromEarlier(events[1..], early, late); }
  }

  /** The operation's times do not lie before `clock`. */
  ghost predicate Due(op: Op, clock: nat) {
    match op
    case Pdu(_, _, _, now, events) => clock <= now && Forward(events, now)
    case Drain(events) => Forward(events, clock)
    case Sweep(_, _) => true
  }

  lemma FirstIsDue(ops: seq<Op>, from: nat, clock: nat)
    requires ops != [] && Timely(ops, from) && clock <= from
    ensures Due(ops[0], clock)
  {
    if ops[0].Drain? { ForwardFromEarlier(ops[0].events, clock, from); }
  }

  lemma StepKeeps(st: RxState, cfg: Config, ops: seq<Op>, from: nat)
    requires ops != [] && Sound(st, cfg.hash) && Within(st, cfg) && st.clock <= from && Timely(ops, from)
    ensures
      var next := After(st, cfg, ops[0]);
      && Sound(next, cfg.hash) && Within(next, cfg) && next.clock <= TimeAfter(ops[0], from)
      && Timely(ops[1..], TimeAfter(ops[0], from))
  {
    match ops[0]
    case Pdu(len, peek, id, now, events) => PduKeeps(st, cfg, len, peek, id, now, events);
    case Drain(events) =>
      ForwardFromEarlier(events, st.clock, from);
      DrainKeeps(st, cfg, events);
    case Sweep(now, timeout) => SweepKeepsState(st, cfg, now, timeout);
  }

  /** Whatever the operations and the deframer do, the invariant and both limits hold after every step. */
  lemma {:induction false} RunKeeps(st: RxState, cfg: Config, ops: seq<Op>, from: nat)
    requires Sound(st, cfg.hash) && Within(st, cfg) && st.clock <= from && Timely(ops, from)
    ensures AlwaysSound(st, cfg, ops)
    ensures Sound(AfterAll(st, cfg, ops), cfg.hash) && Within(AfterAll(st, cfg, ops), cfg)
    decreases |ops|
  {
    if ops != [] {
      StepKeeps(st, cfg, ops, from);
      RunKeeps(After(st, cfg, ops[0]), cfg, ops[1..], TimeAfter(ops[0], from));
    }
  }

  /**
   * Over any run: two messages with the same sender and payload hash, handed over or still queued at
   * its end, are separated by a sweep at least its timeout after the first was emitted.
   */
  lemma RunSeparatesRepeats(cfg: Config, ops: seq<Op>, i: nat, j: nat) returns (p: nat, q: nat)
    requires Timely(ops, 0)
    requires
      var end := AfterAll(START, cfg, ops);
      var all := end.handed + end.messages;
      i < j < |all| && all[i].src == all[j].src && cfg.hash(all[i].payload) == cfg.hash(all[j].payload)
    ensures
      var trace := AfterAll(START, cfg, ops).trace;
      EmittedAt(trace, i, p) && EmittedAt(trace, j, q) && SweptAfter(trace, p, q, trace[p].at)
  {
    StartIsSound(cfg);
    RunKeeps(START, cfg, ops, 0);
    p, q := RepeatsAreSeparated(AfterAll(START, cfg, ops), cfg.hash, i, j);
  }

  // ---- Exactness over runs -----------------------------------------------------------------------------

  ghost predicate Takes(st: RxState, cfg: Config, op: Op) {
    op.Pdu? && Considered(st, cfg, op.len, op.peek, op.id) && Fits(st, cfg, op.len, op.peek)
  }

  /** The state in which an operation starts handling events, and the events it handles. */
  ghost function BatchStart(st: RxState, cfg: Config, op: Op): RxState {
    if Takes(st, cfg, op) then Admitted(st, cfg, op.len, op.peek, op.id, op.now)
    else if op.Drain? then st
    else After(st, cfg, op)
  }

  ghost function Batch(st: RxState, cfg: Config, op: Op): seq<Event> {
    if Takes(st, cfg, op) then op.events else if op.Drain? then op.events else []
  }

  /** Some completion of the run overdraws its sender. */
  ghost predicate RunOverdraws(st: RxState, cfg: Config, ops: seq<Op>)
    decreases |ops|
  {
    ops != [] && (BatchOverdraws(BatchStart(st, cfg, ops[0]), cfg.hash, Batch(st, cfg, ops[0]), map[])
                  || RunOverdraws(After(st, cfg, ops[0]), cfg, ops[1..]))
  }

  ghost predicate RunDrifts(st: RxState, cfg: Config, ops: seq<Op>)
    decreases |ops|
  {
    ops != [] && (BatchDrifts(BatchStart(st, cfg, ops[0]), cfg.hash, Batch(st, cfg, ops[0]), map[])
                  || RunDrifts(After(st, cfg, ops[0]), cfg, ops[1..]))
  }

  /** The total is exact in every state of the run, also between the events of a batch. */
  ghost predicate RunExact(st: RxState, cfg: Config, ops: seq<Op>)
    decreases |ops|
  {
    Exact(st) && (ops == [] || (BatchExact(BatchStart(st, cfg, ops[0]), cfg.hash, Batch(st, cfg, ops[0]), map[])
                                && RunExact(After(st, cfg, ops[0]), cfg, ops[1..])))
  }

  /** What follows the batch changes no count. */
  lemma AfterBatch(st: RxState, cfg: Config, op: Op)
    ensures
      var end := AfterEvents(BatchStart(st, cfg, op), cfg.hash, Batch(st, cfg, op), map[]);
      After(st, cfg, op).senders == end.senders && After(st, cfg, op).total == end.total
  {
  }

  lemma BatchStartIsExact(st: RxState, cfg: Config, ops: seq<Op>, from: nat)
    requires ops != [] && Sound(st, cfg.hash) && Within(st, cfg) && st.clock <= from && Timely(ops, from) && Exact(st)
    ensures Exact(BatchStart(st, cfg, ops[0]))
  {
    match ops[0]
    case Pdu(len, peek, id, now, events) =>
      if Considered(st, cfg, len, peek, id) {
        MadeRoomKeeps(st, cfg, peek, len);
        if Fits(st, cfg, len, peek) { AdmittedKeeps(st, cfg, len, peek, id, now); }
      }
    case Drain(_) =>
    case Sweep(now, timeout) => SweepKeepsState(st, cfg, now, timeout);
  }

  lemma BatchStartFits(st: RxState, cfg: Config, ops: seq<Op>, from: nat)
    requires ops != [] && Sound(st, cfg.hash) && Within(st, cfg) && st.clock <= from && Timely(ops, from) && SessionsFit(st.senders)
    ensures SessionsFit(BatchStart(st, cfg, ops[0]).senders)
  {
    match ops[0]
    case Pdu(len, peek, id, now, events) =>
      if Considered(st, cfg, len, peek, id) {
        MadeRoomKeeps(st, cfg, peek, len);
        KeptFit(st.senders, MadeRoom(st, cfg, peek, len).senders, peek);
        if Fits(st, cfg, len, peek) { AdmittedFits(st, cfg, len, peek, id, now); }
      }
    case Drain(_) =>
    case Sweep(now, timeout) =>
  }

  /** Exactly when the total is what the senders hold throughout a run: when no completion overdraws. */
  lemma {:induction false} RunExactIff(st: RxState, cfg: Config, ops: seq<Op>, from: nat)
    requires Sound(st, cfg.hash) && Within(st, cfg) && st.clock <= from && Timely(ops, from) && Exact(st)
    ensures RunExact(st, cfg, ops) <==> !RunOverdraws(st, cfg, ops)
    ensures RunExact(st, cfg, ops) ==> Exact(AfterAll(st, cfg, ops))
    decreases |ops|
  {
    if ops != [] {
      var op := ops[0];
      StepKeeps(st, cfg, ops, from);
      BatchStartIsExact(st, cfg, ops, from);
      BatchExactIff(BatchStart(st, cfg, op), cfg.hash, Batch(st, cfg, op), map[]);
      AfterBatch(st, cfg, op);
      if Exact(After(st, cfg, op)) { RunExactIff(After(st, cfg, op), cfg, ops[1..], TimeAfter(op, from)); }
    }
  }

  /**
   * Only a completion that falls back on everything although sessions with bytes are tracked opens the
   * way: before the first such one no completion overdraws, and all sessions fit.
   */
  lemma {:induction false} NoDriftNoLoss(st: RxState, cfg: Config, ops: seq<Op>, from: nat)
    requires Sound(st, cfg.hash) && Within(st, cfg) && st.clock <= from && Timely(ops, from)
    requires SessionsFit(st.senders) && !RunDrifts(st, cfg, ops)
    ensures !RunOverdraws(st, cfg, ops) && SessionsFit(AfterAll(st, cfg, ops).senders)
    decreases |ops|
  {
    if ops != [] {
      var op := ops[0];
      StepKeeps(st, cfg, ops, from);
      BatchStartFits(st, cfg, ops, from);
      BatchFitsIff(BatchStart(st, cfg, op), cfg.hash, Batch(st, cfg, op), map[]);
      AfterBatch(st, cfg, op);
      NoDriftNoLoss(After(st, cfg, op), cfg, ops[1..], TimeAfter(op, from));
    }
  }
}
