/** hqfbp-cla/src/session.rs: the memory-bounded receive manager itself. */
module RxManager {
  import opened Basics
  import opened RxAccounting
  import opened RxList
  import opened RxTrace
  import opened RxStates
  import opened RxSteps
  import opened RxRuns
  import opened RxTally

  // ---- Loops over sets of ids and senders --------------------------------------------------------------

  /** The sessions `done` have been taken out of `sessions`. */
  ghost predicate Taken(sessions: map<nat, nat>, done: set<nat>, left: map<nat, nat>, deducted: nat, found: bool) {
    && left == sessions - done
    && deducted == MapSum(Part(sessions, done))
    && (found <==> Part(sessions, done) != map[])
  }

  lemma TakeOne(sessions: map<nat, nat>, done: set<nat>, left: map<nat, nat>, deducted: nat, found: bool, id: nat)
    requires Taken(sessions, done, left, deducted, found) && id !in done
    ensures id in left ==> Taken(sessions, done + {id}, left - {id}, deducted + left[id], true)
    ensures id !in left ==> Taken(sessions, done + {id}, left, deducted, found)
  {
    if id in left {
      PartStep(sessions, done, id);
      assert id in Part(sessions, done + {id});
      assert sessions - (done + {id}) == left - {id};
    } else {
      assert Part(sessions, done + {id}) == Part(sessions, done);
      assert sessions - (done + {id}) == left;
    }
  }

  /** Takes the finished sessions out of a sender's byte counts, one id at a time. */
  method ReleaseSessions(sessions: map<nat, nat>, finished: set<nat>) returns (left: map<nat, nat>, deducted: nat, found: bool)
    ensures Taken(sessions, finished, left, deducted, found)
  {
    left, deducted, found := sessions, 0, false;
    var pending := finished;
    ghost var done: set<nat> := {};
    assert Part(sessions, done) == map[] && sessions - done == sessions;
    while pending != {}
      invariant pending + done == finished && pending !! done
      invariant Taken(sessions, done, left, deducted, found)
      decreases |pending|
    {
      var id := Pick(pending);
      TakeOne(sessions, done, left, deducted, found, id);
      if id in left {
        deducted, found, left := deducted + left[id], true, left - {id};
      }
      pending, done := pending - {id}, done + {id};
    }
    assert done == finished;
  }

  lemma TakenIsReleased(state: SenderState, id: Option<nat>, left: map<nat, nat>, deducted: nat, found: bool)
    requires Taken(state.sessionBytes, FinishedIds(state, id), left, deducted, found)
    ensures var bytes := if found then deducted else state.bufferedBytes;
      && bytes == Deducted(state, id)
      && Released(state, id) ==
         SenderState(state.lastActive, SatSub(state.bufferedBytes, bytes), state.activeIds - FinishedIds(state, id), left)
  {
  }

  /** The memory released for a completed message, if its sender is tracked. */
  method ReleaseSender(senders: map<Sender, SenderState>, src: Sender, id: Option<nat>, at: nat)
    returns (rest: map<Sender, SenderState>, bytes: nat, finished: map<(Sender, nat), nat>)
    ensures rest == AfterRelease(senders, src, id)
    ensures bytes == ReleasedBytes(senders, src, id)
    ensures finished == FinishedSessions(senders, src, id, at)
  {
    if src !in senders {
      return senders, 0, map[];
    }
    var state := senders[src];
    var ids := FinishedIds(state, id);
    var left, deducted, found := ReleaseSessions(state.sessionBytes, ids);
    TakenIsReleased(state, id, left, deducted, found);
    if !found {
      deducted := state.bufferedBytes;
    }
    var next := SenderState(state.lastActive, SatSub(state.bufferedBytes, deducted), state.activeIds - ids, left);
    return senders[src := next], deducted, Finished(src, ids, at);
  }

  /** The removal loop of a sweep; the stale senders are taken in any order. */
  method RemoveAll(ghost st: RxState, stale: set<Sender>, was: map<Sender, SenderState>, lru0: seq<Sender>, total0: nat)
    returns (senders: map<Sender, SenderState>, lru: seq<Sender>, total: nat)
    requires was == st.senders && lru0 == st.lru && total0 == st.total && AllListed(stale, was, lru0)
    ensures st.(senders := senders, lru := lru, total := total) == WithoutSenders(st, stale)
  {
    hide Without, Untouched, BufferedSum;
    senders, lru, total := was, lru0, total0;
    var pending := stale;
    ghost var gone: set<Sender> := {};
    WithoutNone(st);
    while pending != {}
      invariant pending + gone == stale && pending !! gone
      invariant st.(senders := senders, lru := lru, total := total) == WithoutSenders(st, gone)
      invariant BufferedSum(senders) <= BufferedSum(was)
      decreases |pending|
    {
      var s := Pick(pending);
      WithoutOne(st, gone, s);
      total, senders, lru := SatSub(total, senders[s].bufferedBytes), senders - {s}, Untouched(lru, s);
      pending, gone := pending - {s}, gone + {s};
    }
    assert gone == stale;
  }

  // ---- The manager -------------------------------------------------------------------------------------

  class RxSessionManager {
    const cfg: Config
    var senders: map<Sender, SenderState>
    var lru: seq<Sender>
    var completedSessions: map<(Sender, nat), nat>
    var completedPayloads: map<(Sender, int), nat>
    var completedMessages: seq<CompletedMessage>
    var totalBuffered: nat
    ghost var handed: seq<CompletedMessage>
    ghost var clock: nat
    ghost var trace: seq<Trace>

    ghost function State(): RxState
      reads this
    {
      RxState(senders, lru, totalBuffered, completedSessions, completedPayloads, completedMessages, handed, clock, trace)
    }

    /** Both limits, the list and its order, the counts, and what keeps repeats apart. */
    ghost predicate Valid()
      reads this
    {
      Sound(State(), cfg.hash) && Within(State(), cfg)
    }

    constructor (cfg: Config)
      ensures Valid() && this.cfg == cfg && State() == START
    {
      this.cfg := cfg;
      senders, lru, completedSessions, completedPayloads, completedMessages := map[], [], map[], map[], [];
      totalBuffered, handed, clock, trace := 0, [], 0, [];
      StartIsSound(cfg);
    }

    /** `touch_sender`; lemma TouchListed says what it does to the order. */
    method TouchSender(s: Sender)
      modifies this`lru
      ensures lru == Untouched(old(lru), s) + [s]
    {
      var pos := Position(lru, s);
      if pos < |lru| {
        lru := DropAt(lru, pos);
      }
      lru := lru + [s];
    }

    /** Drops the least recently active sender other than `skip`, if there is one. */
    method EvictOldestSender(skip: Option<Sender>) returns (evicted: bool)
      requires Sound(State(), cfg.hash)
      modifies this`senders, this`lru, this`totalBuffered
      ensures Sound(State(), cfg.hash)
      ensures evicted <==> old(CanEvict(State(), skip))
      ensures State() == if evicted then EvictOne(old(State()), skip) else old(State())
      ensures evicted ==> EvictedOne(old(senders), senders, skip, Victim(old(State()), skip))
      ensures !evicted ==> forall s :: s in senders ==> skip == Some(s)
    {
      ListedEntries(lru, senders, clock);
      var idx := PositionToEvict(lru, skip);
      evicted := idx < |lru|;
      if evicted {
        EvictKeeps(State(), cfg.hash, skip);
        var oldest := lru[idx];
        lru, senders, totalBuffered :=
          DropAt(lru, idx), senders - {oldest}, SatSub(totalBuffered, senders[oldest].bufferedBytes);
      } else {
        NobodyLeft(State(), cfg.hash, skip);
      }
    }

    /** At the sender limit, an untracked sender takes the place of the oldest one. */
    method MakeRoomForSender(peek: Sender)
      requires Sound(State(), cfg.hash)
      modifies this`senders, this`lru, this`totalBuffered
      ensures Sound(State(), cfg.hash) && State() == RoomForSender(old(State()), peek, cfg.maxSenders)
    {
      if peek !in senders && |senders| >= cfg.maxSenders {
        var _ := EvictOldestSender(None);
      }
    }

    /** Evicts the oldest other senders, one at a time, until the PDU fits or none is left. */
    method MakeRoomForBytes(peek: Sender, len: nat) returns (fits: bool)
      requires Sound(State(), cfg.hash)
      modifies this`senders, this`lru, this`totalBuffered
      ensures Sound(State(), cfg.hash) && State() == RoomForBytes(old(State()), peek, len, cfg.maxBytes)
      ensures fits <==> totalBuffered + len <= cfg.maxBytes
    {
      while totalBuffered + len > cfg.maxBytes
        invariant Sound(State(), cfg.hash)
        invariant RoomForBytes(State(), peek, len, cfg.maxBytes) == RoomForBytes(old(State()), peek, len, cfg.maxBytes)
        decreases |senders|
      {
        if CanEvict(State(), Some(peek)) { EvictKeeps(State(), cfg.hash, Some(peek)); }
        var evicted := EvictOldestSender(Some(peek));
        if !evicted {
          return false;
        }
      }
      return true;
    }

    /** A reassembled message: dropped as a repeat, or emitted with its sender's bytes released. */
    method CompleteMessage(src: Sender, dst: Sender, id: Option<nat>, payload: seq<byte>, at: nat)
      modifies this
      ensures State() == Completed(old(State()), cfg.hash, src, dst, id, payload, at)
    {
      clock := at;
      var key := (src, cfg.hash(payload));
      if key !in completedPayloads {
        var rest, bytes, finished := ReleaseSender(senders, src, id, at);
        completedPayloads, completedMessages, trace :=
          completedPayloads[key := at], completedMessages + [CompletedMessage(src, dst, id, payload)], trace + [Emitted(src, key.1, at)];
        senders, totalBuffered, completedSessions := rest, SatSub(totalBuffered, bytes), completedSessions + finished;
      }
    }

    /** `poll_deframer_events`: handles whatever the deframer reports, in order. */
    method PollDeframerEvents(events: seq<Event>)
      requires Valid() && Forward(events, clock)
      modifies this
      ensures Valid() && clock == Latest(events, old(clock))
      ensures State() == AfterEvents(old(State()), cfg.hash, events, map[])
      // What is queued: exactly the messages whose payloads are not remembered, in order.
      ensures completedMessages == old(completedMessages) + Emissions(events, cfg.hash, old(completedPayloads).Keys, map[])
    {
      EventsKeep(State(), cfg.hash, events, map[]);
      BatchEmits(State(), cfg.hash, events, map[]);
      var last: map<Sender, nat> := map[];
      var rest := events;
      while rest != []
        invariant AfterEvents(State(), cfg.hash, rest, last) == AfterEvents(old(State()), cfg.hash, events, map[])
        decreases |rest|
      {
        match rest[0] {
          case PduSeen(src, id) =>
            if id.Some? {
              last := last[src := id.value];
            }
          case MessageDone(src, dst, id, payload, at) =>
            CompleteMessage(src, dst, ResolvedId(id, src, last), payload, at);
          case _ =>
        }
        rest := rest[1..];
      }
    }

    /**
     * One PDU. `peek` and `id` are the sender and message id read from its header, `events` what the
     * deframer reports after it.
     */
    method ProcessPdu(len: nat, peek: Sender, id: Option<nat>, now: nat, events: seq<Event>) returns (r: Outcome)
      requires Valid() && clock <= now && Forward(events, now)
      modifies this
      ensures Valid() && old(clock) <= clock <= Latest(events, now)
      ensures State() == AfterPdu(old(State()), cfg, len, peek, id, now, events)
      ensures r == PduOutcome(old(State()), cfg, len, peek, id)
      // A PDU within the cap is refused only when its own sender's bytes leave no room for it ...
      ensures r.MemoryCapExceeded? ==> Overfull(old(senders), peek, len, cfg.maxBytes) && senders == map[peek := old(senders)[peek]]
      // ... and, when the total was exact, it is taken only when they do leave room.
      ensures r.Accepted? && Considered(old(State()), cfg, len, peek, id) && Exact(old(State())) ==>
        !Overfull(old(senders), peek, len, cfg.maxBytes)
    {
      PduKeeps(State(), cfg, len, peek, id, now, events);
      if len > cfg.maxBytes { return PayloadTooLarge; }
      RefusedIffOverfull(State(), cfg, len, peek);
      if AlreadyCompleted(completedSessions, peek, id) { return Accepted; }
      r := Ingest(len, peek, id, now, events);
    }

    /** Makes room, charges the PDU and feeds the deframer. */
    method Ingest(len: nat, peek: Sender, id: Option<nat>, now: nat, events: seq<Event>) returns (r: Outcome)
      requires Valid() && clock <= now && Forward(events, now) && Considered(State(), cfg, len, peek, id)
      modifies this
      ensures State() == AfterPdu(old(State()), cfg, len, peek, id, now, events)
      ensures r == PduOutcome(old(State()), cfg, len, peek, id)
    {
      hide Sound, RoomForSender, RoomForBytes, ChargedTo, AfterEvents, Emissions, BufferedSum;
      MakeRoomForSender(peek);
      var fits := MakeRoomForBytes(peek, len);
      if !fits { return MemoryCapExceeded(totalBuffered + len); }
      AdmittedKeeps(old(State()), cfg, len, peek, id, now);
      Charge(peek, id, len, now);
      PollDeframerEvents(events);
      r := Accepted;
    }

    /** Charges one PDU to its sender and makes that sender the most recent one. */
    method Charge(peek: Sender, id: Option<nat>, len: nat, now: nat)
      modifies this`senders, this`lru, this`totalBuffered, this`clock
      ensures State() == ChargedTo(old(State()), peek, id, len, now)
    {
      totalBuffered := totalBuffered + len;
      TouchSender(peek);
      senders := senders[peek := Charged(senders, peek, id, len, now)];
      clock := now;
    }

    /** `drain_completed_messages` */
    method DrainCompletedMessages(events: seq<Event>) returns (messages: seq<CompletedMessage>)
      requires Valid() && Forward(events, clock)
      modifies this
      ensures Valid() && clock == Latest(events, old(clock))
      ensures messages == old(completedMessages) + Emissions(events, cfg.hash, old(completedPayloads).Keys, map[])
      ensures State() == AfterDrain(old(State()), cfg, events) && handed == old(handed) + messages
    {
      DrainKeeps(State(), cfg, events);
      EventsKeep(State(), cfg.hash, events, map[]);
      PollDeframerEvents(events);
      messages := completedMessages;
      completedMessages, handed := [], handed + messages;
    }

    /**
     * Forgets what is at least `timeout` old at `now`: senders, completed sessions and payload hashes.
     * Lemma SweepDropsAPrefix says what that does to the list.
     */
    method SweepExpiredAt(now: nat, timeout: nat)
      requires Valid()
      modifies this
      ensures Valid() && State() == AfterSweep(old(State()), now, timeout)
    {
      hide Sound, Within, BufferedSum, Without;
      SweepKeepsState(State(), cfg, now, timeout);
      SoundIsListed(State(), cfg.hash);
      StaleAreListed(lru, senders, clock, now, timeout);
      var stale := StaleSenders(senders, now, timeout);
      var restSenders, restLru, restTotal := RemoveAll(State(), stale, senders, lru, totalBuffered);
      senders, lru, totalBuffered, completedSessions, completedPayloads, trace :=
        restSenders, restLru, restTotal,
        Younger(completedSessions, now, timeout), Younger(completedPayloads, now, timeout), trace + [Swept(now, timeout)];
    }
  }

  // ---- Runs --------------------------------------------------------------------------------------------

  /**
   * Any list of operations in the order of their times, with whatever events the deframer reports. The
   * end state is that of the specification, so the laws of RxRuns hold of it and of every state between.
   */
  method Run(m: RxSessionManager, ops: seq<Op>, ghost from: nat) returns (handed: seq<CompletedMessage>)
    requires m.Valid() && m.clock <= from && Timely(ops, from)
    modifies m
    ensures m.Valid() && m.State() == AfterAll(old(m.State()), m.cfg, ops)
    ensures AlwaysSound(old(m.State()), m.cfg, ops)
    ensures m.handed == old(m.handed) + handed
    // The byte count is exact in every state of the run exactly when no completion overdraws its sender.
    ensures old(Exact(m.State())) ==> (RunExact(old(m.State()), m.cfg, ops) <==> !RunOverdraws(old(m.State()), m.cfg, ops))
    // Each session's count goes on being the sum of what was taken in for it since it last ended.
    ensures forall facts :: old(Tells(m.senders, facts)) ==> Tells(m.senders, facts + RunFacts(old(m.State()), m.cfg, ops))
  {
    hide Sound, Within, After, Due, Tells, RunFacts;
    forall facts | Tells(m.senders, facts)
      ensures Tells(AfterAll(m.State(), m.cfg, ops).senders, facts + RunFacts(m.State(), m.cfg, ops))
    {
      RunTells(m.State(), m.cfg, ops, from, facts);
    }
    RunKeeps(m.State(), m.cfg, ops, from);
    if Exact(m.State()) { RunExactIff(m.State(), m.cfg, ops, from); }
    handed := [];
    var rest := ops;
    ghost var time := from;
    while rest != []
      invariant m.Valid() && m.clock <= time && Timely(rest, time)
      invariant AfterAll(m.State(), m.cfg, rest) == AfterAll(old(m.State()), m.cfg, ops)
      invariant m.handed == old(m.handed) + handed
      decreases |rest|
    {
      StepKeeps(m.State(), m.cfg, rest, time);
      FirstIsDue(rest, time, m.clock);
      time := TimeAfter(rest[0], time);
      var more := Perform(m, rest[0]);
      handed, rest := handed + more, rest[1..];
    }
  }

  /** One operation. */
  method Perform(m: RxSessionManager, op: Op) returns (handed: seq<CompletedMessage>)
    requires m.Valid()
    requires Due(op, m.clock)
    modifies m
    ensures m.Valid() && m.State() == After(old(m.State()), m.cfg, op)
    ensures m.handed == old(m.handed) + handed
  {
    handed := [];
    match op
    case Pdu(len, peek, id, now, events) =>
      PduHandsNothing(m.State(), m.cfg, len, peek, id, now, events);
      var _ := m.ProcessPdu(len, peek, id, now, events);
    case Drain(events) =>
      handed := m.DrainCompletedMessages(events);
    case Sweep(now, timeout) =>
      m.SweepExpiredAt(now, timeout);
  }

  lemma PduHandsNothing(st: RxState, cfg: Config, len: nat, peek: Sender, id: Option<nat>, now: nat, events: seq<Event>)
    requires Sound(st, cfg.hash) && Within(st, cfg) && st.clock <= now && Forward(events, now)
    ensures AfterPdu(st, cfg, len, peek, id, now, events).handed == st.handed
  {
    if Considered(st, cfg, len, peek, id) {
      MadeRoomKeeps(st, cfg, peek, len);
      if Fits(st, cfg, len, peek) {
        AdmittedKeeps(st, cfg, len, peek, id, now);
        EventsKeep(Admitted(st, cfg, len, peek, id, now), cfg.hash, events, map[]);
      }
    }
  }
}
