/** hqfbp-cla/src/session.rs: whole operations of the receive manager, and what each keeps. */
module RxSteps {
  import opened Basics
  import opened RxAccounting
  import opened RxList
  import opened RxTrace
  import opened RxStates

  // ---- One PDU ---------------------------------------------------------------------------------------

  predicate AlreadyCompleted(sessions: map<(Sender, nat), nat>, peek: Sender, id: Option<nat>) {
    id.Some? && (peek, id.value) in sessions
  }

  /** The sender's own bytes leave no room for `len` more. */
  predicate Overfull(senders: map<Sender, SenderState>, peek: Sender, len: nat, maxBytes: nat) {
    peek in senders && senders[peek].bufferedBytes + len > maxBytes
  }

  /** The PDU's bytes are charged to its sender, which becomes the most recent one. */
  ghost function ChargedTo(st: RxState, peek: Sender, id: Option<nat>, len: nat, now: nat): RxState {
    st.(senders := st.senders[peek := Charged(st.senders, peek, id, len, now)],
        lru := Untouched(st.lru, peek) + [peek], total := st.total + len, clock := now)
  }

  /** A PDU that is neither too large nor a chunk of a completed message. */
  ghost predicate Considered(st: RxState, cfg: Config, len: nat, peek: Sender, id: Option<nat>) {
    len <= cfg.maxBytes && !AlreadyCompleted(st.sessions, peek, id)
  }

  ghost predicate Fits(st: RxState, cfg: Config, len: nat, peek: Sender) {
    MadeRoom(st, cfg, peek, len).total + len <= cfg.maxBytes
  }

  /** The state in which the deframer's events are handled. */
  ghost function Admitted(st: RxState, cfg: Config, len: nat, peek: Sender, id: Option<nat>, now: nat): RxState {
    ChargedTo(MadeRoom(st, cfg, peek, len), peek, id, len, now)
  }

  ghost function AfterPdu(st: RxState, cfg: Config, len: nat, peek: Sender, id: Option<nat>, now: nat, events: seq<Event>): RxState {
    if !Considered(st, cfg, len, peek, id) then st
    else if !Fits(st, cfg, len, peek) then MadeRoom(st, cfg, peek, len)
    else AfterEvents(Admitted(st, cfg, len, peek, id, now), cfg.hash, events, map[])
  }

  ghost function PduOutcome(st: RxState, cfg: Config, len: nat, peek: Sender, id: Option<nat>): Outcome {
    if len > cfg.maxBytes then PayloadTooLarge
    else if AlreadyCompleted(st.sessions, peek, id) || Fits(st, cfg, len, peek) then Accepted
    else MemoryCapExceeded(MadeRoom(st, cfg, peek, len).total + len)
  }

  lemma MadeRoomKeeps(st: RxState, cfg: Config, peek: Sender, len: nat)
    requires Sound(st, cfg.hash) && Within(st, cfg) && len <= cfg.maxBytes
    ensures
      var room := MadeRoom(st, cfg, peek, len);
      && RoomKept(st, room, cfg.hash, peek) && Within(room, cfg)
      && (peek !in room.senders ==> |room.senders| < Max(1, cfg.maxSenders))
      && (!Fits(st, cfg, len, peek) ==> room.senders.Keys == {peek})
  {
    var some := RoomForSender(st, peek, cfg.maxSenders);
    RoomForSenderKeeps(st, cfg.hash, peek, cfg.maxSenders);
    RoomForBytesKeeps(some, cfg.hash, peek, len, cfg.maxBytes);
    KeptTwice(st.senders, some.senders, MadeRoom(st, cfg, peek, len).senders, peek);
  }

  /** Nobody is evicted when there is a place for the sender and room for the bytes. */
  lemma RoomAlready(st: RxState, cfg: Config, peek: Sender, len: nat)
    requires (peek in st.senders || |st.senders| < cfg.maxSenders) && st.total + len <= cfg.maxBytes
    ensures MadeRoom(st, cfg, peek, len) == st
  {
  }

  lemma ChargedToKeeps(st: RxState, hash: seq<byte> -> int, peek: Sender, id: Option<nat>, len: nat, now: nat)
    requires Sound(st, hash) && st.clock <= now
    ensures
      var after := ChargedTo(st, peek, id, len, now);
      && Sound(after, hash) && after.senders.Keys == st.senders.Keys + {peek}
      && |after.senders| == |st.senders| + (if peek in st.senders then 0 else 1)
      && (Exact(st) ==> Exact(after))
  {
    hide Listed, Counted, Deduplicated, BufferedSum, EmittedKeys, KeysOf, Untouched, MapSum, Part;
    var state := Charged(st.senders, peek, id, len, now);
    ChargeCounted(st.senders, st.total, peek, id, len, now);
    TouchListed(st.lru, st.senders, st.clock, peek, state);
    PutSize(st.senders, peek, state);
  }

  lemma PutSize(senders: map<Sender, SenderState>, s: Sender, state: SenderState)
    ensures |senders[s := state]| == |senders| + if s in senders then 0 else 1
    ensures senders[s := state].Keys == senders.Keys + {s}
  {
    assert senders[s := state].Keys == senders.Keys + {s};
    assert |senders[s := state].Keys| == |senders.Keys + {s}|;
    if s in senders { assert senders.Keys + {s} == senders.Keys; }
  }

  /** An admitted PDU: both limits hold, and its sender is the most recent one. */
  lemma AdmittedKeeps(st: RxState, cfg: Config, len: nat, peek: Sender, id: Option<nat>, now: nat)
    requires Sound(st, cfg.hash) && Within(st, cfg) && st.clock <= now
    requires Considered(st, cfg, len, peek, id) && Fits(st, cfg, len, peek)
    ensures
      var after := Admitted(st, cfg, len, peek, id, now);
      Sound(after, cfg.hash) && Within(after, cfg) && after.clock == now && (Exact(st) ==> Exact(after))
  {
    hide Sound, KeptRecent, SessionsFit, MadeRoom, BufferedSum;
    MadeRoomKeeps(st, cfg, peek, len);
    ChargedToKeeps(MadeRoom(st, cfg, peek, len), cfg.hash, peek, id, len, now);
  }

  lemma AdmittedFits(st: RxState, cfg: Config, len: nat, peek: Sender, id: Option<nat>, now: nat)
    requires Sound(st, cfg.hash) && Within(st, cfg) && st.clock <= now && SessionsFit(st.senders)
    requires Considered(st, cfg, len, peek, id) && Fits(st, cfg, len, peek)
    ensures SessionsFit(Admitted(st, cfg, len, peek, id, now).senders)
  {
    hide Sound, KeptRecent, SessionsFit, MadeRoom, BufferedSum;
    MadeRoomKeeps(st, cfg, peek, len);
    KeptFit(st.senders, MadeRoom(st, cfg, peek, len).senders, peek);
    ChargeFits(MadeRoom(st, cfg, peek, len).senders, peek, id, len, now);
  }

  lemma KeptFit(was: map<Sender, SenderState>, now: map<Sender, SenderState>, peek: Sender)
    requires KeptRecent(was, now, peek) && SessionsFit(was)
    ensures SessionsFit(now)
  {
  }

  /**
   * A PDU within the cap is refused only when its own sender's bytes leave no room for it, and it then
   * loses every other sender. When the total is exact, it is refused whenever they do.
   */
  lemma RefusedIffOverfull(st: RxState, cfg: Config, len: nat, peek: Sender)
    requires Sound(st, cfg.hash) && Within(st, cfg) && len <= cfg.maxBytes
    ensures !Fits(st, cfg, len, peek) ==>
      && Overfull(st.senders, peek, len, cfg.maxBytes)
      && MadeRoom(st, cfg, peek, len).senders == map[peek := st.senders[peek]]
    ensures Exact(st) ==> (Fits(st, cfg, len, peek) <==> !Overfull(st.senders, peek, len, cfg.maxBytes))
  {
    var room := MadeRoom(st, cfg, peek, len);
    MadeRoomKeeps(st, cfg, peek, len);
    if !Fits(st, cfg, len, peek) {
      AloneCounts(room.senders, room.total, peek);
    } else if Exact(st) && peek in st.senders {
      BufferedWithout(room.senders, peek);
    }
  }

  /** A sender that is left alone accounts for the whole total. */
  lemma AloneCounts(senders: map<Sender, SenderState>, total: nat, s: Sender)
    requires Counted(senders, total) && senders.Keys == {s}
    ensures senders == map[s := senders[s]] && total <= senders[s].bufferedBytes
  {
    BufferedWithout(senders, s);
    assert senders - {s} == map[];
    NoSendersNoBytes(senders - {s});
  }

  lemma PduKeeps(st: RxState, cfg: Config, len: nat, peek: Sender, id: Option<nat>, now: nat, events: seq<Event>)
    requires Sound(st, cfg.hash) && Within(st, cfg) && st.clock <= now && Forward(events, now)
    ensures
      var after := AfterPdu(st, cfg, len, peek, id, now, events);
      Sound(after, cfg.hash) && Within(after, cfg) && st.clock <= after.clock <= Latest(events, now)
  {
    LatestIsLater(events, now);
    if Considered(st, cfg, len, peek, id) {
      MadeRoomKeeps(st, cfg, peek, len);
      if Fits(st, cfg, len, peek) {
        AdmittedKeeps(st, cfg, len, peek, id, now);
        EventsKeep(Admitted(st, cfg, len, peek, id, now), cfg.hash, events, map[]);
      }
    }
  }

  lemma {:induction false} LatestIsLater(events: seq<Event>, from: nat)
    requires Forward(events, from)
    ensures from <= Latest(events, from)
    decreases |events|
  {
    if events != [] { LatestIsLater(events[1..], if events[0].MessageDone? then events[0].at else from); }
  }

  // ---- Handing over ----------------------------------------------------------------------------------

  ghost function HandedOver(st: RxState): RxState {
    st.(messages := [], handed := st.handed + st.messages)
  }

  ghost function AfterDrain(st: RxState, cfg: Config, events: seq<Event>): RxState {
    HandedOver(AfterEvents(st, cfg.hash, events, map[]))
  }

  lemma DrainKeeps(st: RxState, cfg: Config, events: seq<Event>)
    requires Sound(st, cfg.hash) && Within(st, cfg) && Forward(events, st.clock)
    ensures
      var after := AfterDrain(st, cfg, events);
      Sound(after, cfg.hash) && Within(after, cfg) && after.clock == Latest(events, st.clock)
  {
    EventsKeep(st, cfg.hash, events, map[]);
    var full := AfterEvents(st, cfg.hash, events, map[]);
    assert full.handed + full.messages + [] == full.handed + full.messages;
  }

  // ---- Sweeping --------------------------------------------------------------------------------------

  /** The counted bytes of the senders that are gone. */
  ghost function Freed(was: map<Sender, SenderState>, now: map<Sender, SenderState>): nat {
    SatSub(BufferedSum(was), BufferedSum(now))
  }

  /** The senders `gone` have left the table, the list and the total. */
  ghost function WithoutSenders(st: RxState, gone: set<Sender>): RxState {
    st.(senders := st.senders - gone, lru := Without(st.lru, gone), total := SatSub(st.total, Freed(st.senders, st.senders - gone)))
  }

  /** Everything at least `timeout` old at `now` is forgotten. */
  ghost function AfterSweep(st: RxState, now: nat, timeout: nat): RxState {
    WithoutSenders(st, StaleSenders(st.senders, now, timeout)).(
      sessions := Younger(st.sessions, now, timeout),
      payloads := Younger(st.payloads, now, timeout),
      trace := st.trace + [Swept(now, timeout)])
  }

  lemma WithoutNone(st: RxState)
    ensures WithoutSenders(st, {}) == st
  {
    WithoutNobody(st.lru);
    assert st.senders - {} == st.senders;
  }

  /** One more sender gone: the total follows, and the list loses its entry. */
  lemma WithoutOne(st: RxState, gone: set<Sender>, s: Sender)
    requires NoDuplicates(st.lru) && s in st.lru && s in st.senders && s !in gone
    requires BufferedSum(st.senders - gone) <= BufferedSum(st.senders)
    ensures
      var mid, next := WithoutSenders(st, gone), WithoutSenders(st, gone + {s});
      && s in mid.senders && BufferedSum(next.senders) <= BufferedSum(st.senders)
      && next == mid.(senders := mid.senders - {s}, lru := Untouched(mid.lru, s), total := SatSub(mid.total, mid.senders[s].bufferedBytes))
  {
    var mid := st.senders - gone;
    BufferedWithout(mid, s);
    assert mid - {s} == st.senders - (gone + {s});
    WithoutOneMore(st.lru, gone, s);
  }

  lemma {:induction false} WithoutKeeps(st: RxState, gone: set<Sender>)
    requires Listed(st.lru, st.senders, st.clock) && Counted(st.senders, st.total) && gone <= st.senders.Keys
    ensures
      var after := WithoutSenders(st, gone);
      && Listed(after.lru, after.senders, after.clock) && Counted(after.senders, after.total)
      && BufferedSum(after.senders) <= BufferedSum(st.senders)
      && |after.senders| <= |st.senders| && (Exact(st) ==> Exact(after))
    decreases |gone|
  {
    if gone == {} {
      WithoutNone(st);
    } else {
      var s := SomeElement(gone);
      var fewer := gone - {s};
      WithoutKeeps(st, fewer);
      WithoutKeepsOne(st, fewer, s);
      assert fewer + {s} == gone;
    }
  }

  lemma WithoutKeepsOne(st: RxState, gone: set<Sender>, s: Sender)
    requires Listed(st.lru, st.senders, st.clock) && s in st.senders && s !in gone
    requires BufferedSum(st.senders - gone) <= BufferedSum(st.senders)
    requires
      var mid := WithoutSenders(st, gone);
      Listed(mid.lru, mid.senders, mid.clock) && Counted(mid.senders, mid.total)
    ensures
      var mid, next := WithoutSenders(st, gone), WithoutSenders(st, gone + {s});
      && Listed(next.lru, next.senders, next.clock) && Counted(next.senders, next.total)
      && BufferedSum(next.senders) <= BufferedSum(st.senders)
      && |next.senders| <= |mid.senders| && (Exact(mid) ==> Exact(next))
  {
    var mid := WithoutSenders(st, gone);
    ListedEntries(st.lru, st.senders, st.clock);
    ListedDistinct(st.lru, st.senders, st.clock);
    WithoutOne(st, gone, s);
    ListedEntries(mid.lru, mid.senders, mid.clock);
    RemoveListed(mid.lru, mid.senders, mid.clock, Position(mid.lru, s));
    RemoveCounted(mid.senders, mid.total, s);
    assert |mid.senders - {s}| == |mid.senders| - 1;
  }

  lemma SweepKeepsState(st: RxState, cfg: Config, now: nat, timeout: nat)
    requires Sound(st, cfg.hash) && Within(st, cfg)
    ensures
      var after := AfterSweep(st, now, timeout);
      Sound(after, cfg.hash) && Within(after, cfg) && after.clock == st.clock && (Exact(st) ==> Exact(after))
  {
    WithoutKeeps(st, StaleSenders(st.senders, now, timeout));
    SweepKeeps(st.trace, st.payloads, now, timeout);
    EmittedKeysStep(st.trace, Swept(now, timeout));
  }
}
