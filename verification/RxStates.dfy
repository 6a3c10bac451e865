/**
 * hqfbp-cla/src/session.rs: the receive manager's state and what each of its operations makes of it.
 * The deframer is an adversary: after every PDU it may report any finite list of events. Times are
 * ticks of a clock that never goes back.
 */
module RxStates {
  import opened Basics
  import opened RxAccounting
  import opened RxList
  import opened RxTrace

  datatype Event =
    | PduSeen(src: Sender, id: Option<nat>)
    | MessageDone(src: Sender, dst: Sender, id: Option<nat>, payload: seq<byte>, at: nat)
    | SessionExpired
    | DuplicateSeen

  datatype CompletedMessage = CompletedMessage(src: Sender, dst: Sender, id: Option<nat>, payload: seq<byte>)

  datatype Outcome = Accepted | PayloadTooLarge | MemoryCapExceeded(current: nat)

  /** The limits, and `hash_payload`, of which nothing is assumed. */
  datatype Config = Config(maxSenders: nat, maxBytes: nat, hash: seq<byte> -> int)

  /**
   * The fields of the manager, with what the proofs keep of the past: the messages handed over, the
   * time of the last operation, and the trace of emissions and sweeps.
   */
  datatype RxState = RxState(
    senders: map<Sender, SenderState>,
    lru: seq<Sender>,
    total: nat,
    sessions: map<(Sender, nat), nat>,
    payloads: map<(Sender, int), nat>,
    messages: seq<CompletedMessage>,
    handed: seq<CompletedMessage>,
    clock: nat,
    trace: seq<Trace>)

  const START := RxState(map[], [], 0, map[], map[], [], [], 0, [])

  // ---- Invariants ------------------------------------------------------------------------------------

  ghost function KeysOf(messages: seq<CompletedMessage>, hash: seq<byte> -> int): seq<(Sender, int)> {
    if messages == [] then []
    else
      var m := messages[|messages| - 1];
      KeysOf(messages[..|messages| - 1], hash) + [(m.src, hash(m.payload))]
  }

  lemma KeysOfStep(messages: seq<CompletedMessage>, hash: seq<byte> -> int, m: CompletedMessage)
    ensures KeysOf(messages + [m], hash) == KeysOf(messages, hash) + [(m.src, hash(m.payload))]
  {
    assert (messages + [m])[..|messages|] == messages;
  }

  lemma {:induction false} KeyAt(messages: seq<CompletedMessage>, hash: seq<byte> -> int, i: nat)
    requires i < |messages|
    ensures |KeysOf(messages, hash)| == |messages| && KeysOf(messages, hash)[i] == (messages[i].src, hash(messages[i].payload))
    decreases |messages|
  {
    var front := messages[..|messages| - 1];
    if front != [] { KeyAt(front, hash, if i < |front| then i else 0); }
  }

  /** The messages handed over or queued are exactly those emitted. */
  ghost predicate Logged(st: RxState, hash: seq<byte> -> int) {
    EmittedKeys(st.trace) == KeysOf(st.handed + st.messages, hash)
  }

  ghost predicate Sound(st: RxState, hash: seq<byte> -> int) {
    && Listed(st.lru, st.senders, st.clock) && Counted(st.senders, st.total)
    && Deduplicated(st.trace, st.payloads) && Logged(st, hash)
  }

  lemma SoundIsListed(st: RxState, hash: seq<byte> -> int)
    requires Sound(st, hash)
    ensures Listed(st.lru, st.senders, st.clock)
  {
  }

  ghost predicate Within(st: RxState, cfg: Config) {
    st.total <= cfg.maxBytes && |st.senders| <= Max(1, cfg.maxSenders)
  }

  /** The total is what the senders hold. */
  ghost predicate Exact(st: RxState) { st.total == BufferedSum(st.senders) }

  lemma StartIsSound(cfg: Config)
    ensures Sound(START, cfg.hash) && Within(START, cfg) && Exact(START) && SessionsFit(START.senders)
  {
    NoSendersNoBytes(START.senders);
  }

  /** Only the senders, the list and the total may differ. */
  ghost predicate SameHistory(a: RxState, b: RxState) {
    b == a.(senders := b.senders, lru := b.lru, total := b.total)
  }

  /**
   * Two messages with the same sender and payload hash, handed over or queued, are always separated
   * by a sweep at least its timeout after the first.
   */
  lemma RepeatsAreSeparated(st: RxState, hash: seq<byte> -> int, i: nat, j: nat) returns (p: nat, q: nat)
    requires Sound(st, hash) && i < j < |st.handed + st.messages|
    requires
      var all := st.handed + st.messages;
      all[i].src == all[j].src && hash(all[i].payload) == hash(all[j].payload)
    ensures EmittedAt(st.trace, i, p) && EmittedAt(st.trace, j, q) && SweptAfter(st.trace, p, q, st.trace[p].at)
  {
    KeyAt(st.handed + st.messages, hash, i);
    KeyAt(st.handed + st.messages, hash, j);
    p, q := TwoEmissions(st.trace, i, j);
  }

  // ---- What an event does ----------------------------------------------------------------------------

  /** The message times of an event list run forward from `from`. */
  ghost predicate Forward(events: seq<Event>, from: nat) {
    events == [] ||
    if events[0].MessageDone? then from <= events[0].at && Forward(events[1..], events[0].at) else Forward(events[1..], from)
  }

  /** The time after a batch. */
  ghost function Latest(events: seq<Event>, from: nat): nat {
    if events == [] then from else Latest(events[1..], if events[0].MessageDone? then events[0].at else from)
  }

  ghost function AfterRelease(senders: map<Sender, SenderState>, src: Sender, id: Option<nat>): map<Sender, SenderState> {
    if src in senders then senders[src := Released(senders[src], id)] else senders
  }

  ghost function ReleasedBytes(senders: map<Sender, SenderState>, src: Sender, id: Option<nat>): nat {
    if src in senders then Deducted(senders[src], id) else 0
  }

  function Finished(src: Sender, ids: set<nat>, at: nat): map<(Sender, nat), nat> {
    map id | id in ids :: (src, id) := at
  }

  function FinishedSessions(senders: map<Sender, SenderState>, src: Sender, id: Option<nat>, at: nat): map<(Sender, nat), nat> {
    if src in senders then Finished(src, FinishedIds(senders[src], id), at) else map[]
  }

  /** The id of a completed message: its own, or that of the sender's last PDU in this batch. */
  function ResolvedId(id: Option<nat>, src: Sender, last: map<Sender, nat>): Option<nat> {
    if id.Some? then id else if src in last then Some(last[src]) else None
  }

  /** A message whose payload is remembered is dropped; another is remembered and queued, its sender's bytes released. */
  ghost function Completed(st: RxState, hash: seq<byte> -> int, src: Sender, dst: Sender, id: Option<nat>, payload: seq<byte>, at: nat): RxState {
    var key := (src, hash(payload));
    if key in st.payloads then st.(clock := at)
    else RxState(
      AfterRelease(st.senders, src, id),
      st.lru,
      SatSub(st.total, ReleasedBytes(st.senders, src, id)),
      st.sessions + FinishedSessions(st.senders, src, id, at),
      st.payloads[key := at],
      st.messages + [CompletedMessage(src, dst, id, payload)],
      st.handed,
      at,
      st.trace + [Emitted(src, key.1, at)])
  }

  /** The last id seen from each sender in this batch. */
  function LastSeen(e: Event, last: map<Sender, nat>): map<Sender, nat> {
    if e.PduSeen? && e.id.Some? then last[e.src := e.id.value] else last
  }

  ghost function AfterEvent(st: RxState, hash: seq<byte> -> int, e: Event, last: map<Sender, nat>): RxState {
    match e
    case MessageDone(src, dst, id, payload, at) => Completed(st, hash, src, dst, ResolvedId(id, src, last), payload, at)
    case _ => st
  }

  /** What a whole batch of events does. */
  ghost function AfterEvents(st: RxState, hash: seq<byte> -> int, events: seq<Event>, last: map<Sender, nat>): RxState
    decreases |events|
  {
    if events == [] then st
    else AfterEvents(AfterEvent(st, hash, events[0], last), hash, events[1..], LastSeen(events[0], last))
  }

  /** What a batch leaves alone, and what it only lets shrink. */
  ghost predicate SameSenders(a: RxState, b: RxState) {
    b.lru == a.lru && b.senders.Keys == a.senders.Keys && |b.senders| == |a.senders| && b.total <= a.total && b.handed == a.handed
  }

  lemma SameSize(senders: map<Sender, SenderState>, s: Sender, state: SenderState)
    requires s in senders
    ensures |senders[s := state]| == |senders| && senders[s := state].Keys == senders.Keys
  {
    assert senders[s := state].Keys == senders.Keys;
    assert |senders[s := state].Keys| == |senders.Keys|;
  }

  lemma ReleaseKeeps(st: RxState, src: Sender, id: Option<nat>)
    requires Listed(st.lru, st.senders, st.clock) && Counted(st.senders, st.total)
    ensures
      var after := AfterRelease(st.senders, src, id);
      && Listed(st.lru, after, st.clock) && Counted(after, SatSub(st.total, ReleasedBytes(st.senders, src, id)))
      && |after| == |st.senders| && after.Keys == st.senders.Keys
  {
    if src in st.senders {
      UpdateListed(st.lru, st.senders, st.clock, src, Released(st.senders[src], id));
      ReleaseCounted(st.senders, st.total, src, id);
      SameSize(st.senders, src, Released(st.senders[src], id));
    }
  }

  lemma LogKeeps(st: RxState, hash: seq<byte> -> int, m: CompletedMessage, at: nat)
    requires Logged(st, hash)
    ensures Logged(st.(messages := st.messages + [m], trace := st.trace + [Emitted(m.src, hash(m.payload), at)]), hash)
  {
    EmittedKeysStep(st.trace, Emitted(m.src, hash(m.payload), at));
    KeysOfStep(st.handed + st.messages, hash, m);
    assert st.handed + (st.messages + [m]) == st.handed + st.messages + [m];
  }

  lemma CompletedKeeps(st: RxState, hash: seq<byte> -> int, src: Sender, dst: Sender, id: Option<nat>, payload: seq<byte>, at: nat)
    requires Sound(st, hash) && st.clock <= at
    ensures
      var after := Completed(st, hash, src, dst, id, payload, at);
      Sound(after, hash) && SameSenders(st, after) && after.clock == at
  {
    var key := (src, hash(payload));
    if key !in st.payloads {
      ReleaseKeeps(st, src, id);
      ListedLater(st.lru, AfterRelease(st.senders, src, id), st.clock, at);
      EmitKeeps(st.trace, st.payloads, src, key.1, at);
      LogKeeps(st, hash, CompletedMessage(src, dst, id, payload), at);
    } else {
      ListedLater(st.lru, st.senders, st.clock, at);
    }
  }

  lemma {:induction false} EventsKeep(st: RxState, hash: seq<byte> -> int, events: seq<Event>, last: map<Sender, nat>)
    requires Sound(st, hash) && Forward(events, st.clock)
    ensures
      var after := AfterEvents(st, hash, events, last);
      Sound(after, hash) && SameSenders(st, after) && after.clock == Latest(events, st.clock)
    decreases |events|
  {
    if events != [] {
      var e := events[0];
      if e.MessageDone? { CompletedKeeps(st, hash, e.src, e.dst, ResolvedId(e.id, e.src, last), e.payload, e.at); }
      EventsKeep(AfterEvent(st, hash, e, last), hash, events[1..], LastSeen(e, last));
    }
  }

  /** The messages a batch adds: those with payloads not remembered, in order, with their resolved ids. */
  function Emissions(events: seq<Event>, hash: seq<byte> -> int, known: set<(Sender, int)>, last: map<Sender, nat>): seq<CompletedMessage> {
    if events == [] then []
    else
      var later := LastSeen(events[0], last);
      match events[0]
      case MessageDone(src, dst, id, payload, _) =>
        if (src, hash(payload)) in known then Emissions(events[1..], hash, known, later)
        else
          [CompletedMessage(src, dst, ResolvedId(id, src, last), payload)]
          + Emissions(events[1..], hash, known + {(src, hash(payload))}, later)
      case _ => Emissions(events[1..], hash, known, later)
  }

  lemma {:induction false} BatchEmits(st: RxState, hash: seq<byte> -> int, events: seq<Event>, last: map<Sender, nat>)
    ensures AfterEvents(st, hash, events, last).messages == st.messages + Emissions(events, hash, st.payloads.Keys, last)
    decreases |events|
  {
    if events != [] {
      var next := AfterEvent(st, hash, events[0], last);
      BatchEmits(next, hash, events[1..], LastSeen(events[0], last));
      if events[0].MessageDone? {
        var e := events[0];
        assert (e.src, hash(e.payload)) !in st.payloads ==> next.payloads.Keys == st.payloads.Keys + {(e.src, hash(e.payload))};
      }
    }
  }

  // ---- Making room -----------------------------------------------------------------------------------

  ghost predicate CanEvict(st: RxState, skip: Option<Sender>) {
    PositionToEvict(st.lru, skip) < |st.lru| && st.lru[PositionToEvict(st.lru, skip)] in st.senders
  }

  ghost function Victim(st: RxState, skip: Option<Sender>): Sender
    requires CanEvict(st, skip)
  {
    st.lru[PositionToEvict(st.lru, skip)]
  }

  /** The first permitted entry of the list goes, with its bytes. */
  ghost function EvictOne(st: RxState, skip: Option<Sender>): RxState
    requires CanEvict(st, skip)
  {
    var s := Victim(st, skip);
    st.(senders := st.senders - {s}, lru := DropAt(st.lru, PositionToEvict(st.lru, skip)),
        total := SatSub(st.total, st.senders[s].bufferedBytes))
  }

  /** At the sender limit, an untracked sender takes the place of the oldest one. */
  ghost function RoomForSender(st: RxState, peek: Sender, maxSenders: nat): RxState {
    if peek !in st.senders && |st.senders| >= maxSenders && CanEvict(st, None) then EvictOne(st, None) else st
  }

  /** The oldest other senders go, one at a time, only while the PDU does not fit. */
  ghost function RoomForBytes(st: RxState, peek: Sender, len: nat, maxBytes: nat): RxState
    decreases |st.senders|
  {
    if st.total + len <= maxBytes || !CanEvict(st, Some(peek)) then st
    else
      assert |EvictOne(st, Some(peek)).senders| == |st.senders| - 1;
      RoomForBytes(EvictOne(st, Some(peek)), peek, len, maxBytes)
  }

  ghost function MadeRoom(st: RxState, cfg: Config, peek: Sender, len: nat): RxState {
    RoomForBytes(RoomForSender(st, peek, cfg.maxSenders), peek, len, cfg.maxBytes)
  }

  lemma EvictKeeps(st: RxState, hash: seq<byte> -> int, skip: Option<Sender>)
    requires Sound(st, hash) && CanEvict(st, skip)
    ensures
      var after := EvictOne(st, skip);
      && Sound(after, hash) && SameHistory(st, after) && |after.senders| == |st.senders| - 1
      && EvictedOne(st.senders, after.senders, skip, Victim(st, skip))
      && after.total <= st.total && (Exact(st) ==> Exact(after))
  {
    var i := PositionToEvict(st.lru, skip);
    RemoveListed(st.lru, st.senders, st.clock, i);
    RemoveCounted(st.senders, st.total, st.lru[i]);
    OldestIsFirst(st.lru, st.senders, st.clock, skip, i);
  }

  /** Eviction is impossible only when no permitted sender is left. */
  lemma NobodyLeft(st: RxState, hash: seq<byte> -> int, skip: Option<Sender>)
    requires Sound(st, hash) && !CanEvict(st, skip)
    ensures forall s :: s in st.senders ==> skip == Some(s)
  {
    ListedEntries(st.lru, st.senders, st.clock);
    NobodyToEvict(st.lru, st.senders, st.clock, skip);
  }

  /** The senders kept are unchanged, `peek` is among them if it was tracked, and no evicted one was more recent. */
  ghost predicate KeptRecent(was: map<Sender, SenderState>, now: map<Sender, SenderState>, peek: Sender) {
    && (forall s :: s in now ==> s in was && now[s] == was[s])
    && (peek in was ==> peek in now)
    && (forall e, k :: EvictedFirst(was, now, peek, e, k))
  }

  /** If `e` went and `k` stayed, `k` was at least as recent, unless it is the PDU's own sender. */
  ghost predicate EvictedFirst(was: map<Sender, SenderState>, now: map<Sender, SenderState>, peek: Sender, e: Sender, k: Sender) {
    e in was && e !in now && k in now && k in was && k != peek ==> was[e].lastActive <= was[k].lastActive
  }

  lemma KeptAfterEviction(was: map<Sender, SenderState>, before: map<Sender, SenderState>, now: map<Sender, SenderState>,
                          skip: Option<Sender>, peek: Sender, victim: Sender)
    requires KeptRecent(was, before, peek) && EvictedOne(before, now, skip, victim)
    requires skip == Some(peek) || (skip == None && peek !in was)
    ensures KeptRecent(was, now, peek) && (peek in now <==> peek in before)
  {
    forall e, k ensures EvictedFirst(was, now, peek, e, k) {
      assert EvictedFirst(was, before, peek, e, k);
    }
  }

  lemma KeptTwice(was: map<Sender, SenderState>, mid: map<Sender, SenderState>, now: map<Sender, SenderState>, peek: Sender)
    requires KeptRecent(was, mid, peek) && KeptRecent(mid, now, peek)
    ensures KeptRecent(was, now, peek)
  {
    forall e, k ensures EvictedFirst(was, now, peek, e, k) {
      assert EvictedFirst(was, mid, peek, e, k) && EvictedFirst(mid, now, peek, e, k);
    }
  }

  /** Making room keeps the invariant, and lets the least recent other senders go. */
  ghost predicate RoomKept(was: RxState, now: RxState, hash: seq<byte> -> int, peek: Sender) {
    && Sound(now, hash) && SameHistory(was, now) && KeptRecent(was.senders, now.senders, peek)
    && now.total <= was.total && |now.senders| <= |was.senders| && (Exact(was) ==> Exact(now))
  }

  lemma RoomForSenderKeeps(st: RxState, hash: seq<byte> -> int, peek: Sender, maxSenders: nat)
    requires Sound(st, hash) && |st.senders| <= Max(1, maxSenders)
    ensures
      var room := RoomForSender(st, peek, maxSenders);
      && RoomKept(st, room, hash, peek)
      && (peek !in room.senders ==> |room.senders| < Max(1, maxSenders))
  {
    if peek !in st.senders && |st.senders| >= maxSenders {
      if CanEvict(st, None) {
        EvictKeeps(st, hash, None);
        KeptAfterEviction(st.senders, st.senders, EvictOne(st, None).senders, None, peek, Victim(st, None));
      } else {
        NobodyLeft(st, hash, None);
        NoMembers(st.senders);
      }
    }
  }

  lemma NoMembers(senders: map<Sender, SenderState>)
    requires forall s :: s !in senders
    ensures |senders| == 0
  {
    assert senders == map[];
  }

  lemma {:induction false} RoomForBytesKeeps(st: RxState, hash: seq<byte> -> int, peek: Sender, len: nat, maxBytes: nat)
    requires Sound(st, hash) && len <= maxBytes
    ensures
      var room := RoomForBytes(st, peek, len, maxBytes);
      && RoomKept(st, room, hash, peek) && (peek in room.senders <==> peek in st.senders)
      && (room.total + len > maxBytes ==> room.senders.Keys == {peek})
    decreases |st.senders|
  {
    if st.total + len > maxBytes {
      if CanEvict(st, Some(peek)) {
        var next := EvictOne(st, Some(peek));
        EvictKeeps(st, hash, Some(peek));
        RoomForBytesKeeps(next, hash, peek, len, maxBytes);
        KeptAfterEviction(st.senders, st.senders, next.senders, Some(peek), peek, Victim(st, Some(peek)));
        KeptTwice(st.senders, next.senders, RoomForBytes(next, peek, len, maxBytes).senders, peek);
      } else {
        NobodyLeft(st, hash, Some(peek));
        OnlyPeekLeft(st.senders, st.total, peek);
      }
    }
  }

  lemma OnlyPeekLeft(senders: map<Sender, SenderState>, total: nat, peek: Sender)
    requires Counted(senders, total) && total > 0
    requires forall s :: s in senders ==> Some(peek) == Some(s)
    ensures senders.Keys == {peek}
  {
    NoSendersNoBytes(senders);
  }
}
