/** hqfbp-cla/src/session.rs: a run after which bytes that are held are no longer counted. */
module RxLoss {
  import opened Basics
  import opened RxAccounting
  import opened RxList
  import opened RxStates
  import opened RxSteps
  import opened RxManager

  /**
   * Two stations with x and y bytes in flight. A message of the first with an id it does not track
   * releases all it has; when its session `i` does complete, its x bytes are taken off once more, and
   * that many of the other station's y bytes are no longer counted.
   */
  method LoseBytes(cfg: Config, a: Sender, b: Sender, i: nat, j: nat, x: nat, y: nat, p: seq<byte>, q: seq<byte>)
    returns (m: RxSessionManager)
    requires a != b && i != j && cfg.hash(p) != cfg.hash(q) && 2 <= cfg.maxSenders && x + y <= cfg.maxBytes
    ensures fresh(m) && m.Valid() && m.cfg == cfg
    ensures m.totalBuffered == SatSub(y, x) && BufferedSum(m.senders) == y
  {
    hide AfterPdu, AfterDrain, TwoStations, Within, Sound, PduOutcome, Emissions, BufferedSum, Overfull, Considered;
    m := new RxSessionManager(cfg);
    var stray, own := MessageDone(a, a, Some(j), p, 0), MessageDone(a, a, Some(i), q, 0);
    FirstPdu(cfg, a, i, x);
    var _ := m.ProcessPdu(x, a, Some(i), 0, []);
    SecondPdu(m.State(), cfg, a, b, i, x, y);
    var _ := m.ProcessPdu(y, b, None, 0, []);
    StrayMessage(m.State(), cfg, a, b, i, x, y, stray);
    var _ := m.DrainCompletedMessages([stray]);
    RealMessage(m.State(), cfg, a, b, i, x, y, own);
    var _ := m.DrainCompletedMessages([own]);
  }

  /** Station `a` with `held` bytes counted, of which session `i` is tracked with x, and station `b` with y. */
  function TwoStations(a: Sender, b: Sender, i: nat, x: nat, held: nat, y: nat): map<Sender, SenderState> {
    map[a := SenderState(0, held, {i}, map[i := x]), b := SenderState(0, y, {}, map[])]
  }

  lemma TakenAtOnce(st: RxState, cfg: Config, len: nat, peek: Sender, id: Option<nat>, now: nat)
    requires (peek in st.senders || |st.senders| < cfg.maxSenders) && st.total + len <= cfg.maxBytes
    requires !AlreadyCompleted(st.sessions, peek, id)
    ensures AfterPdu(st, cfg, len, peek, id, now, []) == ChargedTo(st, peek, id, len, now)
  {
    RoomAlready(st, cfg, peek, len);
  }

  lemma FirstPdu(cfg: Config, a: Sender, i: nat, x: nat)
    requires 1 <= cfg.maxSenders && x <= cfg.maxBytes
    ensures
      var st := AfterPdu(START, cfg, x, a, Some(i), 0, []);
      st.senders == map[a := SenderState(0, x, {i}, map[i := x])] && st.total == x && st.payloads == map[] && st.sessions == map[] && st.clock == 0
  {
    hide AfterPdu, Untouched, BufferedSum;
    TakenAtOnce(START, cfg, x, a, Some(i), 0);
  }

  lemma SecondPdu(st: RxState, cfg: Config, a: Sender, b: Sender, i: nat, x: nat, y: nat)
    requires a != b && 2 <= cfg.maxSenders && x + y <= cfg.maxBytes
    requires st.senders == map[a := SenderState(0, x, {i}, map[i := x])] && st.total == x
    ensures
      var next := AfterPdu(st, cfg, y, b, None, 0, []);
      next.senders == TwoStations(a, b, i, x, x, y) && next.total == x + y && next.payloads == st.payloads && next.clock == 0
  {
    hide AfterPdu, Untouched;
    assert st.senders.Keys == {a};
    assert |st.senders| == |st.senders.Keys|;
    TakenAtOnce(st, cfg, y, b, None, 0);
  }

  lemma StrayMessage(st: RxState, cfg: Config, a: Sender, b: Sender, i: nat, x: nat, y: nat, e: Event)
    requires a != b && e.MessageDone? && e.src == a && e.at == 0 && e.id.Some? && e.id.value != i
    requires st.senders == TwoStations(a, b, i, x, x, y) && st.total == x + y && st.payloads == map[]
    ensures
      var next := AfterDrain(st, cfg, [e]);
      next.senders == TwoStations(a, b, i, x, 0, y) && next.total == y && next.payloads == map[(a, cfg.hash(e.payload)) := 0] && next.clock == 0
  {
    hide AfterDrain, AfterEvents, MapSum, Part, Deducted, Released, FinishedIds;
    OneEvent(st, cfg, e);
    StrayRelease(i, e.id.value, x);
    assert TwoStations(a, b, i, x, x, y)[a := SenderState(0, 0, {i}, map[i := x])] == TwoStations(a, b, i, x, 0, y);
  }

  lemma StrayRelease(i: nat, j: nat, x: nat)
    requires i != j
    ensures
      var state := SenderState(0, x, {i}, map[i := x]);
      Deducted(state, Some(j)) == x && Released(state, Some(j)) == SenderState(0, 0, {i}, map[i := x])
  {
    assert Part(map[i := x], {j}) == map[];
    assert map[i := x] - {j} == map[i := x];
  }

  lemma OwnRelease(i: nat, x: nat)
    ensures
      var state := SenderState(0, 0, {i}, map[i := x]);
      Deducted(state, Some(i)) == x && Released(state, Some(i)).bufferedBytes == 0
  {
    var sessions: map<nat, nat> := map[i := x];
    assert Part(sessions, FinishedIds(SenderState(0, 0, {i}, sessions), Some(i))) == sessions;
    assert i in sessions;
    MapSumRemove(sessions, i);
    assert sessions - {i} == map[];
  }

  lemma RealMessage(st: RxState, cfg: Config, a: Sender, b: Sender, i: nat, x: nat, y: nat, e: Event)
    requires a != b && e.MessageDone? && e.src == a && e.id == Some(i) && (a, cfg.hash(e.payload)) !in st.payloads
    requires st.senders == TwoStations(a, b, i, x, 0, y) && st.total == y
    ensures
      var next := AfterDrain(st, cfg, [e]);
      next.total == SatSub(y, x) && BufferedSum(next.senders) == y
  {
    OneEvent(st, cfg, e);
    OwnRelease(i, x);
    var after := AfterDrain(st, cfg, [e]).senders;
    assert after == st.senders[a := Released(st.senders[a], Some(i))];
    BufferedWithout(after, a);
    BufferedWithout(after - {a}, b);
    assert after - {a} - {b} == map[];
    NoSendersNoBytes(after - {a} - {b});
  }

  lemma OneEvent(st: RxState, cfg: Config, e: Event)
    ensures AfterDrain(st, cfg, [e]) == HandedOver(AfterEvent(st, cfg.hash, e, map[]))
  {
    assert [e][1..] == [];
    var next := AfterEvent(st, cfg.hash, e, map[]);
    assert AfterEvents(st, cfg.hash, [e], map[]) == AfterEvents(next, cfg.hash, [], LastSeen(e, map[]));
  }
}
