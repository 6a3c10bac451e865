/**
 * ltp-cla/src/driver.rs: the bundles answered `Accepted` and what became of them. The engine is an
 * oracle: it answers a request with any session id or none, and sends any notices it likes.
 */
module TransferLedger {
  import opened Basics
  import opened Bags
  import opened Timers

  /** A bundle id. */
  type Id = nat

  datatype Outcome = Completed | Failed

  datatype Reply = NoNeighbour | Accepted | EngineError

  datatype Notice =
    | SessionCompleted(session: SessionId)
    | SessionCancelled(session: SessionId)
    /** A red part or a green segment. */
    | Data

  /** One turn of the driver's loop; all but `Shutdown` end with the notices being drained. */
  datatype Event =
    | Forward(known: bool, answer: Option<SessionId>, bundle: Id, notices: seq<Notice>)
    | Other(notices: seq<Notice>)
    | Shutdown

  function Bundles(outcomes: seq<(Id, Outcome)>): (ids: seq<Id>)
    ensures |ids| == |outcomes|
  {
    seq(|outcomes|, i requires 0 <= i < |outcomes| => outcomes[i].0)
  }

  lemma BundlesOfMore(outcomes: seq<(Id, Outcome)>, o: (Id, Outcome))
    ensures multiset(Bundles(outcomes + [o])) == multiset(Bundles(outcomes)) + multiset{o.0}
  {
    assert Bundles(outcomes + [o]) == Bundles(outcomes) + [o.0];
  }

  /** Nothing appears or vanishes: each accepted bundle has an outcome, is pending, or was lost. */
  ghost predicate Conserved(accepted: seq<Id>, outcomes: seq<(Id, Outcome)>, pending: map<SessionId, Id>, lost: multiset<Id>) {
    multiset(accepted) == multiset(Bundles(outcomes)) + Bag(pending) + lost
  }

  /** Accepted count = outcomes + pending (+ lost), at every moment. */
  lemma CountsAddUp(accepted: seq<Id>, outcomes: seq<(Id, Outcome)>, pending: map<SessionId, Id>, lost: multiset<Id>)
    requires Conserved(accepted, outcomes, pending, lost)
    ensures |accepted| == |outcomes| + |pending| + |lost|
    // No bundle has more outcomes than times it was accepted.
    ensures forall id :: multiset(Bundles(outcomes))[id] <= multiset(accepted)[id]
  {
    BagSize(pending);
    assert |multiset(accepted)| == |accepted|;
  }

  /** What accepting one more bundle for session `s` loses. */
  ghost function Displaced(pending: map<SessionId, Id>, s: SessionId): multiset<Id> {
    if s in pending then multiset{pending[s]} else multiset{}
  }

  lemma AcceptKeeps(accepted: seq<Id>, outcomes: seq<(Id, Outcome)>, pending: map<SessionId, Id>, lost: multiset<Id>,
                    s: SessionId, id: Id)
    requires Conserved(accepted, outcomes, pending, lost)
    ensures Conserved(accepted + [id], outcomes, pending[s := id], lost + Displaced(pending, s))
  {
    BagInsert(pending, s, id);
    if s in pending { BagRemove(pending, s); } else { ReplaceThenRemove(pending, s, id); }
    AcceptAddsUp(multiset(accepted), multiset(Bundles(outcomes)), Bag(pending), Bag(pending - {s}), lost, Displaced(pending, s), multiset{id});
    assert multiset(accepted + [id]) == multiset(accepted) + multiset{id};
  }

  lemma AcceptAddsUp(all: multiset<Id>, done: multiset<Id>, bag: multiset<Id>, rest: multiset<Id>, lost: multiset<Id>,
                     displaced: multiset<Id>, one: multiset<Id>)
    requires all == done + bag + lost && bag == displaced + rest
    ensures all + one == done + (one + rest) + (lost + displaced)
  {
  }

  lemma SettleKeeps(accepted: seq<Id>, outcomes: seq<(Id, Outcome)>, pending: map<SessionId, Id>, lost: multiset<Id>,
                    s: SessionId, o: Outcome)
    requires Conserved(accepted, outcomes, pending, lost) && s in pending
    ensures Conserved(accepted, outcomes + [(pending[s], o)], pending - {s}, lost)
  {
    BagRemove(pending, s);
    BundlesOfMore(outcomes, (pending[s], o));
  }

  /** The session a notice ends, and how. */
  function Ending(n: Notice): Option<(SessionId, Outcome)> {
    match n
    case SessionCompleted(s) => Some((s, Completed))
    case SessionCancelled(s) => Some((s, Failed))
    case Data => None
  }

  /** What one notice reports, and what is pending after it. */
  ghost function Reported(n: Notice, pending: map<SessionId, Id>): seq<(Id, Outcome)> {
    match Ending(n)
    case None => []
    case Some((s, o)) => if s in pending then [(pending[s], o)] else []
  }

  ghost function StillPending(n: Notice, pending: map<SessionId, Id>): map<SessionId, Id> {
    if Ending(n).Some? then pending - {Ending(n).value.0} else pending
  }

  /** The outcomes a list of notices reports, and what is pending after them. */
  ghost function AllReported(notices: seq<Notice>, pending: map<SessionId, Id>): seq<(Id, Outcome)> {
    if notices == [] then []
    else Reported(notices[0], pending) + AllReported(notices[1..], StillPending(notices[0], pending))
  }

  ghost function PendingAfter(notices: seq<Notice>, pending: map<SessionId, Id>): map<SessionId, Id> {
    if notices == [] then pending else PendingAfter(notices[1..], StillPending(notices[0], pending))
  }

  /** The notices contain the end of session `s`. */
  ghost predicate Ends(notices: seq<Notice>, s: SessionId) {
    exists n :: n in notices && Ending(n).Some? && Ending(n).value.0 == s
  }

  lemma EndsStep(notices: seq<Notice>, s: SessionId)
    requires notices != []
    ensures Ends(notices, s) <==> Ends(notices[1..], s) || (Ending(notices[0]).Some? && Ending(notices[0]).value.0 == s)
  {
    assert notices == [notices[0]] + notices[1..];
  }

  /** A session named by a terminal notice stops being pending; any other one is left alone. */
  lemma {:induction false} PendingAfterMeans(notices: seq<Notice>, pending: map<SessionId, Id>, s: SessionId)
    ensures s in PendingAfter(notices, pending) <==> s in pending && !Ends(notices, s)
    ensures s in PendingAfter(notices, pending) ==> PendingAfter(notices, pending)[s] == pending[s]
  {
    if notices != [] {
      EndsStep(notices, s);
      PendingAfterMeans(notices[1..], StillPending(notices[0], pending), s);
    }
  }

  lemma PendingShrinks(notices: seq<Notice>, pending: map<SessionId, Id>)
    ensures PendingAfter(notices, pending).Keys <= pending.Keys
  {
    forall s | s in PendingAfter(notices, pending) ensures s in pending { PendingAfterMeans(notices, pending, s); }
  }

  // ---- How each session ends ---------------------------------------------------------------------

  /** How the first notice that names the end of session `s` says it ended. */
  ghost function FirstEnd(notices: seq<Notice>, s: SessionId): Option<Outcome> {
    if notices == [] then None
    else if notices[0] == SessionCompleted(s) then Some(Completed)
    else if notices[0] == SessionCancelled(s) then Some(Failed)
    else FirstEnd(notices[1..], s)
  }

  /** The outcome a notice tells of a session that no earlier notice ended. */
  ghost function News(n: Notice, front: seq<Notice>, pending: map<SessionId, Id>): seq<(Id, Outcome)> {
    match n
    case SessionCompleted(s) => if s in pending && FirstEnd(front, s).None? then [(pending[s], Completed)] else []
    case SessionCancelled(s) => if s in pending && FirstEnd(front, s).None? then [(pending[s], Failed)] else []
    case Data => []
  }

  /** What a list of notices tells of the pending sessions, by the first notice of each. */
  ghost function Told(notices: seq<Notice>, pending: map<SessionId, Id>): seq<(Id, Outcome)> {
    if notices == [] then []
    else Told(notices[..|notices| - 1], pending) + News(notices[|notices| - 1], notices[..|notices| - 1], pending)
  }

  lemma {:induction false} PendingUntilFirstEnd(notices: seq<Notice>, pending: map<SessionId, Id>, s: SessionId)
    ensures s in PendingAfter(notices, pending) <==> s in pending && FirstEnd(notices, s).None?
    ensures s in PendingAfter(notices, pending) ==> PendingAfter(notices, pending)[s] == pending[s]
  {
    if notices != [] { PendingUntilFirstEnd(notices[1..], StillPending(notices[0], pending), s); }
  }

  lemma {:induction false} ReportedPush(front: seq<Notice>, n: Notice, pending: map<SessionId, Id>)
    ensures AllReported(front + [n], pending) == AllReported(front, pending) + Reported(n, PendingAfter(front, pending))
  {
    if front == [] {
      assert [] + [n] == [n] && [n][1..] == [];
    } else {
      assert (front + [n])[1..] == front[1..] + [n];
      ReportedPush(front[1..], n, StillPending(front[0], pending));
    }
  }

  /** Draining reports each pending session by the first notice of its end, completed as completed. */
  lemma {:induction false} ReportedIsTold(notices: seq<Notice>, pending: map<SessionId, Id>)
    ensures AllReported(notices, pending) == Told(notices, pending)
  {
    if notices != [] {
      var front, n := notices[..|notices| - 1], notices[|notices| - 1];
      assert notices == front + [n];
      ReportedIsTold(front, pending);
      ReportedPush(front, n, pending);
      if !n.Data? { PendingUntilFirstEnd(front, pending, n.session); }
    }
  }

  datatype Fate = Ended(outcome: Outcome) | Overwritten

  ghost predicate AnswersWith(e: Event, s: SessionId) { e.Forward? && e.known && e.answer == Some(s) }

  /** What becomes of a bundle pending for `s` when the turns `events` follow. */
  ghost function FateOf(s: SessionId, events: seq<Event>): Fate
    decreases |events|, 0
  {
    if events == [] || events[0].Shutdown? then Ended(Failed)
    else if AnswersWith(events[0], s) then Overwritten
    else FateAfter(s, events[0].notices, events[1..])
  }

  /** ... and when some notices come first. */
  ghost function FateAfter(s: SessionId, notices: seq<Notice>, events: seq<Event>): Fate
    decreases |events|, 1
  {
    match FirstEnd(notices, s)
    case Some(outcome) => Ended(outcome)
    case None => FateOf(s, events)
  }

  /** The pending bundles that will have an outcome, with that outcome. */
  ghost function Endings(pending: map<SessionId, Id>, events: seq<Event>): map<SessionId, (Id, Outcome)> {
    map s | s in pending && FateOf(s, events).Ended? :: (pending[s], FateOf(s, events).outcome)
  }

  ghost function EndingsAfter(pending: map<SessionId, Id>, notices: seq<Notice>, events: seq<Event>): map<SessionId, (Id, Outcome)> {
    map s | s in pending && FateAfter(s, notices, events).Ended? :: (pending[s], FateAfter(s, notices, events).outcome)
  }

  ghost function EndingNow(e: Event, events: seq<Event>): multiset<(Id, Outcome)> {
    if e.Forward? && e.known && e.answer.Some? then
      match FateAfter(e.answer.value, e.notices, events)
      case Ended(outcome) => multiset{(e.bundle, outcome)}
      case Overwritten => multiset{}
    else multiset{}
  }

  /** The outcomes of the bundles accepted in a run, each by what follows its acceptance. */
  ghost function EndingsIn(events: seq<Event>): multiset<(Id, Outcome)> {
    if events == [] || events[0].Shutdown? then multiset{} else EndingNow(events[0], events[1..]) + EndingsIn(events[1..])
  }

  /** Notices report exactly the sessions they end; the others keep their fate. */
  lemma {:induction false} NoticesSettle(pending: map<SessionId, Id>, notices: seq<Notice>, events: seq<Event>)
    ensures multiset(AllReported(notices, pending)) + Bag(Endings(PendingAfter(notices, pending), events)) ==
      Bag(EndingsAfter(pending, notices, events))
    decreases |notices|
  {
    hide Endings, EndingsAfter, StillPending, Reported, Bag;
    if notices == [] {
      NoNotices(pending, events);
    } else {
      var next := StillPending(notices[0], pending);
      NoticesSettle(next, notices[1..], events);
      OneNotice(pending, notices, events);
      BagOfBoth(Reported(notices[0], pending), AllReported(notices[1..], next));
    }
  }

  lemma NoNotices(pending: map<SessionId, Id>, events: seq<Event>)
    ensures EndingsAfter(pending, [], events) == Endings(pending, events)
  {
  }

  lemma BagOfBoth(a: seq<(Id, Outcome)>, b: seq<(Id, Outcome)>)
    ensures multiset(a + b) == multiset(a) + multiset(b)
  {
  }

  lemma OneNotice(pending: map<SessionId, Id>, notices: seq<Notice>, events: seq<Event>)
    requires notices != []
    ensures Bag(EndingsAfter(pending, notices, events)) ==
      multiset(Reported(notices[0], pending)) + Bag(EndingsAfter(StillPending(notices[0], pending), notices[1..], events))
  {
    var all := EndingsAfter(pending, notices, events);
    var rest := EndingsAfter(StillPending(notices[0], pending), notices[1..], events);
    if notices[0].Data? {
      assert all == rest;
    } else {
      var s := notices[0].session;
      EndingsWithout(pending, notices, events, s);
      hide EndingsAfter, Bag;
      if s in pending { BagRemove(all, s); }
    }
  }

  lemma EndingsWithout(pending: map<SessionId, Id>, notices: seq<Notice>, events: seq<Event>, s: SessionId)
    requires notices != [] && Ending(notices[0]).Some? && Ending(notices[0]).value.0 == s
    ensures
      var all, rest := EndingsAfter(pending, notices, events), EndingsAfter(pending - {s}, notices[1..], events);
      && all - {s} == rest
      && if s in pending then s in all && all[s] == (pending[s], Ending(notices[0]).value.1) else all == rest
  {
    hide FateOf;
  }

  /** The answer of a turn adds its bundle and overwrites the one that was pending for its session. */
  lemma AnswerSettles(e: Event, pending: map<SessionId, Id>, events: seq<Event>)
    requires !e.Shutdown?
    ensures Bag(EndingsAfter(Answered(e, pending), e.notices, events)) ==
      Bag(Endings(pending, [e] + events)) + EndingNow(e, events)
  {
    var all := EndingsAfter(Answered(e, pending), e.notices, events);
    var was := Endings(pending, [e] + events);
    AnswerReplaces(e, pending, events);
    hide Bag, Endings, EndingsAfter;
    if e.Forward? && e.known && e.answer.Some? && e.answer.value in all { BagRemove(all, e.answer.value); }
  }

  lemma AnswerReplaces(e: Event, pending: map<SessionId, Id>, events: seq<Event>)
    requires !e.Shutdown?
    ensures
      var all, was := EndingsAfter(Answered(e, pending), e.notices, events), Endings(pending, [e] + events);
      if e.Forward? && e.known && e.answer.Some? then
        var s := e.answer.value;
        && was == all - {s}
        && match FateAfter(s, e.notices, events) {
             case Ended(outcome) => s in all && all[s] == (e.bundle, outcome)
             case Overwritten => all == was
           }
      else all == was
  {
    assert ([e] + events)[1..] == events;
  }

  lemma FailedIsEnding(pending: map<SessionId, Id>, s: SessionId)
    requires s in pending
    ensures Bag(Endings(pending, [])) == multiset{(pending[s], Failed)} + Bag(Endings(pending - {s}, []))
  {
    BagRemove(Endings(pending, []), s);
    assert Endings(pending, []) - {s} == Endings(pending - {s}, []);
  }

  lemma NothingEnds()
    ensures Bag(Endings(map[], [])) == multiset{}
  {
    assert Endings(map[], []) == map[];
  }

  /** At shutdown everything pending fails, whatever would have followed. */
  lemma ShutdownSettles(pending: map<SessionId, Id>, events: seq<Event>)
    requires events != [] && events[0].Shutdown?
    ensures Endings(pending, events) == Endings(pending, [])
  {
  }

  /** One turn: what it reports and what is still to come is what was to come, and the bundle it accepts. */
  lemma TurnSettles(e: Event, pending: map<SessionId, Id>, events: seq<Event>)
    requires !e.Shutdown?
    ensures multiset(AllReported(e.notices, Answered(e, pending))) + Bag(Endings(AfterTurn(e, pending), events)) ==
      Bag(Endings(pending, [e] + events)) + EndingNow(e, events)
  {
    NoticesSettle(Answered(e, pending), e.notices, events);
    AnswerSettles(e, pending, events);
  }

  /** The outcomes so far and those to come are those of the whole run. */
  ghost predicate Settled(outcomes: seq<(Id, Outcome)>, pending: map<SessionId, Id>, running: bool, rest: seq<Event>,
                          start: seq<(Id, Outcome)>, first: map<SessionId, Id>, events: seq<Event>) {
    multiset(outcomes) + (if running then Bag(Endings(pending, rest)) + EndingsIn(rest) else multiset{}) ==
      multiset(start) + Bag(Endings(first, events)) + EndingsIn(events)
  }

  lemma SettledStep(was: seq<(Id, Outcome)>, before: map<SessionId, Id>, outcomes: seq<(Id, Outcome)>, pending: map<SessionId, Id>,
                    rest: seq<Event>, start: seq<(Id, Outcome)>, first: map<SessionId, Id>, events: seq<Event>)
    requires rest != [] && Settled(was, before, true, rest, start, first, events)
    requires pending == AfterTurn(rest[0], before)
    requires !rest[0].Shutdown? ==> outcomes == was + AllReported(rest[0].notices, Answered(rest[0], before))
    requires rest[0].Shutdown? ==> multiset(outcomes) == multiset(was) + Bag(Endings(before, []))
    ensures Settled(outcomes, pending, !rest[0].Shutdown?, rest[1..], start, first, events)
  {
    hide Bag, Endings, AllReported, EndingNow, AfterTurn, Answered;
    if rest[0].Shutdown? {
      ShutdownSettles(before, rest);
    } else {
      TurnSettles(rest[0], before, rest[1..]);
      assert [rest[0]] + rest[1..] == rest;
      var told := AllReported(rest[0].notices, Answered(rest[0], before));
      BagOfBoth(was, told);
      SettleAddsUp(multiset(was), multiset(told), Bag(Endings(pending, rest[1..])), Bag(Endings(before, rest)),
                   EndingNow(rest[0], rest[1..]), EndingsIn(rest[1..]));
    }
  }

  lemma SettleAddsUp(was: multiset<(Id, Outcome)>, told: multiset<(Id, Outcome)>, later: multiset<(Id, Outcome)>,
                     due: multiset<(Id, Outcome)>, now: multiset<(Id, Outcome)>, rest: multiset<(Id, Outcome)>)
    requires told + later == due + now
    ensures (was + told) + (later + rest) == was + (due + (now + rest))
  {
    assert (was + told) + (later + rest) == was + (told + later) + rest;
  }

  lemma SettledAtEnd(was: seq<(Id, Outcome)>, before: map<SessionId, Id>, outcomes: seq<(Id, Outcome)>, running: bool,
                     start: seq<(Id, Outcome)>, first: map<SessionId, Id>, events: seq<Event>)
    requires Settled(was, before, running, [], start, first, events) && (!running ==> before == map[])
    requires multiset(outcomes) == multiset(was) + Bag(Endings(before, []))
    ensures multiset(outcomes) == multiset(start) + Bag(Endings(first, events)) + EndingsIn(events)
  {
    hide Bag, Endings;
    NothingEnds();
  }

  lemma Reassociate(a: seq<(Id, Outcome)>, b: seq<(Id, Outcome)>, c: seq<(Id, Outcome)>)
    ensures a + (b + c) == a + b + c
  {
  }

  /** The session id the engine gives out in a turn, if any. */
  ghost function Issued(e: Event): set<SessionId> {
    if e.Forward? && e.known && e.answer.Some? then {e.answer.value} else {}
  }

  ghost function AcceptedNow(e: Event): seq<Id> {
    if e.Forward? && e.known && e.answer.Some? then [e.bundle] else []
  }

  /** The bundles answered `Accepted` in a run: those forwarded before shutdown that the engine took. */
  ghost function AcceptedIn(events: seq<Event>): seq<Id> {
    if events == [] || events[0].Shutdown? then [] else AcceptedNow(events[0]) + AcceptedIn(events[1..])
  }

  lemma AllSettled(accepted: seq<Id>, outcomes: seq<(Id, Outcome)>, lost: multiset<Id>)
    requires Conserved(accepted, outcomes, map[], lost)
    ensures multiset(accepted) == multiset(Bundles(outcomes)) + lost
  {
  }

  lemma AcceptedStep(accepted: seq<Id>, events: seq<Event>)
    requires events != []
    ensures accepted + AcceptedIn(events) ==
      accepted + AcceptedNow(events[0]) + if events[0].Shutdown? then [] else AcceptedIn(events[1..])
  {
  }

  // ---- What a run loses ------------------------------------------------------------------------

  /** What is pending after the answer of a turn, before its notices. */
  ghost function Answered(e: Event, pending: map<SessionId, Id>): map<SessionId, Id> {
    if e.Forward? && e.known && e.answer.Some? then pending[e.answer.value := e.bundle] else pending
  }

  ghost function AfterTurn(e: Event, pending: map<SessionId, Id>): map<SessionId, Id> {
    if e.Shutdown? then map[] else PendingAfter(e.notices, Answered(e, pending))
  }

  /** The engine answers with the id of a session that is still pending. */
  ghost predicate ReusesNow(e: Event, pending: map<SessionId, Id>) {
    e.Forward? && e.known && e.answer.Some? && e.answer.value in pending
  }

  ghost function LostNow(e: Event, pending: map<SessionId, Id>): multiset<Id> {
    if e.Forward? && e.known && e.answer.Some? then Displaced(pending, e.answer.value) else multiset{}
  }

  /** The bundles whose session id is given out again before they have an outcome. */
  ghost function LostIn(events: seq<Event>, pending: map<SessionId, Id>): multiset<Id> {
    if events == [] || events[0].Shutdown? then multiset{}
    else LostNow(events[0], pending) + LostIn(events[1..], AfterTurn(events[0], pending))
  }

  /** In some turn before shutdown the engine answers with the id of a session still pending. */
  ghost predicate Reuses(events: seq<Event>, pending: map<SessionId, Id>) {
    events != [] && !events[0].Shutdown? &&
    (ReusesNow(events[0], pending) || Reuses(events[1..], AfterTurn(events[0], pending)))
  }

  /** A run loses nothing exactly when no answer reuses a session id that is still pending. */
  lemma {:induction false} NothingLostIff(events: seq<Event>, pending: map<SessionId, Id>)
    ensures LostIn(events, pending) == multiset{} <==> !Reuses(events, pending)
  {
    if events != [] && !events[0].Shutdown? {
      NothingLostIff(events[1..], AfterTurn(events[0], pending));
      LostNowIff(events[0], pending);
      EmptySum(LostNow(events[0], pending), LostIn(events[1..], AfterTurn(events[0], pending)));
    }
  }

  lemma LostNowIff(e: Event, pending: map<SessionId, Id>)
    ensures LostNow(e, pending) == multiset{} <==> !ReusesNow(e, pending)
  {
    if ReusesNow(e, pending) { assert pending[e.answer.value] in LostNow(e, pending); }
  }

  lemma EmptySum(a: multiset<Id>, b: multiset<Id>)
    ensures a + b == multiset{} <==> a == multiset{} && b == multiset{}
  {
    if a + b == multiset{} {
      assert |a + b| == |a| + |b|;
    }
  }

  /** Every id the engine answers with is one it has not answered with before. */
  ghost predicate FreshAnswers(events: seq<Event>, issued: set<SessionId>) {
    events == [] || (Issued(events[0]) !! issued && FreshAnswers(events[1..], issued + Issued(events[0])))
  }

  /** So as long as no session id is given out twice, nothing is lost. */
  lemma {:induction false} FreshNeverReuses(events: seq<Event>, pending: map<SessionId, Id>, issued: set<SessionId>)
    requires pending.Keys <= issued && FreshAnswers(events, issued)
    ensures !Reuses(events, pending)
  {
    if events != [] && !events[0].Shutdown? {
      PendingShrinks(events[0].notices, Answered(events[0], pending));
      FreshNeverReuses(events[1..], AfterTurn(events[0], pending), issued + Issued(events[0]));
    }
  }

  lemma NothingIsLeft(pending: map<SessionId, Id>)
    ensures LostIn([], pending) == multiset{} && AcceptedIn([]) == []
  {
  }

  lemma LostStep(lost: multiset<Id>, events: seq<Event>, pending: map<SessionId, Id>)
    requires events != []
    ensures lost + LostIn(events, pending) ==
      if events[0].Shutdown? then lost
      else lost + LostNow(events[0], pending) + LostIn(events[1..], AfterTurn(events[0], pending))
  {
  }

  class Ledger {
    var pending: map<SessionId, Id>
    /** What was reported to the sink, oldest first. */
    var outcomes: seq<(Id, Outcome)>
    /** The bundles answered `Accepted`, in order. */
    ghost var accepted: seq<Id>
    /** Those whose session id was given out again while they were still pending. */
    ghost var lost: multiset<Id>

    ghost predicate Valid()
      reads this
    {
      Conserved(accepted, outcomes, pending, lost)
    }

    constructor ()
      ensures Valid() && pending == map[] && outcomes == [] && accepted == [] && lost == multiset{}
    {
      pending, outcomes, accepted, lost := map[], [], [], multiset{};
    }

    /** `DriverCommand::Forward`: `known` tells whether the destination has an address. */
    method HandleForward(known: bool, answer: Option<SessionId>, bundle: Id) returns (reply: Reply)
      requires Valid()
      modifies this
      ensures Valid() && outcomes == old(outcomes)
      ensures reply == if !known then NoNeighbour else if answer.Some? then Accepted else EngineError
      ensures accepted == old(accepted) + (if reply == Accepted then [bundle] else [])
      ensures pending == if reply == Accepted then old(pending)[answer.value := bundle] else old(pending)
      // A bundle is lost exactly when its session id comes back while it is still pending.
      ensures lost == if reply == Accepted then old(lost) + Displaced(old(pending), answer.value) else old(lost)
    {
      hide Conserved, Bag, Displaced;
      if !known { return NoNeighbour; }
      match answer
      case None => reply := EngineError;
      case Some(session) =>
        AcceptKeeps(accepted, outcomes, pending, lost, session, bundle);
        accepted, lost := accepted + [bundle], lost + Displaced(pending, session);
        pending, reply := pending[session := bundle], Accepted;
    }

    /** Reports the outcome of a session that is still pending; a second notice for it is ignored. */
    method Settle(session: SessionId, outcome: Outcome)
      requires Valid()
      modifies this`pending, this`outcomes
      ensures Valid() && pending == old(pending) - {session}
      ensures outcomes == old(outcomes) + if session in old(pending) then [(old(pending)[session], outcome)] else []
    {
      hide Conserved, Bag;
      if session in pending {
        SettleKeeps(accepted, outcomes, pending, lost, session, outcome);
        pending, outcomes := pending - {session}, outcomes + [(pending[session], outcome)];
      } else {
        assert pending - {session} == pending;
      }
    }

    /** One notice; other kinds do not touch the ledger. */
    method OnNotice(n: Notice)
      requires Valid()
      modifies this`pending, this`outcomes
      ensures Valid() && pending == StillPending(n, old(pending))
      ensures outcomes == old(outcomes) + Reported(n, old(pending))
    {
      match n
      case SessionCompleted(session) => Settle(session, Completed);
      case SessionCancelled(session) => Settle(session, Failed);
      case Data =>
    }

    /** The ledger's part of `drain_notices`. */
    method DrainNotices(notices: seq<Notice>)
      requires Valid()
      modifies this`pending, this`outcomes
      ensures Valid() && pending == PendingAfter(notices, old(pending))
      ensures outcomes == old(outcomes) + AllReported(notices, old(pending))
      // Each pending session by the first notice of its end.
      ensures outcomes == old(outcomes) + Told(notices, old(pending))
    {
      ReportedIsTold(notices, pending);
      var rest := notices;
      while rest != []
        invariant Valid()
        invariant PendingAfter(rest, pending) == PendingAfter(notices, old(pending))
        invariant outcomes + AllReported(rest, pending) == old(outcomes) + AllReported(notices, old(pending))
        decreases |rest|
      {
        Reassociate(outcomes, Reported(rest[0], pending), AllReported(rest[1..], StillPending(rest[0], pending)));
        OnNotice(rest[0]);
        rest := rest[1..];
      }
    }

    /** Fails everything still pending, in any order: on `Shutdown` and again when the driver ends. */
    method FailPending()
      requires Valid()
      modifies this`pending, this`outcomes
      ensures Valid() && pending == map[]
      ensures old(outcomes) <= outcomes && forall i :: |old(outcomes)| <= i < |outcomes| ==> outcomes[i].1 == Failed
      ensures multiset(outcomes) == multiset(old(outcomes)) + Bag(Endings(old(pending), []))
    {
      hide Bag;
      NothingEnds();
      while pending != map[]
        invariant Valid()
        invariant multiset(outcomes) + Bag(Endings(pending, [])) == multiset(old(outcomes)) + Bag(Endings(old(pending), []))
        invariant old(outcomes) <= outcomes
        invariant forall i :: |old(outcomes)| <= i < |outcomes| ==> outcomes[i].1 == Failed
        decreases |pending|
      {
        var session := Pick(pending.Keys);
        assert pending.Keys == (pending - {session}).Keys + {session};
        FailedIsEnding(pending, session);
        Settle(session, Failed);
      }
    }

    /** One turn of the loop. */
    method Turn(e: Event) returns (running: bool)
      requires Valid()
      modifies this
      ensures Valid() && old(outcomes) <= outcomes
      ensures running <==> !e.Shutdown?
      ensures accepted == old(accepted) + AcceptedNow(e)
      ensures pending == AfterTurn(e, old(pending)) && lost == old(lost) + LostNow(e, old(pending))
      ensures !e.Shutdown? ==> outcomes == old(outcomes) + AllReported(e.notices, Answered(e, old(pending)))
      ensures e.Shutdown? ==> pending == map[] && multiset(outcomes) == multiset(old(outcomes)) + Bag(Endings(old(pending), []))
    {
      running := true;
      match e
      case Forward(known, answer, bundle, notices) =>
        var reply := HandleForward(known, answer, bundle);
        DrainNotices(notices);
      case Other(notices) =>
        DrainNotices(notices);
      case Shutdown =>
        FailPending();
        running := false;
    }

    /** The driver task: its loop until shutdown or cancellation, then the final clean-up. */
    method Run(events: seq<Event>)
      requires Valid()
      modifies this
      // By exit, every accepted bundle has had exactly one outcome, except those lost to a reused session id.
      ensures multiset(accepted) == multiset(Bundles(outcomes)) + lost && pending == map[]
      ensures lost == old(lost) + LostIn(events, old(pending))
      ensures accepted == old(accepted) + AcceptedIn(events) && old(outcomes) <= outcomes
      // Which outcome: the first ending of its session after a bundle was accepted decides; without one it failed.
      ensures multiset(outcomes) == multiset(old(outcomes)) + Bag(Endings(old(pending), events)) + EndingsIn(events)
    {
      hide LostIn, AcceptedIn, AfterTurn, Bag, Conserved, Endings, EndingsIn, AllReported, Answered;
      var rest, running := events, true;
      while running && rest != []
        invariant Valid()
        invariant lost + (if running then LostIn(rest, pending) else multiset{}) == old(lost) + LostIn(events, old(pending))
        invariant accepted + (if running then AcceptedIn(rest) else []) == old(accepted) + AcceptedIn(events)
        invariant old(outcomes) <= outcomes && (!running ==> pending == map[])
        invariant Settled(outcomes, pending, running, rest, old(outcomes), old(pending), events)
        decreases |rest|
      {
        AcceptedStep(accepted, rest);
        LostStep(lost, rest, pending);
        ghost var was, before := outcomes, pending;
        running := Turn(rest[0]);
        SettledStep(was, before, outcomes, pending, rest, old(outcomes), old(pending), events);
        rest := rest[1..];
      }
      NothingIsLeft(pending);
      ghost var was, before := outcomes, pending;
      FailPending();
      SettledAtEnd(was, before, outcomes, running, old(outcomes), old(pending), events);
      AllSettled(accepted, outcomes, lost);
    }
  }
}
