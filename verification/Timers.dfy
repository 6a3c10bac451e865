/** ltp/src/engine/timer.rs: active timers, indexed by key and by (deadline, key). */
module Timers {
  import opened Basics

  datatype SessionId = SessionId(originator: u64, number: u64)

  datatype TimerKind =
    | Inactivity(isSender: bool)
    | Checkpoint(serial: u64)
    | Report(serial: u64)
    | Cancel(isSender: bool)

  datatype TimerKey = TimerKey(session: SessionId, kind: TimerKind)

  datatype Entry = Entry(deadline: u64, key: TimerKey)

  // ---- The derived orders --------------------------------------------------------------------

  function Variant(kind: TimerKind): int {
    match kind
    case Inactivity(_) => 0
    case Checkpoint(_) => 1
    case Report(_) => 2
    case Cancel(_) => 3
  }

  function Payload(kind: TimerKind): int {
    match kind
    case Inactivity(s) => if s then 1 else 0
    case Checkpoint(n) => n
    case Report(n) => n
    case Cancel(s) => if s then 1 else 0
  }

  /** The derived order on `TimerKey`: session first (originator, number), then kind. */
  predicate KeyLe(a: TimerKey, b: TimerKey) {
    if a.session.originator != b.session.originator then a.session.originator < b.session.originator
    else if a.session.number != b.session.number then a.session.number < b.session.number
    else if Variant(a.kind) != Variant(b.kind) then Variant(a.kind) < Variant(b.kind)
    else Payload(a.kind) <= Payload(b.kind)
  }

  /** The order of the `(deadline, key)` set. */
  predicate EntryLe(a: Entry, b: Entry) {
    if a.deadline != b.deadline then a.deadline < b.deadline else KeyLe(a.key, b.key)
  }

  lemma EntryOrderIsTotal(a: Entry, b: Entry, c: Entry)
    ensures EntryLe(a, b) || EntryLe(b, a)
    ensures EntryLe(a, b) && EntryLe(b, a) ==> a == b
    ensures EntryLe(a, b) && EntryLe(b, c) ==> EntryLe(a, c)
  {
  }

  lemma FirstEntry(s: set<Entry>) returns (e: Entry)
    requires s != {}
    ensures e in s && forall f :: f in s ==> EntryLe(e, f)
  {
    e := SomeElement(s);
    if s != {e} {
      var m := FirstEntry(s - {e});
      forall f | f in s ensures EntryLe(if EntryLe(e, m) then e else m, f) {
        if f != e { assert f in s - {e}; }
      }
      if !EntryLe(e, m) { e := m; }
    }
  }

  const FIRST_KIND := Inactivity(false)
  const LAST_KIND := Cancel(true)

  /** The key range scanned by `cancel_session` is exactly one session. */
  lemma SessionIsAKeyRange(session: SessionId, k: TimerKey)
    ensures KeyLe(TimerKey(session, FIRST_KIND), k) && KeyLe(k, TimerKey(session, LAST_KIND)) <==> k.session == session
  {
  }

  // ---- Specification of polling ----------------------------------------------------------------

  ghost predicate Due(timers: map<TimerKey, u64>, k: TimerKey, now: u64) {
    k in timers && timers[k] <= now
  }

  ghost predicate Earlier(timers: map<TimerKey, u64>, a: TimerKey, b: TimerKey) {
    a in timers && b in timers && a != b && EntryLe(Entry(timers[a], a), Entry(timers[b], b))
  }

  /** `keys` lists the due timers, each once, in (deadline, key) order. */
  ghost predicate IsDueList(timers: map<TimerKey, u64>, now: u64, keys: seq<TimerKey>) {
    && (forall k :: k in keys <==> Due(timers, k, now))
    && (forall i, j :: 0 <= i < j < |keys| ==> Earlier(timers, keys[i], keys[j]))
  }

  lemma FirstIsDue(timers: map<TimerKey, u64>, now: u64, keys: seq<TimerKey>)
    requires IsDueList(timers, now, keys) && keys != []
    ensures Due(timers, keys[0], now)
  {
    assert keys[0] in keys;
  }

  /** There is only one such list. */
  lemma {:induction false} DueListIsUnique(timers: map<TimerKey, u64>, now: u64, a: seq<TimerKey>, b: seq<TimerKey>)
    requires forall k :: k in a || k in b ==> k in timers
    requires IsDueList(timers, now, a) && IsDueList(timers, now, b)
    ensures a == b
    decreases |a|
  {
    if a == [] {
      if b != [] { FirstIsDue(timers, now, b); assert false; }
    } else {
      FirstIsDue(timers, now, a);
      FirstIsDue(timers, now, b);
      EntryOrderIsTotal(Entry(timers[a[0]], a[0]), Entry(timers[b[0]], b[0]), Entry(timers[a[0]], a[0]));
      assert a[0] == b[0];
      var rest := timers - {a[0]};
      DueTail(timers, now, a);
      DueTail(timers, now, b);
      DueListIsUnique(rest, now, a[1..], b[1..]);
      assert a == [a[0]] + a[1..] && b == [b[0]] + b[1..];
    }
  }

  lemma DueTail(timers: map<TimerKey, u64>, now: u64, keys: seq<TimerKey>)
    requires keys != [] && (forall k :: k in keys ==> k in timers) && IsDueList(timers, now, keys)
    ensures var rest := timers - {keys[0]};
      (forall k :: k in keys[1..] ==> k in rest) && IsDueList(rest, now, keys[1..])
  {
    var rest := timers - {keys[0]};
    forall k | k in keys[1..] ensures Due(rest, k, now) {
      var i :| 0 <= i < |keys[1..]| && keys[1..][i] == k;
      assert keys[i + 1] == k && Earlier(timers, keys[0], keys[i + 1]);
      assert k in keys;
    }
    forall k | Due(rest, k, now) ensures k in keys[1..] {
      assert Due(timers, k, now);
      var i :| 0 <= i < |keys| && keys[i] == k;
      assert keys[1..][i - 1] == k;
    }
    forall i, j | 0 <= i < j < |keys[1..]| ensures Earlier(rest, keys[1..][i], keys[1..][j]) {
      assert Earlier(timers, keys[i + 1], keys[j + 1]);
      assert Earlier(timers, keys[0], keys[i + 1]) && Earlier(timers, keys[0], keys[j + 1]);
    }
  }

  // ---- The table -------------------------------------------------------------------------------

  class TimerTable {
    var byKey: map<TimerKey, u64>
    var byDeadline: set<Entry>

    /** The deadline index is the exact inverse image of the key index. */
    ghost predicate Valid()
      reads this
    {
      forall e: Entry :: e in byDeadline <==> e.key in byKey && byKey[e.key] == e.deadline
    }

    constructor ()
      ensures Valid() && byKey == map[]
    {
      byKey, byDeadline := map[], {};
    }

    method Set(key: TimerKey, deadline: u64)
      requires Valid()
      modifies this
      ensures Valid()
      ensures byKey == old(byKey)[key := deadline]
    {
      if key in byKey {
        byDeadline := byDeadline - {Entry(byKey[key], key)};
      }
      byKey := byKey[key := deadline];
      byDeadline := byDeadline + {Entry(deadline, key)};
    }

    method Cancel(key: TimerKey)
      requires Valid()
      modifies this
      ensures Valid()
      ensures byKey == old(byKey) - {key}
    {
      if key in byKey {
        byDeadline := byDeadline - {Entry(byKey[key], key)};
      }
      byKey := byKey - {key};
    }

    /** Removes all and only the timers of `session`. */
    method CancelSession(session: SessionId)
      requires Valid()
      modifies this
      ensures Valid()
      ensures byKey == map k | k in old(byKey) && k.session != session :: old(byKey)[k]
    {
      var minKey, maxKey := TimerKey(session, FIRST_KIND), TimerKey(session, LAST_KIND);
      var keysToRemove := set k | k in byKey && KeyLe(minKey, k) && KeyLe(k, maxKey);
      forall k ensures KeyLe(minKey, k) && KeyLe(k, maxKey) <==> k.session == session {
        SessionIsAKeyRange(session, k);
      }
      while keysToRemove != {}
        invariant Valid()
        invariant forall k :: k in keysToRemove ==> k in byKey && k.session == session
        invariant forall k :: k in byKey ==> k in old(byKey) && byKey[k] == old(byKey)[k]
        invariant forall k :: k in old(byKey) ==> k in byKey || k.session == session
        invariant forall k :: k in byKey && k.session == session ==> k in keysToRemove
        decreases |keysToRemove|
      {
        var key :| key in keysToRemove;
        keysToRemove := keysToRemove - {key};
        Cancel(key);
      }
    }

    /** Takes the earliest timer, ties broken by key, if it is due. */
    method PollExpired(now: u64) returns (expired: Option<TimerKey>)
      requires Valid()
      modifies this
      ensures Valid()
      ensures expired.None? ==> byKey == old(byKey) && forall k :: k in byKey ==> now < byKey[k]
      ensures expired.Some? ==>
        && Due(old(byKey), expired.value, now)
        && byKey == old(byKey) - {expired.value}
        && (forall k :: k in byKey ==> Earlier(old(byKey), expired.value, k))
    {
      if byDeadline == {} {
        assert forall k :: k in byKey ==> Entry(byKey[k], k) in byDeadline;
        return None;
      }
      ghost var least := FirstEntry(byDeadline);
      var first :| first in byDeadline && forall e :: e in byDeadline ==> EntryLe(first, e);
      forall k | k in byKey ensures EntryLe(first, Entry(byKey[k], k)) {
        assert Entry(byKey[k], k) in byDeadline;
      }
      if first.deadline <= now {
        byDeadline := byDeadline - {first};
        byKey := byKey - {first.key};
        return Some(first.key);
      }
      return None;
    }

    /** The polling loop of `Engine::handle_timer_tick`. */
    method PollAllExpired(now: u64) returns (expired: seq<TimerKey>)
      requires Valid()
      modifies this
      ensures Valid()
      ensures IsDueList(old(byKey), now, expired)
      ensures byKey == map k | k in old(byKey) && now < old(byKey)[k] :: old(byKey)[k]
    {
      expired := [];
      while true
        invariant Valid()
        invariant Polled(old(byKey), byKey, now, expired)
        decreases |byKey|
      {
        ghost var before := byKey;
        var next := PollExpired(now);
        if next.None? {
          break;
        }
        PolledStep(old(byKey), before, now, expired, next.value);
        expired := expired + [next.value];
      }
      PolledDone(old(byKey), byKey, now, expired);
    }

    /** The earliest deadline, if any timer is active. */
    method NextDeadline() returns (deadline: Option<u64>)
      requires Valid()
      ensures deadline.None? <==> byKey == map[]
      ensures deadline.Some? ==>
        (exists k :: k in byKey && byKey[k] == deadline.value) && forall k :: k in byKey ==> deadline.value <= byKey[k]
    {
      if byDeadline == {} {
        assert forall k :: k in byKey ==> Entry(byKey[k], k) in byDeadline;
        return None;
      }
      ghost var least := FirstEntry(byDeadline);
      var first :| first in byDeadline && forall e :: e in byDeadline ==> EntryLe(first, e);
      forall k | k in byKey ensures first.deadline <= byKey[k] {
        assert EntryLe(first, Entry(byKey[k], k));
      }
      assert first.key in byKey;
      return Some(first.deadline);
    }
  }

  /** Part of the way through polling: `expired` holds the earliest timers of `was`, the rest is left. */
  ghost predicate Polled(was: map<TimerKey, u64>, left: map<TimerKey, u64>, now: u64, expired: seq<TimerKey>) {
    && (forall k :: k in left ==> k in was && left[k] == was[k])
    && (forall k :: k in was ==> (k in left <==> k !in expired))
    && (forall k :: k in expired ==> Due(was, k, now))
    && (forall i, k :: 0 <= i < |expired| && k in left ==> Earlier(was, expired[i], k))
    && (forall i, j :: 0 <= i < j < |expired| ==> Earlier(was, expired[i], expired[j]))
  }

  lemma PolledStep(was: map<TimerKey, u64>, left: map<TimerKey, u64>, now: u64, expired: seq<TimerKey>, next: TimerKey)
    requires Polled(was, left, now, expired)
    requires Due(left, next, now) && forall k :: k in left - {next} ==> Earlier(left, next, k)
    ensures Polled(was, left - {next}, now, expired + [next])
  {
    var more, rest := expired + [next], left - {next};
    forall i, k | 0 <= i < |more| && k in rest ensures Earlier(was, more[i], k) {
      assert Earlier(left, next, k);
    }
    assert forall i :: 0 <= i < |expired| ==> Earlier(was, expired[i], next);
  }

  lemma PolledDone(was: map<TimerKey, u64>, left: map<TimerKey, u64>, now: u64, expired: seq<TimerKey>)
    requires Polled(was, left, now, expired) && forall k :: k in left ==> now < left[k]
    ensures IsDueList(was, now, expired)
    ensures left == map k | k in was && now < was[k] :: was[k]
  {
  }
}
