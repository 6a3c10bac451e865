/** hqfbp-cla/src/session.rs: the LRU list of senders, ordered by last activity. */
module RxList {
  import opened Basics
  import opened RxAccounting
  import opened RxTrace

  /**
   * The list holds exactly the senders, each once, least recently active first: the last entry is the
   * most recent sender, active no later than `clock`, and the rest lists the others.
   */
  ghost predicate Listed(lru: seq<Sender>, senders: map<Sender, SenderState>, clock: nat) {
    if lru == [] then senders == map[]
    else
      var s := lru[|lru| - 1];
      s in senders && senders[s].lastActive <= clock
      && Listed(lru[..|lru| - 1], senders - {s}, senders[s].lastActive)
  }

  ghost predicate NoDuplicates(lru: seq<Sender>) {
    forall i, j :: 0 <= i < j < |lru| ==> lru[i] != lru[j]
  }

  /** What `Listed` means, entry by entry. */
  lemma {:induction false} ListedMeans(lru: seq<Sender>, senders: map<Sender, SenderState>, clock: nat)
    requires Listed(lru, senders, clock)
    ensures NoDuplicates(lru) && |lru| == |senders|
    ensures forall s :: s in lru <==> s in senders
    ensures forall s :: s in senders ==> senders[s].lastActive <= clock
    ensures forall i, j :: 0 <= i < j < |lru| ==> senders[lru[i]].lastActive <= senders[lru[j]].lastActive
  {
    ListedEntries(lru, senders, clock);
    ListedDistinct(lru, senders, clock);
    ListedAscends(lru, senders, clock);
  }

  lemma {:induction false} ListedEntries(lru: seq<Sender>, senders: map<Sender, SenderState>, clock: nat)
    requires Listed(lru, senders, clock)
    ensures forall s :: s in lru <==> s in senders
    ensures forall s :: s in senders ==> senders[s].lastActive <= clock
    ensures |lru| == |senders|
    decreases |lru|
  {
    if lru != [] {
      var front, s := lru[..|lru| - 1], lru[|lru| - 1];
      ListedEntries(front, senders - {s}, senders[s].lastActive);
      assert lru == front + [s];
      assert |senders - {s}| == |senders| - 1;
    }
  }

  lemma {:induction false} ListedDistinct(lru: seq<Sender>, senders: map<Sender, SenderState>, clock: nat)
    requires Listed(lru, senders, clock)
    ensures NoDuplicates(lru)
    decreases |lru|
  {
    if lru != [] {
      var front, s := lru[..|lru| - 1], lru[|lru| - 1];
      ListedDistinct(front, senders - {s}, senders[s].lastActive);
      ListedEntries(front, senders - {s}, senders[s].lastActive);
      assert forall i :: 0 <= i < |front| ==> front[i] in senders - {s};
    }
  }

  lemma {:induction false} ListedAscends(lru: seq<Sender>, senders: map<Sender, SenderState>, clock: nat)
    requires Listed(lru, senders, clock)
    requires forall s :: s in lru ==> s in senders
    ensures forall i, j :: 0 <= i < j < |lru| ==> senders[lru[i]].lastActive <= senders[lru[j]].lastActive
    decreases |lru|
  {
    if lru != [] {
      var front, s := lru[..|lru| - 1], lru[|lru| - 1];
      ListedEntries(front, senders - {s}, senders[s].lastActive);
      ListedAscends(front, senders - {s}, senders[s].lastActive);
      assert forall i :: 0 <= i < |front| ==> front[i] == lru[i] && front[i] in senders - {s};
    }
  }

  lemma ListedLater(lru: seq<Sender>, senders: map<Sender, SenderState>, clock: nat, later: nat)
    requires Listed(lru, senders, clock) && clock <= later
    ensures Listed(lru, senders, later)
  {
  }

  function DropAt(lru: seq<Sender>, i: nat): seq<Sender>
    requires i < |lru|
  {
    lru[..i] + lru[i + 1..]
  }

  lemma {:induction false} RemoveListed(lru: seq<Sender>, senders: map<Sender, SenderState>, clock: nat, i: nat)
    requires Listed(lru, senders, clock) && i < |lru|
    ensures lru[i] in senders && Listed(DropAt(lru, i), senders - {lru[i]}, clock)
    decreases |lru|
  {
    var n := |lru| - 1;
    var s := lru[n];
    if i == n {
      assert DropAt(lru, i) == lru[..n];
      ListedLater(lru[..n], senders - {s}, senders[s].lastActive, clock);
    } else {
      RemoveListed(lru[..n], senders - {s}, senders[s].lastActive, i);
      assert DropAt(lru, i)[..n - 1] == DropAt(lru[..n], i) && DropAt(lru, i)[n - 1] == s;
      assert senders - {lru[i]} - {s} == senders - {s} - {lru[i]};
    }
  }

  /** Appending the sender touched last keeps the order, as no activity is later. */
  lemma AppendListed(lru: seq<Sender>, senders: map<Sender, SenderState>, clock: nat, s: Sender, state: SenderState)
    requires Listed(lru, senders, clock) && s !in senders && clock <= state.lastActive
    ensures Listed(lru + [s], senders[s := state], state.lastActive)
  {
    assert (lru + [s])[..|lru|] == lru && senders[s := state] - {s} == senders;
    ListedLater(lru, senders, clock, state.lastActive);
  }

  /** Only the activity times matter. */
  lemma {:induction false} UpdateListed(lru: seq<Sender>, senders: map<Sender, SenderState>, clock: nat, s: Sender, state: SenderState)
    requires Listed(lru, senders, clock) && s in senders && state.lastActive == senders[s].lastActive
    ensures Listed(lru, senders[s := state], clock)
    decreases |lru|
  {
    var last := lru[|lru| - 1];
    if s == last {
      assert senders[s := state] - {s} == senders - {s};
    } else {
      UpdateListed(lru[..|lru| - 1], senders - {last}, senders[last].lastActive, s, state);
      assert senders[s := state] - {last} == (senders - {last})[s := state];
    }
  }

  // ---- Touching and evicting -------------------------------------------------------------------------

  function Position(lru: seq<Sender>, s: Sender): (k: nat)
    ensures k <= |lru| && (forall i :: 0 <= i < k ==> lru[i] != s) && (k < |lru| ==> lru[k] == s)
  {
    if lru == [] || lru[0] == s then 0 else 1 + Position(lru[1..], s)
  }

  /** The first entry that is not to be skipped. */
  function PositionToEvict(lru: seq<Sender>, skip: Option<Sender>): (k: nat)
    ensures k <= |lru| && (forall i :: 0 <= i < k ==> skip == Some(lru[i])) && (k < |lru| ==> skip != Some(lru[k]))
  {
    if lru == [] || skip != Some(lru[0]) then 0 else 1 + PositionToEvict(lru[1..], skip)
  }

  /** The list without `s`. */
  function Untouched(lru: seq<Sender>, s: Sender): seq<Sender> {
    if Position(lru, s) < |lru| then DropAt(lru, Position(lru, s)) else lru
  }

  /** Moving a sender to the end of the list, with the latest activity. */
  lemma TouchListed(lru: seq<Sender>, senders: map<Sender, SenderState>, clock: nat, s: Sender, state: SenderState)
    requires Listed(lru, senders, clock) && clock <= state.lastActive
    ensures Listed(Untouched(lru, s) + [s], senders[s := state], state.lastActive)
  {
    var k := Position(lru, s);
    if k < |lru| {
      RemoveListed(lru, senders, clock, k);
      AppendListed(DropAt(lru, k), senders - {s}, clock, s, state);
      assert (senders - {s})[s := state] == senders[s := state];
    } else {
      NotListed(lru, senders, clock, s);
      AppendListed(lru, senders, clock, s, state);
    }
  }

  lemma NotListed(lru: seq<Sender>, senders: map<Sender, SenderState>, clock: nat, s: Sender)
    requires Listed(lru, senders, clock) && Position(lru, s) == |lru|
    ensures s !in senders
  {
    ListedEntries(lru, senders, clock);
    assert s !in lru;
  }

  /** `s` was permitted, no permitted sender was less recently active, and only `s` is gone. */
  ghost predicate EvictedOne(was: map<Sender, SenderState>, now: map<Sender, SenderState>, skip: Option<Sender>, s: Sender) {
    && s in was && skip != Some(s) && now == was - {s}
    && forall t :: t in was && skip != Some(t) ==> was[s].lastActive <= was[t].lastActive
  }

  lemma NobodyToEvict(lru: seq<Sender>, senders: map<Sender, SenderState>, clock: nat, skip: Option<Sender>)
    requires Listed(lru, senders, clock) && PositionToEvict(lru, skip) == |lru|
    ensures forall s :: s in senders ==> skip == Some(s)
  {
    ListedMeans(lru, senders, clock);
    assert forall s :: s in lru ==> skip == Some(s);
  }

  /** The first permitted entry of the list is the least recently active permitted sender. */
  lemma OldestIsFirst(lru: seq<Sender>, senders: map<Sender, SenderState>, clock: nat, skip: Option<Sender>, idx: nat)
    requires Listed(lru, senders, clock) && idx < |lru| && skip != Some(lru[idx])
    requires forall i :: 0 <= i < idx ==> skip == Some(lru[i])
    ensures EvictedOne(senders, senders - {lru[idx]}, skip, lru[idx])
  {
    ListedMeans(lru, senders, clock);
    assert lru[idx] in lru;
    forall t | t in senders && skip != Some(t) ensures senders[lru[idx]].lastActive <= senders[t].lastActive {
      var k :| 0 <= k < |lru| && lru[k] == t;
    }
  }

  // ---- Sweeping --------------------------------------------------------------------------------------

  function StaleSenders(senders: map<Sender, SenderState>, now: nat, timeout: nat): set<Sender> {
    set s | s in senders && Aged(now, senders[s].lastActive, timeout)
  }

  /** How many entries at the front of the list are among `gone`. */
  function PrefixIn(lru: seq<Sender>, gone: set<Sender>): (k: nat)
    ensures k <= |lru|
  {
    if lru != [] && lru[0] in gone then 1 + PrefixIn(lru[1..], gone) else 0
  }

  /** The list without the senders `gone`. */
  function Without(lru: seq<Sender>, gone: set<Sender>): seq<Sender> {
    if lru == [] then []
    else if lru[0] in gone then Without(lru[1..], gone)
    else [lru[0]] + Without(lru[1..], gone)
  }

  ghost predicate AllListed(gone: set<Sender>, senders: map<Sender, SenderState>, lru: seq<Sender>) {
    NoDuplicates(lru) && forall s :: s in gone ==> s in senders && s in lru
  }

  lemma StaleAreListed(lru: seq<Sender>, senders: map<Sender, SenderState>, clock: nat, now: nat, timeout: nat)
    requires Listed(lru, senders, clock)
    ensures AllListed(StaleSenders(senders, now, timeout), senders, lru)
  {
    ListedEntries(lru, senders, clock);
    ListedDistinct(lru, senders, clock);
  }

  /** Whatever the order of removal, what leaves the list is exactly a prefix of it. */
  lemma SweepDropsAPrefix(lru: seq<Sender>, senders: map<Sender, SenderState>, clock: nat, now: nat, timeout: nat)
    requires Listed(lru, senders, clock)
    ensures var stale := StaleSenders(senders, now, timeout);
      Without(lru, stale) == lru[PrefixIn(lru, stale)..]
  {
    var stale := StaleSenders(senders, now, timeout);
    ListedEntries(lru, senders, clock);
    ListedAscends(lru, senders, clock);
    forall i, j | 0 <= i < j < |lru| && lru[j] in stale ensures lru[i] in stale {
      assert lru[i] in lru && senders[lru[i]].lastActive <= senders[lru[j]].lastActive;
    }
    GoneIsPrefix(lru, stale);
  }

  lemma {:induction false} WithoutStranger(lru: seq<Sender>, gone: set<Sender>, s: Sender)
    requires s !in lru
    ensures Without(lru, gone + {s}) == Without(lru, gone) && s !in Without(lru, gone)
  {
    if lru != [] { WithoutStranger(lru[1..], gone, s); }
  }

  /** Removing one more listed sender, by its position, is removing it from the list at once. */
  lemma {:induction false} WithoutOneMore(lru: seq<Sender>, gone: set<Sender>, s: Sender)
    requires NoDuplicates(lru) && s in lru && s !in gone
    ensures Position(Without(lru, gone), s) < |Without(lru, gone)|
    ensures Untouched(Without(lru, gone), s) == Without(lru, gone + {s})
  {
    var rest := lru[1..];
    if lru[0] == s {
      WithoutStranger(rest, gone, s);
      UntouchedFirst(Without(rest, gone), s);
    } else {
      WithoutOneMore(rest, gone, s);
      if lru[0] !in gone { UntouchedLater(lru[0], Without(rest, gone), s); }
    }
  }

  lemma UntouchedFirst(v: seq<Sender>, s: Sender)
    ensures Position([s] + v, s) == 0 && Untouched([s] + v, s) == v
  {
    assert ([s] + v)[0] == s;
    assert DropAt([s] + v, 0) == v;
  }

  lemma UntouchedLater(x: Sender, v: seq<Sender>, s: Sender)
    requires x != s && Position(v, s) < |v|
    ensures Position([x] + v, s) == 1 + Position(v, s) && Untouched([x] + v, s) == [x] + Untouched(v, s)
  {
    assert ([x] + v)[0] == x && ([x] + v)[1..] == v;
    DropLater(x, v, Position(v, s));
  }

  lemma DropLater(x: Sender, v: seq<Sender>, k: nat)
    requires k < |v|
    ensures DropAt([x] + v, 1 + k) == [x] + DropAt(v, k)
  {
  }

  lemma {:induction false} WithoutNobody(lru: seq<Sender>)
    ensures Without(lru, {}) == lru
  {
    if lru != [] { WithoutNobody(lru[1..]); }
  }

  /** When nobody stays before one who goes, those who go are a prefix. */
  lemma {:induction false} GoneIsPrefix(lru: seq<Sender>, gone: set<Sender>)
    requires forall i, j :: 0 <= i < j < |lru| && lru[j] in gone ==> lru[i] in gone
    ensures Without(lru, gone) == lru[PrefixIn(lru, gone)..]
  {
    if lru == [] {
    } else if lru[0] in gone {
      GoneIsPrefix(lru[1..], gone);
    } else {
      NoneGone(lru, gone);
    }
  }

  lemma {:induction false} NoneGone(lru: seq<Sender>, gone: set<Sender>)
    requires forall i :: 0 <= i < |lru| ==> lru[i] !in gone
    ensures Without(lru, gone) == lru
  {
    if lru != [] { NoneGone(lru[1..], gone); }
  }
}
