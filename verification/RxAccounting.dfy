/**
 * hqfbp-cla/src/session.rs: the values the receive manager keeps for each transmitting station, and
 * what charging a PDU and releasing a completed message do to the byte counts.
 */
module RxAccounting {
  import opened Basics

  /** An optional source callsign. */
  type Sender = Option<string>

  datatype SenderState = SenderState(
    lastActive: nat, bufferedBytes: nat, activeIds: set<nat>, sessionBytes: map<nat, nat>)

  // ---- Byte counts -----------------------------------------------------------------------------

  ghost function Buffered(senders: map<Sender, SenderState>): map<Sender, nat> {
    map s | s in senders :: senders[s].bufferedBytes
  }

  ghost function BufferedSum(senders: map<Sender, SenderState>): nat { MapSum(Buffered(senders)) }

  lemma BufferedWithout(senders: map<Sender, SenderState>, s: Sender)
    requires s in senders
    ensures BufferedSum(senders) == senders[s].bufferedBytes + BufferedSum(senders - {s})
  {
    MapSumRemove(Buffered(senders), s);
    assert Buffered(senders) - {s} == Buffered(senders - {s});
  }

  lemma BufferedUpdate(senders: map<Sender, SenderState>, s: Sender, state: SenderState)
    ensures BufferedSum(senders[s := state]) ==
      BufferedSum(senders) + state.bufferedBytes - if s in senders then senders[s].bufferedBytes else 0
  {
    MapSumUpdate(Buffered(senders), s, state.bufferedBytes);
    assert Buffered(senders[s := state]) == Buffered(senders)[s := state.bufferedBytes];
  }

  lemma NoSendersNoBytes(senders: map<Sender, SenderState>)
    ensures senders == map[] ==> BufferedSum(senders) == 0
  {
    assert senders == map[] ==> Buffered(senders) == map[];
  }

  /** Each sender's ids in progress are exactly the sessions with counted bytes. */
  ghost predicate IdsMatch(senders: map<Sender, SenderState>) {
    forall s :: s in senders ==> senders[s].activeIds == senders[s].sessionBytes.Keys
  }

  /** The per-session counts never exceed the sender's count. */
  ghost predicate SessionsFit(senders: map<Sender, SenderState>) {
    forall s :: s in senders ==> MapSum(senders[s].sessionBytes) <= senders[s].bufferedBytes
  }

  // ---- Releasing a completed message -------------------------------------------------------------

  ghost function Part(m: map<nat, nat>, ids: set<nat>): map<nat, nat> {
    map k | k in m && k in ids :: m[k]
  }

  lemma {:induction false} PartSum(m: map<nat, nat>, ids: set<nat>)
    ensures MapSum(m) == MapSum(Part(m, ids)) + MapSum(m - ids)
    decreases |ids|
  {
    if ids == {} {
      assert Part(m, ids) == map[] && m - ids == m;
    } else {
      var id := SomeElement(ids);
      var rest := ids - {id};
      PartSum(m, rest);
      if id in m {
        PartStep(m, rest, id);
      } else {
        assert Part(m, ids) == Part(m, rest) && m - ids == m - rest;
      }
      assert rest + {id} == ids;
    }
  }

  /** Adding one id to the part moves its bytes from the rest to the part. */
  lemma PartStep(m: map<nat, nat>, ids: set<nat>, id: nat)
    requires id in m && id !in ids
    ensures MapSum(Part(m, ids + {id})) == MapSum(Part(m, ids)) + m[id]
    ensures MapSum(m - ids) == m[id] + MapSum(m - (ids + {id}))
  {
    MapSumUpdate(Part(m, ids), id, m[id]);
    assert Part(m, ids + {id}) == Part(m, ids)[id := m[id]];
    MapSumRemove(m - ids, id);
    assert m - ids - {id} == m - (ids + {id});
  }

  /** The ids a completed message releases: its own, or all of the sender's when it carries none. */
  function FinishedIds(state: SenderState, id: Option<nat>): set<nat> {
    if id.Some? then {id.value} else state.activeIds
  }

  /** The bytes taken off: those of the finished sessions, or everything when none of them is known. */
  ghost function Deducted(state: SenderState, id: Option<nat>): nat {
    var ids := FinishedIds(state, id);
    if Part(state.sessionBytes, ids) != map[] then MapSum(Part(state.sessionBytes, ids)) else state.bufferedBytes
  }

  ghost function Released(state: SenderState, id: Option<nat>): SenderState {
    var ids := FinishedIds(state, id);
    SenderState(state.lastActive, SatSub(state.bufferedBytes, Deducted(state, id)), state.activeIds - ids, state.sessionBytes - ids)
  }

  /** The fallback takes everything although sessions with counted bytes are still tracked. */
  ghost predicate Drifts(state: SenderState, id: Option<nat>) {
    MapSum(state.sessionBytes) > 0 && Part(state.sessionBytes, FinishedIds(state, id)) == map[]
  }

  /** More is taken off than the sender holds, while other senders hold bytes. */
  ghost predicate Overdrawn(senders: map<Sender, SenderState>, s: Sender, id: Option<nat>) {
    s in senders && Deducted(senders[s], id) > senders[s].bufferedBytes && BufferedSum(senders - {s}) > 0
  }

  /** Exactly when a sender's sessions go on fitting its count: when the fallback did not take theirs. */
  lemma FitAfterReleaseIff(state: SenderState, id: Option<nat>)
    requires MapSum(state.sessionBytes) <= state.bufferedBytes
    ensures MapSum(Released(state, id).sessionBytes) <= Released(state, id).bufferedBytes <==> !Drifts(state, id)
    // Sessions that fit are never overdrawn, with or without the fallback.
    ensures Deducted(state, id) <= state.bufferedBytes
  {
    var ids := FinishedIds(state, id);
    PartSum(state.sessionBytes, ids);
    if Part(state.sessionBytes, ids) == map[] { assert MapSum(Part(state.sessionBytes, ids)) == 0; }
  }

  /** Exactly when an exact total stays exact, and by how much it falls short otherwise. */
  lemma ExactAfterReleaseIff(senders: map<Sender, SenderState>, s: Sender, id: Option<nat>)
    requires s in senders
    ensures
      var after := senders[s := Released(senders[s], id)];
      var total := SatSub(BufferedSum(senders), Deducted(senders[s], id));
      && (total == BufferedSum(after) <==> !Overdrawn(senders, s, id))
      && total == SatSub(BufferedSum(after), SatSub(Deducted(senders[s], id), senders[s].bufferedBytes))
  {
    BufferedUpdate(senders, s, Released(senders[s], id));
    BufferedWithout(senders, s);
  }

  // ---- The counting invariant, on values -----------------------------------------------------------

  /** The total never exceeds what the senders hold. */
  ghost predicate Counted(senders: map<Sender, SenderState>, total: nat) {
    IdsMatch(senders) && total <= BufferedSum(senders)
  }

  lemma RemoveCounted(senders: map<Sender, SenderState>, total: nat, s: Sender)
    requires Counted(senders, total) && s in senders
    ensures Counted(senders - {s}, SatSub(total, senders[s].bufferedBytes))
    ensures total == BufferedSum(senders) ==> SatSub(total, senders[s].bufferedBytes) == BufferedSum(senders - {s})
  {
    BufferedWithout(senders, s);
  }

  /** The sender state after one more PDU of `len` bytes. */
  function Charged(senders: map<Sender, SenderState>, s: Sender, id: Option<nat>, len: nat, now: nat): SenderState {
    var was := if s in senders then senders[s] else SenderState(now, 0, {}, map[]);
    SenderState(now, was.bufferedBytes + len,
      if id.Some? then was.activeIds + {id.value} else was.activeIds,
      if id.Some? then
        was.sessionBytes[id.value := len + if id.value in was.sessionBytes then was.sessionBytes[id.value] else 0]
      else was.sessionBytes)
  }

  /** Charging a PDU adds its bytes on both sides, and to one session at most. */
  lemma ChargeCounted(senders: map<Sender, SenderState>, total: nat, s: Sender, id: Option<nat>, len: nat, now: nat)
    requires Counted(senders, total)
    ensures Counted(senders[s := Charged(senders, s, id, len, now)], total + len)
    ensures BufferedSum(senders[s := Charged(senders, s, id, len, now)]) == BufferedSum(senders) + len
  {
    BufferedUpdate(senders, s, Charged(senders, s, id, len, now));
  }

  lemma ChargeFits(senders: map<Sender, SenderState>, s: Sender, id: Option<nat>, len: nat, now: nat)
    requires SessionsFit(senders)
    ensures SessionsFit(senders[s := Charged(senders, s, id, len, now)])
  {
    var sessions: map<nat, nat> := if s in senders then senders[s].sessionBytes else map[];
    assert MapSum(sessions) == if s in senders then MapSum(senders[s].sessionBytes) else 0;
    if id.Some? {
      MapSumUpdate(sessions, id.value, len + if id.value in sessions then sessions[id.value] else 0);
    }
  }

  /** Completing a message keeps the total at most the sum. */
  lemma ReleaseCounted(senders: map<Sender, SenderState>, total: nat, s: Sender, id: Option<nat>)
    requires Counted(senders, total) && s in senders
    ensures Counted(senders[s := Released(senders[s], id)], SatSub(total, Deducted(senders[s], id)))
  {
    BufferedUpdate(senders, s, Released(senders[s], id));
    BufferedWithout(senders, s);
  }
}
