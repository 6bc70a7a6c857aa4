/** Reservation, activation, deactivation and collection of debtors. */
module Lifecycle {
  import opened Basics
  import opened Model
  import opened Histories

  // ---------- CHECK constraints and reservation numbers ----------

  /** The CHECK constraints of the table. The last two hold already by the types of
      their fields. */
  predicate MeetsConstraints(r: DebtorRow) {
    && r.configLatestUpdateId > 0
    && (r.isDeactivated ==> r.isActivated)
    && (r.deactivationDate.Some? ==> r.isDeactivated)
    && r.actionsCount >= 0
    && r.minBalance <= 0
  }

  ghost predicate Inv(s: State) {
    && (forall d | d in s.debtors ::
          MeetsConstraints(s.debtors[d]) && s.debtors[d].reservationId in s.usedReservationIds)
    && (forall c, d | c in s.debtors && d in s.debtors
                      && s.debtors[c].reservationId == s.debtors[d].reservationId :: c == d)
  }

  /** 0: reserved, 1: activated, 2: deactivated. */
  function Phase(r: DebtorRow): nat {
    if r.isDeactivated then 2 else if r.isActivated then 1 else 0
  }

  predicate IsInPhase(s: State, d: int, phase: nat) {
    d in s.debtors && Phase(s.debtors[d]) == phase
  }

  /** What a step does to debtor `d`: its record does not appear but by a
      reservation, nor disappear but by the scanner, and its phase only advances. */
  ghost predicate RowAdvances(s: State, s': State, e: Event, d: int) {
    if d in s.debtors && d in s'.debtors then
      var (r, r') := (s.debtors[d], s'.debtors[d]);
      && r'.reservationId == r.reservationId
      && Phase(r) <= Phase(r')
      && (MeetsConstraints(r) ==> MeetsConstraints(r'))
    else if d in s'.debtors then
      && e.Reserve? && d == e.debtorId
      && s'.debtors[d] == NewDebtor(e.reservationId, e.now)
      && e.reservationId in s'.usedReservationIds
    else if d in s.debtors then
      (e.ScanInactive? && !s.debtors[d].isActivated) || RemovesShardOf(e, d)
    else
      true
  }

  ghost predicate RowsAdvance(s: State, s': State, e: Event) {
    && s.usedReservationIds <= s'.usedReservationIds
    && forall d :: RowAdvances(s, s', e, d)
  }

  lemma ScanAdvances(parse: IriParser, s: State, e: Event, d: int)
    requires e.ScanInactive? || e.ScanConfigs? || e.RemoveParentShard?
    ensures RowAdvances(s, Step(parse, s, e), e, d)
  {
  }

  lemma LifecycleStepAdvances(parse: IriParser, s: State, e: Event, d: int)
    requires IsLifecycle(e)
    ensures RowAdvances(s, Step(parse, s, e), e, d)
  {
    if e.ScanInactive? || e.ScanConfigs? || e.RemoveParentShard? {
      ScanAdvances(parse, s, e, d);
    }
  }

  lemma AccountUpdateAdvances(parse: IriParser, s: State, e: Event, d: int)
    requires e.OnAccountUpdate? && Touches(e, d)
    ensures RowAdvances(s, Step(parse, s, e), e, d)
  {
  }

  lemma MessageAdvances(parse: IriParser, s: State, e: Event, d: int)
    requires IsMessage(e) && Touches(e, d)
    ensures RowAdvances(s, Step(parse, s, e), e, d)
  {
    if e.OnAccountUpdate? {
      AccountUpdateAdvances(parse, s, e, d);
    }
  }

  lemma TransferRequestAdvances(parse: IriParser, s: State, e: Event, d: int)
    requires IsTransferRequest(e) && Touches(e, d)
    ensures RowAdvances(s, Step(parse, s, e), e, d)
  {
  }

  lemma UpdateAdvances(parse: IriParser, s: State, e: Event, d: int)
    requires (e.UpdateConfig? || e.SaveDocument?) && Touches(e, d)
    ensures RowAdvances(s, Step(parse, s, e), e, d)
  {
  }

  lemma StepAdvances(parse: IriParser, s: State, e: Event)
    ensures RowsAdvance(s, Step(parse, s, e), e)
  {
    forall d ensures RowAdvances(s, Step(parse, s, e), e, d) {
      if IsLifecycle(e) {
        LifecycleStepAdvances(parse, s, e, d);
      } else if !Touches(e, d) {
        OnlyTouchedRecordsChange(parse, s, e, d);
      } else if IsMessage(e) {
        MessageAdvances(parse, s, e, d);
      } else if IsTransferRequest(e) {
        TransferRequestAdvances(parse, s, e, d);
      } else {
        UpdateAdvances(parse, s, e, d);
      }
    }
    assert s.usedReservationIds <= Step(parse, s, e).usedReservationIds;
  }

  lemma AdvanceKeepsInv(s: State, s': State, e: Event)
    requires Inv(s) && IsFresh(s, e) && RowsAdvance(s, s', e)
    ensures Inv(s')
  {
    assert forall d | d in s'.debtors :: RowAdvances(s, s', e, d);
  }

  lemma {:induction false} InvHolds(h: History, i: nat)
    requires h.IsLegal() && i <= |h.events|
    ensures Inv(h.states[i])
  {
    if i > 0 {
      InvHolds(h, i - 1);
      AdvanceOf(h, i - 1);
      AdvanceKeepsInv(h.states[i - 1], h.states[i], h.events[i - 1]);
    }
  }

  lemma AdvanceOf(h: History, i: nat)
    requires h.IsLegal() && i < |h.events|
    ensures RowsAdvance(h.states[i], h.states[i + 1], h.events[i]) && IsFresh(h.states[i], h.events[i])
  {
    assert h.Takes(i);
    StepAdvances(h.parse, h.states[i], h.events[i]);
  }

  // ---------- A reservation, from its making to the end ----------

  /** Reservation `id` can only be borne by debtor `d`, at phase `phase` or later. */
  ghost predicate BelongsTo(s: State, id: nat, d: int, phase: nat) {
    && id in s.usedReservationIds
    && forall c | c in s.debtors && s.debtors[c].reservationId == id :: c == d && Phase(s.debtors[c]) >= phase
  }

  ghost predicate IsGone(s: State, id: nat) {
    && id in s.usedReservationIds
    && forall c | c in s.debtors :: s.debtors[c].reservationId != id
  }

  lemma {:induction false} ReservationsPersist(h: History, i: nat, j: nat, id: nat, d: int, phase: nat)
    requires h.IsLegal() && i <= j <= |h.events|
    ensures BelongsTo(h.states[i], id, d, phase) ==> BelongsTo(h.states[j], id, d, phase)
    ensures IsGone(h.states[i], id) ==> IsGone(h.states[j], id)
  {
    if i < j {
      ReservationsPersist(h, i, j - 1, id, d, phase);
      AdvanceOf(h, j - 1);
      forall c | c in h.states[j].debtors ensures RowAdvances(h.states[j - 1], h.states[j], h.events[j - 1], c) {
      }
    }
  }

  lemma RemovalTakesTheRecord(h: History, i: nat, d: int)
    requires h.IsLegal() && i < |h.events| && RemovesShardOf(h.events[i], d)
    ensures d !in h.states[i + 1].debtors
  {
    assert h.Takes(i);
  }

  /** Every record has its beginning: a state without it, after which it has not
      been removed with a parent shard. */
  lemma {:induction false} RecordHasBeginning(h: History, j: nat, d: int) returns (i: nat)
    requires h.IsLegal() && j <= |h.events| && d in h.states[j].debtors
    ensures i < j && d !in h.states[i].debtors && h.KeepsShardOf(d, i, j)
  {
    i := j - 1;
    if RemovesShardOf(h.events[i], d) {
      RemovalTakesTheRecord(h, i, d);
    } else if d in h.states[i].debtors {
      i := RecordHasBeginning(h, j - 1, d);
    }
  }

  /** As long as it is the same reservation, the status flags of a debtor move
      only from reserved to activated to deactivated. */
  lemma StatusOnlyAdvances(h: History, i: nat, j: nat, d: int, c: int)
    requires h.IsLegal() && i <= j <= |h.events|
    requires d in h.states[i].debtors && c in h.states[j].debtors
    requires h.states[i].debtors[d].reservationId == h.states[j].debtors[c].reservationId
    ensures c == d && Phase(h.states[i].debtors[d]) <= Phase(h.states[j].debtors[d])
  {
    var r := h.states[i].debtors[d];
    InvHolds(h, i);
    assert BelongsTo(h.states[i], r.reservationId, d, Phase(r));
    ReservationsPersist(h, i, j, r.reservationId, d, Phase(r));
  }

  /** However stale the scanner's snapshots are, an activated debtor is never
      collected; only the removal of a parent shard takes it away. */
  lemma {:induction false} ActivatedDebtorsPersist(h: History, i: nat, j: nat, d: int)
    requires h.IsLegal() && i <= j <= |h.events| && h.KeepsShardOf(d, i, j)
    requires d in h.states[i].debtors && h.states[i].debtors[d].isActivated
    ensures d in h.states[j].debtors && h.states[j].debtors[d].isActivated
    ensures h.states[j].debtors[d].reservationId == h.states[i].debtors[d].reservationId
  {
    if i < j {
      ActivatedDebtorsPersist(h, i, j - 1, d);
      AdvanceOf(h, j - 1);
      InvHolds(h, j);
      assert RowAdvances(h.states[j - 1], h.states[j], h.events[j - 1], d);
    }
  }

  /** Step `i` reserves debtor ID `d` under reservation `id`. */
  ghost predicate Reserves(h: History, i: nat, d: int, id: nat)
    requires h.IsLegal() && i < |h.events|
  {
    h.events[i].Reserve? && h.events[i].debtorId == d && h.events[i].reservationId == id && h.Succeeds(i)
  }

  /** The record has been there in every state of `from..=to`. */
  ghost predicate IsThere(h: History, d: int, from: nat, to: nat)
    requires h.IsLegal() && to <= |h.events|
  {
    forall k | from <= k <= to :: d in h.states[k].debtors
  }

  lemma {:induction false} RecordKeepsItsReservation(h: History, i: nat, j: nat, d: int)
    requires h.IsLegal() && i <= j <= |h.events| && IsThere(h, d, i, j)
    ensures h.states[j].debtors[d].reservationId == h.states[i].debtors[d].reservationId
  {
    if i < j {
      RecordKeepsItsReservation(h, i, j - 1, d);
      AdvanceOf(h, j - 1);
      assert RowAdvances(h.states[j - 1], h.states[j], h.events[j - 1], d);
    }
  }

  /** Reserving and then activating, with anything happening in between: the
      activation succeeds if and only if the reserved record has not been deleted
      meanwhile. In particular, a reservation ID from a deleted record never
      activates a later reservation of the same debtor ID. */
  lemma ActivationNeedsItsReservation(h: History, i: nat, j: nat, d: int, id: nat, now: Timestamp)
    requires h.IsLegal() && i < j <= |h.events| && Reserves(h, i, d, id)
    ensures ActivateDebtor(h.states[j], d, Decimal(id), now).Success? <==> IsThere(h, d, i + 1, j)
  {
    assert h.Takes(i);
    if IsThere(h, d, i + 1, j) {
      RecordKeepsItsReservation(h, i + 1, j, d);
    } else {
      var k :| i + 1 <= k <= j && d !in h.states[k].debtors;
      InvHolds(h, i + 1);
      assert d in h.states[i + 1].debtors && h.states[i + 1].debtors[d].reservationId == id;
      assert BelongsTo(h.states[i + 1], id, d, 0);
      ReservationsPersist(h, i + 1, k, id, d, 0);
      assert IsGone(h.states[k], id);
      ReservationsPersist(h, k, j, id, d, 0);
      if d in h.states[j].debtors && Decimal(id) == Decimal(h.states[j].debtors[d].reservationId) {
        DecimalIsInjective(id, h.states[j].debtors[d].reservationId);
      }
    }
  }
}
