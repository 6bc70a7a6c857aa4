/** The cached count of running transfers against the rows themselves. */
module Counting {
  import opened Model
  import opened Histories

  ghost function TransfersOf(transfers: map<TransferKey, TransferRow>, d: int): set<TransferKey> {
    set k | k in transfers && k.debtorId == d
  }

  ghost predicate CountIsExact(s: State, d: int) {
    d in s.debtors ==> s.debtors[d].runningTransfersCount == |TransfersOf(s.transfers, d)|
  }

  /** Only active debtors own transfers. */
  ghost predicate OwnersAreActive(s: State) {
    forall k | k in s.transfers :: IsActive(s, k.debtorId)
  }

  ghost predicate Inv(s: State) {
    OwnersAreActive(s) && forall d :: CountIsExact(s, d)
  }

  /** The step leaves the set of transfers, every count, and every status as they are. */
  ghost predicate SameBooks(s: State, s': State) {
    && s'.transfers.Keys == s.transfers.Keys
    && s'.debtors.Keys == s.debtors.Keys
    && forall d | d in s.debtors ::
         && s'.debtors[d].runningTransfersCount == s.debtors[d].runningTransfersCount
         && (s.debtors[d].IsActive() ==> s'.debtors[d].IsActive())
  }

  lemma SameBooksKeepInv(s: State, s': State)
    requires Inv(s) && SameBooks(s, s')
    ensures Inv(s')
  {
    forall d ensures CountIsExact(s', d) {
      assert CountIsExact(s, d);
      assert TransfersOf(s'.transfers, d) == TransfersOf(s.transfers, d);
    }
  }

  lemma RemovalKeepsInv(s: State, ids: set<int>)
    requires Inv(s)
    ensures Inv(RemoveDebtors(s, ids))
  {
    var s' := RemoveDebtors(s, ids);
    forall d ensures CountIsExact(s', d) {
      assert CountIsExact(s, d);
      if d !in ids {
        assert TransfersOf(s'.transfers, d) == TransfersOf(s.transfers, d);
      }
    }
  }

  lemma ReservationKeepsInv(s: State, d: int, id: nat, now: Timestamp)
    requires Inv(s) && ReserveDebtor(s, d, id, now).Success?
    ensures Inv(ReserveDebtor(s, d, id, now).value)
  {
    var s' := ReserveDebtor(s, d, id, now).value;
    forall x ensures CountIsExact(s', x) {
      assert CountIsExact(s, x);
      if x == d {
        assert TransfersOf(s'.transfers, d) == {};
      }
    }
  }

  lemma DeactivationKeepsInv(s: State, d: int, now: Timestamp, signalNow: Timestamp)
    requires Inv(s)
    ensures Inv(DeactivateDebtor(s, d, now, signalNow).value)
  {
    var s' := DeactivateDebtor(s, d, now, signalNow).value;
    if IsActive(s, d) {
      forall x ensures CountIsExact(s', x) {
        assert CountIsExact(s, x);
        assert TransfersOf(s'.transfers, x) == if x == d then {} else TransfersOf(s.transfers, x);
      }
    }
  }

  lemma OneMoreTransfer(transfers: map<TransferKey, TransferRow>, key: TransferKey, t: TransferRow, x: int)
    requires key !in transfers
    ensures |TransfersOf(transfers[key := t], x)|
            == |TransfersOf(transfers, x)| + if x == key.debtorId then 1 else 0
  {
    assert TransfersOf(transfers[key := t], x)
        == TransfersOf(transfers, x) + if x == key.debtorId then {key} else {};
  }

  lemma InitiationKeepsInv(s: State, key: TransferKey, data: TransferData, max: int,
                           id: nat, now: Timestamp, at: Timestamp)
    requires Inv(s) && InitiateRunningTransfer(s, key, data, max, id, now, at).Success?
    ensures Inv(InitiateRunningTransfer(s, key, data, max, id, now, at).value)
  {
    var s' := InitiateRunningTransfer(s, key, data, max, id, now, at).value;
    forall x ensures CountIsExact(s', x) {
      assert CountIsExact(s, x);
      OneMoreTransfer(s.transfers, key, s'.transfers[key], x);
    }
    assert OwnersAreActive(s');
  }

  lemma DeletionKeepsInv(s: State, key: TransferKey)
    requires Inv(s) && DeleteRunningTransfer(s, key).Success?
    ensures Inv(DeleteRunningTransfer(s, key).value)
  {
    var s' := DeleteRunningTransfer(s, key).value;
    forall x ensures CountIsExact(s', x) {
      assert CountIsExact(s, x);
      assert TransfersOf(s'.transfers, x)
          == TransfersOf(s.transfers, x) - if x == key.debtorId then {key} else {};
    }
  }

  /** The procedures that insert or delete rows, or retire a debtor. */
  predicate ChangesBooks(e: Event) {
    e.Reserve? || e.Deactivate? || e.Initiate? || e.Delete? || e.ScanInactive? || e.RemoveParentShard?
  }

  lemma TransferMessagesKeepBooks(parse: IriParser, s: State, e: Event)
    requires IsTransferMessage(e)
    ensures SameBooks(s, Step(parse, s, e))
  {
  }

  lemma MessagesKeepBooks(parse: IriParser, s: State, e: Event)
    requires IsMessage(e)
    ensures SameBooks(s, Step(parse, s, e))
  {
    if IsTransferMessage(e) {
      TransferMessagesKeepBooks(parse, s, e);
    }
  }

  lemma LifecycleKeepsBooks(parse: IriParser, s: State, e: Event)
    requires IsLifecycle(e) && !ChangesBooks(e)
    ensures SameBooks(s, Step(parse, s, e))
  {
  }

  lemma OtherStepsKeepBooks(parse: IriParser, s: State, e: Event)
    requires !ChangesBooks(e) && !IsMessage(e)
    ensures SameBooks(s, Step(parse, s, e))
  {
    if IsLifecycle(e) {
      LifecycleKeepsBooks(parse, s, e);
    }
  }

  lemma StepKeepsInv(parse: IriParser, s: State, e: Event)
    requires Inv(s)
    ensures Inv(Step(parse, s, e))
  {
    if !ChangesBooks(e) {
      if IsMessage(e) {
        MessagesKeepBooks(parse, s, e);
      } else {
        OtherStepsKeepBooks(parse, s, e);
      }
      SameBooksKeepInv(s, Step(parse, s, e));
    } else if Attempt(parse, s, e).Success? {
      match e
      case Reserve(d, id, now) => ReservationKeepsInv(s, d, id, now);
      case Deactivate(d, now, signalNow) => DeactivationKeepsInv(s, d, now, signalNow);
      case Initiate(k, data, max, id, now, at) => InitiationKeepsInv(s, k, data, max, id, now, at);
      case Delete(k) => DeletionKeepsInv(s, k);
      case ScanInactive(rows, locked, cutoff) => RemovalKeepsInv(s, LongInactive(s, rows, locked, cutoff));
      case RemoveParentShard(rows, locked, shard, parentShard) =>
        RemovalKeepsInv(s, ParentShardDebtors(s, rows, locked, shard, parentShard));
    }
  }

  lemma InvAfter(h: History, i: nat)
    requires h.IsLegal() && i < |h.events| && Inv(h.states[i])
    ensures Inv(h.states[i + 1])
  {
    assert h.Takes(i);
    StepKeepsInv(h.parse, h.states[i], h.events[i]);
  }

  lemma {:induction false} InvHolds(h: History, i: nat)
    requires h.IsLegal() && i <= |h.events|
    ensures Inv(h.states[i])
  {
    if i > 0 {
      InvHolds(h, i - 1);
      InvAfter(h, i - 1);
    }
  }

  /** The cached count of a debtor is always the number of its transfers; only
      active debtors have any. */
  lemma CachedCountIsReal(h: History, i: nat, d: int)
    requires h.IsLegal() && i <= |h.events| && d in h.states[i].debtors
    ensures h.states[i].debtors[d].runningTransfersCount == |TransfersOf(h.states[i].transfers, d)|
    ensures TransfersOf(h.states[i].transfers, d) != {} ==> IsActive(h.states[i], d)
  {
    InvHolds(h, i);
    assert CountIsExact(h.states[i], d);
    if k :| k in TransfersOf(h.states[i].transfers, d) {
      assert k in h.states[i].transfers;
    }
  }

  /** All requests of debtor `d` are subject to a limit of at most `limit`. */
  predicate IsLimitedTo(h: History, d: int, limit: int) {
    forall i | 0 <= i < |h.events| && h.events[i].Initiate? && h.events[i].key.debtorId == d ::
      h.events[i].maxActions <= limit
  }

  /** The cached count of debtor `d`, if it is there, stays within a limit. */
  predicate IsWithin(s: State, d: int, limit: nat) {
    d in s.debtors ==> s.debtors[d].runningTransfersCount <= limit
  }

  lemma LifecycleKeepsLimit(parse: IriParser, s: State, e: Event, d: int, limit: nat)
    requires IsLifecycle(e) && IsWithin(s, d, limit)
    ensures IsWithin(Step(parse, s, e), d, limit)
  {
  }

  lemma CountGrowsWithinLimit(parse: IriParser, s: State, e: Event, d: int, limit: nat)
    requires e.Initiate? && e.key.debtorId == d ==> e.maxActions <= limit
    requires IsWithin(s, d, limit)
    ensures IsWithin(Step(parse, s, e), d, limit)
  {
    if !Touches(e, d) {
      OnlyTouchedRecordsChange(parse, s, e, d);
    } else if IsMessage(e) {
      MessagesKeepBooks(parse, s, e);
    } else if IsLifecycle(e) {
      LifecycleKeepsLimit(parse, s, e, d, limit);
    }
  }

  lemma {:induction false} NeverTooManyTransfers(h: History, i: nat, d: int, limit: nat)
    requires h.IsLegal() && i <= |h.events| && IsLimitedTo(h, d, limit)
    ensures |TransfersOf(h.states[i].transfers, d)| <= limit
    ensures d in h.states[i].debtors ==> h.states[i].debtors[d].runningTransfersCount <= limit
  {
    if i > 0 {
      NeverTooManyTransfers(h, i - 1, d, limit);
      assert h.Takes(i - 1);
      CountGrowsWithinLimit(h.parse, h.states[i - 1], h.events[i - 1], d, limit);
    }
    InvHolds(h, i);
    if d in h.states[i].debtors {
      CachedCountIsReal(h, i, d);
    } else {
      assert TransfersOf(h.states[i].transfers, d) == {};
    }
  }
}
