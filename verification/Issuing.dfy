/** The life of a transfer, told from the events that make, prepare, finalize, cancel
    and delete it: when each of them succeeds, and all that it changes. */
module Issuing {
  import opened Basics
  import opened Model
  import opened Histories
  import opened Transfers
  import Counting
  import Lifecycle
  import Throttling

  // ---------- Initiation ----------

  /** The debtor is active, its meter admits one more action, and it has fewer
      running transfers than the limit. */
  ghost predicate MayInitiate(s: State, d: int, today: Date, limit: int) {
    && Lifecycle.IsInPhase(s, d, 1)
    && Throttling.Admits(s.debtors[d], Throttling.Actions, today, limit)
    && |Counting.TransfersOf(s.transfers, d)| < limit
  }

  /** A transfer is initiated exactly when its UUID is new and the debtor may. A
      repeated request is told from a conflicting one by its data. */
  lemma InitiationSucceedsExactly(h: History, i: nat)
    requires h.IsLegal() && i < |h.events| && h.events[i].Initiate?
    ensures var (s, e) := (h.states[i], h.events[i]);
            var (d, r) := (e.key.debtorId, Attempt(h.parse, h.states[i], e));
            && (r.Success? <==> e.key !in s.transfers && MayInitiate(s, d, Throttling.Today(e), e.maxActions))
            && (r == Failure(TransferExists) <==> e.key in s.transfers && s.transfers[e.key].data == e.data)
            && (r == Failure(TransfersConflict) <==> e.key in s.transfers && s.transfers[e.key].data != e.data)
            && (r == Failure(DebtorDoesNotExist) <==> e.key !in s.transfers && !Lifecycle.IsInPhase(s, d, 1))
  {
    var (s, e) := (h.states[i], h.events[i]);
    Counting.InvHolds(h, i);
    assert Counting.CountIsExact(s, e.key.debtorId);
    Lifecycle.InvHolds(h, i);
    if e.key.debtorId in s.debtors {
      Throttling.ActionsAreAdmitted(s.debtors[e.key.debtorId], e.maxActions, DateOf(e.now));
    }
  }

  /** What an initiation changes: one row is added, with the requested data and no
      outcome; it is counted; and its preparation is asked for. */
  lemma InitiationEffect(h: History, i: nat)
    requires h.IsLegal() && i < |h.events| && h.events[i].Initiate? && h.Succeeds(i)
    ensures var (s, s', e) := (h.states[i], h.states[i + 1], h.events[i]);
            var d := e.key.debtorId;
            && s' == s.(debtors := s'.debtors,
                        transfers := s.transfers[e.key := TransferRow(e.data, e.initiatedAt, e.requestId,
                                                                      None, None, None, None)],
                        usedRequestIds := s.usedRequestIds + {e.requestId},
                        prepareOutbox := s.prepareOutbox
                                         + [PrepareTransfer(d, e.requestId, e.data.amount, e.data.recipient)])
            && d in s.debtors && d in s'.debtors
            && s'.debtors == s.debtors[d := s'.debtors[d]]
            && s'.debtors[d].runningTransfersCount == s.debtors[d].runningTransfersCount + 1
            && Throttling.IsOnlyCharged(s.debtors[d].(runningTransfersCount := s'.debtors[d].runningTransfersCount),
                                        s'.debtors[d], Throttling.Actions, Throttling.Today(e), e.maxActions)
  {
    var (s, e) := (h.states[i], h.events[i]);
    assert h.Takes(i);
    if e.key.debtorId in s.debtors {
      Throttling.ActionsAreAdmitted(s.debtors[e.key.debtorId], e.maxActions, DateOf(e.now));
    }
  }

  /** Step `o` makes the transfer whose request ID is `requestId`. */
  ghost predicate Makes(h: History, o: nat, requestId: int)
    requires h.IsLegal() && o < |h.events|
  {
    h.events[o].Initiate? && h.Succeeds(o) && h.events[o].requestId == requestId
  }

  lemma NewRowIsMade(h: History, i: nat, k: TransferKey)
    requires h.IsLegal() && i < |h.events| && k in h.states[i + 1].transfers && k !in h.states[i].transfers
    ensures Makes(h, i, h.states[i + 1].transfers[k].requestId) && h.events[i].key == k
    ensures h.states[i + 1].transfers[k].data == h.events[i].data
  {
    assert h.Takes(i);
    StepIsMove(h.parse, h.states[i], h.events[i]);
  }

  /** Every transfer has been made by a request with its key, its data and its
      request ID. */
  lemma {:induction false} TransferWasMade(h: History, i: nat, k: TransferKey) returns (o: nat)
    requires h.IsLegal() && i <= |h.events| && k in h.states[i].transfers
    ensures o < i && Makes(h, o, h.states[i].transfers[k].requestId)
    ensures h.events[o].key == k && h.events[o].data == h.states[i].transfers[k].data
  {
    o := i - 1;
    if k in h.states[o].transfers {
      o := TransferWasMade(h, o, k);
      var move := StepOf(h, i - 1);
    } else {
      NewRowIsMade(h, o, k);
    }
  }

  /** No two requests are given the same request ID. */
  lemma RequestIdsAreDrawnOnce(h: History, o: nat, p: nat, requestId: int)
    requires h.IsLegal() && o < p < |h.events| && Makes(h, o, requestId)
    ensures !Makes(h, p, requestId)
  {
    InitiationEffect(h, o);
    OutboxesGrow(h, o + 1, p);
    assert h.Takes(p);
  }

  // ---------- Preparation ----------

  lemma FoundTransfer(h: History, i: nat, k: TransferKey, coordinatorId: int, requestId: int)
    requires h.IsLegal() && i <= |h.events|
    requires IsRequest(h.states[i].transfers, k, coordinatorId, requestId)
    ensures FindRunningTransfer(h.states[i], coordinatorId, requestId) == Some(k)
  {
    InvHolds(h, i);
  }

  /** Message `m` is about the transfer under `k`: it names the debtor, the root
      creditor and the recipient, and enough has been locked. */
  predicate Fits(m: PreparedTransfer, k: TransferKey, data: TransferData) {
    && m.debtorId == m.coordinatorId == k.debtorId && m.creditorId == 0
    && m.recipient == data.recipient && m.lockedAmount >= data.amount
  }

  /** A prepared transfer that fits an open row settles it, which changes nothing but
      its transfer ID. The answer commits the row's amount with its note, if the
      transfer IDs agree; otherwise it is for nothing. */
  lemma PreparationEffect(h: History, i: nat, k: TransferKey)
    requires h.IsLegal() && i < |h.events| && h.events[i].OnPreparedTransfer?
    requires var m := h.events[i].prepared; IsRequest(h.states[i].transfers, k, m.coordinatorId, m.requestId)
    ensures var (s, s', m) := (h.states[i], h.states[i + 1], h.events[i].prepared);
            var t := s.transfers[k];
            var fits := Fits(m, k, t.data);
            var opens := fits && t.transferId == None && t.finalizedAt == None;
            var commits := opens || (fits && t.transferId == Some(m.transferId));
            s' == s.(transfers := s.transfers[k := if opens then t.(transferId := Some(m.transferId)) else t],
                     finalizeOutbox := s.finalizeOutbox + [
                       FinalizeTransfer(m.debtorId, m.creditorId, m.transferId, m.coordinatorId, m.requestId,
                                        if commits then t.data.amount else 0,
                                        if commits then t.data.transferNoteFormat else "",
                                        if commits then t.data.transferNote else "")])
  {
    var m := h.events[i].prepared;
    assert h.Takes(i);
    FoundTransfer(h, i, k, m.coordinatorId, m.requestId);
    assert h.states[i].transfers[k := h.states[i].transfers[k]] == h.states[i].transfers;
  }

  lemma UnknownPreparation(h: History, i: nat)
    requires h.IsLegal() && i < |h.events| && h.events[i].OnPreparedTransfer?
    requires var m := h.events[i].prepared;
             forall k :: !IsRequest(h.states[i].transfers, k, m.coordinatorId, m.requestId)
    ensures var (s, m) := (h.states[i], h.events[i].prepared);
            h.states[i + 1]
            == s.(finalizeOutbox := s.finalizeOutbox + [
                    FinalizeTransfer(m.debtorId, m.creditorId, m.transferId, m.coordinatorId, m.requestId, 0, "", "")])
  {
    assert h.Takes(i);
  }

  /** Step `o` asked for what message `m` reports as prepared. */
  ghost predicate AskedFor(h: History, o: nat, m: PreparedTransfer)
    requires h.IsLegal() && o < |h.events|
  {
    Makes(h, o, m.requestId) && Fits(m, h.events[o].key, h.events[o].data)
  }

  /** Signal `f` carries the amount and the note that event `e` asked to transfer. */
  predicate Carries(f: FinalizeTransfer, e: Event) {
    && e.Initiate? && f.committedAmount == e.data.amount
    && f.transferNoteFormat == e.data.transferNoteFormat && f.transferNote == e.data.transferNote
  }

  /** Every PreparedTransfer message is answered with one signal, which bears all
      five of its IDs. If it pays, the amount and the note are the ones of the only
      request that drew this request ID, which asked for this recipient, and for no
      more than has been locked. If it does not pay, it is empty, unless the request
      was for nothing. */
  lemma AnswersCarryTheRequest(h: History, i: nat)
    requires h.IsLegal() && i < |h.events| && h.events[i].OnPreparedTransfer?
    ensures var (m, box, box') := (h.events[i].prepared, h.states[i].finalizeOutbox, h.states[i + 1].finalizeOutbox);
            && box' != [] && box' == box + [Last(box')]
            && var f := Last(box');
               && f.debtorId == m.debtorId && f.creditorId == m.creditorId && f.transferId == m.transferId
               && f.coordinatorId == m.coordinatorId && f.requestId == m.requestId
               && (f.committedAmount > 0 ==>
                     exists o :: 0 <= o < i && AskedFor(h, o, m) && Carries(f, h.events[o]))
               && (f.committedAmount == 0 ==>
                     (f.transferNoteFormat == "" && f.transferNote == "")
                     || exists o :: 0 <= o < i && AskedFor(h, o, m) && Carries(f, h.events[o]))
  {
    var (s, m) := (h.states[i], h.events[i].prepared);
    if k :| IsRequest(s.transfers, k, m.coordinatorId, m.requestId) {
      PreparationEffect(h, i, k);
      var o := TransferWasMade(h, i, k);
      var f := Last(h.states[i + 1].finalizeOutbox);
      assert f.committedAmount > 0 || f.transferNoteFormat != "" || f.transferNote != "" ==>
          AskedFor(h, o, m) && Carries(f, h.events[o]);
    } else {
      UnknownPreparation(h, i);
    }
  }

  // ---------- Outcomes ----------

  /** `u` is `t`, finalized at `now` with this outcome, unless it was finalized before. */
  predicate IsFinalized(t: TransferRow, u: TransferRow, now: Timestamp,
                        errorCode: Option<string>, locked: Option<nat>)
  {
    u == if t.finalizedAt.Some? then t
         else t.(finalizedAt := Some(now), errorCode := errorCode, totalLockedAmount := locked)
  }

  /** Between the two states the row under `k` is finalized, and nothing else happens. */
  ghost predicate OnlyFinalizes(s: State, s': State, k: TransferKey, now: Timestamp,
                                errorCode: Option<string>, locked: Option<nat>)
  {
    && k in s.transfers && k in s'.transfers
    && s' == s.(transfers := s.transfers[k := s'.transfers[k]])
    && IsFinalized(s.transfers[k], s'.transfers[k], now, errorCode, locked)
  }

  /** A rejection finalizes the transfer that it names: with the reported error and
      locked amount, if it reports an error of the debtor's root account, and with an
      unexpected error otherwise. A rejection of anything else changes nothing. */
  lemma RejectionEffect(h: History, i: nat, k: TransferKey)
    requires h.IsLegal() && i < |h.events| && h.events[i].OnRejectedTransfer?
    ensures var (s, s', m) := (h.states[i], h.states[i + 1], h.events[i].rejectedTransfer);
            && (IsRequest(s.transfers, k, m.coordinatorId, m.requestId) ==>
                  var told := m.statusCode != "OK" && m.debtorId == k.debtorId && m.creditorId == 0;
                  OnlyFinalizes(s, s', k, h.events[i].now,
                                Some(if told then m.statusCode else "UNEXPECTED_ERROR"),
                                if told then Some(m.totalLockedAmount) else None))
            && ((forall l :: !IsRequest(s.transfers, l, m.coordinatorId, m.requestId)) ==> s' == s)
  {
    var (s, m) := (h.states[i], h.events[i].rejectedTransfer);
    assert h.Takes(i);
    if IsRequest(s.transfers, k, m.coordinatorId, m.requestId) {
      FoundTransfer(h, i, k, m.coordinatorId, m.requestId);
      assert s.transfers[k := s.transfers[k]] == s.transfers;
    }
  }

  /** A FinalizedTransfer message finalizes the transfer that it names if that has
      been settled with the same transfer ID: without error if it has been executed
      in full, with the reported error if nothing has been, and with an unexpected
      error otherwise. Any other message changes nothing. */
  lemma ReportEffect(h: History, i: nat, k: TransferKey)
    requires h.IsLegal() && i < |h.events| && h.events[i].OnFinalizedTransfer?
    ensures var (s, s', m, now) := (h.states[i], h.states[i + 1], h.events[i].finalized, h.events[i].now);
            && (IsRequest(s.transfers, k, m.coordinatorId, m.requestId) ==>
                  var t := s.transfers[k];
                  if m.debtorId != k.debtorId || m.creditorId != 0 || t.transferId != Some(m.transferId) then s' == s
                  else if m.statusCode == "OK" && m.committedAmount == t.data.amount
                  then OnlyFinalizes(s, s', k, now, None, None)
                  else if m.statusCode != "OK" && m.committedAmount == 0
                  then OnlyFinalizes(s, s', k, now, Some(m.statusCode), Some(m.totalLockedAmount))
                  else OnlyFinalizes(s, s', k, now, Some("UNEXPECTED_ERROR"), None))
            && ((forall l :: !IsRequest(s.transfers, l, m.coordinatorId, m.requestId)) ==> s' == s)
  {
    var (s, m) := (h.states[i], h.events[i].finalized);
    assert h.Takes(i);
    if IsRequest(s.transfers, k, m.coordinatorId, m.requestId) {
      FoundTransfer(h, i, k, m.coordinatorId, m.requestId);
      assert s.transfers[k := s.transfers[k]] == s.transfers;
    }
  }

  /** A cancel call raises exactly when the transfer is not there, or is settled;
      otherwise it finalizes it with its own error code. */
  lemma CancellationEffect(h: History, i: nat)
    requires h.IsLegal() && i < |h.events| && h.events[i].Cancel?
    ensures var (s, s', e) := (h.states[i], h.states[i + 1], h.events[i]);
            var r := Attempt(h.parse, s, e);
            if e.key !in s.transfers then r == Failure(TransferDoesNotExist) && s' == s
            else if s.transfers[e.key].transferId != None then r == Failure(ForbiddenTransferCancellation) && s' == s
            else r.Success? && OnlyFinalizes(s, s', e.key, e.now, Some("CANCELED_BY_THE_SENDER"), None)
  {
    assert h.Takes(i);
  }

  // ---------- Deletion ----------

  /** A deletion raises exactly when the transfer is not there. Otherwise the row is
      gone, its debtor has one running transfer less, and nothing else changes. */
  lemma DeletionEffect(h: History, i: nat)
    requires h.IsLegal() && i < |h.events| && h.events[i].Delete?
    ensures var (s, s', k) := (h.states[i], h.states[i + 1], h.events[i].key);
            var r := Attempt(h.parse, s, h.events[i]);
            if k !in s.transfers then r == Failure(TransferDoesNotExist) && s' == s
            else
              && r.Success? && k.debtorId in s.debtors && k.debtorId in s'.debtors
              && s' == s.(transfers := s'.transfers, debtors := s.debtors[k.debtorId := s'.debtors[k.debtorId]])
              && s'.transfers.Keys == s.transfers.Keys - {k}
              && (forall l | l in s'.transfers :: s'.transfers[l] == s.transfers[l])
              && var n := s.debtors[k.debtorId].runningTransfersCount;
                 s'.debtors[k.debtorId] == s.debtors[k.debtorId].(runningTransfersCount := n - 1)
  {
    assert h.Takes(i);
    Counting.InvHolds(h, i);
    if h.events[i].key in h.states[i].transfers {
      assert IsActive(h.states[i], h.events[i].key.debtorId);
    }
  }

  /** Deleting a transfer right after it has been initiated undoes all but the
      charge of one action, and the request that has been sent. */
  lemma DeletionUndoesInitiation(h: History, i: nat)
    requires h.IsLegal() && i + 1 < |h.events| && h.events[i].Initiate? && h.Succeeds(i)
    requires h.events[i + 1] == Delete(h.events[i].key)
    ensures var (s, s', e) := (h.states[i], h.states[i + 2], h.events[i]);
            var d := e.key.debtorId;
            && s' == s.(debtors := s'.debtors, usedRequestIds := s'.usedRequestIds, prepareOutbox := s'.prepareOutbox)
            && d in s.debtors && d in s'.debtors && s'.debtors == s.debtors[d := s'.debtors[d]]
            && Throttling.IsOnlyCharged(s.debtors[d], s'.debtors[d], Throttling.Actions,
                                        Throttling.Today(e), e.maxActions)
  {
    var (s, s', e) := (h.states[i], h.states[i + 2], h.events[i]);
    InitiationSucceedsExactly(h, i);
    InitiationEffect(h, i);
    DeletionEffect(h, i + 1);
    assert s'.transfers == s.transfers;
  }
}
