/** The answers to PreparedTransfer messages: dismissals are final, and replays
    get the same answer for as long as the transfer exists. */
module Replies {
  import opened Basics
  import opened Model
  import opened Histories
  import opened Transfers

  /** The transfer that `m` may commit: it matches, and it has either been
      settled with the same transfer ID, or not been settled nor finalized. */
  ghost predicate Accepts(s: State, m: PreparedTransfer) {
    exists k :: AcceptsFor(s, m, k)
  }

  ghost predicate AcceptsFor(s: State, m: PreparedTransfer, k: TransferKey) {
    && IsRequest(s.transfers, k, m.coordinatorId, m.requestId)
    && Matches(m, k, s.transfers[k])
    && Settled(s.transfers[k], m.transferId).transferId == Some(m.transferId)
  }

  /** The signal that a PreparedTransfer message triggers. */
  ghost function Answer(s: State, m: PreparedTransfer): FinalizeTransfer {
    Last(ProcessPreparedTransfer(s, m).value.finalizeOutbox)
  }

  /** A message is answered with a full commitment if and only if it is accepted;
      otherwise with a dismissal of zero. */
  lemma AnswerIs(s: State, m: PreparedTransfer)
    requires Inv(s)
    ensures Accepts(s, m) ==> exists k :: AcceptsFor(s, m, k)
                                          && Answer(s, m) == Commitment(k, s.transfers[k], m.transferId)
    ensures !Accepts(s, m) ==> Answer(s, m) == Dismissal(m)
  {
    var found := FindRunningTransfer(s, m.coordinatorId, m.requestId);
    if k :| AcceptsFor(s, m, k) {
      assert found == Some(k);
    } else if found.Some? {
      assert !AcceptsFor(s, m, found.value);
    }
  }

  // ---------- Dismissals are final ----------

  lemma MoveKeepsRefusal(s: State, s': State, move: Move, m: PreparedTransfer)
    requires IsMove(s, s', move) && m.requestId in s.usedRequestIds && !Accepts(s, m)
    ensures !Accepts(s', m)
  {
    forall k ensures !AcceptsFor(s', m, k) {
      assert !AcceptsFor(s, m, k);
    }
  }

  lemma {:induction false} RefusalPersists(h: History, i: nat, j: nat, m: PreparedTransfer)
    requires h.IsLegal() && i <= j <= |h.events|
    requires m.requestId in h.states[i].usedRequestIds && !Accepts(h.states[i], m)
    ensures m.requestId in h.states[j].usedRequestIds && !Accepts(h.states[j], m)
  {
    if i < j {
      RefusalPersists(h, i, j - 1, m);
      var move := StepOf(h, j - 1);
      MoveKeepsRefusal(h.states[j - 1], h.states[j], move, m);
    }
  }

  /** `f` finalizes the transfer that `m` reports as prepared. */
  predicate Concerns(f: FinalizeTransfer, m: PreparedTransfer) {
    f.coordinatorId == m.coordinatorId && f.requestId == m.requestId && f.transferId == m.transferId
  }

  /** All messages about this prepared transfer are duplicates of `m`. */
  ghost predicate AllDuplicates(h: History, m: PreparedTransfer) {
    forall i | 0 <= i < |h.events| && h.events[i].OnPreparedTransfer?
               && h.events[i].prepared.coordinatorId == m.coordinatorId
               && h.events[i].prepared.requestId == m.requestId
               && h.events[i].prepared.transferId == m.transferId :: h.events[i].prepared == m
  }

  /** While `m` is refused, no step commits its prepared transfer. */
  lemma NoCommitWhileRefused(h: History, j: nat, m: PreparedTransfer)
    requires h.IsLegal() && j < |h.events| && AllDuplicates(h, m)
    requires Inv(h.states[j]) && !Accepts(h.states[j], m)
    ensures var (before, after) := (h.states[j].finalizeOutbox, h.states[j + 1].finalizeOutbox);
            after == before
            || (after != [] && after == before + [Last(after)] && (IsCommit(Last(after)) ==> !Concerns(Last(after), m)))
  {
    var s, e := h.states[j], h.events[j];
    assert h.Takes(j);
    StepIsMove(h.parse, s, e);
    if e.OnPreparedTransfer? {
      AnswerIs(s, e.prepared);
    }
  }

  /** None of the signals after the first `sent` ones commits the transfer of `m`. */
  predicate NoCommitSince(sent: nat, box: seq<FinalizeTransfer>, m: PreparedTransfer) {
    sent <= |box| && forall x | sent <= x < |box| && IsCommit(box[x]) :: !Concerns(box[x], m)
  }

  /** A prepared transfer that has been dismissed, under a request ID that had
      been given out, is never committed afterwards. */
  lemma {:induction false} DismissalIsFinal(h: History, i: nat, j: nat, m: PreparedTransfer)
    requires h.IsLegal() && i <= j <= |h.events| && AllDuplicates(h, m)
    requires m.requestId in h.states[i].usedRequestIds && !Accepts(h.states[i], m)
    ensures Answer(h.states[j], m) == Dismissal(m)
    ensures NoCommitSince(|h.states[i].finalizeOutbox|, h.states[j].finalizeOutbox, m)
  {
    RefusalPersists(h, i, j, m);
    InvHolds(h, j);
    AnswerIs(h.states[j], m);
    if i < j {
      DismissalIsFinal(h, i, j - 1, m);
      RefusalPersists(h, i, j - 1, m);
      InvHolds(h, j - 1);
      NoCommitWhileRefused(h, j - 1, m);
    }
  }

  // ---------- Replays get the same answer ----------

  /** While the transfer exists, every replay of a message gets the answer that
      the message got. */
  lemma ReplaysGetTheSameAnswer(h: History, i: nat, j: nat, k: TransferKey, m: PreparedTransfer)
    requires h.IsLegal() && i < j <= |h.events| && h.events[i] == OnPreparedTransfer(m)
    requires k in h.states[i].transfers && k in h.states[j].transfers
    requires h.states[i].transfers[k].requestId == h.states[j].transfers[k].requestId == m.requestId
    ensures Accepts(h.states[j], m) <==> Accepts(h.states[i], m)
    ensures Answer(h.states[j], m) == Answer(h.states[i], m)
  {
    var (s, s', s'') := (h.states[i], h.states[i + 1], h.states[j]);
    InvHolds(h, i);
    InvHolds(h, j);
    AnswerIs(s, m);
    AnswerIs(s'', m);
    assert TransferOk(s, k);
    RowsEvolve(h, i, j, k);
    if Accepts(s, m) {
      assert AcceptsFor(s, m, k);
      CommitIsRecorded(h, i, m, k);
      RowsEvolve(h, i + 1, j, k);
      assert AcceptsFor(s'', m, k);
    } else {
      RefusalPersists(h, i, j, m);
    }
  }

  lemma CommitIsRecorded(h: History, i: nat, m: PreparedTransfer, k: TransferKey)
    requires h.IsLegal() && i < |h.events| && h.events[i] == OnPreparedTransfer(m)
    requires AcceptsFor(h.states[i], m, k) && RequestsAreUnique(h.states[i].transfers)
    ensures k in h.states[i + 1].transfers
    ensures h.states[i + 1].transfers[k] == Settled(h.states[i].transfers[k], m.transferId)
  {
    assert h.Takes(i);
    assert FindRunningTransfer(h.states[i], m.coordinatorId, m.requestId) == Some(k);
  }

  /** A committed message can be dismissed later only after the transfer has been
      deleted. */
  lemma DismissedOnlyAfterDeletion(h: History, i: nat, j: nat, m: PreparedTransfer)
    requires h.IsLegal() && i < j <= |h.events| && h.events[i] == OnPreparedTransfer(m)
    requires Accepts(h.states[i], m) && !Accepts(h.states[j], m)
    ensures forall k | k in h.states[j].transfers :: h.states[j].transfers[k].requestId != m.requestId
  {
    var k :| AcceptsFor(h.states[i], m, k);
    RowsEvolve(h, i, j, k);
    if k in h.states[j].transfers && h.states[j].transfers[k].requestId == m.requestId {
      ReplaysGetTheSameAnswer(h, i, j, k, m);
    }
  }

  // ---------- Dismissals of requests that have not been made yet ----------

  ghost predicate Extends(g: History, h: History) {
    h.events <= g.events && h.states <= g.states
  }

  /** The run can go on so that `m` is answered with a commitment in the end. */
  ghost predicate CanBeCommitted(h: History, m: PreparedTransfer) {
    exists g: History :: EndsWithCommit(g, h, m)
  }

  ghost predicate EndsWithCommit(g: History, h: History, m: PreparedTransfer) {
    g.IsLegal() && Extends(g, h) && IsCommit(Answer(Last(g.states), m))
  }

  lemma {:induction false} UnusedUuid(keys: set<TransferKey>) returns (unused: nat)
    ensures forall k | k in keys :: k.transferUuid < unused
  {
    unused := 0;
    if keys != {} {
      var k :| k in keys;
      var below := UnusedUuid(keys - {k});
      unused := below + k.transferUuid + 1;
    }
  }

  /** The request that makes a dismissed message acceptable. */
  lemma LateRequest(s: State, parse: IriParser, m: PreparedTransfer) returns (e: Event)
    requires m.debtorId == m.coordinatorId && m.creditorId == ROOT_CREDITOR_ID && m.lockedAmount > 0
    requires 0 <= m.requestId && m.requestId !in s.usedRequestIds && IsActive(s, m.debtorId)
    requires Inv(s)
    ensures IsFresh(s, e) && IsCommit(Answer(Step(parse, s, e), m))
  {
    var row := s.debtors[m.debtorId];
    var uuid := UnusedUuid(s.transfers.Keys);
    var key := TransferKey(m.debtorId, uuid);
    var max := row.actionsCount + Max(row.runningTransfersCount, 0) + 1;
    e := Initiate(key, TransferData("", m.recipient, m.lockedAmount, "", ""), max, m.requestId, 0, 0);
    var s' := Step(parse, s, e);
    StepIsMove(parse, s, e);
    MoveKeepsInv(s, s', MoveOf(parse, s, e));
    assert AcceptsFor(s', m, key);
    assert FindRunningTransfer(s', m.coordinatorId, m.requestId) == Some(key);
  }

  /** The finality of dismissals depends on one thing only. A well-formed message
      for an active debtor that would be dismissed now can be committed later if
      and only if its request ID has not been given out yet. */
  lemma DismissalIsFinalExactlyForKnownRequests(h: History, m: PreparedTransfer)
    requires h.IsLegal() && !Accepts(Last(h.states), m)
    requires m.debtorId == m.coordinatorId && m.creditorId == ROOT_CREDITOR_ID && m.lockedAmount > 0
    requires m.requestId >= 0 && IsActive(Last(h.states), m.debtorId)
    ensures CanBeCommitted(h, m) <==> m.requestId !in Last(h.states).usedRequestIds
  {
    var s := Last(h.states);
    InvHolds(h, |h.events|);
    if m.requestId in s.usedRequestIds {
      forall g: History | g.IsLegal() && Extends(g, h) ensures !EndsWithCommit(g, h, m) {
        assert g.states[|h.events|] == s;
        RefusalPersists(g, |h.events|, |g.events|, m);
        InvHolds(g, |g.events|);
        AnswerIs(Last(g.states), m);
      }
    } else {
      var e := LateRequest(s, h.parse, m);
      var g := h.Then(e);
      RunsCanContinue(h, e);
      assert EndsWithCommit(g, h, m);
    }
  }

  // ---------- Completion ----------

  /** A transfer that has been committed is finalized by the first report about
      it: as a success if and only if the report says that it has been executed in
      full, with the reported error if nothing has been executed, and otherwise
      with an unexpected error. */
  lemma FirstReportDecides(h: History, i: nat, j: nat, k: TransferKey, m: PreparedTransfer)
    requires h.IsLegal() && i < j < |h.events|
    requires h.events[i] == OnPreparedTransfer(m) && AcceptsFor(h.states[i], m, k)
    requires k in h.states[j].transfers && h.states[j].transfers[k].requestId == m.requestId
    requires h.states[j].transfers[k].finalizedAt.None?
    requires h.events[j].OnFinalizedTransfer? && IsReportOn(h.events[j].finalized, m)
    ensures k in h.states[j + 1].transfers
    ensures var (t, u, f) := (h.states[j].transfers[k], h.states[j + 1].transfers[k], h.events[j].finalized);
            && u.finalizedAt.Some? && u.transferId == Some(m.transferId) && u.data == t.data
            && (u.errorCode == None <==> f.statusCode == SC_OK && f.committedAmount == t.data.amount)
            && (f.statusCode != SC_OK && f.committedAmount == 0 ==>
                  u.errorCode == Some(f.statusCode) && u.totalLockedAmount == Some(f.totalLockedAmount))
            && (u.errorCode != None && (f.statusCode == SC_OK || f.committedAmount != 0) ==>
                  u.errorCode == Some(SC_UNEXPECTED_ERROR) && u.totalLockedAmount == None)
  {
    var s := h.states[j];
    InvHolds(h, i);
    InvHolds(h, j);
    CommitIsRecorded(h, i, m, k);
    RowsEvolve(h, i + 1, j, k);
    assert IsRequest(s.transfers, k, m.coordinatorId, m.requestId);
    ReportFinalizes(s, k, h.events[j].finalized, h.events[j].now);
    assert h.Takes(j);
  }

  /** What a report about a settled transfer makes of its row. */
  function Reported(t: TransferRow, f: FinalizedTransfer, now: Timestamp): TransferRow {
    if f.statusCode == SC_OK && f.committedAmount == t.data.amount then Finalized(t, None, None, now)
    else if f.statusCode != SC_OK && f.committedAmount == 0
    then Finalized(t, Some(f.statusCode), Some(f.totalLockedAmount), now)
    else Finalized(t, Some(SC_UNEXPECTED_ERROR), None, now)
  }

  lemma ReportFinalizes(s: State, k: TransferKey, f: FinalizedTransfer, now: Timestamp)
    requires Inv(s) && IsRequest(s.transfers, k, f.coordinatorId, f.requestId)
    requires f.debtorId == k.debtorId && f.creditorId == ROOT_CREDITOR_ID
    requires s.transfers[k].transferId == Some(f.transferId)
    ensures ProcessFinalizedTransfer(s, f, now).value.transfers
            == s.transfers[k := Reported(s.transfers[k], f, now)]
  {
    assert FindRunningTransfer(s, f.coordinatorId, f.requestId) == Some(k);
  }

  predicate IsReportOn(f: FinalizedTransfer, m: PreparedTransfer) {
    && f.debtorId == m.debtorId && f.creditorId == m.creditorId && f.transferId == m.transferId
    && f.coordinatorId == m.coordinatorId && f.requestId == m.requestId
  }
}
