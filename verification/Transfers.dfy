/** The two-phase protocol for issuing transfers, over whole histories. */
module Transfers {
  import opened Basics
  import opened Model
  import opened Histories

  // ---------- The invariant ----------

  predicate IsCommit(f: FinalizeTransfer) {
    f.committedAmount > 0
  }

  /** `p` is the request that commitment `f` answers. */
  predicate Answers(f: FinalizeTransfer, p: PrepareTransfer) {
    && f.creditorId == ROOT_CREDITOR_ID
    && f.debtorId == f.coordinatorId == p.debtorId
    && f.requestId == p.requestId
    && f.committedAmount == p.amount
  }

  function RequestOf(key: TransferKey, t: TransferRow): PrepareTransfer {
    PrepareTransfer(key.debtorId, t.requestId, t.data.amount, t.data.recipient)
  }

  ghost predicate RequestsAreUnique(transfers: map<TransferKey, TransferRow>) {
    forall k, l | k in transfers && l in transfers && transfers[k].requestId == transfers[l].requestId :: k == l
  }

  ghost predicate OutboxOk(s: State) {
    && (forall p | p in s.prepareOutbox :: p.requestId in s.usedRequestIds)
    && (forall i, j | 0 <= i < j < |s.prepareOutbox| ::
          s.prepareOutbox[i].requestId != s.prepareOutbox[j].requestId)
    && (forall f | f in s.finalizeOutbox && IsCommit(f) :: exists p :: p in s.prepareOutbox && Answers(f, p))
    && (forall f, g | f in s.finalizeOutbox && g in s.finalizeOutbox && IsCommit(f) && IsCommit(g)
                      && f.requestId == g.requestId :: f == g)
  }

  ghost predicate TransferOk(s: State, k: TransferKey)
    requires k in s.transfers
  {
    var t := s.transfers[k];
    && t.requestId in s.usedRequestIds
    && RequestOf(k, t) in s.prepareOutbox
    && (forall f | f in s.finalizeOutbox && IsCommit(f) && f.requestId == t.requestId ::
          t.transferId == Some(f.transferId) && f == Commitment(k, t, f.transferId))
    && (t.transferId.Some? ==> Commitment(k, t, t.transferId.value) in s.finalizeOutbox)
    && (t.finalizedAt.Some? && t.errorCode.None? ==> t.transferId.Some?)
    && (t.errorCode.Some? ==> t.finalizedAt.Some?)
  }

  ghost predicate Inv(s: State) {
    && RequestsAreUnique(s.transfers)
    && OutboxOk(s)
    && forall k | k in s.transfers :: TransferOk(s, k)
  }

  // ---------- What one step does to the protocol ----------

  /** The five ways in which a step can change the transfers and their outboxes. */
  datatype Move =
    | Forget
    | Open(key: TransferKey, row: TransferRow)
    | Close(key: TransferKey, row: TransferRow)
    | Commit(key: TransferKey, row: TransferRow)
    | Dismiss(message: PreparedTransfer)

  ghost predicate IsMove(s: State, s': State, move: Move) {
    match move
    case Forget =>
      && (forall k | k in s'.transfers :: k in s.transfers && s'.transfers[k] == s.transfers[k])
      && SameLog(s, s')
    case Open(k, t) =>
      && k !in s.transfers && t.requestId !in s.usedRequestIds
      && t.transferId.None? && t.finalizedAt.None? && t.errorCode.None? && t.totalLockedAmount.None?
      && s'.transfers == s.transfers[k := t]
      && s'.usedRequestIds == s.usedRequestIds + {t.requestId}
      && s'.prepareOutbox == s.prepareOutbox + [RequestOf(k, t)]
      && s'.finalizeOutbox == s.finalizeOutbox
    case Close(k, t) =>
      && k in s.transfers && s.transfers[k].finalizedAt.None? && t.finalizedAt.Some?
      && t == s.transfers[k].(finalizedAt := t.finalizedAt, errorCode := t.errorCode,
                              totalLockedAmount := t.totalLockedAmount)
      && (t.errorCode.None? ==> t.transferId.Some?)
      && s'.transfers == s.transfers[k := t]
      && SameLog(s, s')
    case Commit(k, t) =>
      && k in s.transfers && t.transferId.Some?
      && t == Settled(s.transfers[k], t.transferId.value)
      && s'.transfers == s.transfers[k := t]
      && s'.usedRequestIds == s.usedRequestIds && s'.prepareOutbox == s.prepareOutbox
      && s'.finalizeOutbox == s.finalizeOutbox + [Commitment(k, t, t.transferId.value)]
    case Dismiss(m) =>
      && s'.transfers == s.transfers
      && s'.usedRequestIds == s.usedRequestIds && s'.prepareOutbox == s.prepareOutbox
      && s'.finalizeOutbox == s.finalizeOutbox + [Dismissal(m)]
  }

  predicate SameLog(s: State, s': State) {
    && s'.usedRequestIds == s.usedRequestIds
    && s'.prepareOutbox == s.prepareOutbox
    && s'.finalizeOutbox == s.finalizeOutbox
  }

  ghost function MoveOf(parse: IriParser, s: State, e: Event): (move: Move)
    requires IsFresh(s, e)
  {
    var s' := Step(parse, s, e);
    match e
    case Initiate(k, _, _, _, _, _) =>
      if Attempt(parse, s, e).Success? then Open(k, s'.transfers[k]) else Forget
    case Cancel(k, _) => Closing(s, s', k)
    case OnPreparedTransfer(m) =>
      var found := FindRunningTransfer(s, m.coordinatorId, m.requestId);
      if found.Some? && s'.transfers[found.value].transferId == Some(m.transferId)
         && Matches(m, found.value, s.transfers[found.value])
      then Commit(found.value, s'.transfers[found.value]) else Dismiss(m)
    case OnRejectedTransfer(m, _) => ClosingFound(s, s', FindRunningTransfer(s, m.coordinatorId, m.requestId))
    case OnFinalizedTransfer(m, _) => ClosingFound(s, s', FindRunningTransfer(s, m.coordinatorId, m.requestId))
    case _ => Forget
  }

  function Closing(s: State, s': State, k: TransferKey): Move {
    if k in s.transfers && k in s'.transfers && s'.transfers[k] != s.transfers[k]
    then Close(k, s'.transfers[k]) else Forget
  }

  function ClosingFound(s: State, s': State, found: Option<TransferKey>): Move {
    if found.Some? then Closing(s, s', found.value) else Forget
  }

  lemma PreparedIsMove(parse: IriParser, s: State, e: Event)
    requires e.OnPreparedTransfer?
    ensures IsMove(s, Step(parse, s, e), MoveOf(parse, s, e))
  {
  }

  lemma RejectedIsMove(parse: IriParser, s: State, e: Event)
    requires e.OnRejectedTransfer?
    ensures IsMove(s, Step(parse, s, e), MoveOf(parse, s, e))
  {
  }

  lemma FinalizedIsMove(parse: IriParser, s: State, e: Event)
    requires e.OnFinalizedTransfer?
    ensures IsMove(s, Step(parse, s, e), MoveOf(parse, s, e))
  {
  }

  lemma StepIsMove(parse: IriParser, s: State, e: Event)
    requires IsFresh(s, e)
    ensures IsMove(s, Step(parse, s, e), MoveOf(parse, s, e))
  {
    if e.OnPreparedTransfer? {
      PreparedIsMove(parse, s, e);
    } else if e.OnRejectedTransfer? {
      RejectedIsMove(parse, s, e);
    } else if e.OnFinalizedTransfer? {
      FinalizedIsMove(parse, s, e);
    }
  }

  lemma MoveKeepsUniqueness(s: State, s': State, move: Move)
    requires Inv(s) && IsMove(s, s', move)
    ensures RequestsAreUnique(s'.transfers)
  {
  }

  lemma MoveKeepsOutbox(s: State, s': State, move: Move)
    requires Inv(s) && IsMove(s, s', move)
    ensures OutboxOk(s')
  {
  }

  lemma KeptTransferIsOk(s: State, s': State, move: Move, k: TransferKey)
    requires Inv(s) && IsMove(s, s', move) && k in s.transfers && k in s'.transfers
    ensures TransferOk(s', k)
  {
    assert TransferOk(s, k);
    if move.Open? {
      assert s'.transfers[k] == s.transfers[k];
    }
  }

  lemma MoveKeepsTransfer(s: State, s': State, move: Move, k: TransferKey)
    requires Inv(s) && IsMove(s, s', move) && k in s'.transfers
    ensures TransferOk(s', k)
  {
    if k in s.transfers {
      KeptTransferIsOk(s, s', move, k);
    } else {
      forall f | f in s.finalizeOutbox && IsCommit(f)
        ensures f.requestId in s.usedRequestIds
      {
        var p :| p in s.prepareOutbox && Answers(f, p);
      }
    }
  }

  lemma MoveKeepsInv(s: State, s': State, move: Move)
    requires Inv(s) && IsMove(s, s', move)
    ensures Inv(s')
  {
    MoveKeepsUniqueness(s, s', move);
    MoveKeepsOutbox(s, s', move);
    forall k | k in s'.transfers ensures TransferOk(s', k) {
      MoveKeepsTransfer(s, s', move, k);
    }
  }

  lemma StepOf(h: History, i: nat) returns (move: Move)
    requires h.IsLegal() && i < |h.events|
    ensures IsMove(h.states[i], h.states[i + 1], move)
  {
    assert h.Takes(i);
    move := MoveOf(h.parse, h.states[i], h.events[i]);
    StepIsMove(h.parse, h.states[i], h.events[i]);
  }

  lemma {:induction false} InvHolds(h: History, i: nat)
    requires h.IsLegal() && i <= |h.events|
    ensures Inv(h.states[i])
  {
    if i > 0 {
      InvHolds(h, i - 1);
      var move := StepOf(h, i - 1);
      MoveKeepsInv(h.states[i - 1], h.states[i], move);
    }
  }

  // ---------- At most one commit ----------

  /** Whatever the network does, and also after the transfer has been deleted,
      all commitments of one request repeat the same signal: one transfer ID,
      the amount of the only request with that number, the root creditor. */
  lemma AtMostOneCommit(h: History, i: nat, f: FinalizeTransfer, g: FinalizeTransfer)
    requires h.IsLegal() && i <= |h.events|
    requires f in h.states[i].finalizeOutbox && IsCommit(f)
    requires g in h.states[i].finalizeOutbox && IsCommit(g)
    requires f.requestId == g.requestId
    ensures f == g
    ensures exists p :: p in h.states[i].prepareOutbox && Answers(f, p)
                        && forall q | q in h.states[i].prepareOutbox && q.requestId == f.requestId :: q == p
  {
    InvHolds(h, i);
    var box := h.states[i].prepareOutbox;
    var p :| p in box && Answers(f, p);
    forall q | q in box && q.requestId == f.requestId ensures q == p {
      var x, y :| 0 <= x < |box| && 0 <= y < |box| && box[x] == p && box[y] == q;
    }
  }

  // ---------- Rows evolve, and never come back ----------

  /** How a row may look later: what was asked for never changes, a transfer ID
      is written at most once, and an outcome is frozen. */
  predicate Evolves(t: TransferRow, u: TransferRow) {
    && t.data == u.data && t.requestId == u.requestId && t.initiatedAt == u.initiatedAt
    && (t.transferId.Some? ==> u.transferId == t.transferId)
    && (t.finalizedAt.Some? ==>
          u.finalizedAt == t.finalizedAt && u.errorCode == t.errorCode
          && u.totalLockedAmount == t.totalLockedAmount && u.transferId == t.transferId)
  }

  /** Everything that bears request ID `t.requestId` descends from row `t` of `k`. */
  ghost predicate OnlyDescendants(s: State, k: TransferKey, t: TransferRow) {
    && t.requestId in s.usedRequestIds
    && forall l | l in s.transfers && s.transfers[l].requestId == t.requestId ::
         l == k && Evolves(t, s.transfers[l])
  }

  lemma MoveKeepsDescendants(s: State, s': State, move: Move, k: TransferKey, t: TransferRow)
    requires IsMove(s, s', move) && OnlyDescendants(s, k, t)
    ensures OnlyDescendants(s', k, t)
  {
  }

  lemma {:induction false} RowsEvolve(h: History, i: nat, j: nat, k: TransferKey)
    requires h.IsLegal() && i <= j <= |h.events| && k in h.states[i].transfers
    ensures OnlyDescendants(h.states[j], k, h.states[i].transfers[k])
  {
    InvHolds(h, i);
    assert TransferOk(h.states[i], k);
    if i < j {
      RowsEvolve(h, i, j - 1, k);
      var move := StepOf(h, j - 1);
      MoveKeepsDescendants(h.states[j - 1], h.states[j], move, k, h.states[i].transfers[k]);
    }
  }

  /** Once a transfer is finalized, its outcome never changes; its transfer ID is
      written at most once. */
  lemma OutcomesAreFrozen(h: History, i: nat, j: nat, k: TransferKey, l: TransferKey)
    requires h.IsLegal() && i <= j <= |h.events|
    requires k in h.states[i].transfers && l in h.states[j].transfers
    requires h.states[i].transfers[k].requestId == h.states[j].transfers[l].requestId
    ensures l == k
    ensures var t, u := h.states[i].transfers[k], h.states[j].transfers[k];
            && t.data == u.data
            && (t.transferId.Some? ==> u.transferId == t.transferId)
            && (t.finalizedAt.Some? ==> u == t)
  {
    RowsEvolve(h, i, j, k);
  }

  /** A transfer that is finalized without an error has been committed in full. */
  lemma SuccessMeansCommitted(h: History, i: nat, k: TransferKey)
    requires h.IsLegal() && i <= |h.events| && k in h.states[i].transfers
    requires h.states[i].transfers[k].finalizedAt.Some? && h.states[i].transfers[k].errorCode.None?
    ensures var t := h.states[i].transfers[k];
            t.transferId.Some? && Commitment(k, t, t.transferId.value) in h.states[i].finalizeOutbox
  {
    InvHolds(h, i);
    assert TransferOk(h.states[i], k);
  }

  lemma {:induction false} OutboxesGrow(h: History, i: nat, j: nat)
    requires h.IsLegal() && i <= j <= |h.events|
    ensures h.states[i].finalizeOutbox <= h.states[j].finalizeOutbox
    ensures h.states[i].prepareOutbox <= h.states[j].prepareOutbox
    ensures h.states[i].usedRequestIds <= h.states[j].usedRequestIds
  {
    if i < j {
      OutboxesGrow(h, i, j - 1);
      var move := StepOf(h, j - 1);
    }
  }

  lemma SentSignalsStay(h: History, i: nat, j: nat, f: FinalizeTransfer)
    requires h.IsLegal() && i <= j <= |h.events| && f in h.states[i].finalizeOutbox
    ensures f in h.states[j].finalizeOutbox
  {
    OutboxesGrow(h, i, j);
  }

  // ---------- Cancel is decisive ----------

  /** Request `r` has not been committed and cannot be. */
  ghost predicate IsDoomed(s: State, r: int) {
    && r in s.usedRequestIds
    && (forall f | f in s.finalizeOutbox && IsCommit(f) :: f.requestId != r)
    && (forall k | k in s.transfers && s.transfers[k].requestId == r ::
          s.transfers[k].finalizedAt.Some? && s.transfers[k].transferId.None?)
  }

  lemma MoveKeepsDoom(s: State, s': State, move: Move, r: int)
    requires IsMove(s, s', move) && IsDoomed(s, r)
    ensures IsDoomed(s', r)
  {
  }

  lemma {:induction false} DoomPersists(h: History, i: nat, j: nat, r: int)
    requires h.IsLegal() && i <= j <= |h.events| && IsDoomed(h.states[i], r)
    ensures IsDoomed(h.states[j], r)
  {
    if i < j {
      DoomPersists(h, i, j - 1, r);
      var move := StepOf(h, j - 1);
      MoveKeepsDoom(h.states[j - 1], h.states[j], move, r);
    }
  }

  /** Step `i` is a cancel call that returns normally. */
  ghost predicate Cancels(h: History, i: nat)
    requires h.IsLegal() && i < |h.events|
  {
    h.events[i].Cancel? && h.Succeeds(i)
  }

  ghost function CanceledRequest(h: History, i: nat): nat
    requires h.IsLegal() && i < |h.events| && Cancels(h, i)
  {
    h.states[i].transfers[h.events[i].key].requestId
  }

  lemma CancelDooms(h: History, i: nat)
    requires h.IsLegal() && i < |h.events| && Cancels(h, i)
    ensures IsDoomed(h.states[i + 1], CanceledRequest(h, i))
  {
    InvHolds(h, i);
    assert h.Takes(i);
    assert TransferOk(h.states[i], h.events[i].key);
  }

  /** After a cancel call has returned normally, the request is committed
      nowhere in the history, neither later nor earlier. */
  lemma CancelIsDecisive(h: History, i: nat, j: nat, f: FinalizeTransfer)
    requires h.IsLegal() && i < |h.events| && Cancels(h, i)
    requires j <= |h.events| && f in h.states[j].finalizeOutbox && IsCommit(f)
    ensures f.requestId != CanceledRequest(h, i)
  {
    var later := Max(i + 1, j);
    CancelDooms(h, i);
    DoomPersists(h, i + 1, later, CanceledRequest(h, i));
    SentSignalsStay(h, j, later, f);
  }

  /** A transfer of a positive amount can be canceled exactly as long as it has
      not been committed. */
  lemma CancelSucceedsUnlessCommitted(h: History, i: nat, k: TransferKey, now: Timestamp)
    requires h.IsLegal() && i <= |h.events|
    requires k in h.states[i].transfers && h.states[i].transfers[k].data.amount > 0
    ensures CancelRunningTransfer(h.states[i], k, now).Failure? <==>
            exists f :: f in h.states[i].finalizeOutbox && IsCommit(f)
                        && f.requestId == h.states[i].transfers[k].requestId
  {
    InvHolds(h, i);
    var s := h.states[i];
    var t := s.transfers[k];
    assert TransferOk(s, k);
    if t.transferId.Some? {
      assert IsCommit(Commitment(k, t, t.transferId.value));
    }
  }

  // ---------- Deletion seals the outcome ----------

  /** Request `r` has been made, and its transfer is there no more. */
  ghost predicate IsGone(s: State, r: int) {
    r in s.usedRequestIds && forall k | k in s.transfers :: s.transfers[k].requestId != r
  }

  /** From position `n` on, nothing in the outbox commits request `r`. */
  predicate CommitsNothingMore(box: seq<FinalizeTransfer>, n: nat, r: int) {
    forall x | n <= x < |box| :: !(IsCommit(box[x]) && box[x].requestId == r)
  }

  lemma MoveKeepsGone(s: State, s': State, move: Move, r: int)
    requires IsMove(s, s', move) && IsGone(s, r)
    ensures IsGone(s', r)
    ensures CommitsNothingMore(s'.finalizeOutbox, |s.finalizeOutbox|, r)
  {
  }

  lemma {:induction false} GoneIsNotCommitted(h: History, i: nat, j: nat, r: int)
    requires h.IsLegal() && i <= j <= |h.events| && IsGone(h.states[i], r)
    ensures IsGone(h.states[j], r)
    ensures CommitsNothingMore(h.states[j].finalizeOutbox, |h.states[i].finalizeOutbox|, r)
  {
    if i < j {
      GoneIsNotCommitted(h, i, j - 1, r);
      OutboxesGrow(h, j - 1, j);
      var move := StepOf(h, j - 1);
      MoveKeepsGone(h.states[j - 1], h.states[j], move, r);
    }
  }

  /** When a transfer disappears, by deletion, deactivation of its debtor, or
      cascade, no commitment of it is sent ever again, not even a repeated one:
      what has been sent is still there, and nothing after it commits the request. */
  lemma DeletionSealsTheOutcome(h: History, i: nat, j: nat, k: TransferKey)
    requires h.IsLegal() && i < j <= |h.events|
    requires k in h.states[i].transfers && k !in h.states[i + 1].transfers
    ensures h.states[i].finalizeOutbox <= h.states[j].finalizeOutbox
    ensures CommitsNothingMore(h.states[j].finalizeOutbox, |h.states[i].finalizeOutbox|,
                               h.states[i].transfers[k].requestId)
  {
    var move := StepOf(h, i);
    RowsEvolve(h, i, i + 1, k);
    OutboxesGrow(h, i, j);
    GoneIsNotCommitted(h, i + 1, j, h.states[i].transfers[k].requestId);
  }
}
