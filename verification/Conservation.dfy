/** Conservation of issued money, currency by currency: what was initiated has been
    paid out, or is lost to payment for ever, or is still underway. */
module Conservation {
  import opened Basics
  import opened Model
  import opened Histories
  import opened Transfers
  import Replies

  /** Two signals finalize the same prepared transfer. */
  predicate SamePreparedTransfer(f: FinalizeTransfer, g: FinalizeTransfer) {
    f.coordinatorId == g.coordinatorId && f.requestId == g.requestId && f.transferId == g.transferId
  }

  predicate IsCommittedIn(box: seq<FinalizeTransfer>, f: FinalizeTransfer) {
    exists g :: g in box && IsCommit(g) && SamePreparedTransfer(f, g)
  }

  /** What an authority that commits every prepared transfer once pays out in the
      currency of debtor `d`, when it receives the signals in `box`. */
  function PaidOut(box: seq<FinalizeTransfer>, d: int): nat {
    if box == [] then 0
    else
      var (earlier, f) := (box[..|box| - 1], Last(box));
      PaidOut(earlier, d)
      + if f.coordinatorId == d && !IsCommittedIn(earlier, f) then f.committedAmount else 0
  }

  /** The total amount of the transfers that debtor `d` initiates in the first
      `i` steps. */
  ghost function Initiated(h: History, d: int, i: nat): nat
    requires h.IsLegal() && i <= |h.events|
  {
    if i == 0 then 0
    else
      var e := h.events[i - 1];
      Initiated(h, d, i - 1)
      + if e.Initiate? && e.key.debtorId == d && h.Succeeds(i - 1) then e.data.amount else 0
  }

  /** The requests for which a cancel call returns normally in the first `i` steps. */
  ghost function Canceled(h: History, i: nat): set<int>
    requires h.IsLegal() && i <= |h.events|
  {
    if i == 0 then {}
    else Canceled(h, i - 1) + if Cancels(h, i - 1) then {CanceledRequest(h, i - 1) as int} else {}
  }

  /** The total amount that debtor `d` asked for in the requests `ids`. */
  function AskedFor(box: seq<PrepareTransfer>, d: int, ids: set<int>): nat {
    if box == [] then 0
    else
      var p := Last(box);
      AskedFor(box[..|box| - 1], d, ids)
      + if p.debtorId == d && p.requestId in ids then p.amount else 0
  }

  ghost function Ids(box: seq<PrepareTransfer>): set<int> {
    set p | p in box :: p.requestId as int
  }

  ghost function CommittedIds(box: seq<FinalizeTransfer>): set<int> {
    set f | f in box && IsCommit(f) :: f.requestId
  }

  // ---------- Sums over the outbox of requests ----------

  lemma {:induction false} AskedForIgnores(box: seq<PrepareTransfer>, d: int, a: set<int>, b: set<int>)
    requires a * Ids(box) == b * Ids(box)
    ensures AskedFor(box, d, a) == AskedFor(box, d, b)
  {
    if box != [] {
      var (earlier, p) := (box[..|box| - 1], Last(box));
      assert p in box && p.requestId in Ids(box);
      assert p.requestId in a <==> p.requestId in a * Ids(box);
      assert p.requestId in b <==> p.requestId in b * Ids(box);
      assert a * Ids(earlier) == (a * Ids(box)) * Ids(earlier);
      assert b * Ids(earlier) == (b * Ids(box)) * Ids(earlier);
      AskedForIgnores(earlier, d, a, b);
    }
  }

  lemma {:induction false} AskedForOneMore(box: seq<PrepareTransfer>, d: int, ids: set<int>, p: PrepareTransfer)
    requires forall i, j | 0 <= i < j < |box| :: box[i].requestId != box[j].requestId
    requires p in box && p.requestId !in ids
    ensures AskedFor(box, d, ids + {p.requestId})
            == AskedFor(box, d, ids) + if p.debtorId == d then p.amount else 0
  {
    var (earlier, q) := (box[..|box| - 1], Last(box));
    if p == q {
      assert forall x | x in earlier :: x.requestId != p.requestId;
      AskedForIgnores(earlier, d, ids + {p.requestId}, ids);
    } else {
      assert q.requestId != p.requestId;
      AskedForOneMore(earlier, d, ids, p);
    }
  }

  lemma {:induction false} DisjointRequestsAddUp(box: seq<PrepareTransfer>, d: int, a: set<int>, b: set<int>)
    requires a !! b
    ensures AskedFor(box, d, a) + AskedFor(box, d, b) == AskedFor(box, d, a + b)
  {
    if box != [] {
      DisjointRequestsAddUp(box[..|box| - 1], d, a, b);
    }
  }

  // ---------- The accounts balance ----------

  /** What is paid out is what the committed requests asked for. */
  ghost predicate IsBalanced(s: State, d: int) {
    PaidOut(s.finalizeOutbox, d) == AskedFor(s.prepareOutbox, d, CommittedIds(s.finalizeOutbox))
  }

  lemma DismissalKeepsBalance(s: State, f: FinalizeTransfer, d: int)
    requires IsBalanced(s, d) && !IsCommit(f)
    ensures IsBalanced(WithFinalize(s, f), d)
  {
    var box := WithFinalize(s, f).finalizeOutbox;
    assert box[..|box| - 1] == s.finalizeOutbox;
    assert CommittedIds(box) == CommittedIds(s.finalizeOutbox);
  }

  lemma RepetitionKeepsBalance(s: State, f: FinalizeTransfer, d: int)
    requires IsBalanced(s, d) && f in s.finalizeOutbox && IsCommit(f)
    ensures IsBalanced(WithFinalize(s, f), d)
  {
    var box := WithFinalize(s, f).finalizeOutbox;
    assert box[..|box| - 1] == s.finalizeOutbox;
    assert SamePreparedTransfer(f, f);
    assert f.requestId in CommittedIds(s.finalizeOutbox);
    assert CommittedIds(box) == CommittedIds(s.finalizeOutbox);
  }

  lemma CommitKeepsBalance(s: State, f: FinalizeTransfer, d: int)
    requires OutboxOk(s) && IsBalanced(s, d)
    requires OutboxOk(WithFinalize(s, f))
    ensures IsBalanced(WithFinalize(s, f), d)
  {
    var box := WithFinalize(s, f).finalizeOutbox;
    assert f in box;
    if !IsCommit(f) {
      DismissalKeepsBalance(s, f, d);
    } else if g :| g in s.finalizeOutbox && IsCommit(g) && g.requestId == f.requestId {
      assert g in box && g == f;
      RepetitionKeepsBalance(s, f, d);
    } else {
      var p :| p in s.prepareOutbox && Answers(f, p);
      assert box[..|box| - 1] == s.finalizeOutbox;
      assert CommittedIds(box) == CommittedIds(s.finalizeOutbox) + {f.requestId};
      AskedForOneMore(s.prepareOutbox, d, CommittedIds(s.finalizeOutbox), p);
    }
  }

  lemma OpenKeepsBalance(s: State, s': State, p: PrepareTransfer, d: int)
    requires OutboxOk(s) && IsBalanced(s, d) && p.requestId !in s.usedRequestIds
    requires s'.prepareOutbox == s.prepareOutbox + [p] && s'.finalizeOutbox == s.finalizeOutbox
    ensures IsBalanced(s', d)
  {
  }

  lemma {:induction false} BalanceHolds(h: History, i: nat, d: int)
    requires h.IsLegal() && i <= |h.events|
    ensures IsBalanced(h.states[i], d)
  {
    if i > 0 {
      var s, s' := h.states[i - 1], h.states[i];
      InvHolds(h, i - 1);
      InvHolds(h, i);
      BalanceHolds(h, i - 1, d);
      var move := StepOf(h, i - 1);
      match move
      case Forget =>
      case Close(_, _) =>
      case Open(k, t) => OpenKeepsBalance(s, s', RequestOf(k, t), d);
      case Commit(k, t) => CommitKeepsBalance(s, Commitment(k, t, t.transferId.value), d);
      case Dismiss(m) => CommitKeepsBalance(s, Dismissal(m), d);
    }
  }

  lemma OnlyInitiateAsks(h: History, i: nat)
    requires h.IsLegal() && i < |h.events|
    ensures var (e, before, after) := (h.events[i], h.states[i].prepareOutbox, h.states[i + 1].prepareOutbox);
            if e.Initiate? && h.Succeeds(i)
            then after == before + [PrepareTransfer(e.key.debtorId, e.requestId, e.data.amount, e.data.recipient)]
            else after == before
  {
    assert h.Takes(i);
    StepIsMove(h.parse, h.states[i], h.events[i]);
  }

  lemma AskingForMore(box: seq<PrepareTransfer>, p: PrepareTransfer, d: int)
    ensures AskedFor(box + [p], d, Ids(box + [p]))
            == AskedFor(box, d, Ids(box)) + if p.debtorId == d then p.amount else 0
  {
    var more := box + [p];
    assert more[..|more| - 1] == box;
    assert p in more && Ids(box) <= Ids(more);
    AskedForIgnores(box, d, Ids(box), Ids(more));
  }

  /** The total of the outbox of requests. */
  ghost function AskedForInAll(box: seq<PrepareTransfer>, d: int): nat {
    AskedFor(box, d, Ids(box))
  }

  lemma {:induction false} EverythingAskedForWasInitiated(h: History, d: int, i: nat)
    requires h.IsLegal() && i <= |h.events|
    ensures AskedForInAll(h.states[i].prepareOutbox, d) == Initiated(h, d, i)
  {
    if i > 0 {
      EverythingAskedForWasInitiated(h, d, i - 1);
      InitiatingAsks(h, d, i - 1);
    }
  }

  lemma InitiatingAsks(h: History, d: int, i: nat)
    requires h.IsLegal() && i < |h.events|
    ensures AskedForInAll(h.states[i + 1].prepareOutbox, d)
            == AskedForInAll(h.states[i].prepareOutbox, d)
               + if h.events[i].Initiate? && h.events[i].key.debtorId == d && h.Succeeds(i)
                 then h.events[i].data.amount else 0
  {
    var e := h.events[i];
    OnlyInitiateAsks(h, i);
    if e.Initiate? && h.Succeeds(i) {
      AskingForMore(h.states[i].prepareOutbox,
                    PrepareTransfer(e.key.debtorId, e.requestId, e.data.amount, e.data.recipient), d);
    }
  }

  // ---------- Paid out, lost, or underway ----------

  /** The requests that have not been committed and cannot be: canceled, rejected,
      or removed in time. */
  ghost function Lost(s: State): set<int> {
    set r: int | r in s.usedRequestIds && IsDoomed(s, r)
  }

  ghost function Pending(s: State): set<int> {
    set r: int | r in s.usedRequestIds && r !in CommittedIds(s.finalizeOutbox) && !IsDoomed(s, r)
  }

  /** The transfer that `p` has asked for waits to be prepared. */
  ghost predicate IsUnderway(s: State, p: PrepareTransfer) {
    exists k :: k in s.transfers && RequestOf(k, s.transfers[k]) == p
                && s.transfers[k].transferId.None? && s.transfers[k].finalizedAt.None?
  }

  lemma EveryRequestHasItsPlace(s: State)
    requires Inv(s)
    ensures CommittedIds(s.finalizeOutbox) !! Lost(s)
    ensures CommittedIds(s.finalizeOutbox) + Lost(s) !! Pending(s)
    ensures Ids(s.prepareOutbox) <= CommittedIds(s.finalizeOutbox) + Lost(s) + Pending(s)
  {
  }

  lemma PendingIsUnderway(s: State, p: PrepareTransfer)
    requires Inv(s) && p in s.prepareOutbox && p.requestId in Pending(s) && p.amount > 0
    ensures IsUnderway(s, p)
  {
    var k :| k in s.transfers && s.transfers[k].requestId == p.requestId
             && !(s.transfers[k].finalizedAt.Some? && s.transfers[k].transferId.None?);
    var t := s.transfers[k];
    assert TransferOk(s, k);
    assert RequestOf(k, t) == p by {
      var x, y :| 0 <= x < |s.prepareOutbox| && 0 <= y < |s.prepareOutbox|
                  && s.prepareOutbox[x] == p && s.prepareOutbox[y] == RequestOf(k, t);
    }
    if t.transferId.Some? {
      assert IsCommit(Commitment(k, t, t.transferId.value));
    }
  }

  /** At any moment, and however often signals are repeated, what was initiated is
      exactly what has been paid out, what is lost to payment for ever, and what
      waits to be prepared. */
  lemma MoneyIsConserved(h: History, i: nat, d: int)
    requires h.IsLegal() && i <= |h.events|
    ensures var s := h.states[i];
            Initiated(h, d, i) == PaidOut(s.finalizeOutbox, d) + AskedFor(s.prepareOutbox, d, Lost(s))
                                  + AskedFor(s.prepareOutbox, d, Pending(s))
    ensures forall p | p in h.states[i].prepareOutbox && p.requestId in Pending(h.states[i]) && p.amount > 0 ::
              IsUnderway(h.states[i], p)
  {
    var s := h.states[i];
    var (box, committed) := (s.prepareOutbox, CommittedIds(s.finalizeOutbox));
    InvHolds(h, i);
    BalanceHolds(h, i, d);
    EverythingAskedForWasInitiated(h, d, i);
    EveryRequestHasItsPlace(s);
    DisjointRequestsAddUp(box, d, committed, Lost(s));
    DisjointRequestsAddUp(box, d, committed + Lost(s), Pending(s));
    AskedForIgnores(box, d, committed + Lost(s) + Pending(s), Ids(box));
    forall p | p in box && p.requestId in Pending(s) && p.amount > 0 ensures IsUnderway(s, p) {
      PendingIsUnderway(s, p);
    }
  }

  /** The run can go on so that request `r` is committed in the end. */
  ghost predicate CommitsLater(g: History, h: History, r: int) {
    g.IsLegal() && Replies.Extends(g, h) && r in CommittedIds(Last(g.states).finalizeOutbox)
  }

  /** The message that commits what is underway. */
  lemma CommittingMessage(s: State, p: PrepareTransfer) returns (m: PreparedTransfer)
    requires Inv(s) && p.amount > 0 && IsUnderway(s, p)
    ensures p.requestId in CommittedIds(ProcessPreparedTransfer(s, m).value.finalizeOutbox)
  {
    var k :| k in s.transfers && RequestOf(k, s.transfers[k]) == p
             && s.transfers[k].transferId.None? && s.transfers[k].finalizedAt.None?;
    m := PreparedTransfer(p.debtorId, ROOT_CREDITOR_ID, 1, p.debtorId, p.requestId, p.amount, p.recipient);
    assert Replies.AcceptsFor(s, m, k);
    Replies.AnswerIs(s, m);
    assert Replies.Answer(s, m) in ProcessPreparedTransfer(s, m).value.finalizeOutbox;
  }

  /** "Lost" means what it says: a request of a positive amount is lost if and only
      if no continuation of the run, with any messages whatsoever, commits it. */
  lemma LostExactlyWhenNeverCommitted(h: History, p: PrepareTransfer)
    requires h.IsLegal() && p in Last(h.states).prepareOutbox && p.amount > 0
    ensures p.requestId in Lost(Last(h.states)) <==> !exists g: History :: CommitsLater(g, h, p.requestId)
  {
    var (s, r) := (Last(h.states), p.requestId);
    InvHolds(h, |h.events|);
    if r in Lost(s) {
      forall g: History | g.IsLegal() && Replies.Extends(g, h) ensures !CommitsLater(g, h, r) {
        assert g.states[|h.events|] == s;
        DoomPersists(g, |h.events|, |g.events|, r);
      }
    } else if r in CommittedIds(s.finalizeOutbox) {
      assert CommitsLater(h, h, r);
    } else {
      PendingIsUnderway(s, p);
      var m := CommittingMessage(s, p);
      RunsCanContinue(h, OnPreparedTransfer(m));
      assert CommitsLater(h.Then(OnPreparedTransfer(m)), h, r);
    }
  }

  lemma LossIsForever(h: History, i: nat, j: nat)
    requires h.IsLegal() && i <= j <= |h.events|
    ensures Lost(h.states[i]) <= Lost(h.states[j])
  {
    forall r | r in Lost(h.states[i]) ensures r in Lost(h.states[j]) {
      DoomPersists(h, i, j, r);
    }
  }

  lemma {:induction false} CanceledIsLost(h: History, i: nat)
    requires h.IsLegal() && i <= |h.events|
    ensures Canceled(h, i) <= Lost(h.states[i])
  {
    if i > 0 {
      CanceledIsLost(h, i - 1);
      LossIsForever(h, i - 1, i);
      if Cancels(h, i - 1) {
        CancelDooms(h, i - 1);
      }
    }
  }

  /** Everything that was canceled is lost to payment: it is never paid out. */
  lemma CanceledMoneyIsNotPaidOut(h: History, i: nat, j: nat, d: int)
    requires h.IsLegal() && i <= j <= |h.events|
    ensures Canceled(h, i) <= Lost(h.states[j])
    ensures PaidOut(h.states[j].finalizeOutbox, d)
            <= Initiated(h, d, j) - AskedFor(h.states[j].prepareOutbox, d, Canceled(h, i))
  {
    var s := h.states[j];
    CanceledIsLost(h, i);
    LossIsForever(h, i, j);
    MoneyIsConserved(h, j, d);
    DisjointRequestsAddUp(s.prepareOutbox, d, Canceled(h, i), Lost(s) - Canceled(h, i));
    assert Canceled(h, i) + (Lost(s) - Canceled(h, i)) == Lost(s);
  }
}
