/** Optimistic updates of a debtor's configuration form one linear history. */
module Updates {
  import opened Basics
  import opened Model
  import opened Histories
  import Lifecycle

  /** Step `i` is an update request of debtor `d` that returns normally. */
  ghost predicate Accepts(h: History, i: nat, d: int)
    requires h.IsLegal() && i < |h.events|
  {
    h.events[i].UpdateConfig? && h.events[i].debtorId == d && h.Succeeds(i)
  }

  /** The accepted request is not a repetition of the last one. */
  ghost predicate Applies(h: History, i: nat, d: int)
    requires h.IsLegal() && i < |h.events|
  {
    Accepts(h, i, d) && IsActive(h.states[i], d)
    && !IsUpToDate(h.states[i].debtors[d], h.events[i].configData, h.events[i].updateId)
  }

  /** How many changes the steps `start..i` apply to debtor `d`. */
  ghost function CountApplied(h: History, d: int, start: nat, i: nat): nat
    requires h.IsLegal() && start <= i <= |h.events|
    decreases i
  {
    if i == start then 0 else CountApplied(h, d, start, i - 1) + if Applies(h, i - 1, d) then 1 else 0
  }

  /** Row `r'` continues row `r` with the same configuration version, unless the
      debtor has been retired. */
  predicate SameVersion(r: DebtorRow, r': DebtorRow) {
    && r'.configLatestUpdateId == r.configLatestUpdateId
    && (r'.configData == r.configData || r'.isDeactivated)
    && (r.isDeactivated ==> r'.isDeactivated)
    && (r.isActivated ==> r'.isActivated)
  }

  lemma LifecycleKeepsVersion(parse: IriParser, s: State, e: Event, d: int)
    requires IsLifecycle(e) && d in s.debtors && d in Step(parse, s, e).debtors
    ensures SameVersion(s.debtors[d], Step(parse, s, e).debtors[d])
  {
  }

  lemma OtherStepsKeepVersion(parse: IriParser, s: State, e: Event, d: int)
    requires !(e.UpdateConfig? && e.debtorId == d)
    requires d in s.debtors && d in Step(parse, s, e).debtors
    ensures SameVersion(s.debtors[d], Step(parse, s, e).debtors[d])
  {
    if !Touches(e, d) {
      OnlyTouchedRecordsChange(parse, s, e, d);
    } else if IsLifecycle(e) {
      LifecycleKeepsVersion(parse, s, e, d);
    }
  }

  lemma UpdateMakesVersion(s: State, d: int, data: string, id: int, max: int, now: Timestamp, signalNow: Timestamp)
    requires UpdateDebtorConfig(s, d, data, id, max, now, signalNow).Success?
    ensures IsActive(s, d) && d in UpdateDebtorConfig(s, d, data, id, max, now, signalNow).value.debtors
    ensures var (r, r') := (s.debtors[d], UpdateDebtorConfig(s, d, data, id, max, now, signalNow).value.debtors[d]);
            && r'.configLatestUpdateId == id && r'.configData == data && r'.IsActive()
            && id == r.configLatestUpdateId + if IsUpToDate(r, data, id) then 0 else 1
  {
  }

  /** What step `i` does to the version of debtor `d`. */
  lemma VersionAfter(h: History, i: nat, d: int)
    requires h.IsLegal() && i < |h.events| && d in h.states[i].debtors && d in h.states[i + 1].debtors
    ensures var (e, r, r') := (h.events[i], h.states[i].debtors[d], h.states[i + 1].debtors[d]);
            if Accepts(h, i, d)
            then IsActive(h.states[i], d) && r'.configLatestUpdateId == e.updateId && r'.configData == e.configData
                 && r'.IsActive() && e.updateId == r.configLatestUpdateId + if Applies(h, i, d) then 1 else 0
            else SameVersion(r, r')
  {
    var e := h.events[i];
    assert h.Takes(i);
    if e.UpdateConfig? && e.debtorId == d {
      if h.Succeeds(i) {
        UpdateMakesVersion(h.states[i], d, e.configData, e.updateId, e.maxActions, e.now, e.signalNow);
      }
    } else {
      OtherStepsKeepVersion(h.parse, h.states[i], e, d);
    }
  }

  lemma OnlyPresentDebtorsAccept(h: History, i: nat, d: int)
    requires h.IsLegal() && i < |h.events| && Accepts(h, i, d)
    ensures d in h.states[i].debtors && h.states[i].debtors[d].isActivated && d in h.states[i + 1].debtors
  {
    var e := h.events[i];
    assert h.Takes(i);
    UpdateMakesVersion(h.states[i], d, e.configData, e.updateId, e.maxActions, e.now, e.signalNow);
  }

  /** Before its activation, nothing has been applied to a debtor. */
  ghost predicate CountIsRight(h: History, start: nat, i: nat, d: int)
    requires h.IsLegal() && start <= i <= |h.events|
  {
    var s := h.states[i];
    if d in s.debtors
    then s.debtors[d].configLatestUpdateId == 1 + CountApplied(h, d, start, i)
         && (!s.debtors[d].isActivated ==> CountApplied(h, d, start, i) == 0)
    else CountApplied(h, d, start, i) == 0
  }

  /** The latest update ID of a debtor counts the changes applied to it since its
      record was made. */
  lemma {:induction false} LatestIdCountsChanges(h: History, start: nat, i: nat, d: int)
    requires h.IsLegal() && start <= i <= |h.events|
    requires d !in h.states[start].debtors && h.KeepsShardOf(d, start, i)
    ensures CountIsRight(h, start, i, d)
    decreases i
  {
    if start < i {
      LatestIdCountsChanges(h, start, i - 1, d);
      Lifecycle.AdvanceOf(h, i - 1);
      assert Lifecycle.RowAdvances(h.states[i - 1], h.states[i], h.events[i - 1], d);
      if Accepts(h, i - 1, d) {
        OnlyPresentDebtorsAccept(h, i - 1, d);
      }
      if d in h.states[i - 1].debtors && d in h.states[i].debtors {
        VersionAfter(h, i - 1, d);
      }
    }
  }

  /** Update `id` with `data` is in the past of the record. */
  predicate HasVersion(s: State, d: int, id: int, data: string) {
    && d in s.debtors && s.debtors[d].isActivated
    && id <= s.debtors[d].configLatestUpdateId
    && (id == s.debtors[d].configLatestUpdateId ==> s.debtors[d].configData == data || s.debtors[d].isDeactivated)
  }

  lemma {:induction false} VersionsStay(h: History, i: nat, j: nat, d: int, id: int, data: string)
    requires h.IsLegal() && i <= j <= |h.events| && h.KeepsShardOf(d, i, j)
    requires HasVersion(h.states[i], d, id, data)
    ensures HasVersion(h.states[j], d, id, data)
  {
    if i < j {
      VersionsStay(h, i, j - 1, d, id, data);
      Lifecycle.ActivatedDebtorsPersist(h, i, j, d);
      VersionAfter(h, j - 1, d);
    }
  }

  /** Two accepted requests with the same update ID carry the same data: nobody's
      change is silently lost. */
  lemma SameIdMeansSameData(h: History, i: nat, j: nat, d: int)
    requires h.IsLegal() && i < j < |h.events| && h.KeepsShardOf(d, i, j)
    requires Accepts(h, i, d) && Accepts(h, j, d) && h.events[i].updateId == h.events[j].updateId
    ensures h.events[i].configData == h.events[j].configData
  {
    OnlyPresentDebtorsAccept(h, i, d);
    OnlyPresentDebtorsAccept(h, j, d);
    VersionAfter(h, i, d);
    VersionsStay(h, i + 1, j, d, h.events[i].updateId, h.events[i].configData);
    VersionAfter(h, j, d);
  }

  /** Replaying an accepted request, for as long as it is the last one, can fail
      only by throttling. Otherwise it consumes one action, and neither changes
      the configuration nor emits a signal. */
  lemma ReplayOnlyConsumesAnAction(h: History, i: nat, j: nat, d: int, max: int, now: Timestamp, signalNow: Timestamp)
    requires h.IsLegal() && i < j <= |h.events| && h.KeepsShardOf(d, i, j)
    requires Accepts(h, i, d) && IsActive(h.states[j], d)
    requires h.states[j].debtors[d].configLatestUpdateId == h.events[i].updateId
    ensures var (s, e) := (h.states[j], h.events[i]);
            match UpdateDebtorConfig(s, d, e.configData, e.updateId, max, now, signalNow)
            case Failure(error) => error == TooManyManagementActions
            case Success(s') =>
              && d in s'.debtors && s' == s.(debtors := s.debtors[d := s'.debtors[d]])
              && s'.debtors[d] == s.debtors[d].(actionsCount := s'.debtors[d].actionsCount,
                                                actionsCountResetDate := s'.debtors[d].actionsCountResetDate)
              && s'.debtors[d].actionsCount
                 == 1 + if s'.debtors[d].actionsCountResetDate == s.debtors[d].actionsCountResetDate
                        then s.debtors[d].actionsCount else 0
  {
    OnlyPresentDebtorsAccept(h, i, d);
    VersionAfter(h, i, d);
    VersionsStay(h, i + 1, j, d, h.events[i].updateId, h.events[i].configData);
  }
}
