/** What the requests that manage a debtor do: when each of them succeeds, and all that
    it changes. */
module Managing {
  import opened Basics
  import opened Seqnums
  import opened Rounding
  import opened Model
  import opened Histories
  import Configuration
  import Counting
  import Lifecycle
  import Throttling

  /** Row `r'` is `r` with the next stamp: the later of the clock reading and the
      previous timestamp, and the next number on the circle. */
  predicate IsStamped(r: DebtorRow, r': DebtorRow, now: Timestamp) {
    && r' == r.(lastConfigTs := r'.lastConfigTs, lastConfigSeqnum := r'.lastConfigSeqnum)
    && r'.lastConfigTs >= now && r'.lastConfigTs >= r.lastConfigTs
    && (r'.lastConfigTs == now || r'.lastConfigTs == r.lastConfigTs)
    && (r'.lastConfigSeqnum - r.lastConfigSeqnum) % CIRCLE == 1
  }

  /** Between the two states the row of `d` becomes `r` with the next stamp, and one
      signal announces it. Besides these, only transfers may change. */
  ghost predicate IsAnnounced(s: State, s': State, d: int, r: DebtorRow, now: Timestamp) {
    && d in s'.debtors && IsStamped(r, s'.debtors[d], now)
    && var r' := s'.debtors[d];
       var minBalance: int := r'.minBalance;
       s' == s.(debtors := s.debtors[d := r'],
                transfers := s'.transfers,
                configureOutbox := s.configureOutbox + [
                  ConfigureAccount(d, r'.lastConfigTs, r'.lastConfigSeqnum, r'.configData, r'.configFlags,
                                   SinglePrecision(-minBalance))])
  }

  lemma NextNumberOnCircle(n: Seqnum)
    ensures (Increment(n) - n) % CIRCLE == 1
  {
  }

  lemma ConfigureIsAnnounced(s: State, d: int, row: DebtorRow, now: Timestamp)
    requires d in s.debtors
    ensures var s' := Configure(s, d, row, now); IsAnnounced(s, s', d, row, now) && s'.transfers == s.transfers
  {
    NextNumberOnCircle(row.lastConfigSeqnum);
  }

  // ---------- Reservation and activation ----------

  /** A debtor ID can be reserved exactly when it is not taken. The new debtor is not
      activated, may issue up to 2^63, owns nothing, owes no actions, has no account,
      and holds version 0 of the empty configuration. */
  lemma ReservationEffect(h: History, i: nat)
    requires h.IsLegal() && i < |h.events| && h.events[i].Reserve?
    ensures var (s, s', e) := (h.states[i], h.states[i + 1], h.events[i]);
            var d := e.debtorId;
            if d in s.debtors then Attempt(h.parse, s, e) == Failure(DebtorExists) && s' == s
            else
              && h.Succeeds(i) && d in s'.debtors
              && s' == s.(debtors := s.debtors[d := s'.debtors[d]],
                          usedReservationIds := s.usedReservationIds + {e.reservationId})
              && IsNew(s'.debtors[d], e.reservationId, e.now)
              && Counting.TransfersOf(s'.transfers, d) == {}
  {
    assert h.Takes(i);
    Counting.InvHolds(h, i);
    if h.events[i].debtorId !in h.states[i].debtors {
      assert Counting.TransfersOf(h.states[i].transfers, h.events[i].debtorId) == {};
    }
  }

  predicate IsNew(r: DebtorRow, reservationId: nat, now: Timestamp) {
    && !r.isActivated && !r.isDeactivated && r.deactivationDate == None
    && r.reservationId == reservationId && r.createdAt == now && r.accountLastHeartbeatTs == now
    && r.balance == 0 && r.minBalance == -0x8000_0000_0000_0000 && r.transferNoteMaxBytes == 0
    && r.runningTransfersCount == 0 && r.actionsCount == 0 && r.documentsCount == 0
    && r.actionsCountResetDate == r.documentsCountResetDate
    && 0 <= now - r.actionsCountResetDate * 86_400_000_000 < 86_400_000_000
    && !r.hasServerAccount && r.accountId == ""
    && r.accountCreationDate == 0 && r.accountLastChangeTs == 0 && r.accountLastChangeSeqnum == 0
    && r.lastConfigTs == 0 && r.lastConfigSeqnum == 0 && !r.isConfigEffectual
    && r.configFlags == 0 && r.configData == "" && r.configError == None
    && r.configLatestUpdateId == 1 && r.debtorInfoIri == None
  }

  /** Activation needs the text of the record's own reservation ID. It activates and
      announces once; a repeated call changes nothing. Another text is answered by
      whether the debtor has been activated. */
  lemma ActivationEffect(h: History, i: nat)
    requires h.IsLegal() && i < |h.events| && h.events[i].Activate?
    ensures var (s, s', e) := (h.states[i], h.states[i + 1], h.events[i]);
            var (d, r) := (e.debtorId, Attempt(h.parse, h.states[i], e));
            if d in s.debtors && e.reservation == Decimal(s.debtors[d].reservationId) then
              && r.Success?
              && if s.debtors[d].isActivated then s' == s
                 else IsAnnounced(s, s', d, s.debtors[d].(isActivated := true), e.signalNow)
                      && s'.transfers == s.transfers
            else
              && s' == s
              && r == Failure(if d in s.debtors && s.debtors[d].isActivated then DebtorExists else InvalidReservationId)
  {
    var (s, e) := (h.states[i], h.events[i]);
    assert h.Takes(i);
    if e.debtorId in s.debtors {
      ConfigureIsAnnounced(s, e.debtorId, s.debtors[e.debtorId].(isActivated := true), e.signalNow);
    }
  }

  /** The first signal of every record: version 1 of the empty configuration, with the
      amount 2^63, up to rounding. */
  lemma FirstSignal(h: History, i: nat)
    requires h.IsLegal() && i + 1 < |h.events| && h.events[i].Reserve? && h.Succeeds(i)
    requires h.events[i + 1].Activate? && h.events[i + 1].debtorId == h.events[i].debtorId
    requires h.events[i + 1].reservation == Decimal(h.events[i].reservationId)
    ensures h.Succeeds(i + 1)
    ensures var (box, box') := (h.states[i].configureOutbox, h.states[i + 2].configureOutbox);
            && box' != [] && box' == box + [Last(box')]
            && var amount := Last(box').negligibleAmount;
               && 999_999 * 0x8000_0000_0000_0000 <= 1_000_000 * amount <= 1_000_001 * 0x8000_0000_0000_0000
               && Last(box') == ConfigureAccount(h.events[i].debtorId, Max(h.events[i + 1].signalNow, 0), 1, "", 0,
                                                 amount)
  {
    ReservationEffect(h, i);
    ActivationEffect(h, i + 1);
    var (d, now) := (h.events[i].debtorId, h.events[i + 1].signalNow);
    SignalOfNew(h.states[i + 1], h.states[i + 2], d, h.states[i + 1].debtors[d], now);
  }

  lemma SignalOfNew(s: State, s': State, d: int, r: DebtorRow, now: Timestamp)
    requires IsNew(r, r.reservationId, r.createdAt) && IsAnnounced(s, s', d, r.(isActivated := true), now)
    ensures var amount := SinglePrecision(0x8000_0000_0000_0000);
            && s'.configureOutbox == s.configureOutbox + [ConfigureAccount(d, Max(now, 0), 1, "", 0, amount)]
            && 999_999 * 0x8000_0000_0000_0000 <= 1_000_000 * amount <= 1_000_001 * 0x8000_0000_0000_0000
  {
    var minBalance: int := r.minBalance;
    SinglePrecisionError(-minBalance);
  }

  // ---------- Deactivation and restriction ----------

  /** Deactivation retires an active debtor: all its transfers go, its configuration
      asks for the deletion of the account, and one signal announces that. Any other
      debtor is left alone. */
  lemma DeactivationEffect(h: History, i: nat)
    requires h.IsLegal() && i < |h.events| && h.events[i].Deactivate?
    ensures h.Succeeds(i)
    ensures var (s, s', e) := (h.states[i], h.states[i + 1], h.events[i]);
            var d := e.debtorId;
            if !Lifecycle.IsInPhase(s, d, 1) then s' == s
            else
              && IsAnnounced(s, s', d,
                             s.debtors[d].(isDeactivated := true, deactivationDate := Some(Throttling.DayOf(e.now)),
                                           isConfigEffectual := true, configFlags := 1, configData := "",
                                           configError := None, debtorInfoIri := None, runningTransfersCount := 0),
                             e.signalNow)
              && (forall k :: k in s'.transfers <==> k in s.transfers && k.debtorId != d)
              && (forall k | k in s'.transfers :: s'.transfers[k] == s.transfers[k])
  {
    var (s, e) := (h.states[i], h.events[i]);
    assert h.Takes(i);
    Lifecycle.InvHolds(h, i);
    if IsActive(s, e.debtorId) {
      ConfigureIsAnnounced(s, e.debtorId, Deactivated(s.debtors[e.debtorId], e.now).(runningTransfersCount := 0),
                           e.signalNow);
    }
  }

  /** Every active debtor can be restricted to any minimum balance. */
  lemma RestrictionEffect(h: History, i: nat)
    requires h.IsLegal() && i < |h.events| && h.events[i].Restrict?
    ensures var (s, s', e) := (h.states[i], h.states[i + 1], h.events[i]);
            var d := e.debtorId;
            if Lifecycle.IsInPhase(s, d, 1)
            then h.Succeeds(i) && s'.transfers == s.transfers
                 && IsAnnounced(s, s', d, s.debtors[d].(minBalance := e.minBalance), e.signalNow)
            else Attempt(h.parse, s, e) == Failure(DebtorDoesNotExist) && s' == s
  {
    var (s, e) := (h.states[i], h.events[i]);
    assert h.Takes(i);
    Lifecycle.InvHolds(h, i);
    if IsActive(s, e.debtorId) {
      ConfigureIsAnnounced(s, e.debtorId, s.debtors[e.debtorId].(minBalance := e.minBalance), e.signalNow);
    }
  }

  // ---------- Updates ----------

  /** An active debtor within its limit of actions can always make the next update, and
      repeat the last one; any other update conflicts. */
  lemma UpdateSucceedsExactly(h: History, i: nat)
    requires h.IsLegal() && i < |h.events| && h.events[i].UpdateConfig?
    ensures var (s, e) := (h.states[i], h.events[i]);
            var (d, r) := (e.debtorId, Attempt(h.parse, h.states[i], e));
            if !Lifecycle.IsInPhase(s, d, 1) then r == Failure(DebtorDoesNotExist)
            else if !Throttling.Admits(s.debtors[d], Throttling.Actions, Throttling.DayOf(e.now), e.maxActions)
            then r == Failure(TooManyManagementActions)
            else
              var latest := s.debtors[d].configLatestUpdateId;
              && (r.Success? <==> e.updateId == latest + 1
                                  || (e.updateId == latest && e.configData == s.debtors[d].configData))
              && (r.Failure? ==> r.error == UpdateConflict)
  {
    var (s, e) := (h.states[i], h.events[i]);
    Lifecycle.InvHolds(h, i);
    if e.debtorId in s.debtors {
      Throttling.ActionsAreAdmitted(s.debtors[e.debtorId], e.maxActions, DateOf(e.now));
    }
  }

  /** The row `r`, after one action has been charged. */
  ghost predicate IsChargedAction(r: DebtorRow, c: DebtorRow, e: Event)
    requires e.UpdateConfig?
  {
    Throttling.IsOnlyCharged(r, c, Throttling.Actions, Throttling.DayOf(e.now), e.maxActions)
  }

  /** A successful update is charged. Repeating the last one does nothing else; the
      next one stores the ID and the data, and sends one signal with that data. */
  lemma UpdateEffect(h: History, i: nat) returns (charged: DebtorRow)
    requires h.IsLegal() && i < |h.events| && h.events[i].UpdateConfig? && h.Succeeds(i)
    ensures var (s, s', e) := (h.states[i], h.states[i + 1], h.events[i]);
            var d := e.debtorId;
            && d in s.debtors && IsChargedAction(s.debtors[d], charged, e)
            && s'.transfers == s.transfers
            && if e.updateId == s.debtors[d].configLatestUpdateId then s' == s.(debtors := s.debtors[d := charged])
               else IsAnnounced(s, s', d, charged.(configLatestUpdateId := e.updateId, configData := e.configData),
                                e.signalNow)
  {
    var (s, e) := (h.states[i], h.events[i]);
    var d := e.debtorId;
    assert h.Takes(i);
    UpdateSucceedsExactly(h, i);
    Throttling.ActionsAreAdmitted(s.debtors[d], e.maxActions, DateOf(e.now));
    charged := ThrottledActions(s.debtors[d], e.maxActions, DateOf(e.now)).value;
    ConfigureIsAnnounced(s, d, charged.(configLatestUpdateId := e.updateId, configData := e.configData), e.signalNow);
  }

  /** The next update of an active debtor within its limit takes effect, and is
      announced by exactly one signal of its own. */
  lemma NextUpdateIsAnnounced(h: History, i: nat, d: int)
    requires h.IsLegal() && i < |h.events| && h.events[i].UpdateConfig? && h.events[i].debtorId == d
    requires Lifecycle.IsInPhase(h.states[i], d, 1)
    requires var e := h.events[i];
             Throttling.Admits(h.states[i].debtors[d], Throttling.Actions, Throttling.DayOf(e.now), e.maxActions)
             && e.updateId == h.states[i].debtors[d].configLatestUpdateId + 1
    ensures var (s, s', e) := (h.states[i], h.states[i + 1], h.events[i]);
            var (own, own') := (Configuration.Own(s.configureOutbox, d), Configuration.Own(s'.configureOutbox, d));
            && h.Succeeds(i) && d in s'.debtors
            && s'.debtors[d].configLatestUpdateId == e.updateId && s'.debtors[d].configData == e.configData
            && own' != [] && own' == own + [Last(own')] && Last(own').configData == e.configData
  {
    UpdateSucceedsExactly(h, i);
    var charged := UpdateEffect(h, i);
    var (s, r') := (h.states[i], h.states[i + 1].debtors[d]);
    Configuration.OwnSignalsAreNotDiscards(d, r');
    Configuration.OwnOfMore(s.configureOutbox, ConfigSignal(d, r'), d);
  }
}
