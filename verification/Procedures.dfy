/** The procedures themselves: they load rows, update them in place, write them
    back, and append signals. Each one does exactly what the state machine in
    module Model says; a procedure that raises writes nothing back. */
module Procedures {
  import opened Basics
  import opened Seqnums
  import opened Rounding
  import opened Model
  import opened Records
  import Enumeration
  import Transfers

  class Session {
    const parseIri: string -> Option<string>
    var debtors: map<int, DebtorRow>
    var transfers: map<TransferKey, TransferRow>
    var documents: map<DocumentKey, Document>
    var usedReservationIds: set<nat>
    var usedRequestIds: set<nat>
    var configureOutbox: seq<ConfigureAccount>
    var prepareOutbox: seq<PrepareTransfer>
    var finalizeOutbox: seq<FinalizeTransfer>

    constructor (parseIri: string -> Option<string>)
      ensures View() == EMPTY && Valid() && this.parseIri == parseIri
    {
      this.parseIri := parseIri;
      debtors, transfers, documents := map[], map[], map[];
      usedReservationIds, usedRequestIds := {}, {};
      configureOutbox, prepareOutbox, finalizeOutbox := [], [], [];
    }

    ghost function View(): State
      reads this
    {
      State(debtors, transfers, documents, usedReservationIds, usedRequestIds,
            configureOutbox, prepareOutbox, finalizeOutbox)
    }

    /** Request IDs come from one sequence, so that they are unique even across
        debtors; the unique index demands it only within one debtor. */
    ghost predicate Valid()
      reads this
    {
      && Transfers.RequestsAreUnique(transfers)
      && forall k | k in transfers :: transfers[k].requestId in usedRequestIds
    }

    /** The transaction did what `result` says. */
    ghost predicate Did(result: Result<State>, before: State, error: Option<Error>)
      reads this
    {
      match result
      case Success(after) => error == None && View() == after
      case Failure(e) => error == Some(e) && View() == before
    }

    // ---------- Loading and writing back ----------

    method GetDebtor(debtorId: int, active: bool) returns (debtor: Debtor?)
      ensures debtor == null <==> debtorId !in debtors || (active && !debtors[debtorId].IsActive())
      ensures debtor != null ==>
                fresh(debtor) && debtor.debtorId == debtorId && debtor.Row() == debtors[debtorId]
    {
      if debtorId in debtors && (active ==> debtors[debtorId].IsActive()) {
        debtor := new Debtor.Load(debtorId, debtors[debtorId]);
      } else {
        debtor := null;
      }
    }

    method Flush(debtor: Debtor)
      modifies this`debtors
      ensures debtors == old(debtors)[debtor.debtorId := debtor.Row()]
    {
      debtors := debtors[debtor.debtorId := debtor.Row()];
    }

    method GetRunningTransfer(key: TransferKey) returns (rt: RunningTransfer?)
      ensures rt == null <==> key !in transfers
      ensures rt != null ==> fresh(rt) && rt.key == key && rt.Row() == transfers[key]
    {
      if key in transfers {
        rt := new RunningTransfer.Load(key, transfers[key]);
      } else {
        rt := null;
      }
    }

    method FindRunningTransfer(coordinatorId: int, requestId: int) returns (rt: RunningTransfer?)
      requires Valid()
      ensures var found := Model.FindRunningTransfer(View(), coordinatorId, requestId);
              if found.None? then rt == null
              else rt != null && fresh(rt) && rt.key == found.value && rt.Row() == transfers[found.value]
    {
      rt := null;
      if key :| key in transfers && key.debtorId == coordinatorId && transfers[key].requestId == requestId {
        assert IsRequest(transfers, key, coordinatorId, requestId);
        rt := new RunningTransfer.Load(key, transfers[key]);
      }
    }

    method FlushTransfer(rt: RunningTransfer)
      modifies this`transfers
      ensures transfers == old(transfers)[rt.key := rt.Row()]
    {
      transfers := transfers[rt.key := rt.Row()];
    }

    // ---------- Debtors ----------

    /** Selecting and sorting is the database's work; the last of `count + 1` IDs,
        if there are so many, is the next page's start. */
    method GetDebtorIds(startFrom: int, count: nat) returns (page: Enumeration.Page)
      requires count >= 1
      ensures Enumeration.IsPage(page, Enumeration.ActiveIds(View()), startFrom, count)
    {
      var found := set d | d in debtors && startFrom <= d && debtors[d].IsActive();
      var debtorIds := Enumeration.FirstIds(found, count + 1);
      var nextDebtorId := None;
      if |debtorIds| > count {
        Enumeration.SplitLast(debtorIds, debtorIds[..count], debtorIds[count]);
        nextDebtorId := Some(debtorIds[count]);
        debtorIds := debtorIds[..count];
      }
      page := Enumeration.Page(debtorIds, nextDebtorId);
    }

    method ReserveDebtor(debtorId: int, reservationId: nat, now: Timestamp) returns (error: Option<Error>)
      requires Valid()
      modifies this
      ensures Valid()
      ensures Did(Model.ReserveDebtor(old(View()), debtorId, reservationId, now), old(View()), error)
    {
      if debtorId in debtors {
        return Some(DebtorExists);
      }
      debtors := debtors[debtorId := NewDebtor(reservationId, now)];
      usedReservationIds := usedReservationIds + {reservationId};
      return None;
    }

    method ActivateDebtor(debtorId: int, reservationId: string, signalNow: Timestamp) returns (error: Option<Error>)
      requires Valid()
      modifies this
      ensures Valid()
      ensures Did(Model.ActivateDebtor(old(View()), debtorId, reservationId, signalNow), old(View()), error)
    {
      var debtor := GetDebtor(debtorId, false);
      if debtor == null {
        return Some(InvalidReservationId);
      }
      if reservationId == Decimal(debtor.reservationId) {
        if !debtor.isActivated {
          debtor.Activate();
          InsertConfigureAccountSignal(debtor, signalNow);
          Flush(debtor);
        }
      } else if debtor.isActivated {
        return Some(DebtorExists);
      } else {
        return Some(InvalidReservationId);
      }
      return None;
    }

    method DeactivateDebtor(debtorId: int, now: Timestamp, signalNow: Timestamp) returns (error: Option<Error>)
      requires Valid()
      modifies this
      ensures Valid()
      ensures Did(Model.DeactivateDebtor(old(View()), debtorId, now, signalNow), old(View()), error)
    {
      var debtor := GetDebtor(debtorId, true);
      if debtor != null {
        debtor.Deactivate(now);
        InsertConfigureAccountSignal(debtor, signalNow);
        DeleteDebtorTransfers(debtor);
        Flush(debtor);
      }
      return None;
    }

    method DeleteDebtorTransfers(debtor: Debtor)
      modifies this`transfers, debtor
      ensures debtor.Row() == old(debtor.Row()).(runningTransfersCount := 0)
      ensures transfers == TransfersOfOthers(old(transfers), {debtor.debtorId})
    {
      debtor.runningTransfersCount := 0;
      transfers := TransfersOfOthers(transfers, {debtor.debtorId});
    }

    method RestrictDebtor(debtorId: int, minBalance: MinBalance, signalNow: Timestamp) returns (error: Option<Error>)
      requires Valid()
      modifies this
      ensures Valid()
      ensures Did(Model.RestrictDebtor(old(View()), debtorId, minBalance, signalNow), old(View()), error)
    {
      var debtor := GetDebtor(debtorId, true);
      if debtor == null {
        return Some(DebtorDoesNotExist);
      }
      debtor.minBalance := minBalance;
      InsertConfigureAccountSignal(debtor, signalNow);
      Flush(debtor);
      return None;
    }

    // ---------- Configuration ----------

    method InsertConfigureAccountSignal(debtor: Debtor, signalNow: Timestamp)
      modifies this`configureOutbox, debtor
      ensures debtor.Row() == Stamped(old(debtor.Row()), signalNow)
      ensures configureOutbox == old(configureOutbox) + [ConfigSignal(debtor.debtorId, debtor.Row())]
    {
      debtor.lastConfigTs := Max(signalNow, debtor.lastConfigTs);
      debtor.lastConfigSeqnum := Increment(debtor.lastConfigSeqnum);
      configureOutbox := configureOutbox + [
        ConfigureAccount(debtor.debtorId, debtor.lastConfigTs, debtor.lastConfigSeqnum,
                         debtor.configData, debtor.configFlags, SentAmount(debtor.minBalance))];
    }

    /** On success the loaded debtor carries the new count, not yet written back. */
    method ThrottleDebtorActions(debtorId: int, maxActions: int, now: Timestamp)
      returns (debtor: Debtor?, error: Option<Error>)
      ensures match Model.ThrottleDebtorActions(View(), debtorId, maxActions, now)
              case Success(row) =>
                && error == None && debtor != null && fresh(debtor)
                && debtor.debtorId == debtorId && debtor.Row() == row
              case Failure(e) => error == Some(e)
    {
      debtor := GetDebtor(debtorId, true);
      if debtor == null {
        return null, Some(DebtorDoesNotExist);
      }
      var currentDate := DateOf(now);
      var numberOfElapsedDays := currentDate - debtor.actionsCountResetDate;
      if numberOfElapsedDays > 30 {
        debtor.actionsCount := 0;
        debtor.actionsCountResetDate := currentDate;
      }
      if debtor.actionsCount >= maxActions {
        return null, Some(TooManyManagementActions);
      }
      debtor.actionsCount := debtor.actionsCount + 1;
      return debtor, None;
    }

    method UpdateDebtorConfig(debtorId: int, configData: string, latestUpdateId: int, maxActions: int,
                              now: Timestamp, signalNow: Timestamp)
      returns (error: Option<Error>)
      requires Valid()
      modifies this
      ensures Valid()
      ensures Did(Model.UpdateDebtorConfig(old(View()), debtorId, configData, latestUpdateId, maxActions,
                                           now, signalNow),
                  old(View()), error)
    {
      var debtor, raised := ThrottleDebtorActions(debtorId, maxActions, now);
      if raised.Some? {
        return raised;
      }
      var hasChanges := debtor.configData != configData;
      if latestUpdateId != debtor.configLatestUpdateId || hasChanges {
        if latestUpdateId != debtor.configLatestUpdateId + 1 {
          return Some(UpdateConflict);
        }
        debtor.SetConfig(latestUpdateId, configData);
        InsertConfigureAccountSignal(debtor, signalNow);
      }
      Flush(debtor);
      return None;
    }

    method ProcessRejectedConfig(m: RejectedConfig)
      requires Valid()
      modifies this
      ensures Valid()
      ensures Did(Model.ProcessRejectedConfig(old(View()), m), old(View()), None)
    {
      if m.creditorId != ROOT_CREDITOR_ID {
        return;
      }
      var debtor := GetDebtor(m.debtorId, false);
      if debtor != null
         && debtor.lastConfigTs == m.configTs && debtor.lastConfigSeqnum == m.configSeqnum
         && debtor.configFlags == m.configFlags && debtor.configData == m.configData
         && debtor.configError == None
         && IsCloseTo(debtor.minBalance, m.negligibleAmount)
      {
        debtor.configError := Some(m.rejectionCode);
        Flush(debtor);
      }
    }

    // ---------- The account mirror ----------

    method ProcessAccountPurge(m: AccountPurge)
      requires Valid()
      modifies this
      ensures Valid()
      ensures Did(Model.ProcessAccountPurge(old(View()), m), old(View()), None)
    {
      if m.creditorId != ROOT_CREDITOR_ID {
        return;
      }
      var debtor := GetDebtor(m.debtorId, false);
      if debtor != null && debtor.hasServerAccount && debtor.accountCreationDate <= m.creationDate {
        debtor.SetAccount(false, "", 0, 0);
        debtor.isConfigEffectual := false;
        Flush(debtor);
      }
    }

    method DiscardOrphanedAccount(m: AccountUpdate, discardNow: Timestamp)
      modifies this`configureOutbox
      ensures View() == Model.DiscardOrphanedAccount(old(View()), m, discardNow)
    {
      var safelyHugeAmount := (1.0 - EPS) * HUGE_NEGLIGIBLE_AMOUNT as real;
      var isAlreadyDiscarded := m.configFlags % 2 == 1 && m.negligibleAmount >= safelyHugeAmount;
      if !isAlreadyDiscarded {
        configureOutbox := configureOutbox + [
          ConfigureAccount(m.debtorId, discardNow, 0, "", SCHEDULED_FOR_DELETION,
                           SinglePrecision(HUGE_NEGLIGIBLE_AMOUNT))];
      }
    }

    method ProcessAccountUpdate(m: AccountUpdate, now: Timestamp, discardNow: Timestamp)
      requires Valid()
      modifies this
      ensures Valid()
      ensures Did(Model.ProcessAccountUpdate(old(View()), m, parseIri(m.configData), now, discardNow),
                  old(View()), None)
    {
      if m.creditorId != ROOT_CREDITOR_ID || now - m.ts > m.ttl * 1_000_000 {
        return;
      }
      var debtor := GetDebtor(m.debtorId, true);
      if debtor == null {
        DiscardOrphanedAccount(m, discardNow);
        return;
      }
      if m.ts > debtor.accountLastHeartbeatTs {
        debtor.accountLastHeartbeatTs := Min(m.ts, now);
      }
      if !IsNotNewer(m, debtor.Row()) {
        assert m.creationDate >= debtor.accountCreationDate;
        Reflect(debtor, m);
      }
      Flush(debtor);
    }

    method Reflect(debtor: Debtor, m: AccountUpdate)
      modifies debtor
      ensures debtor.Row() == Mirrored(old(debtor.Row()), m, parseIri(m.configData))
    {
      var isConfigEffectual :=
        && m.lastConfigTs == debtor.lastConfigTs
        && m.lastConfigSeqnum == debtor.lastConfigSeqnum
        && m.configFlags == debtor.configFlags
        && m.configData == debtor.configData
        && IsCloseTo(debtor.minBalance, m.negligibleAmount);
      debtor.SetEffectual(isConfigEffectual, parseIri(m.configData));
      debtor.SetLastChange(m.creationDate, m.lastChangeTs, m.lastChangeSeqnum);
      debtor.SetAccount(true, m.accountId, m.principal, m.transferNoteMaxBytes);
    }

    // ---------- Issuing transfers ----------

    method InitiateRunningTransfer(key: TransferKey, data: TransferData, maxActions: int,
                                   requestId: nat, now: Timestamp, initiatedAt: Timestamp)
      returns (error: Option<Error>)
      requires Valid() && requestId !in usedRequestIds
      modifies this
      ensures Valid()
      ensures Did(Model.InitiateRunningTransfer(old(View()), key, data, maxActions, requestId, now, initiatedAt),
                  old(View()), error)
    {
      var rt := GetRunningTransfer(key);
      if rt != null {
        return Some(if rt.data != data then TransfersConflict else TransferExists);
      }
      var debtor, raised := ThrottleDebtorActions(key.debtorId, maxActions, now);
      if raised.Some? {
        return raised;
      }
      debtor.CountTransfer();
      if debtor.runningTransfersCount > maxActions {
        return Some(TooManyRunningTransfers);
      }
      Flush(debtor);
      AddRunningTransfer(key, TransferRow(data, initiatedAt, requestId, None, None, None, None));
      prepareOutbox := prepareOutbox + [PrepareTransfer(key.debtorId, requestId, data.amount, data.recipient)];
      return None;
    }

    /** Inserts a row, whose request ID the database has drawn from the sequence. */
    method AddRunningTransfer(key: TransferKey, row: TransferRow)
      requires Valid() && row.requestId !in usedRequestIds && key !in transfers
      modifies this`transfers, this`usedRequestIds
      ensures Valid()
      ensures transfers == old(transfers)[key := row] && usedRequestIds == old(usedRequestIds) + {row.requestId}
    {
      transfers := transfers[key := row];
      usedRequestIds := usedRequestIds + {row.requestId};
    }

    method CancelRunningTransfer(key: TransferKey, now: Timestamp) returns (error: Option<Error>)
      requires Valid()
      modifies this
      ensures Valid()
      ensures Did(Model.CancelRunningTransfer(old(View()), key, now), old(View()), error)
    {
      var rt := GetRunningTransfer(key);
      if rt == null {
        return Some(TransferDoesNotExist);
      }
      if rt.IsSettled() {
        return Some(ForbiddenTransferCancellation);
      }
      rt.Finalize(Some(SC_CANCELED_BY_THE_SENDER), None, now);
      FlushTransfer(rt);
      return None;
    }

    method DeleteRunningTransfer(key: TransferKey) returns (error: Option<Error>)
      requires Valid()
      modifies this
      ensures Valid()
      ensures Did(Model.DeleteRunningTransfer(old(View()), key), old(View()), error)
    {
      if key !in transfers {
        return Some(TransferDoesNotExist);
      }
      transfers := transfers - {key};
      if key.debtorId in debtors {
        var row := debtors[key.debtorId];
        debtors := debtors[key.debtorId := row.(runningTransfersCount := row.runningTransfersCount - 1)];
      }
      return None;
    }

    method ProcessPreparedTransfer(m: PreparedTransfer)
      requires Valid()
      modifies this
      ensures Valid()
      ensures Did(Model.ProcessPreparedTransfer(old(View()), m), old(View()), None)
    {
      var rt := FindRunningTransfer(m.coordinatorId, m.requestId);
      var theSignalMatchesTheTransfer :=
        && rt != null
        && rt.key.debtorId == m.debtorId
        && m.creditorId == ROOT_CREDITOR_ID
        && rt.data.recipient == m.recipient
        && rt.data.amount <= m.lockedAmount;
      if theSignalMatchesTheTransfer {
        if !rt.IsFinalized() && rt.transferId == None {
          rt.transferId := Some(m.transferId);
        }
        FlushTransfer(rt);
        if rt.transferId == Some(m.transferId) {
          finalizeOutbox := finalizeOutbox + [
            FinalizeTransfer(rt.key.debtorId, ROOT_CREDITOR_ID, m.transferId, m.coordinatorId, m.requestId,
                             rt.data.amount, rt.data.transferNoteFormat, rt.data.transferNote)];
          return;
        }
      }
      finalizeOutbox := finalizeOutbox + [
        FinalizeTransfer(m.debtorId, m.creditorId, m.transferId, m.coordinatorId, m.requestId, 0, "", "")];
    }

    method ProcessRejectedTransfer(m: RejectedTransfer, now: Timestamp)
      requires Valid()
      modifies this
      ensures Valid()
      ensures Did(Model.ProcessRejectedTransfer(old(View()), m, now), old(View()), None)
    {
      var rt := FindRunningTransfer(m.coordinatorId, m.requestId);
      if rt != null {
        if !rt.IsFinalized() {
          if m.statusCode != SC_OK && rt.key.debtorId == m.debtorId && ROOT_CREDITOR_ID == m.creditorId {
            rt.Finalize(Some(m.statusCode), Some(m.totalLockedAmount), now);
          } else {
            rt.Finalize(Some(SC_UNEXPECTED_ERROR), None, now);
          }
        }
        FlushTransfer(rt);
      }
    }

    method ProcessFinalizedTransfer(m: FinalizedTransfer, now: Timestamp)
      requires Valid()
      modifies this
      ensures Valid()
      ensures Did(Model.ProcessFinalizedTransfer(old(View()), m, now), old(View()), None)
    {
      var rt := FindRunningTransfer(m.coordinatorId, m.requestId);
      if rt != null && rt.key.debtorId == m.debtorId && ROOT_CREDITOR_ID == m.creditorId
         && rt.transferId == Some(m.transferId)
      {
        if m.statusCode == SC_OK && m.committedAmount == rt.data.amount {
          rt.Finalize(None, None, now);
        } else if m.statusCode != SC_OK && m.committedAmount == 0 {
          rt.Finalize(Some(m.statusCode), Some(m.totalLockedAmount), now);
        } else {
          rt.Finalize(Some(SC_UNEXPECTED_ERROR), None, now);
        }
        FlushTransfer(rt);
      }
    }

    // ---------- Documents ----------

    /** On success the database has drawn `documentId` from a sequence. */
    method SaveDocument(debtorId: int, contentType: string, content: seq<Byte>, documentId: nat,
                        maxSaves: int, now: Timestamp, insertedAt: Timestamp)
      returns (error: Option<Error>)
      requires Valid() && DocumentKey(debtorId, documentId) !in documents
      modifies this
      ensures Valid()
      ensures Did(Model.SaveDocument(old(View()), debtorId, Document(contentType, content, insertedAt), documentId,
                                     maxSaves, now),
                  old(View()), error)
    {
      var debtor, raised := ThrottleDocumentSaves(debtorId, maxSaves, now);
      if raised == None {
        Flush(debtor);
        documents := documents[DocumentKey(debtorId, documentId) := Document(contentType, content, insertedAt)];
      }
      return raised;
    }

    method ThrottleDocumentSaves(debtorId: int, maxSaves: int, now: Timestamp)
      returns (debtor: Debtor?, error: Option<Error>)
      ensures match Model.ThrottleDocumentSaves(View(), debtorId, maxSaves, now)
              case Success(row) =>
                && error == None && debtor != null && fresh(debtor)
                && debtor.debtorId == debtorId && debtor.Row() == row
              case Failure(e) => error == Some(e)
    {
      debtor := GetDebtor(debtorId, true);
      if debtor == null {
        return null, Some(DebtorDoesNotExist);
      }
      var currentDate := DateOf(now);
      var numberOfElapsedDays := currentDate - debtor.documentsCountResetDate;
      if numberOfElapsedDays > 365 {
        debtor.documentsCount := 0;
        debtor.documentsCountResetDate := currentDate;
      }
      if debtor.documentsCount >= maxSaves {
        return null, Some(TooManySavedDocuments);
      }
      debtor.documentsCount := debtor.documentsCount + 1;
      return debtor, None;
    }
  }
}
