/** Database rows loaded into a session: objects whose fields are updated in
    place, and written back when the transaction commits. */
module Records {
  import opened Basics
  import opened Seqnums
  import opened Model

  class Debtor {
    const debtorId: int
    var isActivated: bool
    var isDeactivated: bool
    var deactivationDate: Option<Date>
    const reservationId: nat
    const createdAt: Timestamp
    var balance: int
    var minBalance: MinBalance
    var transferNoteMaxBytes: int
    var runningTransfersCount: int
    var actionsCount: nat
    var actionsCountResetDate: Date
    var documentsCount: nat
    var documentsCountResetDate: Date
    var hasServerAccount: bool
    var accountCreationDate: Date
    var accountLastChangeTs: Timestamp
    var accountLastChangeSeqnum: Seqnum
    var accountLastHeartbeatTs: Timestamp
    var accountId: string
    var lastConfigTs: Timestamp
    var lastConfigSeqnum: Seqnum
    var isConfigEffectual: bool
    var configFlags: int
    var configData: string
    var configError: Option<string>
    var configLatestUpdateId: int
    var debtorInfoIri: Option<string>

    constructor Load(debtorId: int, row: DebtorRow)
      ensures this.debtorId == debtorId && Row() == row
    {
      this.debtorId := debtorId;
      isActivated, isDeactivated, deactivationDate := row.isActivated, row.isDeactivated, row.deactivationDate;
      reservationId, createdAt, balance, minBalance := row.reservationId, row.createdAt, row.balance, row.minBalance;
      transferNoteMaxBytes, runningTransfersCount := row.transferNoteMaxBytes, row.runningTransfersCount;
      actionsCount, actionsCountResetDate := row.actionsCount, row.actionsCountResetDate;
      documentsCount, documentsCountResetDate := row.documentsCount, row.documentsCountResetDate;
      hasServerAccount, accountCreationDate := row.hasServerAccount, row.accountCreationDate;
      accountLastChangeTs, accountLastChangeSeqnum := row.accountLastChangeTs, row.accountLastChangeSeqnum;
      accountLastHeartbeatTs, accountId := row.accountLastHeartbeatTs, row.accountId;
      lastConfigTs, lastConfigSeqnum := row.lastConfigTs, row.lastConfigSeqnum;
      isConfigEffectual, configFlags := row.isConfigEffectual, row.configFlags;
      configData, configError := row.configData, row.configError;
      configLatestUpdateId, debtorInfoIri := row.configLatestUpdateId, row.debtorInfoIri;
    }

    /** The row that is written back. */
    function Row(): DebtorRow
      reads this
    {
      DebtorRow(isActivated, isDeactivated, deactivationDate, reservationId, createdAt, balance, minBalance,
                transferNoteMaxBytes, runningTransfersCount, actionsCount, actionsCountResetDate,
                documentsCount, documentsCountResetDate, hasServerAccount, accountCreationDate,
                accountLastChangeTs, accountLastChangeSeqnum, accountLastHeartbeatTs, accountId,
                lastConfigTs, lastConfigSeqnum, isConfigEffectual, configFlags, configData, configError,
                configLatestUpdateId, debtorInfoIri)
    }

    method Activate()
      modifies this
      ensures Row() == old(Row()).(isActivated := true)
    {
      isActivated := true;
    }

    method Deactivate(now: Timestamp)
      modifies this
      ensures Row() == Deactivated(old(Row()), now)
    {
      isDeactivated := true;
      deactivationDate := Some(DateOf(now));
      isConfigEffectual := true;
      ClearConfig();
    }

    method ClearConfig()
      modifies this
      ensures Row() == old(Row()).(configFlags := SCHEDULED_FOR_DELETION, configData := "",
                                   configError := None, debtorInfoIri := None)
    {
      configFlags := SCHEDULED_FOR_DELETION;
      configData := "";
      configError := None;
      debtorInfoIri := None;
    }

    method CountTransfer()
      modifies this
      ensures Row() == old(Row()).(runningTransfersCount := old(runningTransfersCount) + 1)
    {
      runningTransfersCount := runningTransfersCount + 1;
    }

    /** `set_values` of an allowed update. */
    method SetConfig(updateId: int, data: string)
      modifies this
      ensures Row() == old(Row()).(configLatestUpdateId := updateId, configData := data)
    {
      configLatestUpdateId := updateId;
      configData := data;
    }

    method SetEffectual(effectual: bool, iri: Option<string>)
      modifies this
      ensures Row() == old(Row()).(isConfigEffectual := effectual,
                                   configError := if effectual then None else old(configError),
                                   debtorInfoIri := if effectual then iri else old(debtorInfoIri))
    {
      isConfigEffectual := effectual;
      configError := if effectual then None else configError;
      if effectual {
        debtorInfoIri := iri;
      }
    }

    method SetLastChange(creationDate: Date, ts: Timestamp, seqnum: Seqnum)
      modifies this
      ensures Row() == old(Row()).(accountCreationDate := creationDate, accountLastChangeTs := ts,
                                   accountLastChangeSeqnum := seqnum)
    {
      accountCreationDate := creationDate;
      accountLastChangeTs := ts;
      accountLastChangeSeqnum := seqnum;
    }

    method SetAccount(present: bool, id: string, amount: int, noteMaxBytes: int)
      modifies this
      ensures Row() == old(Row()).(hasServerAccount := present, accountId := id, balance := amount,
                                   transferNoteMaxBytes := noteMaxBytes)
    {
      hasServerAccount := present;
      accountId := id;
      balance := amount;
      transferNoteMaxBytes := noteMaxBytes;
    }
  }

  class RunningTransfer {
    const key: TransferKey
    const data: TransferData
    const initiatedAt: Timestamp
    const requestId: nat
    var transferId: Option<int>
    var finalizedAt: Option<Timestamp>
    var errorCode: Option<string>
    var totalLockedAmount: Option<nat>

    constructor Load(key: TransferKey, row: TransferRow)
      ensures this.key == key && Row() == row
    {
      this.key, data, initiatedAt, requestId := key, row.data, row.initiatedAt, row.requestId;
      transferId, finalizedAt := row.transferId, row.finalizedAt;
      errorCode, totalLockedAmount := row.errorCode, row.totalLockedAmount;
    }

    function Row(): TransferRow
      reads this
    {
      TransferRow(data, initiatedAt, requestId, transferId, finalizedAt, errorCode, totalLockedAmount)
    }

    predicate IsSettled()
      reads this
    {
      transferId.Some?
    }

    predicate IsFinalized()
      reads this
    {
      finalizedAt.Some?
    }

    /** `_finalize_running_transfer`. */
    method Finalize(error: Option<string>, locked: Option<nat>, now: Timestamp)
      modifies this
      ensures Row() == Finalized(old(Row()), error, locked, now)
    {
      if !IsFinalized() {
        finalizedAt := Some(now);
        errorCode := error;
        totalLockedAmount := locked;
      }
    }
  }
}
