/** The debtors agent as a transactional state machine: the tables, the three
    outboxes, and what each atomic procedure does to them. A procedure either
    commits a new state or raises; a procedure that raises changes nothing.

    Timestamps are microseconds and dates are days, both since 1970-01-01 UTC.
    A number that a database sequence hands out is a parameter of the step that
    draws it; the sets of used numbers say which values are no longer fresh. */
module Model {
  import opened Basics
  import opened Seqnums
  import opened Rounding

  type Timestamp = int
  type Date = int

  const MICROSECONDS_PER_DAY: int := 86_400_000_000
  const MIN_INT64: int := -0x8000_0000_0000_0000
  const MAX_INT64: int := 0x7fff_ffff_ffff_ffff
  const ROOT_CREDITOR_ID: int := 0
  const DEFAULT_CONFIG_FLAGS: int := 0
  const SCHEDULED_FOR_DELETION: int := 1
  const SC_OK: string := "OK"
  const SC_UNEXPECTED_ERROR: string := "UNEXPECTED_ERROR"
  const SC_CANCELED_BY_THE_SENDER: string := "CANCELED_BY_THE_SENDER"
  const CONFIGURATION_IS_NOT_EFFECTUAL: string := "CONFIGURATION_IS_NOT_EFFECTUAL"

  /** The values that the `min_balance <= 0` constraint and its column admit. */
  type MinBalance = n: int | MIN_INT64 <= n <= 0

  function DateOf(t: Timestamp): Date {
    t / MICROSECONDS_PER_DAY
  }

  // ---------- Tables ----------

  /** A row of the `debtor` table. The two booleans are bits 0 and 1 of
      `status_flags`. */
  datatype DebtorRow = DebtorRow(
    isActivated: bool,
    isDeactivated: bool,
    deactivationDate: Option<Date>,
    reservationId: nat,
    createdAt: Timestamp,
    balance: int,
    minBalance: MinBalance,
    transferNoteMaxBytes: int,
    runningTransfersCount: int,
    actionsCount: nat,
    actionsCountResetDate: Date,
    documentsCount: nat,
    documentsCountResetDate: Date,
    hasServerAccount: bool,
    accountCreationDate: Date,
    accountLastChangeTs: Timestamp,
    accountLastChangeSeqnum: Seqnum,
    accountLastHeartbeatTs: Timestamp,
    accountId: string,
    lastConfigTs: Timestamp,
    lastConfigSeqnum: Seqnum,
    isConfigEffectual: bool,
    configFlags: int,
    configData: string,
    configError: Option<string>,
    configLatestUpdateId: int,
    debtorInfoIri: Option<string>)
  {
    predicate IsActive() {
      isActivated && !isDeactivated
    }
  }

  datatype TransferKey = TransferKey(debtorId: int, transferUuid: nat)

  /** The attributes by which a repeated request is compared with the transfer
      that already bears its UUID. */
  datatype TransferData = TransferData(
    recipientUri: string,
    recipient: string,
    amount: nat,
    transferNoteFormat: string,
    transferNote: string)

  /** A row of the `running_transfer` table. */
  datatype TransferRow = TransferRow(
    data: TransferData,
    initiatedAt: Timestamp,
    requestId: nat,
    transferId: Option<int>,
    finalizedAt: Option<Timestamp>,
    errorCode: Option<string>,
    totalLockedAmount: Option<nat>)

  datatype DocumentKey = DocumentKey(debtorId: int, documentId: nat)

  type Byte = n: int | 0 <= n < 256

  /** A row of the `document` table. */
  datatype Document = Document(contentType: string, content: seq<Byte>, insertedAt: Timestamp)

  // ---------- Outgoing signals ----------

  datatype ConfigureAccount = ConfigureAccount(
    debtorId: int,
    ts: Timestamp,
    seqnum: Seqnum,
    configData: string,
    configFlags: int,
    negligibleAmount: nat)

  datatype PrepareTransfer = PrepareTransfer(
    debtorId: int,
    requestId: nat,
    amount: nat,
    recipient: string)

  datatype FinalizeTransfer = FinalizeTransfer(
    debtorId: int,
    creditorId: int,
    transferId: int,
    coordinatorId: int,
    requestId: int,
    committedAmount: nat,
    transferNoteFormat: string,
    transferNote: string)

  // ---------- Incoming messages ----------

  datatype RejectedConfig = RejectedConfig(
    debtorId: int,
    creditorId: int,
    configTs: Timestamp,
    configSeqnum: Seqnum,
    negligibleAmount: real,
    configData: string,
    configFlags: int,
    rejectionCode: string)

  datatype AccountPurge = AccountPurge(debtorId: int, creditorId: int, creationDate: Date)

  datatype PreparedTransfer = PreparedTransfer(
    debtorId: int,
    creditorId: int,
    transferId: int,
    coordinatorId: int,
    requestId: int,
    lockedAmount: int,
    recipient: string)

  datatype RejectedTransfer = RejectedTransfer(
    coordinatorId: int,
    requestId: int,
    statusCode: string,
    totalLockedAmount: nat,
    debtorId: int,
    creditorId: int)

  datatype FinalizedTransfer = FinalizedTransfer(
    debtorId: int,
    creditorId: int,
    transferId: int,
    coordinatorId: int,
    requestId: int,
    committedAmount: int,
    statusCode: string,
    totalLockedAmount: nat)

  datatype AccountUpdate = AccountUpdate(
    debtorId: int,
    creditorId: int,
    creationDate: Date,
    lastChangeTs: Timestamp,
    lastChangeSeqnum: Seqnum,
    principal: int,
    lastConfigTs: Timestamp,
    lastConfigSeqnum: Seqnum,
    negligibleAmount: real,
    configData: string,
    configFlags: int,
    accountId: string,
    transferNoteMaxBytes: int,
    ts: Timestamp,
    ttl: int)

  // ---------- The state ----------

  datatype State = State(
    debtors: map<int, DebtorRow>,
    transfers: map<TransferKey, TransferRow>,
    documents: map<DocumentKey, Document>,
    usedReservationIds: set<nat>,
    usedRequestIds: set<nat>,
    configureOutbox: seq<ConfigureAccount>,
    prepareOutbox: seq<PrepareTransfer>,
    finalizeOutbox: seq<FinalizeTransfer>)

  const EMPTY: State := State(map[], map[], map[], {}, {}, [], [], [])

  /** The `active=True` filter of the debtor queries. */
  predicate IsActive(s: State, debtorId: int) {
    debtorId in s.debtors && s.debtors[debtorId].IsActive()
  }

  function WithDebtor(s: State, debtorId: int, row: DebtorRow): State {
    s.(debtors := s.debtors[debtorId := row])
  }

  function WithTransfer(s: State, key: TransferKey, row: TransferRow): State {
    s.(transfers := s.transfers[key := row])
  }

  function WithFinalize(s: State, signal: FinalizeTransfer): State {
    s.(finalizeOutbox := s.finalizeOutbox + [signal])
  }

  function TransfersOfOthers(transfers: map<TransferKey, TransferRow>, ids: set<int>)
    : map<TransferKey, TransferRow>
  {
    map k | k in transfers && k.debtorId !in ids :: transfers[k]
  }

  function DocumentsOfOthers(documents: map<DocumentKey, Document>, ids: set<int>): map<DocumentKey, Document> {
    map k | k in documents && k.debtorId !in ids :: documents[k]
  }

  /** Deletes debtors; the foreign keys cascade to their transfers and documents. */
  function RemoveDebtors(s: State, ids: set<int>): State {
    s.(debtors := s.debtors - ids,
       transfers := TransfersOfOthers(s.transfers, ids),
       documents := DocumentsOfOthers(s.documents, ids))
  }

  // ---------- Lifecycle ----------

  /** The column defaults of a newly reserved debtor. */
  function NewDebtor(reservationId: nat, now: Timestamp): DebtorRow {
    DebtorRow(
      isActivated := false,
      isDeactivated := false,
      deactivationDate := None,
      reservationId := reservationId,
      createdAt := now,
      balance := 0,
      minBalance := MIN_INT64,
      transferNoteMaxBytes := 0,
      runningTransfersCount := 0,
      actionsCount := 0,
      actionsCountResetDate := DateOf(now),
      documentsCount := 0,
      documentsCountResetDate := DateOf(now),
      hasServerAccount := false,
      accountCreationDate := 0,
      accountLastChangeTs := 0,
      accountLastChangeSeqnum := 0,
      accountLastHeartbeatTs := now,
      accountId := "",
      lastConfigTs := 0,
      lastConfigSeqnum := 0,
      isConfigEffectual := false,
      configFlags := DEFAULT_CONFIG_FLAGS,
      configData := "",
      configError := None,
      configLatestUpdateId := 1,
      debtorInfoIri := None)
  }

  function ReserveDebtor(s: State, debtorId: int, reservationId: nat, now: Timestamp): Result<State> {
    if debtorId in s.debtors then Failure(DebtorExists)
    else Success(WithDebtor(s, debtorId, NewDebtor(reservationId, now))
                 .(usedReservationIds := s.usedReservationIds + {reservationId}))
  }

  function ActivateDebtor(s: State, debtorId: int, reservationId: string, signalNow: Timestamp): Result<State> {
    if debtorId !in s.debtors then Failure(InvalidReservationId)
    else
      var row := s.debtors[debtorId];
      if reservationId == Decimal(row.reservationId) then
        if row.isActivated then Success(s)
        else Success(Configure(s, debtorId, row.(isActivated := true), signalNow))
      else if row.isActivated then Failure(DebtorExists)
      else Failure(InvalidReservationId)
  }

  /** `Debtor.deactivate`. */
  function Deactivated(row: DebtorRow, now: Timestamp): DebtorRow {
    row.(isDeactivated := true,
         deactivationDate := Some(DateOf(now)),
         isConfigEffectual := true,
         configFlags := SCHEDULED_FOR_DELETION,
         configData := "",
         configError := None,
         debtorInfoIri := None)
  }

  function DeactivateDebtor(s: State, debtorId: int, now: Timestamp, signalNow: Timestamp): Result<State> {
    if !IsActive(s, debtorId) then Success(s)
    else
      var row := Deactivated(s.debtors[debtorId], now).(runningTransfersCount := 0);
      Success(Configure(s, debtorId, row, signalNow)
              .(transfers := TransfersOfOthers(s.transfers, {debtorId})))
  }

  function RestrictDebtor(s: State, debtorId: int, minBalance: MinBalance, signalNow: Timestamp): Result<State> {
    if !IsActive(s, debtorId) then Failure(DebtorDoesNotExist)
    else Success(Configure(s, debtorId, s.debtors[debtorId].(minBalance := minBalance), signalNow))
  }

  // ---------- Configuration dialogue ----------

  /** A new version of the configuration: a stamp that never moves back in time,
      with the next sequence number. */
  function Stamped(row: DebtorRow, signalNow: Timestamp): DebtorRow {
    row.(lastConfigTs := Max(signalNow, row.lastConfigTs),
         lastConfigSeqnum := Increment(row.lastConfigSeqnum))
  }

  /** `-float(min_balance)`, as the signal carries it. */
  function SentAmount(minBalance: int): nat
    requires minBalance <= 0
  {
    SinglePrecision(-minBalance)
  }

  function ConfigSignal(debtorId: int, row: DebtorRow): ConfigureAccount {
    ConfigureAccount(debtorId, row.lastConfigTs, row.lastConfigSeqnum,
                     row.configData, row.configFlags, SentAmount(row.minBalance))
  }

  /** Saves `row` with a new stamp, and announces it. */
  function Configure(s: State, debtorId: int, row: DebtorRow, signalNow: Timestamp): State {
    var stamped := Stamped(row, signalNow);
    WithDebtor(s, debtorId, stamped)
    .(configureOutbox := s.configureOutbox + [ConfigSignal(debtorId, stamped)])
  }

  function ThrottledActions(row: DebtorRow, maxActions: int, today: Date): Result<DebtorRow> {
    var r := if today - row.actionsCountResetDate > 30
             then row.(actionsCount := 0, actionsCountResetDate := today) else row;
    if r.actionsCount >= maxActions then Failure(TooManyManagementActions)
    else Success(r.(actionsCount := r.actionsCount + 1))
  }

  function ThrottledSaves(row: DebtorRow, maxSaves: int, today: Date): Result<DebtorRow> {
    var r := if today - row.documentsCountResetDate > 365
             then row.(documentsCount := 0, documentsCountResetDate := today) else row;
    if r.documentsCount >= maxSaves then Failure(TooManySavedDocuments)
    else Success(r.(documentsCount := r.documentsCount + 1))
  }

  function ThrottleDebtorActions(s: State, debtorId: int, maxActions: int, now: Timestamp): Result<DebtorRow> {
    if !IsActive(s, debtorId) then Failure(DebtorDoesNotExist)
    else ThrottledActions(s.debtors[debtorId], maxActions, DateOf(now))
  }

  /** The update is already applied. */
  predicate IsUpToDate(row: DebtorRow, configData: string, updateId: int) {
    updateId == row.configLatestUpdateId && configData == row.configData
  }

  function UpdateDebtorConfig(s: State, debtorId: int, configData: string, updateId: int,
                              maxActions: int, now: Timestamp, signalNow: Timestamp): Result<State>
  {
    var row :- ThrottleDebtorActions(s, debtorId, maxActions, now);
    if IsUpToDate(row, configData, updateId) then Success(WithDebtor(s, debtorId, row))
    else if updateId != row.configLatestUpdateId + 1 then Failure(UpdateConflict)
    else Success(Configure(s, debtorId,
                           row.(configLatestUpdateId := updateId, configData := configData), signalNow))
  }

  function ProcessRejectedConfig(s: State, m: RejectedConfig): Result<State> {
    if m.creditorId != ROOT_CREDITOR_ID || m.debtorId !in s.debtors then Success(s)
    else
      var row := s.debtors[m.debtorId];
      if row.lastConfigTs == m.configTs
         && row.lastConfigSeqnum == m.configSeqnum
         && row.configFlags == m.configFlags
         && row.configData == m.configData
         && row.configError == None
         && IsCloseTo(row.minBalance, m.negligibleAmount)
      then Success(WithDebtor(s, m.debtorId, row.(configError := Some(m.rejectionCode))))
      else Success(s)
  }

  function DiscardSignal(debtorId: int, discardNow: Timestamp): ConfigureAccount {
    ConfigureAccount(debtorId, discardNow, 0, "", SCHEDULED_FOR_DELETION,
                     SinglePrecision(HUGE_NEGLIGIBLE_AMOUNT))
  }

  function DiscardOrphanedAccount(s: State, m: AccountUpdate, discardNow: Timestamp): State {
    if IsAlreadyDiscarded(m.configFlags, m.negligibleAmount) then s
    else s.(configureOutbox := s.configureOutbox + [DiscardSignal(m.debtorId, discardNow)])
  }

  // ---------- Account mirror ----------

  function ProcessAccountPurge(s: State, m: AccountPurge): Result<State> {
    if m.creditorId == ROOT_CREDITOR_ID && m.debtorId in s.debtors
       && s.debtors[m.debtorId].hasServerAccount
       && s.debtors[m.debtorId].accountCreationDate <= m.creationDate
    then Success(WithDebtor(s, m.debtorId, s.debtors[m.debtorId].(
      hasServerAccount := false, balance := 0, transferNoteMaxBytes := 0,
      accountId := "", isConfigEffectual := false)))
    else Success(s)
  }

  predicate IsExpired(m: AccountUpdate, now: Timestamp) {
    now - m.ts > m.ttl * 1_000_000
  }

  /** `this_event <= prev_event`, the first difference deciding. */
  predicate IsNotNewer(m: AccountUpdate, row: DebtorRow) {
    if m.creationDate != row.accountCreationDate then m.creationDate < row.accountCreationDate
    else if m.lastChangeTs != row.accountLastChangeTs then m.lastChangeTs < row.accountLastChangeTs
    else NotAfter(m.lastChangeSeqnum, row.accountLastChangeSeqnum)
  }

  predicate ReportsCurrentConfig(m: AccountUpdate, row: DebtorRow) {
    && m.lastConfigTs == row.lastConfigTs
    && m.lastConfigSeqnum == row.lastConfigSeqnum
    && m.configFlags == row.configFlags
    && m.configData == row.configData
    && IsCloseTo(row.minBalance, m.negligibleAmount)
  }

  function WithHeartbeat(row: DebtorRow, m: AccountUpdate, now: Timestamp): DebtorRow {
    if m.ts > row.accountLastHeartbeatTs then row.(accountLastHeartbeatTs := Min(m.ts, now)) else row
  }

  function Mirrored(row: DebtorRow, m: AccountUpdate, iri: Option<string>): DebtorRow {
    var effectual := ReportsCurrentConfig(m, row);
    row.(isConfigEffectual := effectual,
         configError := if effectual then None else row.configError,
         hasServerAccount := true,
         accountCreationDate := m.creationDate,
         accountLastChangeTs := m.lastChangeTs,
         accountLastChangeSeqnum := m.lastChangeSeqnum,
         accountId := m.accountId,
         balance := m.principal,
         transferNoteMaxBytes := m.transferNoteMaxBytes,
         debtorInfoIri := if effectual then iri else row.debtorInfoIri)
  }

  function ProcessAccountUpdate(s: State, m: AccountUpdate, iri: Option<string>,
                                now: Timestamp, discardNow: Timestamp): Result<State>
  {
    if m.creditorId != ROOT_CREDITOR_ID || IsExpired(m, now) then Success(s)
    else if !IsActive(s, m.debtorId) then Success(DiscardOrphanedAccount(s, m, discardNow))
    else
      var row := WithHeartbeat(s.debtors[m.debtorId], m, now);
      Success(WithDebtor(s, m.debtorId, if IsNotNewer(m, row) then row else Mirrored(row, m, iri)))
  }

  // ---------- Issuing transfers ----------

  ghost predicate IsRequest(transfers: map<TransferKey, TransferRow>, key: TransferKey,
                            coordinatorId: int, requestId: int)
  {
    key in transfers && key.debtorId == coordinatorId && transfers[key].requestId == requestId
  }

  /** The lookup through the unique index on (debtor ID, request ID). */
  ghost function FindRunningTransfer(s: State, coordinatorId: int, requestId: int): (found: Option<TransferKey>)
    ensures found.Some? ==> IsRequest(s.transfers, found.value, coordinatorId, requestId)
    ensures found.None? ==> forall k :: !IsRequest(s.transfers, k, coordinatorId, requestId)
  {
    if exists k :: IsRequest(s.transfers, k, coordinatorId, requestId)
    then var k :| IsRequest(s.transfers, k, coordinatorId, requestId); Some(k)
    else None
  }

  function Finalized(t: TransferRow, errorCode: Option<string>, locked: Option<nat>, now: Timestamp): TransferRow {
    if t.finalizedAt.Some? then t
    else t.(finalizedAt := Some(now), errorCode := errorCode, totalLockedAmount := locked)
  }

  function InitiateRunningTransfer(s: State, key: TransferKey, data: TransferData, maxActions: int,
                                   requestId: nat, now: Timestamp, initiatedAt: Timestamp): Result<State>
  {
    if key in s.transfers then
      Failure(if data != s.transfers[key].data then TransfersConflict else TransferExists)
    else
      var throttled :- ThrottleDebtorActions(s, key.debtorId, maxActions, now);
      var row := throttled.(runningTransfersCount := throttled.runningTransfersCount + 1);
      if row.runningTransfersCount > maxActions then Failure(TooManyRunningTransfers)
      else
        var t := TransferRow(data, initiatedAt, requestId, None, None, None, None);
        Success(WithTransfer(WithDebtor(s, key.debtorId, row), key, t).(
          usedRequestIds := s.usedRequestIds + {requestId},
          prepareOutbox := s.prepareOutbox
                           + [PrepareTransfer(key.debtorId, requestId, data.amount, data.recipient)]))
  }

  function CancelRunningTransfer(s: State, key: TransferKey, now: Timestamp): Result<State> {
    if key !in s.transfers then Failure(TransferDoesNotExist)
    else if s.transfers[key].transferId.Some? then Failure(ForbiddenTransferCancellation)
    else Success(WithTransfer(s, key, Finalized(s.transfers[key], Some(SC_CANCELED_BY_THE_SENDER), None, now)))
  }

  function DeleteRunningTransfer(s: State, key: TransferKey): Result<State> {
    if key !in s.transfers then Failure(TransferDoesNotExist)
    else
      var d := key.debtorId;
      Success(s.(
        transfers := s.transfers - {key},
        debtors := if d in s.debtors
                   then s.debtors[d := s.debtors[d].(runningTransfersCount := s.debtors[d].runningTransfersCount - 1)]
                   else s.debtors))
  }

  function Dismissal(m: PreparedTransfer): FinalizeTransfer {
    FinalizeTransfer(m.debtorId, m.creditorId, m.transferId, m.coordinatorId, m.requestId, 0, "", "")
  }

  /** The signal that commits transfer `transferId` in full. */
  function Commitment(key: TransferKey, t: TransferRow, transferId: int): FinalizeTransfer {
    FinalizeTransfer(key.debtorId, ROOT_CREDITOR_ID, transferId, key.debtorId, t.requestId,
                     t.data.amount, t.data.transferNoteFormat, t.data.transferNote)
  }

  predicate Matches(m: PreparedTransfer, key: TransferKey, t: TransferRow) {
    && key.debtorId == m.debtorId
    && m.creditorId == ROOT_CREDITOR_ID
    && t.data.recipient == m.recipient
    && t.data.amount <= m.lockedAmount
  }

  /** `rt.transfer_id` after the first statement of the matching branch. */
  function Settled(t: TransferRow, transferId: int): TransferRow {
    if t.finalizedAt.None? && t.transferId.None? then t.(transferId := Some(transferId)) else t
  }

  ghost function ProcessPreparedTransfer(s: State, m: PreparedTransfer): Result<State> {
    var found := FindRunningTransfer(s, m.coordinatorId, m.requestId);
    if found.Some? && Matches(m, found.value, s.transfers[found.value]) then
      var t := Settled(s.transfers[found.value], m.transferId);
      var s' := WithTransfer(s, found.value, t);
      Success(WithFinalize(s', if t.transferId == Some(m.transferId)
                               then Commitment(found.value, t, m.transferId) else Dismissal(m)))
    else Success(WithFinalize(s, Dismissal(m)))
  }

  ghost function ProcessRejectedTransfer(s: State, m: RejectedTransfer, now: Timestamp): Result<State> {
    var found := FindRunningTransfer(s, m.coordinatorId, m.requestId);
    if found.None? then Success(s)
    else
      var (key, t) := (found.value, s.transfers[found.value]);
      if m.statusCode != SC_OK && key.debtorId == m.debtorId && m.creditorId == ROOT_CREDITOR_ID
      then Success(WithTransfer(s, key, Finalized(t, Some(m.statusCode), Some(m.totalLockedAmount), now)))
      else Success(WithTransfer(s, key, Finalized(t, Some(SC_UNEXPECTED_ERROR), None, now)))
  }

  ghost function ProcessFinalizedTransfer(s: State, m: FinalizedTransfer, now: Timestamp): Result<State> {
    var found := FindRunningTransfer(s, m.coordinatorId, m.requestId);
    if found.None? then Success(s)
    else
      var (key, t) := (found.value, s.transfers[found.value]);
      if key.debtorId != m.debtorId || m.creditorId != ROOT_CREDITOR_ID || t.transferId != Some(m.transferId)
      then Success(s)
      else if m.statusCode == SC_OK && m.committedAmount == t.data.amount
      then Success(WithTransfer(s, key, Finalized(t, None, None, now)))
      else if m.statusCode != SC_OK && m.committedAmount == 0
      then Success(WithTransfer(s, key, Finalized(t, Some(m.statusCode), Some(m.totalLockedAmount), now)))
      else Success(WithTransfer(s, key, Finalized(t, Some(SC_UNEXPECTED_ERROR), None, now)))
  }

  // ---------- Documents ----------

  function ThrottleDocumentSaves(s: State, debtorId: int, maxSaves: int, now: Timestamp): Result<DebtorRow> {
    if !IsActive(s, debtorId) then Failure(DebtorDoesNotExist)
    else ThrottledSaves(s.debtors[debtorId], maxSaves, DateOf(now))
  }

  function SaveDocument(s: State, debtorId: int, document: Document, documentId: nat,
                        maxSaves: int, now: Timestamp): Result<State>
  {
    var row :- ThrottleDocumentSaves(s, debtorId, maxSaves, now);
    Success(WithDebtor(s, debtorId, row).(documents := s.documents[DocumentKey(debtorId, documentId) := document]))
  }

  // ---------- The table scanner ----------

  /** A row as the scanner read it, possibly long ago. */
  datatype ScannedRow = ScannedRow(debtorId: int, row: DebtorRow)

  predicate IsLongInactive(row: DebtorRow, cutoff: Timestamp) {
    !row.isActivated && row.createdAt < cutoff
  }

  predicate HasUnreportedConfigProblem(row: DebtorRow, heartbeatCutoff: Timestamp, configCutoff: Timestamp) {
    && (!row.isConfigEffectual || (row.hasServerAccount && row.accountLastHeartbeatTs < heartbeatCutoff))
    && row.configError == None
    && row.lastConfigTs < configCutoff
    && row.IsActive()
  }

  /** The debtors to delete: chosen from the scanned rows, skipping the ones that
      others have locked, and checked again on the current rows. */
  function LongInactive(s: State, rows: seq<ScannedRow>, locked: set<int>, cutoff: Timestamp): set<int> {
    set x | x in rows && IsLongInactive(x.row, cutoff)
            && x.debtorId in s.debtors && x.debtorId !in locked
            && IsLongInactive(s.debtors[x.debtorId], cutoff) :: x.debtorId
  }

  function UnreportedProblems(s: State, rows: seq<ScannedRow>, locked: set<int>,
                              heartbeatCutoff: Timestamp, configCutoff: Timestamp): set<int>
  {
    set x | x in rows && HasUnreportedConfigProblem(x.row, heartbeatCutoff, configCutoff)
            && x.debtorId in s.debtors && x.debtorId !in locked
            && HasUnreportedConfigProblem(s.debtors[x.debtorId], heartbeatCutoff, configCutoff) :: x.debtorId
  }

  /** After a shard has been split, a debtor that was copied to both halves belongs
      to one of them only. `shard` holds the debtor IDs that are valid here. */
  predicate BelongsToParentShard(debtorId: int, shard: set<int>, parentShard: set<int>) {
    debtorId !in shard && debtorId in parentShard
  }

  predicate IsScanned(rows: seq<ScannedRow>, debtorId: int) {
    exists x :: x in rows && x.debtorId == debtorId
  }

  function ParentShardDebtors(s: State, rows: seq<ScannedRow>, locked: set<int>,
                              shard: set<int>, parentShard: set<int>): set<int>
  {
    set d | d in s.debtors && d !in locked && BelongsToParentShard(d, shard, parentShard) && IsScanned(rows, d)
  }

  function SetConfigErrors(s: State, ids: set<int>): State {
    s.(debtors := map d | d in s.debtors ::
         if d in ids then s.debtors[d].(configError := Some(CONFIGURATION_IS_NOT_EFFECTUAL))
         else s.debtors[d])
  }
}
