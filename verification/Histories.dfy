/** Whole runs of the agent: any finite sequence of atomic steps, starting from
    empty tables. Messages arrive in any order, any number of times, or never;
    clock readings are arbitrary. */
module Histories {
  import opened Basics
  import opened Model

  datatype Event =
    | Reserve(debtorId: int, reservationId: nat, now: Timestamp)
    | Activate(debtorId: int, reservation: string, signalNow: Timestamp)
    | Deactivate(debtorId: int, now: Timestamp, signalNow: Timestamp)
    | Restrict(debtorId: int, minBalance: MinBalance, signalNow: Timestamp)
    | UpdateConfig(debtorId: int, configData: string, updateId: int,
                   maxActions: int, now: Timestamp, signalNow: Timestamp)
    | SaveDocument(debtorId: int, document: Document, documentId: nat, maxSaves: int, now: Timestamp)
    | Initiate(key: TransferKey, data: TransferData, maxActions: int,
               requestId: nat, now: Timestamp, initiatedAt: Timestamp)
    | Cancel(key: TransferKey, now: Timestamp)
    | Delete(key: TransferKey)
    | OnRejectedConfig(rejectedConfig: RejectedConfig)
    | OnAccountPurge(purge: AccountPurge)
    | OnAccountUpdate(update: AccountUpdate, now: Timestamp, discardNow: Timestamp)
    | OnPreparedTransfer(prepared: PreparedTransfer)
    | OnRejectedTransfer(rejectedTransfer: RejectedTransfer, now: Timestamp)
    | OnFinalizedTransfer(finalized: FinalizedTransfer, now: Timestamp)
    | ScanInactive(rows: seq<ScannedRow>, locked: set<int>, cutoff: Timestamp)
    | ScanConfigs(rows: seq<ScannedRow>, locked: set<int>,
                  heartbeatCutoff: Timestamp, configCutoff: Timestamp)
    | RemoveParentShard(rows: seq<ScannedRow>, locked: set<int>, shard: set<int>, parentShard: set<int>)

  /** Extracts the info IRI from a configuration document; any function will do. */
  type IriParser = string -> Option<string>

  ghost function Attempt(parse: IriParser, s: State, e: Event): Result<State> {
    match e
    case Reserve(d, id, now) => ReserveDebtor(s, d, id, now)
    case Activate(d, r, signalNow) => ActivateDebtor(s, d, r, signalNow)
    case Deactivate(d, now, signalNow) => DeactivateDebtor(s, d, now, signalNow)
    case Restrict(d, m, signalNow) => RestrictDebtor(s, d, m, signalNow)
    case UpdateConfig(d, data, id, max, now, signalNow) => UpdateDebtorConfig(s, d, data, id, max, now, signalNow)
    case SaveDocument(d, document, id, max, now) => Model.SaveDocument(s, d, document, id, max, now)
    case Initiate(k, data, max, id, now, at) => InitiateRunningTransfer(s, k, data, max, id, now, at)
    case Cancel(k, now) => CancelRunningTransfer(s, k, now)
    case Delete(k) => DeleteRunningTransfer(s, k)
    case OnRejectedConfig(m) => ProcessRejectedConfig(s, m)
    case OnAccountPurge(m) => ProcessAccountPurge(s, m)
    case OnAccountUpdate(m, now, discardNow) => ProcessAccountUpdate(s, m, parse(m.configData), now, discardNow)
    case OnPreparedTransfer(m) => ProcessPreparedTransfer(s, m)
    case OnRejectedTransfer(m, now) => ProcessRejectedTransfer(s, m, now)
    case OnFinalizedTransfer(m, now) => ProcessFinalizedTransfer(s, m, now)
    case ScanInactive(rows, locked, cutoff) => Success(RemoveDebtors(s, LongInactive(s, rows, locked, cutoff)))
    case ScanConfigs(rows, locked, hb, conf) =>
      Success(SetConfigErrors(s, UnreportedProblems(s, rows, locked, hb, conf)))
    case RemoveParentShard(rows, locked, shard, parentShard) =>
      Success(RemoveDebtors(s, ParentShardDebtors(s, rows, locked, shard, parentShard)))
  }

  /** One transaction; rolled back when the procedure raises. */
  ghost function Step(parse: IriParser, s: State, e: Event): State {
    match Attempt(parse, s, e)
    case Success(s') => s'
    case Failure(_) => s
  }

  /** Step `e` processes a message from the accounting authority. */
  predicate IsMessage(e: Event) {
    e.OnRejectedConfig? || e.OnAccountPurge? || e.OnAccountUpdate? || IsTransferMessage(e)
  }

  /** Step `e` serves a request about a transfer. */
  predicate IsTransferRequest(e: Event) {
    e.Initiate? || e.Cancel? || e.Delete?
  }

  /** Step `e` processes a message about a transfer. */
  predicate IsTransferMessage(e: Event) {
    e.OnPreparedTransfer? || e.OnRejectedTransfer? || e.OnFinalizedTransfer?
  }

  /** Step `e` belongs to the life of debtors: it makes, retires, restricts or scans them. */
  predicate IsLifecycle(e: Event) {
    || e.Reserve? || e.Activate? || e.Deactivate? || e.Restrict?
    || e.ScanInactive? || e.ScanConfigs? || e.RemoveParentShard?
  }

  /** Step `e` removes debtors of the parent shard, `d` among them if it is there. */
  predicate RemovesShardOf(e: Event, d: int) {
    && e.RemoveParentShard? && d !in e.locked
    && BelongsToParentShard(d, e.shard, e.parentShard) && IsScanned(e.rows, d)
  }

  /** Step `e` may read or write the record of debtor `d`. */
  predicate Touches(e: Event, d: int) {
    match e
    case Reserve(x, _, _) => x == d
    case Activate(x, _, _) => x == d
    case Deactivate(x, _, _) => x == d
    case Restrict(x, _, _) => x == d
    case UpdateConfig(x, _, _, _, _, _) => x == d
    case SaveDocument(x, _, _, _, _) => x == d
    case Initiate(k, _, _, _, _, _) => k.debtorId == d
    case Cancel(_, _) => false
    case Delete(k) => k.debtorId == d
    case OnRejectedConfig(m) => m.debtorId == d
    case OnAccountPurge(m) => m.debtorId == d
    case OnAccountUpdate(m, _, _) => m.debtorId == d
    case OnPreparedTransfer(_) => false
    case OnRejectedTransfer(_, _) => false
    case OnFinalizedTransfer(_, _) => false
    case ScanInactive(_, _, _) => true
    case ScanConfigs(_, _, _, _) => true
    case RemoveParentShard(_, _, _, _) => RemovesShardOf(e, d)
  }

  /** The record of a debtor is the same in both states, or absent from both. */
  predicate SameRecord(s: State, s': State, d: int) {
    && (d in s.debtors <==> d in s'.debtors)
    && (d in s.debtors ==> s'.debtors[d] == s.debtors[d])
  }

  lemma MessagesChangeTheirRecord(parse: IriParser, s: State, e: Event, d: int)
    requires IsMessage(e) && !Touches(e, d)
    ensures SameRecord(s, Step(parse, s, e), d)
  {
  }

  lemma LifecycleChangesItsRecord(parse: IriParser, s: State, e: Event, d: int)
    requires IsLifecycle(e) && !Touches(e, d)
    ensures SameRecord(s, Step(parse, s, e), d)
  {
  }

  lemma OnlyTouchedRecordsChange(parse: IriParser, s: State, e: Event, d: int)
    requires !Touches(e, d)
    ensures SameRecord(s, Step(parse, s, e), d)
  {
    if IsMessage(e) {
      MessagesChangeTheirRecord(parse, s, e, d);
    } else if IsLifecycle(e) {
      LifecycleChangesItsRecord(parse, s, e, d);
    }
  }

  /** Sequences never hand out the same number twice. For documents it is enough
      that the number is not in use. */
  predicate IsFresh(s: State, e: Event) {
    match e
    case Reserve(_, id, _) => id !in s.usedReservationIds
    case Initiate(_, _, _, id, _, _) => id !in s.usedRequestIds
    case SaveDocument(d, _, id, _, _) => DocumentKey(d, id) !in s.documents
    case _ => true
  }

  /** The steps of a run, and the states between them. */
  datatype History = History(parse: IriParser, events: seq<Event>, states: seq<State>) {

    ghost predicate Takes(i: nat)
      requires i < |events| && |states| == |events| + 1
    {
      IsFresh(states[i], events[i]) && states[i + 1] == Step(parse, states[i], events[i])
    }

    ghost predicate IsLegal() {
      && |states| == |events| + 1
      && states[0] == EMPTY
      && forall i | 0 <= i < |events| :: Takes(i)
    }

    /** Step `i` returns normally. */
    ghost predicate Succeeds(i: nat)
      requires i < |events| && i < |states|
    {
      Attempt(parse, states[i], events[i]).Success?
    }

    /** No step in `from..to` removes debtor `d` with its parent shard. */
    predicate KeepsShardOf(d: int, from: nat, to: nat)
      requires to <= |events|
    {
      forall i | from <= i < to :: !RemovesShardOf(events[i], d)
    }

    /** The run continued by one more step. */
    ghost function Then(e: Event): History
      requires |states| > 0
    {
      History(parse, events + [e], states + [Step(parse, Last(states), e)])
    }
  }

  /** Every fresh step can be taken, so every choice of steps has its history. */
  lemma RunsCanContinue(h: History, e: Event)
    requires h.IsLegal() && IsFresh(Last(h.states), e)
    ensures h.Then(e).IsLegal()
  {
    var next := h.Then(e);
    forall i | 0 <= i < |next.events| ensures next.Takes(i) {
      if i < |h.events| {
        assert h.Takes(i);
      }
    }
  }
}
