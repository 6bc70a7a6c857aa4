/** Running the procedures is taking the steps of a history. */
module Execution {
  import opened Basics
  import opened Model
  import opened Histories
  import opened Procedures
  import opened Scanner

  method ExecuteRequest(db: Session, e: Event)
    requires db.Valid() && IsFresh(db.View(), e)
    requires e.Reserve? || e.Activate? || e.Deactivate? || e.Restrict? || e.UpdateConfig? || e.SaveDocument?
    modifies db
    ensures db.Valid()
    ensures db.View() == Step(db.parseIri, old(db.View()), e)
  {
    match e
    case Reserve(d, id, now) =>
      var _ := db.ReserveDebtor(d, id, now);
    case Activate(d, r, signalNow) =>
      var _ := db.ActivateDebtor(d, r, signalNow);
    case Deactivate(d, now, signalNow) =>
      var _ := db.DeactivateDebtor(d, now, signalNow);
    case Restrict(d, m, signalNow) =>
      var _ := db.RestrictDebtor(d, m, signalNow);
    case UpdateConfig(d, data, id, max, now, signalNow) =>
      var _ := db.UpdateDebtorConfig(d, data, id, max, now, signalNow);
    case SaveDocument(d, document, id, max, now) =>
      var _ := db.SaveDocument(d, document.contentType, document.content, id, max, now, document.insertedAt);
  }

  method ExecuteTransfer(db: Session, e: Event)
    requires db.Valid() && IsFresh(db.View(), e)
    requires e.Initiate? || e.Cancel? || e.Delete?
    modifies db
    ensures db.Valid()
    ensures db.View() == Step(db.parseIri, old(db.View()), e)
  {
    match e
    case Initiate(k, data, max, id, now, at) =>
      var _ := db.InitiateRunningTransfer(k, data, max, id, now, at);
    case Cancel(k, now) =>
      var _ := db.CancelRunningTransfer(k, now);
    case Delete(k) =>
      var _ := db.DeleteRunningTransfer(k);
  }

  method ExecuteMessage(db: Session, e: Event)
    requires db.Valid() && IsMessage(e)
    modifies db
    ensures db.Valid()
    ensures db.View() == Step(db.parseIri, old(db.View()), e)
  {
    match e
    case OnRejectedConfig(m) => db.ProcessRejectedConfig(m);
    case OnAccountPurge(m) => db.ProcessAccountPurge(m);
    case OnAccountUpdate(m, now, discardNow) => db.ProcessAccountUpdate(m, now, discardNow);
    case OnPreparedTransfer(m) => db.ProcessPreparedTransfer(m);
    case OnRejectedTransfer(m, now) => db.ProcessRejectedTransfer(m, now);
    case OnFinalizedTransfer(m, now) => db.ProcessFinalizedTransfer(m, now);
  }

  method ExecuteScan(scanner: DebtorScanner, e: Event)
    requires scanner.db.Valid()
    requires e.ScanInactive? || e.ScanConfigs? || e.RemoveParentShard?
    modifies scanner.db
    ensures scanner.db.Valid()
    ensures scanner.db.View() == Step(scanner.db.parseIri, old(scanner.db.View()), e)
  {
    match e
    case ScanInactive(rows, locked, cutoff) =>
      scanner.DeleteLongInactive(rows, locked, cutoff);
    case ScanConfigs(rows, locked, heartbeatCutoff, configCutoff) =>
      scanner.SetConfigErrorsBefore(rows, locked, heartbeatCutoff, configCutoff);
    case RemoveParentShard(rows, locked, shard, parentShard) =>
      scanner.DeleteParentShardDebtors(rows, locked, shard, parentShard);
  }

  method Execute(db: Session, scanner: DebtorScanner, e: Event)
    requires scanner.db == db
    requires db.Valid() && IsFresh(db.View(), e)
    modifies db
    ensures db.Valid()
    ensures db.View() == Step(db.parseIri, old(db.View()), e)
  {
    if IsMessage(e) {
      ExecuteMessage(db, e);
    } else if e.Initiate? || e.Cancel? || e.Delete? {
      ExecuteTransfer(db, e);
    } else if e.ScanInactive? || e.ScanConfigs? || e.RemoveParentShard? {
      ExecuteScan(scanner, e);
    } else {
      ExecuteRequest(db, e);
    }
  }

  /** Executing the steps of a history one after another goes through exactly its
      states, so that everything proved of histories holds of the procedures. */
  method ExecuteAll(db: Session, scanner: DebtorScanner, events: seq<Event>, ghost h: History)
    requires scanner.db == db
    requires h.IsLegal() && h.events == events && h.parse == db.parseIri
    requires db.Valid() && db.View() == EMPTY
    modifies db
    ensures db.Valid() && db.View() == Last(h.states)
  {
    for i := 0 to |events|
      invariant db.Valid() && db.View() == h.states[i]
    {
      assert h.Takes(i);
      Execute(db, scanner, events[i]);
    }
  }
}
