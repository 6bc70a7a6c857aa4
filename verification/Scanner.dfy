/** The table scanner, which collects reservations that were never activated,
    and reports configurations that do not take effect. */
module Scanner {
  import opened Basics
  import opened Model
  import opened Procedures

  lemma RemovalsCompose(s: State, a: set<int>, b: set<int>)
    ensures RemoveDebtors(RemoveDebtors(s, a), b) == RemoveDebtors(s, a + b)
  {
    assert s.debtors - a - b == s.debtors - (a + b);
    assert TransfersOfOthers(TransfersOfOthers(s.transfers, a), b) == TransfersOfOthers(s.transfers, a + b);
    assert DocumentsOfOthers(DocumentsOfOthers(s.documents, a), b) == DocumentsOfOthers(s.documents, a + b);
  }

  class DebtorScanner {
    const db: Session
    const inactiveInterval: int
    const maxHeartbeatDelay: int
    const maxConfigDelay: int

    constructor (db: Session, inactiveInterval: int, maxHeartbeatDelay: int, maxConfigDelay: int)
      ensures this.db == db && this.inactiveInterval == inactiveInterval
      ensures this.maxHeartbeatDelay == maxHeartbeatDelay && this.maxConfigDelay == maxConfigDelay
    {
      this.db, this.inactiveInterval := db, inactiveInterval;
      this.maxHeartbeatDelay, this.maxConfigDelay := maxHeartbeatDelay, maxConfigDelay;
    }

    method DeleteDebtorsNotActivatedForLongTime(rows: seq<ScannedRow>, locked: set<int>, now: Timestamp)
      requires db.Valid()
      modifies db
      ensures db.Valid()
      ensures db.View() == RemoveDebtors(old(db.View()),
                                         LongInactive(old(db.View()), rows, locked, now - inactiveInterval))
    {
      DeleteLongInactive(rows, locked, now - inactiveInterval);
    }

    method DeleteLongInactive(rows: seq<ScannedRow>, locked: set<int>, cutoff: Timestamp)
      requires db.Valid()
      modifies db
      ensures db.Valid()
      ensures db.View() == RemoveDebtors(old(db.View()), LongInactive(old(db.View()), rows, locked, cutoff))
    {
      var pksToDelete := set x | x in rows && IsLongInactive(x.row, cutoff) :: x.debtorId;
      var toDelete := set d | d in pksToDelete && d in db.debtors && d !in locked
                              && IsLongInactive(db.debtors[d], cutoff);
      assert toDelete == LongInactive(db.View(), rows, locked, cutoff);
      DeleteAll(toDelete);
    }

    method DeleteParentShardDebtors(rows: seq<ScannedRow>, locked: set<int>, shard: set<int>, parentShard: set<int>)
      requires db.Valid()
      modifies db
      ensures db.Valid()
      ensures db.View() == RemoveDebtors(old(db.View()),
                                         ParentShardDebtors(old(db.View()), rows, locked, shard, parentShard))
    {
      var pksToDelete := set x | x in rows && x.debtorId !in shard && x.debtorId in parentShard :: x.debtorId;
      var toDelete := set d | d in pksToDelete && d in db.debtors && d !in locked;
      assert toDelete == ParentShardDebtors(db.View(), rows, locked, shard, parentShard);
      DeleteAll(toDelete);
    }

    /** Deletes a row; the database deletes what the debtor owns with it. */
    method DeleteDebtor(d: int)
      requires db.Valid()
      modifies db`debtors, db`transfers, db`documents
      ensures db.Valid()
      ensures db.View() == RemoveDebtors(old(db.View()), {d})
    {
      db.debtors := db.debtors - {d};
      db.transfers := TransfersOfOthers(db.transfers, {d});
      db.documents := DocumentsOfOthers(db.documents, {d});
    }

    /** Deletes debtors one by one. */
    method DeleteAll(ids: set<int>)
      requires db.Valid()
      modifies db
      ensures db.Valid()
      ensures db.View() == RemoveDebtors(old(db.View()), ids)
    {
      var remaining := ids;
      ghost var before := db.View();
      while remaining != {}
        invariant remaining <= ids
        invariant db.View() == RemoveDebtors(before, ids - remaining)
        invariant db.Valid()
        decreases remaining
      {
        assert (forall d :: d !in remaining) ==> remaining == {};
        var d :| d in remaining;
        RemovalsCompose(before, ids - remaining, {d});
        assert ids - (remaining - {d}) == ids - remaining + {d};
        DeleteDebtor(d);
        remaining := remaining - {d};
      }
      assert ids - {} == ids;
    }

    method SetConfigErrorsIfNecessary(rows: seq<ScannedRow>, locked: set<int>, now: Timestamp)
      requires db.Valid()
      modifies db
      ensures db.Valid()
      ensures db.View() == SetConfigErrors(old(db.View()),
                UnreportedProblems(old(db.View()), rows, locked, now - maxHeartbeatDelay, now - maxConfigDelay))
    {
      SetConfigErrorsBefore(rows, locked, now - maxHeartbeatDelay, now - maxConfigDelay);
    }

    method SetConfigErrorsBefore(rows: seq<ScannedRow>, locked: set<int>,
                                 heartbeatCutoff: Timestamp, configCutoff: Timestamp)
      requires db.Valid()
      modifies db
      ensures db.Valid()
      ensures db.View() == SetConfigErrors(old(db.View()),
                UnreportedProblems(old(db.View()), rows, locked, heartbeatCutoff, configCutoff))
    {
      var pksToLock := set x | x in rows && HasUnreportedConfigProblem(x.row, heartbeatCutoff, configCutoff)
                             :: x.debtorId;
      var pksToUpdate := set d | d in pksToLock && d in db.debtors && d !in locked
                                 && HasUnreportedConfigProblem(db.debtors[d], heartbeatCutoff, configCutoff);
      assert pksToUpdate == UnreportedProblems(db.View(), rows, locked, heartbeatCutoff, configCutoff);
      db.debtors := map d | d in db.debtors ::
        if d in pksToUpdate then db.debtors[d].(configError := Some(CONFIGURATION_IS_NOT_EFFECTUAL)) else db.debtors[d];
    }
  }
}
