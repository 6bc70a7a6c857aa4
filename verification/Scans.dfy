/** What the passes of the table scanner do, for any snapshot and any locked rows. */
module Scans {
  import opened Basics
  import opened Model
  import opened Histories
  import Counting
  import Documents

  /** `rows` is an up-to-date scan of the whole table. */
  predicate IsFreshScan(s: State, rows: seq<ScannedRow>) {
    && (forall x | x in rows :: x.debtorId in s.debtors && x.row == s.debtors[x.debtorId])
    && (forall d | d in s.debtors :: ScannedRow(d, s.debtors[d]) in rows)
  }

  /** The row has not been activated, and was made before the cutoff. */
  predicate IsAbandoned(r: DebtorRow, cutoff: Timestamp) {
    !r.isActivated && r.createdAt < cutoff
  }

  /** The debtor is active and no error is known; but its configuration, which is older
      than its cutoff, is not effectual, or the server has been silent about the
      account since its cutoff. */
  predicate IsInTrouble(r: DebtorRow, heartbeatCutoff: Timestamp, configCutoff: Timestamp) {
    && r.isActivated && !r.isDeactivated && r.configError == None && r.lastConfigTs < configCutoff
    && (r.isConfigEffectual ==> r.hasServerAccount && r.accountLastHeartbeatTs < heartbeatCutoff)
  }

  /** For any snapshot and any locked rows, the inactivity pass deletes exactly the
      unlocked debtors that were abandoned when they were scanned, and still are. They
      own no transfers and no documents; nothing else changes. */
  lemma InactivityPass(h: History, i: nat)
    requires h.IsLegal() && i < |h.events| && h.events[i].ScanInactive?
    ensures var (s, s', e) := (h.states[i], h.states[i + 1], h.events[i]);
            && s' == s.(debtors := s'.debtors)
            && (forall d | d in s'.debtors :: d in s.debtors && s'.debtors[d] == s.debtors[d])
            && (forall d | d in s.debtors ::
                  d !in s'.debtors <==>
                    && IsAbandoned(s.debtors[d], e.cutoff) && d !in e.locked
                    && exists x :: x in e.rows && x.debtorId == d && IsAbandoned(x.row, e.cutoff))
  {
    var (s, e) := (h.states[i], h.events[i]);
    var gone := LongInactive(s, e.rows, e.locked, e.cutoff);
    assert h.Takes(i);
    Counting.InvHolds(h, i);
    Documents.OwnersStayActivated(h, i);
    forall k | k in s.transfers ensures k.debtorId !in gone {
      assert IsActive(s, k.debtorId);
    }
    assert TransfersOfOthers(s.transfers, gone) == s.transfers;
    assert DocumentsOfOthers(s.documents, gone) == s.documents;
  }

  /** With a fresh scan and no locks, exactly the debtors that are not abandoned are left. */
  lemma FreshInactivityPass(h: History, i: nat)
    requires h.IsLegal() && i < |h.events| && h.events[i].ScanInactive?
    requires IsFreshScan(h.states[i], h.events[i].rows) && h.events[i].locked == {}
    ensures var (s, s', e) := (h.states[i], h.states[i + 1], h.events[i]);
            forall d | d in s.debtors :: d in s'.debtors <==> !IsAbandoned(s.debtors[d], e.cutoff)
  {
    var (s, s', e) := (h.states[i], h.states[i + 1], h.events[i]);
    InactivityPass(h, i);
    forall d | d in s.debtors && IsAbandoned(s.debtors[d], e.cutoff) ensures d !in s'.debtors {
      assert ScannedRow(d, s.debtors[d]) in e.rows;
    }
  }

  /** For any snapshot and any locked rows, the configuration pass sets the error
      exactly on the unlocked rows that were in trouble when they were scanned, and
      still are; it changes nothing else. */
  lemma ConfigurationPass(h: History, i: nat)
    requires h.IsLegal() && i < |h.events| && h.events[i].ScanConfigs?
    ensures var (s, s', e) := (h.states[i], h.states[i + 1], h.events[i]);
            && s' == s.(debtors := s'.debtors) && s'.debtors.Keys == s.debtors.Keys
            && (forall d | d in s.debtors ::
                  s'.debtors[d]
                  == if && IsInTrouble(s.debtors[d], e.heartbeatCutoff, e.configCutoff) && d !in e.locked
                        && exists x :: x in e.rows && x.debtorId == d
                                       && IsInTrouble(x.row, e.heartbeatCutoff, e.configCutoff)
                     then s.debtors[d].(configError := Some("CONFIGURATION_IS_NOT_EFFECTUAL"))
                     else s.debtors[d])
  {
    assert h.Takes(i);
  }

  /** With a fresh scan and no locks, no debtor is left in trouble without an error. */
  lemma FreshConfigurationPass(h: History, i: nat)
    requires h.IsLegal() && i < |h.events| && h.events[i].ScanConfigs?
    requires IsFreshScan(h.states[i], h.events[i].rows) && h.events[i].locked == {}
    ensures var (s', e) := (h.states[i + 1], h.events[i]);
            forall d | d in s'.debtors :: !IsInTrouble(s'.debtors[d], e.heartbeatCutoff, e.configCutoff)
  {
    var (s, s', e) := (h.states[i], h.states[i + 1], h.events[i]);
    ConfigurationPass(h, i);
    forall d | d in s'.debtors ensures !IsInTrouble(s'.debtors[d], e.heartbeatCutoff, e.configCutoff) {
      assert ScannedRow(d, s.debtors[d]) in e.rows;
    }
  }

  /** For any snapshot and any locked rows, the removal of the parent shard deletes
      exactly the scanned and unlocked debtors that are valid for the parent only, with
      their transfers and documents; it changes nothing else. */
  lemma ParentShardPass(h: History, i: nat)
    requires h.IsLegal() && i < |h.events| && h.events[i].RemoveParentShard?
    ensures var (s, s', e) := (h.states[i], h.states[i + 1], h.events[i]);
            && s' == s.(debtors := s'.debtors, transfers := s'.transfers, documents := s'.documents)
            && (forall d :: d in s'.debtors <==>
                  d in s.debtors && !(d !in e.locked && d !in e.shard && d in e.parentShard
                                      && exists x :: x in e.rows && x.debtorId == d))
            && (forall d | d in s'.debtors :: s'.debtors[d] == s.debtors[d])
            && (forall k :: k in s'.transfers <==> k in s.transfers && k.debtorId in s'.debtors)
            && (forall k | k in s'.transfers :: s'.transfers[k] == s.transfers[k])
            && (forall k :: k in s'.documents <==> k in s.documents && k.debtorId in s'.debtors)
            && (forall k | k in s'.documents :: s'.documents[k] == s.documents[k])
  {
    var (s, e) := (h.states[i], h.events[i]);
    assert h.Takes(i);
    Counting.InvHolds(h, i);
    Documents.OwnersStayActivated(h, i);
    forall k | k in s.transfers ensures k.debtorId in s.debtors {
      assert IsActive(s, k.debtorId);
    }
  }
}
