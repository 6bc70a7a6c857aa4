/** The local mirror of the server account: it converges, whatever the order and
    the repetitions in which account updates are delivered. */
module Mirrors {
  import opened Seqnums
  import opened Model
  import opened Histories

  // ---------- The order of events ----------

  /** When an account changed: creation date, timestamp, wrapping sequence number. */
  datatype Moment = Moment(creationDate: Date, ts: Timestamp, seqnum: Seqnum)

  function MomentOf(m: AccountUpdate): Moment {
    Moment(m.creationDate, m.lastChangeTs, m.lastChangeSeqnum)
  }

  function RowMoment(r: DebtorRow): Moment {
    Moment(r.accountCreationDate, r.accountLastChangeTs, r.accountLastChangeSeqnum)
  }

  /** For every creation date and timestamp, where the window of sequence numbers
      begins that are used with them. */
  type Windows = (Date, Timestamp) -> int

  predicate IsInWindow(w: Windows, x: Moment) {
    Offset(x.seqnum, w(x.creationDate, x.ts)) < HALF_CIRCLE
  }

  /** The chronological order of moments that lie in their windows. */
  predicate NotLater(w: Windows, x: Moment, y: Moment) {
    || x.creationDate < y.creationDate
    || (x.creationDate == y.creationDate && x.ts < y.ts)
    || (x.creationDate == y.creationDate && x.ts == y.ts
        && Offset(x.seqnum, w(x.creationDate, x.ts)) <= Offset(y.seqnum, w(y.creationDate, y.ts)))
  }

  lemma ComparisonIsChronological(w: Windows, m: AccountUpdate, r: DebtorRow)
    requires IsInWindow(w, MomentOf(m)) && IsInWindow(w, RowMoment(r))
    ensures IsNotNewer(m, r) <==> NotLater(w, MomentOf(m), RowMoment(r))
    ensures NotLater(w, MomentOf(m), RowMoment(r)) && NotLater(w, RowMoment(r), MomentOf(m)) ==>
              MomentOf(m) == RowMoment(r)
  {
  }

  // ---------- What is mirrored ----------

  datatype Mirror = Mirror(
    moment: Moment,
    hasServerAccount: bool,
    balance: int,
    accountId: string,
    transferNoteMaxBytes: int,
    isConfigEffectual: bool)

  function MirrorOf(r: DebtorRow): Mirror {
    Mirror(RowMoment(r), r.hasServerAccount, r.balance, r.accountId, r.transferNoteMaxBytes, r.isConfigEffectual)
  }

  /** The fields that decide whether an update acknowledges the configuration. */
  datatype Config = Config(ts: Timestamp, seqnum: Seqnum, flags: int, data: string, minBalance: MinBalance)

  function ConfigOf(r: DebtorRow): Config {
    Config(r.lastConfigTs, r.lastConfigSeqnum, r.configFlags, r.configData, r.minBalance)
  }

  /** The mirror that update `m` asks for. */
  function Reflection(m: AccountUpdate, r: DebtorRow): Mirror {
    Mirror(MomentOf(m), true, m.principal, m.accountId, m.transferNoteMaxBytes, ReportsCurrentConfig(m, r))
  }

  // ---------- One step ----------

  /** Step `e` delivers an update of the root account of `d` that is not older than its
      `ttl`, which is in seconds. */
  predicate Delivers(e: Event, d: int) {
    && e.OnAccountUpdate? && e.update.debtorId == d && e.update.creditorId == 0
    && e.now - e.update.ts <= e.update.ttl * 1_000_000
  }

  predicate Purges(e: Event, d: int) {
    e.OnAccountPurge? && e.purge.debtorId == d && e.purge.creditorId == ROOT_CREDITOR_ID
  }

  /** A delivery to an active debtor changes only its row: the heartbeat, and, when it
      is news, the mirror and what depends on the acknowledgement. An expired update,
      or one of another account, changes nothing. */
  lemma DeliveryEffect(h: History, i: nat)
    requires h.IsLegal() && i < |h.events| && h.events[i].OnAccountUpdate?
    ensures var (s, s', e) := (h.states[i], h.states[i + 1], h.events[i]);
            var d := e.update.debtorId;
            if !Delivers(e, d) then s' == s
            else if !IsActive(s, d) then s' == s.(configureOutbox := s'.configureOutbox)
            else
              && d in s'.debtors && s' == s.(debtors := s.debtors[d := s'.debtors[d]])
              && var (r, r') := (s.debtors[d], s'.debtors[d]);
                 if IsNotNewer(e.update, r) then r' == r.(accountLastHeartbeatTs := r'.accountLastHeartbeatTs)
                 else
                   && MirrorOf(r') == Reflection(e.update, r)
                   && r == r'.(accountLastHeartbeatTs := r.accountLastHeartbeatTs,
                               isConfigEffectual := r.isConfigEffectual,
                               configError := r.configError,
                               debtorInfoIri := r.debtorInfoIri,
                               hasServerAccount := r.hasServerAccount,
                               accountCreationDate := r.accountCreationDate,
                               accountLastChangeTs := r.accountLastChangeTs,
                               accountLastChangeSeqnum := r.accountLastChangeSeqnum,
                               accountId := r.accountId,
                               balance := r.balance,
                               transferNoteMaxBytes := r.transferNoteMaxBytes)
  {
    assert h.Takes(i);
  }

  lemma DeliveryReflects(parse: IriParser, s: State, e: Event, d: int)
    requires IsActive(s, d) && Delivers(e, d)
    ensures var s' := Step(parse, s, e);
            && d in s'.debtors
            && MirrorOf(s'.debtors[d]) == if IsNotNewer(e.update, s.debtors[d]) then MirrorOf(s.debtors[d])
                                          else Reflection(e.update, s.debtors[d])
  {
  }

  ghost predicate KeepsMirror(parse: IriParser, s: State, e: Event, d: int) {
    IsActive(s, d) && IsActive(Step(parse, s, e), d) ==>
      MirrorOf(Step(parse, s, e).debtors[d]) == MirrorOf(s.debtors[d])
  }

  lemma MessagesDoNotReflect(parse: IriParser, s: State, e: Event, d: int)
    requires IsMessage(e) && Touches(e, d) && !Delivers(e, d) && !Purges(e, d)
    ensures KeepsMirror(parse, s, e, d)
  {
  }

  lemma LifecycleDoesNotReflect(parse: IriParser, s: State, e: Event, d: int)
    requires IsLifecycle(e) && Touches(e, d)
    ensures KeepsMirror(parse, s, e, d)
  {
  }

  lemma TransferRequestsDoNotReflect(parse: IriParser, s: State, e: Event, d: int)
    requires IsTransferRequest(e) && Touches(e, d)
    ensures KeepsMirror(parse, s, e, d)
  {
  }

  lemma UpdateDoesNotReflect(s: State, d: int, data: string, id: int, max: int, now: Timestamp, signalNow: Timestamp)
    requires IsActive(s, d) && UpdateDebtorConfig(s, d, data, id, max, now, signalNow).Success?
    ensures var s' := UpdateDebtorConfig(s, d, data, id, max, now, signalNow).value;
            d in s'.debtors && MirrorOf(s'.debtors[d]) == MirrorOf(s.debtors[d])
  {
  }

  lemma RequestsDoNotReflect(parse: IriParser, s: State, e: Event, d: int)
    requires (e.UpdateConfig? || e.SaveDocument?) && Touches(e, d)
    ensures KeepsMirror(parse, s, e, d)
  {
    if e.UpdateConfig? && IsActive(s, d) && Attempt(parse, s, e).Success? {
      UpdateDoesNotReflect(s, d, e.configData, e.updateId, e.maxActions, e.now, e.signalNow);
    }
  }

  lemma OthersDoNotReflect(parse: IriParser, s: State, e: Event, d: int)
    requires !Delivers(e, d) && !Purges(e, d)
    ensures KeepsMirror(parse, s, e, d)
  {
    if !Touches(e, d) {
      OnlyTouchedRecordsChange(parse, s, e, d);
    } else if IsMessage(e) {
      MessagesDoNotReflect(parse, s, e, d);
    } else if IsLifecycle(e) {
      LifecycleDoesNotReflect(parse, s, e, d);
    } else if IsTransferRequest(e) {
      TransferRequestsDoNotReflect(parse, s, e, d);
    } else {
      RequestsDoNotReflect(parse, s, e, d);
    }
  }

  // ---------- A period without configuration changes ----------

  /** In the states `i..=j` debtor `d` is active under one configuration, and no
      step between them purges its account. Anything else may happen. */
  ghost predicate IsCalm(h: History, i: nat, j: nat, d: int)
    requires h.IsLegal() && i <= j <= |h.events|
  {
    && IsActive(h.states[i], d)
    && (forall k | i <= k <= j :: IsActive(h.states[k], d)
                                  && ConfigOf(h.states[k].debtors[d]) == ConfigOf(h.states[i].debtors[d]))
    && (forall k | i <= k < j :: !Purges(h.events[k], d))
  }

  /** The updates of debtor `d` that the steps `i..j` deliver. */
  function Delivered(h: History, i: nat, j: nat, d: int): set<AccountUpdate>
    requires i <= j <= |h.events|
  {
    set k | i <= k < j && Delivers(h.events[k], d) :: h.events[k].update
  }

  predicate AreInWindows(w: Windows, updates: set<AccountUpdate>) {
    forall m | m in updates :: IsInWindow(w, MomentOf(m))
  }

  /** `mirror` is what `r` becomes after the updates: the reflection of an update
      that is at least as late as all of them, and later than `r`; or, when none
      is later than `r`, what it was. */
  ghost predicate IsLatest(w: Windows, updates: set<AccountUpdate>, r: DebtorRow, mirror: Mirror) {
    && (forall m | m in updates :: NotLater(w, MomentOf(m), mirror.moment))
    && (mirror == MirrorOf(r)
        || (!NotLater(w, mirror.moment, RowMoment(r)) && exists m :: m in updates && mirror == Reflection(m, r)))
  }

  lemma DeliveryKeepsLatest(w: Windows, updates: set<AccountUpdate>, r: DebtorRow, now: DebtorRow, m: AccountUpdate)
    requires IsLatest(w, updates, r, MirrorOf(now)) && ConfigOf(now) == ConfigOf(r)
    requires IsInWindow(w, MomentOf(m)) && IsInWindow(w, RowMoment(now)) && IsInWindow(w, RowMoment(r))
    ensures IsLatest(w, updates + {m}, r, if IsNotNewer(m, now) then MirrorOf(now) else Reflection(m, now))
  {
    ComparisonIsChronological(w, m, now);
    assert Reflection(m, now) == Reflection(m, r);
    if IsNotNewer(m, now) && MirrorOf(now) != MirrorOf(r) {
      var u :| u in updates && MirrorOf(now) == Reflection(u, r);
      assert u in updates + {m};
    }
    if !IsNotNewer(m, now) {
      assert m in updates + {m};
    }
  }

  /** After any deliveries, and whatever happens besides them, the mirror is that
      of the latest update. */
  lemma {:induction false} MirrorIsLatest(h: History, i: nat, j: nat, d: int, w: Windows)
    requires h.IsLegal() && i <= j <= |h.events| && IsCalm(h, i, j, d)
    requires IsInWindow(w, RowMoment(h.states[i].debtors[d])) && AreInWindows(w, Delivered(h, i, j, d))
    ensures IsInWindow(w, RowMoment(h.states[j].debtors[d]))
    ensures IsLatest(w, Delivered(h, i, j, d), h.states[i].debtors[d], MirrorOf(h.states[j].debtors[d]))
  {
    if i < j {
      var (before, e) := (Delivered(h, i, j - 1, d), h.events[j - 1]);
      var (r, now) := (h.states[i].debtors[d], h.states[j - 1].debtors[d]);
      assert before <= Delivered(h, i, j, d);
      MirrorIsLatest(h, i, j - 1, d, w);
      assert h.Takes(j - 1);
      if Delivers(e, d) {
        assert e.update in Delivered(h, i, j, d);
        assert Delivered(h, i, j, d) == before + {e.update};
        DeliveryReflects(h.parse, h.states[j - 1], e, d);
        DeliveryKeepsLatest(w, before, r, now, e.update);
      } else {
        assert Delivered(h, i, j, d) == before;
        OthersDoNotReflect(h.parse, h.states[j - 1], e, d);
      }
    }
  }

  // ---------- Convergence ----------

  /** Updates about the same moment of an account say the same. */
  predicate AreConsistent(updates: set<AccountUpdate>) {
    forall m, n | m in updates && n in updates && MomentOf(m) == MomentOf(n) ::
      && m.principal == n.principal && m.accountId == n.accountId
      && m.transferNoteMaxBytes == n.transferNoteMaxBytes
      && m.lastConfigTs == n.lastConfigTs && m.lastConfigSeqnum == n.lastConfigSeqnum
      && m.configFlags == n.configFlags && m.configData == n.configData
      && m.negligibleAmount == n.negligibleAmount
  }

  lemma LatestIsUnique(w: Windows, updates: set<AccountUpdate>, r: DebtorRow, q: DebtorRow, a: Mirror, b: Mirror)
    requires IsLatest(w, updates, r, a) && IsLatest(w, updates, q, b)
    requires MirrorOf(r) == MirrorOf(q) && ConfigOf(r) == ConfigOf(q)
    requires AreConsistent(updates) && AreInWindows(w, updates) && IsInWindow(w, RowMoment(r))
    ensures a == b
  {
    if a != MirrorOf(r) && b != MirrorOf(r) {
      var m :| m in updates && a == Reflection(m, r);
      var n :| n in updates && b == Reflection(n, q);
      if m.creationDate == n.creationDate && m.lastChangeTs == n.lastChangeTs {
        ComparedByOffset(m.lastChangeSeqnum, n.lastChangeSeqnum, w(m.creationDate, m.lastChangeTs));
      }
    }
  }

  /** Two runs in which a debtor starts with the same mirror and configuration,
      and is delivered the same set of updates, each in its own order, with its
      own repetitions, and mixed with its own other steps, end with the same
      mirror. */
  lemma MirrorsConverge(g: History, i: nat, j: nat, h: History, k: nat, l: nat, d: int, w: Windows)
    requires g.IsLegal() && i <= j <= |g.events| && IsCalm(g, i, j, d)
    requires h.IsLegal() && k <= l <= |h.events| && IsCalm(h, k, l, d)
    requires MirrorOf(g.states[i].debtors[d]) == MirrorOf(h.states[k].debtors[d])
    requires ConfigOf(g.states[i].debtors[d]) == ConfigOf(h.states[k].debtors[d])
    requires Delivered(g, i, j, d) == Delivered(h, k, l, d)
    requires AreConsistent(Delivered(g, i, j, d)) && AreInWindows(w, Delivered(g, i, j, d))
    requires IsInWindow(w, RowMoment(g.states[i].debtors[d]))
    ensures MirrorOf(g.states[j].debtors[d]) == MirrorOf(h.states[l].debtors[d])
  {
    MirrorIsLatest(g, i, j, d, w);
    MirrorIsLatest(h, k, l, d, w);
    LatestIsUnique(w, Delivered(g, i, j, d), g.states[i].debtors[d], h.states[k].debtors[d],
                   MirrorOf(g.states[j].debtors[d]), MirrorOf(h.states[l].debtors[d]));
  }

  // ---------- Purged accounts ----------

  /** Step `i` purges the account of `d`, of the generation that is mirrored or a
      later one. */
  ghost predicate IsPurged(h: History, i: nat, d: int)
    requires h.IsLegal() && i < |h.events|
  {
    && Purges(h.events[i], d) && IsActive(h.states[i], d)
    && h.states[i].debtors[d].hasServerAccount
    && h.states[i].debtors[d].accountCreationDate <= h.events[i].purge.creationDate
  }

  predicate IsForgotten(r: DebtorRow, moment: Moment) {
    && RowMoment(r) == moment
    && !r.hasServerAccount && r.balance == 0 && r.transferNoteMaxBytes == 0 && r.accountId == ""
    && !r.isConfigEffectual
  }

  lemma PurgeForgets(parse: IriParser, s: State, e: Event, d: int)
    requires Purges(e, d) && d in s.debtors
    ensures var (r, s') := (s.debtors[d], Step(parse, s, e));
            && d in s'.debtors
            && if r.hasServerAccount && r.accountCreationDate <= e.purge.creationDate
               then IsForgotten(s'.debtors[d], RowMoment(r))
               else s'.debtors[d] == r
  {
  }

  /** A purge empties the mirror exactly when an account of the purged or an earlier
      generation is mirrored; it keeps the moment, and changes nothing else. */
  lemma PurgeEffect(h: History, i: nat)
    requires h.IsLegal() && i < |h.events| && h.events[i].OnAccountPurge?
    ensures var (s, s', m) := (h.states[i], h.states[i + 1], h.events[i].purge);
            var d := m.debtorId;
            if m.creditorId == 0 && d in s.debtors && s.debtors[d].hasServerAccount
               && s.debtors[d].accountCreationDate <= m.creationDate
            then s' == s.(debtors := s.debtors[d := s.debtors[d].(
                            hasServerAccount := false, balance := 0, transferNoteMaxBytes := 0, accountId := "",
                            isConfigEffectual := false)])
            else s' == s
  {
    assert h.Takes(i);
  }

  /** Updates that were not news before the purge do not revive the account. */
  lemma {:induction false} PurgedAccountStaysForgotten(h: History, i: nat, j: nat, d: int)
    requires h.IsLegal() && i < j <= |h.events| && IsPurged(h, i, d)
    requires forall k | i <= k <= j :: IsActive(h.states[k], d)
    requires forall k | i < k < j && Delivers(h.events[k], d) :: IsNotNewer(h.events[k].update, h.states[i].debtors[d])
    ensures IsActive(h.states[j], d)
    ensures IsForgotten(h.states[j].debtors[d], RowMoment(h.states[i].debtors[d]))
  {
    var (s, e) := (h.states[j - 1], h.events[j - 1]);
    assert h.Takes(j - 1);
    if j - 1 == i || Purges(e, d) {
      PurgeForgets(h.parse, s, e, d);
    }
    if i < j - 1 {
      PurgedAccountStaysForgotten(h, i, j - 1, d);
      if Delivers(e, d) {
        DeliveryReflects(h.parse, s, e, d);
      } else if !Purges(e, d) {
        OthersDoNotReflect(h.parse, s, e, d);
      }
    }
  }
}
