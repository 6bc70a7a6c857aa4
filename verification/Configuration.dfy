/** The configuration dialogue between a debtor's record and the accounting
    authority: versions, acknowledgements, rejections, and orphaned accounts. */
module Configuration {
  import opened Basics
  import opened Seqnums
  import opened Rounding
  import opened Model
  import opened Histories
  import Lifecycle

  predicate IsDiscard(c: ConfigureAccount) {
    IsAlreadyDiscarded(c.configFlags, c.negligibleAmount as real)
  }

  /** The signals that debtor `d` has emitted from its own record, in order. */
  function Own(box: seq<ConfigureAccount>, d: int): seq<ConfigureAccount> {
    if box == [] then []
    else
      var (earlier, c) := (box[..|box| - 1], Last(box));
      Own(earlier, d) + if c.debtorId == d && !IsDiscard(c) then [c] else []
  }

  lemma OwnOfMore(box: seq<ConfigureAccount>, c: ConfigureAccount, d: int)
    ensures Own(box + [c], d) == Own(box, d) + if c.debtorId == d && !IsDiscard(c) then [c] else []
  {
  }

  // ---------- The invariants ----------

  ghost predicate IriIsParsed(parse: IriParser, own: seq<ConfigureAccount>, iri: Option<string>) {
    iri.Some? ==> exists c :: c in own && parse(c.configData) == iri
  }

  /** The record of an activated debtor holds what its latest signal announced. */
  ghost predicate Agrees(parse: IriParser, own: seq<ConfigureAccount>, d: int, row: DebtorRow) {
    if row.isActivated
    then own != [] && Last(own) == ConfigSignal(d, row) && IriIsParsed(parse, own, row.debtorInfoIri)
    else row.debtorInfoIri == None
  }

  ghost predicate Inv(parse: IriParser, s: State, d: int) {
    d in s.debtors ==> Agrees(parse, Own(s.configureOutbox, d), d, s.debtors[d])
  }

  /** Each version has the next sequence number, and never an earlier timestamp. */
  predicate IsChain(own: seq<ConfigureAccount>) {
    forall i | 0 <= i < |own| - 1 ::
      own[i].ts <= own[i + 1].ts && own[i + 1].seqnum == Increment(own[i].seqnum)
  }

  /** The signals that `d` has emitted after its first `n`. */
  function Later(s: State, d: int, n: nat): seq<ConfigureAccount> {
    var own := Own(s.configureOutbox, d);
    if n <= |own| then own[n..] else []
  }

  /** The first `n` signals of `d` are from before its record was made; the later
      ones form a chain, which begins with the activation. */
  ghost predicate ChainInv(parse: IriParser, s: State, d: int, n: nat) {
    && Inv(parse, s, d)
    && n <= |Own(s.configureOutbox, d)|
    && IsChain(Later(s, d, n))
    && (Later(s, d, n) != [] <==> d in s.debtors && s.debtors[d].isActivated)
  }

  // ---------- Every step keeps it ----------

  /** A row changes in none of the fields that its signals announce. */
  predicate SameConfig(r: DebtorRow, r': DebtorRow) {
    && r'.isActivated == r.isActivated
    && r'.lastConfigTs == r.lastConfigTs && r'.lastConfigSeqnum == r.lastConfigSeqnum
    && r'.configData == r.configData && r'.configFlags == r.configFlags
    && r'.minBalance == r.minBalance
  }

  /** What a step can do to debtor `d` and its signals. */
  ghost predicate Quiet(parse: IriParser, s: State, s': State, d: int) {
    && Own(s'.configureOutbox, d) == Own(s.configureOutbox, d)
    && (d in s.debtors <==> d in s'.debtors)
    && (d in s.debtors ==>
          var (r, r') := (s.debtors[d], s'.debtors[d]);
          && SameConfig(r, r')
          && (r'.debtorInfoIri == r.debtorInfoIri
              || (r.isActivated && r'.debtorInfoIri == parse(r.configData))))
  }

  ghost predicate Announced(s: State, s': State, d: int) {
    && d in s.debtors && d in s'.debtors
    && var (r, r') := (s.debtors[d], s'.debtors[d]);
       && r'.isActivated
       && r'.lastConfigTs >= r.lastConfigTs && r'.lastConfigSeqnum == Increment(r.lastConfigSeqnum)
       && (r'.debtorInfoIri == r.debtorInfoIri || r'.debtorInfoIri == None)
       && Own(s'.configureOutbox, d) == Own(s.configureOutbox, d) + [ConfigSignal(d, r')]
  }

  ghost predicate Renewed(s: State, s': State, d: int) {
    && Own(s'.configureOutbox, d) == Own(s.configureOutbox, d)
    && ((d !in s.debtors && d in s'.debtors && !s'.debtors[d].isActivated && s'.debtors[d].debtorInfoIri == None)
        || (d in s.debtors && !s.debtors[d].isActivated && d !in s'.debtors))
  }

  lemma OwnSignalsAreNotDiscards(d: int, row: DebtorRow)
    ensures !IsDiscard(ConfigSignal(d, row))
  {
    OnlyDiscardsAreHuge(row.minBalance, row.configFlags, SentAmount(row.minBalance) as real);
  }

  lemma ConfigureAnnounces(s: State, x: int, row: DebtorRow, signalNow: Timestamp, d: int)
    requires x in s.debtors && row.isActivated
    requires row.lastConfigTs == s.debtors[x].lastConfigTs && row.lastConfigSeqnum == s.debtors[x].lastConfigSeqnum
    requires row.debtorInfoIri == s.debtors[x].debtorInfoIri || row.debtorInfoIri == None
    ensures x == d ==> Announced(s, Configure(s, x, row, signalNow), d)
    ensures x != d ==> Own(Configure(s, x, row, signalNow).configureOutbox, d) == Own(s.configureOutbox, d)
  {
    var c := ConfigSignal(x, Stamped(row, signalNow));
    OwnSignalsAreNotDiscards(x, Stamped(row, signalNow));
    OwnOfMore(s.configureOutbox, c, d);
  }

  lemma DiscardIsNotOwn(s: State, m: AccountUpdate, discardNow: Timestamp, d: int)
    ensures Own(DiscardOrphanedAccount(s, m, discardNow).configureOutbox, d) == Own(s.configureOutbox, d)
  {
    OnlyDiscardsAreHuge(0, 0, SinglePrecision(HUGE_NEGLIGIBLE_AMOUNT) as real);
    OwnOfMore(s.configureOutbox, DiscardSignal(m.debtorId, discardNow), d);
  }

  predicate MayAnnounce(e: Event) {
    e.Activate? || e.Deactivate? || e.Restrict? || e.UpdateConfig?
  }

  /** Step `e` asks for a new version of the configuration, and gets it: by the
      first activation, the deactivation, a restriction, or a change of data. */
  ghost predicate Asks(parse: IriParser, s: State, e: Event) {
    && MayAnnounce(e) && e.debtorId in s.debtors && Attempt(parse, s, e).Success?
    && var r := s.debtors[e.debtorId];
       match e
       case Activate(_, _, _) => !r.isActivated
       case Deactivate(_, _, _) => r.IsActive()
       case UpdateConfig(_, data, id, _, _, _) => !IsUpToDate(r, data, id)
       case _ => true
  }

  /** The row that `r` becomes, but for the stamp, when `e` asks for a new version. */
  function Requested(r: DebtorRow, e: Event): DebtorRow {
    match e
    case Activate(_, _, _) => r.(isActivated := true)
    case Deactivate(_, now, _) => Deactivated(r, now).(runningTransfersCount := 0)
    case Restrict(_, m, _) => r.(minBalance := m)
    case UpdateConfig(_, data, id, max, now, _) =>
      var throttled := ThrottledActions(r, max, DateOf(now));
      if throttled.Success? then throttled.value.(configLatestUpdateId := id, configData := data) else r
    case _ => r
  }

  /** The version that was asked for is saved and announced. */
  lemma RequestIsConfigured(parse: IriParser, s: State, e: Event)
    requires Asks(parse, s, e)
    ensures var s' := Step(parse, s, e);
            var c := Configure(s, e.debtorId, Requested(s.debtors[e.debtorId], e), e.signalNow);
            s'.debtors == c.debtors && s'.configureOutbox == c.configureOutbox
    ensures Requested(s.debtors[e.debtorId], e).isActivated
  {
  }

  lemma UnansweredRequest(parse: IriParser, s: State, e: Event, d: int)
    requires MayAnnounce(e) && !Asks(parse, s, e)
    ensures var s' := Step(parse, s, e); Quiet(parse, s, s', d) && s'.configureOutbox == s.configureOutbox
  {
  }

  lemma AnnouncingStep(parse: IriParser, s: State, e: Event, d: int)
    requires MayAnnounce(e)
    ensures var s' := Step(parse, s, e);
            if Asks(parse, s, e) && e.debtorId == d then Announced(s, s', d)
            else Quiet(parse, s, s', d)
  {
    if Asks(parse, s, e) {
      RequestIsConfigured(parse, s, e);
      ConfigureAnnounces(s, e.debtorId, Requested(s.debtors[e.debtorId], e), e.signalNow, d);
    } else {
      UnansweredRequest(parse, s, e, d);
    }
  }

  lemma MirroringIsQuiet(parse: IriParser, r: DebtorRow, m: AccountUpdate, now: Timestamp)
    ensures var r' := Mirrored(WithHeartbeat(r, m, now), m, parse(m.configData));
            SameConfig(r, r') && (r'.debtorInfoIri == r.debtorInfoIri || r'.debtorInfoIri == parse(r.configData))
    ensures var r' := WithHeartbeat(r, m, now); SameConfig(r, r') && r'.debtorInfoIri == r.debtorInfoIri
  {
  }

  lemma AccountUpdateIsQuiet(parse: IriParser, s: State, m: AccountUpdate,
                             now: Timestamp, discardNow: Timestamp, d: int)
    ensures Quiet(parse, s, ProcessAccountUpdate(s, m, parse(m.configData), now, discardNow).value, d)
  {
    if IsActive(s, m.debtorId) {
      MirroringIsQuiet(parse, s.debtors[m.debtorId], m, now);
    } else {
      DiscardIsNotOwn(s, m, discardNow, d);
    }
  }

  lemma OnlyConfigurationIsSent(parse: IriParser, s: State, e: Event)
    requires !MayAnnounce(e) && !e.OnAccountUpdate?
    ensures Step(parse, s, e).configureOutbox == s.configureOutbox
  {
  }

  lemma OtherStep(parse: IriParser, s: State, e: Event, d: int)
    requires !MayAnnounce(e) && !e.OnAccountUpdate? && !RemovesShardOf(e, d)
    ensures var s' := Step(parse, s, e); Quiet(parse, s, s', d) || Renewed(s, s', d)
  {
    OnlyConfigurationIsSent(parse, s, e);
    if !Touches(e, d) {
      OnlyTouchedRecordsChange(parse, s, e, d);
    }
  }

  // ---------- Consequences for whole histories ----------

  lemma AnnouncementKeepsInv(parse: IriParser, s: State, s': State, d: int)
    requires Inv(parse, s, d) && Announced(s, s', d)
    ensures Inv(parse, s', d)
  {
    var (own, iri) := (Own(s.configureOutbox, d), s.debtors[d].debtorInfoIri);
    if iri.Some? {
      var x :| x in own && parse(x.configData) == iri;
      assert x in own + [ConfigSignal(d, s'.debtors[d])];
    }
  }

  /** What step `i` does to debtor `d` and its signals. */
  lemma EffectOf(h: History, i: nat, d: int)
    requires h.IsLegal() && i < |h.events| && !RemovesShardOf(h.events[i], d)
    ensures var (s, s') := (h.states[i], h.states[i + 1]);
            Quiet(h.parse, s, s', d) || Announced(s, s', d) || Renewed(s, s', d)
  {
    var (s, e) := (h.states[i], h.events[i]);
    assert h.Takes(i);
    if MayAnnounce(e) {
      AnnouncingStep(h.parse, s, e, d);
    } else if e.OnAccountUpdate? {
      AccountUpdateIsQuiet(h.parse, s, e.update, e.now, e.discardNow, d);
    } else {
      OtherStep(h.parse, s, e, d);
    }
  }

  lemma EffectsKeepInv(parse: IriParser, s: State, s': State, d: int)
    requires Inv(parse, s, d)
    requires Quiet(parse, s, s', d) || Announced(s, s', d) || Renewed(s, s', d)
    ensures Inv(parse, s', d)
  {
    if Announced(s, s', d) {
      AnnouncementKeepsInv(parse, s, s', d);
    }
  }

  lemma {:induction false} InvHolds(h: History, i: nat, d: int)
    requires h.IsLegal() && i <= |h.events|
    ensures Inv(h.parse, h.states[i], d)
  {
    if i > 0 {
      InvHolds(h, i - 1, d);
      if RemovesShardOf(h.events[i - 1], d) {
        Lifecycle.RemovalTakesTheRecord(h, i - 1, d);
      } else {
        EffectOf(h, i - 1, d);
        EffectsKeepInv(h.parse, h.states[i - 1], h.states[i], d);
      }
    }
  }

  /** The latest signal that an activated debtor emitted announces exactly what
      its record holds now. */
  lemma OutboxAgreesWithRecord(h: History, i: nat, d: int)
    requires h.IsLegal() && i <= |h.events|
    requires d in h.states[i].debtors && h.states[i].debtors[d].isActivated
    ensures var (own, r) := (Own(h.states[i].configureOutbox, d), h.states[i].debtors[d]);
            && own != []
            && Last(own) == ConfigureAccount(d, r.lastConfigTs, r.lastConfigSeqnum, r.configData,
                                             r.configFlags, SentAmount(r.minBalance))
  {
    InvHolds(h, i, d);
  }

  lemma ChainGrows(own: seq<ConfigureAccount>, c: ConfigureAccount)
    requires IsChain(own)
    requires own != [] ==> Last(own).ts <= c.ts && c.seqnum == Increment(Last(own).seqnum)
    ensures IsChain(own + [c])
  {
  }

  lemma EffectsKeepChain(parse: IriParser, s: State, s': State, d: int, n: nat)
    requires ChainInv(parse, s, d, n)
    requires Quiet(parse, s, s', d) || Announced(s, s', d) || Renewed(s, s', d)
    ensures ChainInv(parse, s', d, n)
  {
    EffectsKeepInv(parse, s, s', d);
    if Announced(s, s', d) {
      var c := ConfigSignal(d, s'.debtors[d]);
      assert Later(s', d, n) == Later(s, d, n) + [c];
      ChainGrows(Later(s, d, n), c);
    }
  }

  lemma {:induction false} ChainHolds(h: History, i: nat, j: nat, d: int)
    requires h.IsLegal() && i <= j <= |h.events|
    requires d !in h.states[i].debtors && h.KeepsShardOf(d, i, j)
    ensures ChainInv(h.parse, h.states[j], d, |Own(h.states[i].configureOutbox, d)|)
  {
    if i < j {
      ChainHolds(h, i, j - 1, d);
      EffectOf(h, j - 1, d);
      EffectsKeepChain(h.parse, h.states[j - 1], h.states[j], d, |Own(h.states[i].configureOutbox, d)|);
    }
  }

  /** The versions of an activated record, from its beginning on, form a chain:
      timestamps do not go back, sequence numbers advance one by one. */
  lemma VersionsFormChain(h: History, j: nat, d: int) returns (i: nat)
    requires h.IsLegal() && j <= |h.events|
    requires d in h.states[j].debtors && h.states[j].debtors[d].isActivated
    ensures i < j && d !in h.states[i].debtors && h.KeepsShardOf(d, i, j)
    ensures var (before, own) := (Own(h.states[i].configureOutbox, d), Own(h.states[j].configureOutbox, d));
            |before| < |own| && IsChain(own[|before|..])
  {
    i := Lifecycle.RecordHasBeginning(h, j, d);
    ChainHolds(h, i, j, d);
  }

  /** A debtor emits exactly one signal whenever a new version is asked for, with
      exactly what was asked for, and emits none otherwise. */
  lemma SignalsFollowRequests(h: History, i: nat, d: int)
    requires h.IsLegal() && i < |h.events|
    ensures var (own, own') := (Own(h.states[i].configureOutbox, d), Own(h.states[i + 1].configureOutbox, d));
            var e := h.events[i];
            if Asks(h.parse, h.states[i], e) && e.debtorId == d
            then var r := h.states[i].debtors[d];
                 |own'| == |own| + 1 && own' == own + [Last(own')]
                 && Last(own').configData
                    == (if e.UpdateConfig? then e.configData else if e.Deactivate? then "" else r.configData)
                 && Last(own').configFlags == (if e.Deactivate? then SCHEDULED_FOR_DELETION else r.configFlags)
                 && Last(own').negligibleAmount == SentAmount(if e.Restrict? then e.minBalance else r.minBalance)
            else own' == own
  {
    var (s, e) := (h.states[i], h.events[i]);
    assert h.Takes(i);
    if MayAnnounce(e) {
      AnnouncingStep(h.parse, s, e, d);
      if Asks(h.parse, s, e) {
        RequestIsConfigured(h.parse, s, e);
      }
    } else if e.OnAccountUpdate? {
      AccountUpdateIsQuiet(h.parse, s, e.update, e.now, e.discardNow, d);
    } else {
      OnlyConfigurationIsSent(h.parse, s, e);
    }
  }

  /** The IRI of a debtor always comes from a configuration that it really sent. */
  lemma IriComesFromSentConfig(h: History, i: nat, d: int)
    requires h.IsLegal() && i <= |h.events|
    requires d in h.states[i].debtors && h.states[i].debtors[d].debtorInfoIri.Some?
    ensures exists c :: c in h.states[i].configureOutbox && c.debtorId == d && !IsDiscard(c)
                        && h.parse(c.configData) == h.states[i].debtors[d].debtorInfoIri
  {
    InvHolds(h, i, d);
    var c :| c in Own(h.states[i].configureOutbox, d)
             && h.parse(c.configData) == h.states[i].debtors[d].debtorInfoIri;
    OwnSignalsWereSent(h.states[i].configureOutbox, d, c);
  }

  lemma {:induction false} OwnSignalsWereSent(box: seq<ConfigureAccount>, d: int, c: ConfigureAccount)
    requires c in Own(box, d)
    ensures c in box && c.debtorId == d && !IsDiscard(c)
  {
    if c in Own(box[..|box| - 1], d) {
      OwnSignalsWereSent(box[..|box| - 1], d, c);
    }
  }

  // ---------- Versions are told apart ----------

  function Stamp(c: ConfigureAccount): (Timestamp, Seqnum) {
    (c.ts, c.seqnum)
  }

  /** No run of more than 2^32 signals shares one timestamp. */
  predicate IsSpread(own: seq<ConfigureAccount>) {
    forall a | 0 <= a < |own| - CIRCLE :: own[a].ts != own[a + CIRCLE].ts
  }

  lemma {:induction false} StampsAdvance(own: seq<ConfigureAccount>, a: nat, b: nat)
    requires IsChain(own) && a <= b < |own|
    ensures own[a].ts <= own[b].ts && own[b].seqnum == Advance(own[a].seqnum, b - a)
  {
    if a < b {
      StampsAdvance(own, a, b - 1);
      AdvanceOnce(own[a].seqnum, b - 1 - a);
      assert own[b - 1].ts <= own[b - 1 + 1].ts;
    } else {
      AdvanceOnce(own[a].seqnum, 0);
    }
  }

  lemma StampsDiffer(own: seq<ConfigureAccount>, a: nat, b: nat)
    requires IsChain(own) && IsSpread(own) && a < b < |own|
    ensures Stamp(own[a]) != Stamp(own[b])
  {
    StampsAdvance(own, a, b);
    AdvanceReturns(own[a].seqnum, b - a);
    if b - a >= CIRCLE {
      StampsAdvance(own, a, a + CIRCLE);
      StampsAdvance(own, a + CIRCLE, b);
    }
  }

  /** Even if the clock goes backwards, the versions of a debtor's configuration
      bear pairwise distinct stamps, exactly as long as no more than 2^32 of them
      share a timestamp. */
  lemma StampsAreDistinctExactlyWhenSpread(own: seq<ConfigureAccount>)
    requires IsChain(own)
    ensures IsSpread(own) <==> forall a, b | 0 <= a < b < |own| :: Stamp(own[a]) != Stamp(own[b])
  {
    if IsSpread(own) {
      forall a, b | 0 <= a < b < |own| ensures Stamp(own[a]) != Stamp(own[b]) {
        StampsDiffer(own, a, b);
      }
    } else {
      var a :| 0 <= a < |own| - CIRCLE && own[a].ts == own[a + CIRCLE].ts;
      StampsAdvance(own, a, a + CIRCLE);
      AdvanceReturns(own[a].seqnum, CIRCLE);
      assert Stamp(own[a]) == Stamp(own[a + CIRCLE]);
    }
  }

  /** The record of `d` has been made after state `i`; `c` is one of the signals
      that it has emitted by state `j`, and there are later ones. */
  ghost predicate IsSuperseded(h: History, i: nat, j: nat, d: int, c: ConfigureAccount)
    requires h.IsLegal() && i <= j <= |h.events|
  {
    && d !in h.states[i].debtors && h.KeepsShardOf(d, i, j)
    && var later := Later(h.states[j], d, |Own(h.states[i].configureOutbox, d)|);
       && IsSpread(later)
       && later != [] && c in later[..|later| - 1]
  }

  lemma SupersededStampIsNotCurrent(h: History, i: nat, j: nat, d: int, c: ConfigureAccount)
    requires h.IsLegal() && i <= j <= |h.events| && IsSuperseded(h, i, j, d, c)
    ensures d in h.states[j].debtors
    ensures Stamp(c) != (h.states[j].debtors[d].lastConfigTs, h.states[j].debtors[d].lastConfigSeqnum)
  {
    ChainHolds(h, i, j, d);
    var later := Later(h.states[j], d, |Own(h.states[i].configureOutbox, d)|);
    var n :| 0 <= n < |later| - 1 && later[n] == c;
    StampsDiffer(later, n, |later| - 1);
    assert Last(later) == ConfigSignal(d, h.states[j].debtors[d]);
  }

  /** A rejection of a superseded configuration changes nothing. */
  lemma StaleRejectionIsIgnored(h: History, i: nat, j: nat, d: int, c: ConfigureAccount, m: RejectedConfig)
    requires h.IsLegal() && i <= j <= |h.events| && IsSuperseded(h, i, j, d, c)
    requires m.debtorId == d && (m.configTs, m.configSeqnum) == Stamp(c)
    ensures ProcessRejectedConfig(h.states[j], m) == Success(h.states[j])
  {
    SupersededStampIsNotCurrent(h, i, j, d, c);
  }

  /** An account update that echoes a superseded configuration cannot make the
      configuration effectual, clear its error, or change the IRI. */
  lemma StaleUpdateAcknowledgesNothing(h: History, i: nat, j: nat, d: int, c: ConfigureAccount, m: AccountUpdate,
                                       now: Timestamp, discardNow: Timestamp)
    requires h.IsLegal() && i <= j <= |h.events| && IsSuperseded(h, i, j, d, c)
    requires m.debtorId == d && (m.lastConfigTs, m.lastConfigSeqnum) == Stamp(c)
    ensures var s' := ProcessAccountUpdate(h.states[j], m, h.parse(m.configData), now, discardNow).value;
            && d in h.states[j].debtors && d in s'.debtors
            && var (r, r') := (h.states[j].debtors[d], s'.debtors[d]);
               && r'.configError == r.configError && r'.debtorInfoIri == r.debtorInfoIri
               && (r'.isConfigEffectual ==> r.isConfigEffectual)
  {
    SupersededStampIsNotCurrent(h, i, j, d, c);
    var r := h.states[j].debtors[d];
    assert !ReportsCurrentConfig(m, WithHeartbeat(r, m, now));
  }

  /** `m` reports the stamp, the data and the flags that signal `c` announced. */
  predicate Echoes(m: AccountUpdate, c: ConfigureAccount) {
    && m.debtorId == c.debtorId && m.creditorId == 0
    && m.lastConfigTs == c.ts && m.lastConfigSeqnum == c.seqnum
    && m.configData == c.configData && m.configFlags == c.configFlags
  }

  /** A newer and unexpired update of an active debtor makes the configuration
      effectual exactly when it echoes the latest signal, with an amount within a
      factor of 1 ± EPS of the requested one; and the amount is, for every way to
      write down the one that was sent with six significant digits or more. Then, and
      only then, the error is cleared and the IRI is taken from the data. */
  lemma LatestConfigIsAcknowledged(h: History, i: nat, d: int, m: AccountUpdate,
                                   now: Timestamp, discardNow: Timestamp)
    requires h.IsLegal() && i <= |h.events| && IsActive(h.states[i], d)
    requires m.debtorId == d && m.creditorId == 0 && now - m.ts <= m.ttl * 1_000_000
    requires !IsNotNewer(m, h.states[i].debtors[d])
    ensures Own(h.states[i].configureOutbox, d) != []
    ensures var s' := ProcessAccountUpdate(h.states[i], m, h.parse(m.configData), now, discardNow).value;
            && d in s'.debtors
            && var (r, r', c) := (h.states[i].debtors[d], s'.debtors[d], Last(Own(h.states[i].configureOutbox, d)));
               && (r'.isConfigEffectual <==> Echoes(m, c) && IsInRange(r.minBalance, m.negligibleAmount))
               && r'.configError == (if r'.isConfigEffectual then None else r.configError)
               && r'.debtorInfoIri == (if r'.isConfigEffectual then h.parse(c.configData) else r.debtorInfoIri)
    ensures IsReading(m.negligibleAmount, Last(Own(h.states[i].configureOutbox, d)).negligibleAmount)
            ==> IsInRange(h.states[i].debtors[d].minBalance, m.negligibleAmount)
  {
    OutboxAgreesWithRecord(h, i, d);
    var r := h.states[i].debtors[d];
    AmountsInRange(r.minBalance, m.negligibleAmount);
    CurrentConfigIsLatest(m, r, d, now);
  }

  lemma AmountsInRange(minBalance: MinBalance, amount: real)
    ensures IsCloseTo(minBalance, amount) <==> IsInRange(minBalance, amount)
    ensures IsReading(amount, SentAmount(minBalance)) ==> IsInRange(minBalance, amount)
  {
    RecognizedMeansClose(minBalance, amount);
    if IsReading(amount, SentAmount(minBalance)) {
      EchoIsRecognized(minBalance, amount);
    }
  }

  lemma CurrentConfigIsLatest(m: AccountUpdate, r: DebtorRow, d: int, now: Timestamp)
    requires m.debtorId == d && m.creditorId == 0
    ensures ReportsCurrentConfig(m, WithHeartbeat(r, m, now))
            <==> Echoes(m, ConfigSignal(d, r)) && IsInRange(r.minBalance, m.negligibleAmount)
  {
    AmountsInRange(r.minBalance, m.negligibleAmount);
  }

  /** `m` rejects the stamp, the data and the flags that signal `c` announced. */
  predicate Rejects(m: RejectedConfig, c: ConfigureAccount) {
    && m.debtorId == c.debtorId && m.creditorId == 0
    && m.configTs == c.ts && m.configSeqnum == c.seqnum
    && m.configData == c.configData && m.configFlags == c.configFlags
  }

  /** A rejection is recorded exactly when it rejects the latest signal, with an amount
      within a factor of 1 ± EPS, as every reading of the one that was sent is, and no
      error has been recorded already. It never changes anything else. */
  lemma LatestConfigIsRejected(h: History, i: nat, d: int, m: RejectedConfig)
    requires h.IsLegal() && i <= |h.events| && m.debtorId == d
    requires d in h.states[i].debtors && h.states[i].debtors[d].isActivated
    ensures Own(h.states[i].configureOutbox, d) != []
    ensures var (s, r, c) := (h.states[i], h.states[i].debtors[d], Last(Own(h.states[i].configureOutbox, d)));
            ProcessRejectedConfig(s, m)
            == Success(if r.configError == None && Rejects(m, c) && IsInRange(r.minBalance, m.negligibleAmount)
                       then s.(debtors := s.debtors[d := r.(configError := Some(m.rejectionCode))]) else s)
    ensures IsReading(m.negligibleAmount, Last(Own(h.states[i].configureOutbox, d)).negligibleAmount)
            ==> IsInRange(h.states[i].debtors[d].minBalance, m.negligibleAmount)
  {
    OutboxAgreesWithRecord(h, i, d);
    AmountsInRange(h.states[i].debtors[d].minBalance, m.negligibleAmount);
  }
}
