/** Accounts on the server that belong to no active debtor: the agent asks for
    their deletion, and the exchange comes to an end. */
module Orphans {
  import opened Basics
  import opened Rounding
  import opened Model
  import opened Histories
  import opened Configuration
  import Lifecycle
  import Mirrors

  function SignalsAbout(box: seq<ConfigureAccount>, d: int): nat {
    if box == [] then 0
    else SignalsAbout(box[..|box| - 1], d) + if Last(box).debtorId == d then 1 else 0
  }

  /** The reported account does not have the configuration that a discard asks for. */
  predicate ReportsUndiscarded(e: Event, d: int) {
    Mirrors.Delivers(e, d) && !IsAlreadyDiscarded(e.update.configFlags, e.update.negligibleAmount)
  }

  function CountUndiscarded(events: seq<Event>, d: int): nat {
    if events == [] then 0
    else CountUndiscarded(events[..|events| - 1], d) + if ReportsUndiscarded(Last(events), d) then 1 else 0
  }

  lemma ConfigureIsAboutIts(s: State, x: int, row: DebtorRow, signalNow: Timestamp, d: int)
    requires x != d
    ensures SignalsAbout(Configure(s, x, row, signalNow).configureOutbox, d) == SignalsAbout(s.configureOutbox, d)
  {
  }

  lemma UpdateOfOrphan(s: State, m: AccountUpdate, iri: Option<string>, now: Timestamp, discardNow: Timestamp, d: int)
    requires !IsActive(s, d)
    ensures SignalsAbout(ProcessAccountUpdate(s, m, iri, now, discardNow).value.configureOutbox, d)
            == SignalsAbout(s.configureOutbox, d)
               + if ReportsUndiscarded(OnAccountUpdate(m, now, discardNow), d) then 1 else 0
  {
  }

  lemma AnnouncementToOthers(parse: IriParser, s: State, e: Event, d: int)
    requires MayAnnounce(e)
    requires d in s.debtors ==> Lifecycle.MeetsConstraints(s.debtors[d])
    requires !IsActive(s, d) && !IsActive(Step(parse, s, e), d)
    ensures SignalsAbout(Step(parse, s, e).configureOutbox, d) == SignalsAbout(s.configureOutbox, d)
  {
    if Asks(parse, s, e) {
      RequestIsConfigured(parse, s, e);
      ConfigureIsAboutIts(s, e.debtorId, Requested(s.debtors[e.debtorId], e), e.signalNow, d);
    } else {
      UnansweredRequest(parse, s, e, d);
    }
  }

  lemma StepOfOrphan(parse: IriParser, s: State, e: Event, d: int)
    requires d in s.debtors ==> Lifecycle.MeetsConstraints(s.debtors[d])
    requires !IsActive(s, d) && !IsActive(Step(parse, s, e), d)
    ensures SignalsAbout(Step(parse, s, e).configureOutbox, d)
            == SignalsAbout(s.configureOutbox, d) + if ReportsUndiscarded(e, d) then 1 else 0
  {
    if MayAnnounce(e) {
      AnnouncementToOthers(parse, s, e, d);
    } else if e.OnAccountUpdate? {
      UpdateOfOrphan(s, e.update, parse(e.update.configData), e.now, e.discardNow, d);
    } else {
      OnlyConfigurationIsSent(parse, s, e);
    }
  }

  lemma SignalsAfter(h: History, i: nat, d: int)
    requires h.IsLegal() && i < |h.events| && !IsActive(h.states[i], d) && !IsActive(h.states[i + 1], d)
    ensures SignalsAbout(h.states[i + 1].configureOutbox, d)
            == SignalsAbout(h.states[i].configureOutbox, d) + if ReportsUndiscarded(h.events[i], d) then 1 else 0
  {
    assert h.Takes(i);
    Lifecycle.InvHolds(h, i);
    StepOfOrphan(h.parse, h.states[i], h.events[i], d);
  }

  /** While an account is orphaned, its peer is sent exactly one signal for every
      unexpired update in which the account does not look discarded yet. */
  lemma {:induction false} OneDiscardPerUndiscardedReport(h: History, i: nat, j: nat, d: int)
    requires h.IsLegal() && i <= j <= |h.events|
    requires forall k | i <= k <= j :: !IsActive(h.states[k], d)
    ensures SignalsAbout(h.states[j].configureOutbox, d)
            == SignalsAbout(h.states[i].configureOutbox, d) + CountUndiscarded(h.events[i..j], d)
  {
    if i < j {
      OneDiscardPerUndiscardedReport(h, i, j - 1, d);
      SignalsAfter(h, j - 1, d);
      assert h.events[i..j][..j - 1 - i] == h.events[i..j - 1];
    }
  }

  lemma {:induction false} CountsReports(events: seq<Event>, d: int)
    ensures CountUndiscarded(events, d) == 0 <==> forall e | e in events :: !ReportsUndiscarded(e, d)
  {
    if events != [] {
      var (earlier, e) := (events[..|events| - 1], Last(events));
      CountsReports(earlier, d);
      assert e in events && forall x | x in events :: x in earlier || x == e;
    }
  }

  /** A report about an account without an active debtor is answered by a discard, unless
      the account is scheduled for deletion with a huge enough amount already: version
      0 of the empty configuration, stamped by the clock, with the deletion flag and the
      amount 10^30, up to rounding. */
  lemma DiscardIsSent(h: History, i: nat, d: int)
    requires h.IsLegal() && i < |h.events| && Mirrors.Delivers(h.events[i], d) && !IsActive(h.states[i], d)
    ensures var (s, s', e) := (h.states[i], h.states[i + 1], h.events[i]);
            if e.update.configFlags % 2 == 1
               && e.update.negligibleAmount >= 0.99999 * 1_000_000_000_000_000_000_000_000_000_000.0
            then s' == s
            else
              && s'.configureOutbox != []
              && var amount := Last(s'.configureOutbox).negligibleAmount;
                 && s' == s.(configureOutbox := s.configureOutbox
                                                + [ConfigureAccount(d, e.discardNow, 0, "", 1, amount)])
                 && 999_999 * 1_000_000_000_000_000_000_000_000_000_000 <= 1_000_000 * amount
                    <= 1_000_001 * 1_000_000_000_000_000_000_000_000_000_000
  {
    assert h.Takes(i);
    SinglePrecisionError(HUGE_NEGLIGIBLE_AMOUNT);
  }

  /** The exchange has stopped if and only if every unexpired report of the orphaned
      account shows it scheduled for deletion, with a huge enough amount. */
  lemma DiscardExchangeStops(h: History, i: nat, j: nat, d: int)
    requires h.IsLegal() && i <= j <= |h.events|
    requires forall k | i <= k <= j :: !IsActive(h.states[k], d)
    ensures SignalsAbout(h.states[j].configureOutbox, d) == SignalsAbout(h.states[i].configureOutbox, d) <==>
            forall e | e in h.events[i..j] && Mirrors.Delivers(e, d) ::
              && e.update.configFlags % 2 == 1
              && e.update.negligibleAmount >= 0.99999 * 1_000_000_000_000_000_000_000_000_000_000.0
  {
    CountsReports(h.events[i..j], d);
    OneDiscardPerUndiscardedReport(h, i, j, d);
  }

  /** `m` reports the flags of signal `c`, and an amount that its amount may read
      as: what a peer does that has applied it. */
  predicate HasApplied(m: AccountUpdate, c: ConfigureAccount) {
    m.configFlags == c.configFlags && IsReading(m.negligibleAmount, c.negligibleAmount)
  }

  /** From the moment when a peer has applied a discard signal, nothing more is
      sent to it. */
  lemma AppliedDiscardIsTheLast(h: History, i: nat, j: nat, d: int, c: ConfigureAccount)
    requires h.IsLegal() && i <= j <= |h.events| && c == DiscardSignal(d, c.ts)
    requires forall k | i <= k <= j :: !IsActive(h.states[k], d)
    requires forall e | e in h.events[i..j] && Mirrors.Delivers(e, d) :: HasApplied(e.update, c)
    ensures SignalsAbout(h.states[j].configureOutbox, d) == SignalsAbout(h.states[i].configureOutbox, d)
  {
    forall e | e in h.events[i..j] ensures !ReportsUndiscarded(e, d) {
      if Mirrors.Delivers(e, d) {
        OnlyDiscardsAreHuge(0, 0, e.update.negligibleAmount);
      }
    }
    CountsReports(h.events[i..j], d);
    OneDiscardPerUndiscardedReport(h, i, j, d);
  }

  /** A deactivated debtor's own deletion signal does not pass for a discard: a
      peer that has applied only that one is still sent a discard signal. */
  lemma DeletionIsNotDiscard(s: State, d: int, row: DebtorRow, e: Event)
    requires !IsActive(s, d) && Mirrors.Delivers(e, d) && HasApplied(e.update, ConfigSignal(d, row))
    ensures ReportsUndiscarded(e, d)
    ensures ProcessAccountUpdate(s, e.update, None, e.now, e.discardNow).value.configureOutbox
            == s.configureOutbox + [DiscardSignal(d, e.discardNow)]
  {
    OnlyDiscardsAreHuge(row.minBalance, e.update.configFlags, e.update.negligibleAmount);
  }
}
