/** The rate limits. The code keeps one counter and one reset date; what follows
    is a bound on the real number of accepted requests in any period. */
module Throttling {
  import opened Basics
  import opened Model
  import opened Histories
  import Lifecycle

  datatype Meter = Actions | Saves

  function Period(meter: Meter): nat {
    if meter.Actions? then 31 else 366
  }

  function Count(r: DebtorRow, meter: Meter): nat {
    if meter.Actions? then r.actionsCount else r.documentsCount
  }

  function ResetDate(r: DebtorRow, meter: Meter): Date {
    if meter.Actions? then r.actionsCountResetDate else r.documentsCountResetDate
  }

  /** `e` asks debtor `d` to be charged on `meter`. */
  predicate Charges(e: Event, d: int, meter: Meter) {
    if meter.Actions? then (e.UpdateConfig? && e.debtorId == d) || (e.Initiate? && e.key.debtorId == d)
    else e.SaveDocument? && e.debtorId == d
  }

  function Limit(e: Event): int
    requires e.UpdateConfig? || e.Initiate? || e.SaveDocument?
  {
    if e.SaveDocument? then e.maxSaves else e.maxActions
  }

  /** `e` reads today's date for a meter of debtor `d`. */
  predicate ReadsDate(e: Event, d: int, meter: Meter) {
    Charges(e, d, meter) || (e.Reserve? && e.debtorId == d)
  }

  function Today(e: Event): Date
    requires e.UpdateConfig? || e.Initiate? || e.SaveDocument? || e.Reserve?
  {
    DateOf(e.now)
  }

  /** The day on which microsecond `t` falls. */
  function DayOf(t: Timestamp): (day: Date)
    ensures 0 <= t - day * 86_400_000_000 < 86_400_000_000
  {
    DateOf(t)
  }

  /** Step `i` is an accepted request on `meter`, dated in `from..to`. */
  ghost predicate IsCharged(h: History, i: nat, d: int, meter: Meter, from: Date, to: Date)
    requires h.IsLegal() && i < |h.events|
  {
    Charges(h.events[i], d, meter) && h.Succeeds(i) && from <= Today(h.events[i]) < to
  }

  /** How many of the steps `start..i` are charged. */
  ghost function Charged(h: History, d: int, meter: Meter, from: Date, to: Date, start: nat, i: nat): nat
    requires h.IsLegal() && start <= i <= |h.events|
    decreases i
  {
    if i == start then 0
    else Charged(h, d, meter, from, to, start, i - 1) + if IsCharged(h, i - 1, d, meter, from, to) then 1 else 0
  }

  /** From step `start` on, the dates that are read for this meter never go back,
      and no request is allowed more than `limit`. */
  predicate IsRegular(h: History, d: int, meter: Meter, limit: nat, start: nat) {
    && (forall i, j | start <= i < j < |h.events|
                      && ReadsDate(h.events[i], d, meter) && ReadsDate(h.events[j], d, meter) ::
          Today(h.events[i]) <= Today(h.events[j]))
    && (forall i | start <= i < |h.events| && Charges(h.events[i], d, meter) :: Limit(h.events[i]) <= limit)
  }

  // ---------- One step ----------

  /** A successful charge: the counter goes up by one, from zero after a reset. */
  predicate IsCharge(r: DebtorRow, r': DebtorRow, meter: Meter, today: Date, limit: int) {
    && Count(r', meter) <= limit
    && if today - ResetDate(r, meter) >= Period(meter)
       then Count(r', meter) == 1 && ResetDate(r', meter) == today
       else Count(r', meter) == Count(r, meter) + 1 && ResetDate(r', meter) == ResetDate(r, meter)
  }

  /** The meter of row `r` admits one more request, dated `today`. */
  predicate Admits(r: DebtorRow, meter: Meter, today: Date, limit: int) {
    if today - ResetDate(r, meter) >= Period(meter) then limit > 0 else Count(r, meter) < limit
  }

  /** `r'` is `r` after one charge, and differs in nothing else. */
  predicate IsOnlyCharged(r: DebtorRow, r': DebtorRow, meter: Meter, today: Date, limit: int) {
    && IsCharge(r, r', meter, today, limit)
    && r' == if meter.Actions?
             then r.(actionsCount := r'.actionsCount, actionsCountResetDate := r'.actionsCountResetDate)
             else r.(documentsCount := r'.documentsCount, documentsCountResetDate := r'.documentsCountResetDate)
  }

  lemma ActionsAreAdmitted(r: DebtorRow, limit: int, today: Date)
    ensures match ThrottledActions(r, limit, today)
            case Success(r') => Admits(r, Actions, today, limit) && IsOnlyCharged(r, r', Actions, today, limit)
            case Failure(error) => !Admits(r, Actions, today, limit) && error == TooManyManagementActions
  {
  }

  lemma SavesAreAdmitted(r: DebtorRow, limit: int, today: Date)
    ensures match ThrottledSaves(r, limit, today)
            case Success(r') => Admits(r, Saves, today, limit) && IsOnlyCharged(r, r', Saves, today, limit)
            case Failure(error) => !Admits(r, Saves, today, limit) && error == TooManySavedDocuments
  {
  }

  lemma ChargingStep(parse: IriParser, s: State, e: Event, d: int, meter: Meter)
    requires Charges(e, d, meter) && Attempt(parse, s, e).Success?
    ensures d in s.debtors && s.debtors[d].isActivated && d in Step(parse, s, e).debtors
    ensures Step(parse, s, e).debtors[d].isActivated
    ensures IsCharge(s.debtors[d], Step(parse, s, e).debtors[d], meter, Today(e), Limit(e))
  {
  }

  /** A step that does not charge the meter leaves it as it is. */
  ghost predicate IsUncharged(parse: IriParser, s: State, e: Event, d: int, meter: Meter) {
    var s' := Step(parse, s, e);
    d in s.debtors && d in s'.debtors ==>
      && Count(s'.debtors[d], meter) == Count(s.debtors[d], meter)
      && ResetDate(s'.debtors[d], meter) == ResetDate(s.debtors[d], meter)
      && (s.debtors[d].isActivated ==> s'.debtors[d].isActivated)
  }

  lemma MessagesAreFree(parse: IriParser, s: State, e: Event, d: int, meter: Meter)
    requires IsMessage(e) && Touches(e, d)
    ensures IsUncharged(parse, s, e, d, meter)
  {
  }

  lemma LifecycleIsFree(parse: IriParser, s: State, e: Event, d: int, meter: Meter)
    requires IsLifecycle(e) && Touches(e, d)
    ensures IsUncharged(parse, s, e, d, meter)
  {
  }

  lemma RequestsAreFree(parse: IriParser, s: State, e: Event, d: int, meter: Meter)
    requires !IsMessage(e) && !IsLifecycle(e) && Touches(e, d) && !Charges(e, d, meter)
    ensures IsUncharged(parse, s, e, d, meter)
  {
  }

  lemma OtherStep(parse: IriParser, s: State, e: Event, d: int, meter: Meter)
    requires !Charges(e, d, meter)
    ensures IsUncharged(parse, s, e, d, meter)
  {
    if !Touches(e, d) {
      OnlyTouchedRecordsChange(parse, s, e, d);
    } else if IsMessage(e) {
      MessagesAreFree(parse, s, e, d, meter);
    } else if IsLifecycle(e) {
      LifecycleIsFree(parse, s, e, d, meter);
    } else {
      RequestsAreFree(parse, s, e, d, meter);
    }
  }

  // ---------- The bound ----------

  /** How many charges in the `n` periods from `from` on are possible, when the
      counter stands at `count` since `reset`. Resets are at least a period apart,
      so every period begins at most one new count. */
  predicate IsWithinBound(charged: nat, count: nat, reset: Date, from: Date, n: nat, period: nat, limit: nat)
    requires period > 0
  {
    if reset < from then charged <= count
    else if reset < from + n * period then charged <= Mul((reset - from) / period + 1, limit) + count
    else charged <= Mul(n + 1, limit)
  }

  function Mul(a: int, b: int): int {
    a * b
  }

  lemma {:induction false} MulGrows(a: int, b: int, limit: nat)
    requires a < b
    ensures Mul(a, limit) + limit <= Mul(b, limit)
    decreases b - a
  {
    assert Mul(b, limit) == Mul(b - 1, limit) + limit;
    if a < b - 1 {
      MulGrows(a, b - 1, limit);
    }
  }

  lemma Quotients(x: nat, y: nat, n: nat, meter: Meter)
    ensures x < n * Period(meter) ==> x / Period(meter) < n
    ensures y >= x + Period(meter) ==> y / Period(meter) >= x / Period(meter) + 1
  {
  }

  /** One more charge, dated `today`. */
  lemma ChargeKeepsBound(charged: nat, r: DebtorRow, r': DebtorRow, meter: Meter, today: Date,
                         from: Date, n: nat, limit: nat)
    requires IsCharge(r, r', meter, today, limit)
    requires IsWithinBound(charged, Count(r, meter), ResetDate(r, meter), from, n, Period(meter), limit)
    requires Count(r, meter) <= limit && ResetDate(r, meter) <= today && (charged > 0 ==> from <= today)
    ensures var inside := if from <= today < from + n * Period(meter) then 1 else 0;
            IsWithinBound(charged + inside, Count(r', meter), ResetDate(r', meter), from, n, Period(meter), limit)
  {
    var (period, reset) := (Period(meter), ResetDate(r, meter));
    var to := from + n * period;
    if today - reset >= period {
      if from <= reset < to {
        Quotients(reset - from, Max(today - from, 0), n, meter);
        MulGrows((reset - from) / period + 1, n + 1, limit);
        if today < to {
          if (reset - from) / period + 1 < (today - from) / period {
            MulGrows((reset - from) / period + 2, (today - from) / period + 1, limit);
          }
          MulGrows((reset - from) / period + 1, (reset - from) / period + 2, limit);
        }
      } else if reset < from {
        MulGrows(0, n + 1, limit);
        if from <= today {
          MulGrows(0, (today - from) / period + 1, limit);
        }
      }
    }
  }

  /** The state of affairs after `i` steps, when the record was made after `start`. */
  ghost predicate Inv(h: History, d: int, meter: Meter, limit: nat, from: Date, n: nat, start: nat, i: nat)
    requires h.IsLegal() && start <= i <= |h.events|
  {
    var (s, charged) := (h.states[i], Charged(h, d, meter, from, from + n * Period(meter), start, i));
    && (forall k | i <= k < |h.events| && ReadsDate(h.events[k], d, meter) && charged > 0 ::
          from <= Today(h.events[k]))
    && if d in s.debtors then
         var r := s.debtors[d];
         && Count(r, meter) <= limit
         && (forall k | i <= k < |h.events| && ReadsDate(h.events[k], d, meter) ::
               ResetDate(r, meter) <= Today(h.events[k]))
         && IsWithinBound(charged, Count(r, meter), ResetDate(r, meter), from, n, Period(meter), limit)
         && (!r.isActivated ==> charged == 0)
       else charged == 0
  }

  /** What step `i` does to the meter of debtor `d`. */
  lemma MeterAfter(h: History, d: int, meter: Meter, i: nat)
    requires h.IsLegal() && i < |h.events| && !RemovesShardOf(h.events[i], d)
    ensures var (s, s', e) := (h.states[i], h.states[i + 1], h.events[i]);
            if Charges(e, d, meter) && h.Succeeds(i) then
              && d in s.debtors && s.debtors[d].isActivated && d in s'.debtors && s'.debtors[d].isActivated
              && IsCharge(s.debtors[d], s'.debtors[d], meter, Today(e), Limit(e))
            else if d in s.debtors && d in s'.debtors then
              && Count(s'.debtors[d], meter) == Count(s.debtors[d], meter)
              && ResetDate(s'.debtors[d], meter) == ResetDate(s.debtors[d], meter)
              && (s.debtors[d].isActivated ==> s'.debtors[d].isActivated)
            else if d in s'.debtors then
              e.Reserve? && e.debtorId == d && s'.debtors[d] == NewDebtor(e.reservationId, e.now)
            else
              d in s.debtors ==> !s.debtors[d].isActivated
  {
    var (s, s', e) := (h.states[i], h.states[i + 1], h.events[i]);
    assert h.Takes(i);
    Lifecycle.AdvanceOf(h, i);
    assert Lifecycle.RowAdvances(s, s', e, d);
    if Charges(e, d, meter) {
      if h.Succeeds(i) {
        ChargingStep(h.parse, s, e, d, meter);
      }
    } else {
      OtherStep(h.parse, s, e, d, meter);
    }
  }

  lemma StepKeepsInv(h: History, d: int, meter: Meter, limit: nat, from: Date, n: nat, start: nat, i: nat)
    requires h.IsLegal() && start <= i < |h.events| && IsRegular(h, d, meter, limit, start)
    requires !RemovesShardOf(h.events[i], d)
    requires Inv(h, d, meter, limit, from, n, start, i)
    ensures Inv(h, d, meter, limit, from, n, start, i + 1)
  {
    var (s, s', e) := (h.states[i], h.states[i + 1], h.events[i]);
    var charged := Charged(h, d, meter, from, from + n * Period(meter), start, i);
    MeterAfter(h, d, meter, i);
    if Charges(e, d, meter) && h.Succeeds(i) {
      ChargeKeepsBound(charged, s.debtors[d], s'.debtors[d], meter, Today(e), from, n, limit);
    } else if d !in s.debtors && d in s'.debtors {
      FreshMeter(e.reservationId, e.now, meter, from, n, limit);
    }
  }

  lemma FreshMeter(id: nat, now: Timestamp, meter: Meter, from: Date, n: nat, limit: nat)
    ensures var r := NewDebtor(id, now);
            IsWithinBound(0, Count(r, meter), ResetDate(r, meter), from, n, Period(meter), limit)
  {
  }

  lemma {:induction false} InvHolds(h: History, d: int, meter: Meter, limit: nat, from: Date, n: nat,
                                    start: nat, i: nat)
    requires h.IsLegal() && start <= i <= |h.events| && IsRegular(h, d, meter, limit, start)
    requires d !in h.states[start].debtors && h.KeepsShardOf(d, start, i)
    ensures Inv(h, d, meter, limit, from, n, start, i)
    decreases i
  {
    if start < i {
      InvHolds(h, d, meter, limit, from, n, start, i - 1);
      StepKeepsInv(h, d, meter, limit, from, n, start, i - 1);
    }
  }

  /** Counted from any moment when the debtor's record had not been made yet: in any
      31·n consecutive days at most (n + 1)·limit management actions of the debtor
      are accepted; in any 366·n consecutive days, at most (n + 1)·limit saved
      documents. */
  lemma RateIsLimited(h: History, d: int, meter: Meter, limit: nat, from: Date, n: nat, start: nat, i: nat)
    requires h.IsLegal() && start <= i <= |h.events| && IsRegular(h, d, meter, limit, start)
    requires d !in h.states[start].debtors && h.KeepsShardOf(d, start, i)
    ensures Charged(h, d, meter, from, from + n * Period(meter), start, i) <= (n + 1) * limit
  {
    InvHolds(h, d, meter, limit, from, n, start, i);
    var s := h.states[i];
    MulGrows(0, n + 1, limit);
    if d in s.debtors {
      var reset := ResetDate(s.debtors[d], meter);
      if from <= reset < from + n * Period(meter) {
        Quotients(reset - from, 0, n, meter);
        MulGrows((reset - from) / Period(meter) + 1, n + 1, limit);
      }
    }
  }

  // ---------- The bound is reached ----------

  predicate IsUpTo(h: History, d: int, meter: Meter, day: Date) {
    forall i | 0 <= i < |h.events| && ReadsDate(h.events[i], d, meter) :: Today(h.events[i]) <= day
  }

  lemma {:induction false} ChargedBefore(h: History, e: Event, d: int, meter: Meter, from: Date, to: Date, i: nat)
    requires h.IsLegal() && h.Then(e).IsLegal() && i <= |h.events|
    ensures Charged(h.Then(e), d, meter, from, to, 0, i) == Charged(h, d, meter, from, to, 0, i)
  {
    if i > 0 {
      ChargedBefore(h, e, d, meter, from, to, i - 1);
    }
  }

  /** The state of a debtor in the course of a burst of charges. */
  ghost predicate IsBursting(h: History, d: int, meter: Meter, limit: nat, day: Date, count: nat, reset: Date) {
    && h.IsLegal() && IsRegular(h, d, meter, limit, 0) && IsUpTo(h, d, meter, day)
    && h.KeepsShardOf(d, 0, |h.events|)
    && IsActive(Last(h.states), d)
    && Count(Last(h.states).debtors[d], meter) == count
    && ResetDate(Last(h.states).debtors[d], meter) == reset
  }

  /** A request that the meter charges, and that changes nothing else: saving a
      document, or sending the current configuration once more. */
  function ChargeOf(r: DebtorRow, d: int, documentId: nat, meter: Meter, limit: nat, now: Timestamp): Event {
    if meter.Saves? then SaveDocument(d, Document("", [], now), documentId, limit, now)
    else UpdateConfig(d, r.configData, r.configLatestUpdateId, limit, now, now)
  }

  lemma {:induction false} UnusedDocumentId(keys: set<DocumentKey>) returns (unused: nat)
    ensures forall k | k in keys :: k.documentId < unused
  {
    unused := 0;
    if keys != {} {
      var k :| k in keys;
      var below := UnusedDocumentId(keys - {k});
      unused := below + k.documentId + 1;
    }
  }

  lemma ChargeSucceeds(parse: IriParser, s: State, d: int, id: nat, meter: Meter, limit: nat, now: Timestamp)
    requires IsActive(s, d)
    requires DateOf(now) - ResetDate(s.debtors[d], meter) >= Period(meter) || Count(s.debtors[d], meter) < limit
    requires limit > 0
    ensures var e := ChargeOf(s.debtors[d], d, id, meter, limit, now);
            Attempt(parse, s, e).Success? && IsActive(Step(parse, s, e), d)
  {
  }

  lemma ChargeKeepsRegularity(h: History, e: Event, d: int, meter: Meter, limit: nat, day: Date)
    requires h.IsLegal() && IsRegular(h, d, meter, limit, 0) && IsUpTo(h, d, meter, day)
    requires Charges(e, d, meter) && Limit(e) == limit && Today(e) == day
    ensures IsRegular(h.Then(e), d, meter, limit, 0) && IsUpTo(h.Then(e), d, meter, day)
  {
  }

  lemma KeepsShardStill(h: History, e: Event, d: int)
    requires h.IsLegal() && h.KeepsShardOf(d, 0, |h.events|) && !e.RemoveParentShard?
    ensures h.Then(e).KeepsShardOf(d, 0, |h.Then(e).events|)
  {
  }

  lemma ChargeOnce(h: History, d: int, meter: Meter, limit: nat, day: Date, count: nat, reset: Date,
                   from: Date, to: Date)
    returns (g: History)
    requires IsBursting(h, d, meter, limit, day, count, reset) && from <= day < to && limit > 0
    requires day - reset >= Period(meter) || count < limit
    ensures if day - reset >= Period(meter) then IsBursting(g, d, meter, limit, day, 1, day)
            else IsBursting(g, d, meter, limit, day, count + 1, reset)
    ensures Charged(g, d, meter, from, to, 0, |g.events|) == Charged(h, d, meter, from, to, 0, |h.events|) + 1
  {
    var s := Last(h.states);
    var id := UnusedDocumentId(s.documents.Keys);
    var e := ChargeOf(s.debtors[d], d, id, meter, limit, day * MICROSECONDS_PER_DAY);
    assert Today(e) == day;
    assert DocumentKey(d, id) !in s.documents.Keys;
    ChargeSucceeds(h.parse, s, d, id, meter, limit, e.now);
    ChargingStep(h.parse, s, e, d, meter);
    g := h.Then(e);
    RunsCanContinue(h, e);
    ChargeKeepsRegularity(h, e, d, meter, limit, day);
    KeepsShardStill(h, e, d);
    ChargedBefore(h, e, d, meter, from, to, |h.events|);
    assert g.states[|h.events|] == s && g.events[|h.events|] == e;
  }

  lemma {:induction false} ChargeMany(h: History, d: int, meter: Meter, limit: nat, day: Date, count: nat, reset: Date,
                                      from: Date, to: Date)
    returns (g: History)
    requires IsBursting(h, d, meter, limit, day, count, reset) && from <= day < to
    requires day - reset < Period(meter) && count <= limit
    ensures IsBursting(g, d, meter, limit, day, limit, reset)
    ensures Charged(g, d, meter, from, to, 0, |g.events|)
            == Charged(h, d, meter, from, to, 0, |h.events|) + limit - count
    decreases limit - count
  {
    g := h;
    if count < limit {
      g := ChargeOnce(h, d, meter, limit, day, count, reset, from, to);
      g := ChargeMany(g, d, meter, limit, day, count + 1, reset, from, to);
    }
  }

  /** One full burst at the beginning of each of the next `times` periods. */
  lemma {:induction false} BurstEveryPeriod(h: History, d: int, meter: Meter, limit: nat, reset: Date,
                                            from: Date, to: Date, times: nat)
    returns (g: History)
    requires IsBursting(h, d, meter, limit, reset + Period(meter) - 1, limit, reset) && limit > 0
    requires from <= reset + Period(meter) && reset + Mul(times, Period(meter)) < to
    ensures var last := reset + Mul(times, Period(meter));
            IsBursting(g, d, meter, limit, last + Period(meter) - 1, limit, last)
    ensures Charged(g, d, meter, from, to, 0, |g.events|)
            == Charged(h, d, meter, from, to, 0, |h.events|) + Mul(times, limit)
    decreases times
  {
    g := h;
    if times > 0 {
      var day := reset + Period(meter);
      assert Mul(times, Period(meter)) == Period(meter) + Mul(times - 1, Period(meter));
      assert Mul(times, limit) == limit + Mul(times - 1, limit);
      assert Mul(times - 1, Period(meter)) >= 0;
      g := ChargeOnce(h, d, meter, limit, day, limit, reset, from, to);
      g := ChargeMany(g, d, meter, limit, day, 1, day, from, to);
      g := BurstEveryPeriod(g, d, meter, limit, day, from, to, times - 1);
    }
  }

  lemma FirstDebtor(parse: IriParser, d: int) returns (h: History)
    ensures h.IsLegal() && h.events == [Reserve(d, 1, 0), Activate(d, Decimal(1), 0)]
    ensures IsActive(Last(h.states), d)
    ensures forall meter ::
              Count(Last(h.states).debtors[d], meter) == ResetDate(Last(h.states).debtors[d], meter) == 0
  {
    var reserve, activate := Reserve(d, 1, 0), Activate(d, Decimal(1), 0);
    var empty := History(parse, [], [EMPTY]);
    RunsCanContinue(empty, reserve);
    var reserved := empty.Then(reserve);
    assert Last(reserved.states).debtors == map[d := NewDebtor(1, 0)];
    RunsCanContinue(reserved, activate);
    h := reserved.Then(activate);
    assert Last(h.states)
        == Configure(Last(reserved.states), d, NewDebtor(1, 0).(isActivated := true), 0);
  }

  lemma NothingCharged(h: History, d: int, meter: Meter, from: Date, to: Date)
    requires h.IsLegal() && |h.events| == 2 && h.events[0].Reserve? && h.events[1].Activate?
    ensures Charged(h, d, meter, from, to, 0, 2) == 0
  {
    assert Charged(h, d, meter, from, to, 0, 1) == 0;
  }

  /** The bound is tight. For every meter, every limit, and every number of periods
      there is a run in which a debtor is charged (n + 1)·limit times in n periods:
      a burst on the last day before a reset, and one after each reset. */
  lemma BoundIsReached(parse: IriParser, meter: Meter, limit: nat, n: nat) returns (h: History, from: Date)
    requires limit > 0 && n > 0
    ensures h.IsLegal() && IsRegular(h, 1, meter, limit, 0) && h.KeepsShardOf(1, 0, |h.events|)
    ensures Charged(h, 1, meter, from, from + n * Period(meter), 0, |h.events|) == (n + 1) * limit
  {
    from := Period(meter) - 1;
    var to := from + n * Period(meter);
    assert Mul(n, Period(meter)) < to;
    h := FirstDebtor(parse, 1);
    NothingCharged(h, 1, meter, from, to);
    h := ChargeMany(h, 1, meter, limit, from, 0, 0, from, to);
    h := BurstEveryPeriod(h, 1, meter, limit, 0, from, to, n);
    assert Mul(n, limit) + limit == (n + 1) * limit;
  }
}
