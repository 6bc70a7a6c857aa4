/** The heartbeat of an account, from which the scanner tells that the server is silent:
    where it comes from, and when it moves. */
module Heartbeats {
  import opened Basics
  import opened Model
  import opened Histories
  import Lifecycle
  import Mirrors

  /** Step `e` reports to the active debtor `d` that its account is alive. */
  ghost predicate Beats(s: State, e: Event, d: int) {
    Mirrors.Delivers(e, d) && IsActive(s, d)
  }

  /** An update whose timestamp is not later than the heartbeat leaves it. A later one
      sets it to that timestamp or, if that lies in the future, to the clock reading.
      So it goes back exactly when the clock is behind it. */
  lemma DeliveryMovesHeartbeat(h: History, i: nat, d: int)
    requires h.IsLegal() && i < |h.events| && Beats(h.states[i], h.events[i], d)
    ensures var (s, s', e) := (h.states[i], h.states[i + 1], h.events[i]);
            && d in s.debtors && d in s'.debtors
            && var (before, after) := (s.debtors[d].accountLastHeartbeatTs, s'.debtors[d].accountLastHeartbeatTs);
               && (e.update.ts <= before ==> after == before)
               && (e.update.ts > before ==> after <= e.update.ts && after <= e.now
                                            && (after == e.update.ts || after == e.now))
               && (after < before <==> e.now < before < e.update.ts)
  {
    assert h.Takes(i);
  }

  ghost predicate KeepsHeartbeat(parse: IriParser, s: State, e: Event, d: int) {
    d in s.debtors && d in Step(parse, s, e).debtors ==>
      Step(parse, s, e).debtors[d].accountLastHeartbeatTs == s.debtors[d].accountLastHeartbeatTs
  }

  lemma MessagesKeepHeartbeat(parse: IriParser, s: State, e: Event, d: int)
    requires IsMessage(e) && Touches(e, d) && !Beats(s, e, d)
    ensures KeepsHeartbeat(parse, s, e, d)
  {
  }

  lemma LifecycleKeepsHeartbeat(parse: IriParser, s: State, e: Event, d: int)
    requires IsLifecycle(e) && Touches(e, d)
    ensures KeepsHeartbeat(parse, s, e, d)
  {
  }

  lemma RequestsKeepHeartbeat(parse: IriParser, s: State, e: Event, d: int)
    requires !IsMessage(e) && !IsLifecycle(e) && Touches(e, d)
    ensures KeepsHeartbeat(parse, s, e, d)
  {
  }

  /** No other step moves the heartbeat of a record. */
  lemma OtherStepsKeepHeartbeat(h: History, i: nat, d: int)
    requires h.IsLegal() && i < |h.events| && !Beats(h.states[i], h.events[i], d)
    requires d in h.states[i].debtors && d in h.states[i + 1].debtors
    ensures h.states[i + 1].debtors[d].accountLastHeartbeatTs == h.states[i].debtors[d].accountLastHeartbeatTs
  {
    var (s, e) := (h.states[i], h.events[i]);
    assert h.Takes(i);
    if !Touches(e, d) {
      OnlyTouchedRecordsChange(h.parse, s, e, d);
    } else if IsMessage(e) {
      MessagesKeepHeartbeat(h.parse, s, e, d);
    } else if IsLifecycle(e) {
      LifecycleKeepsHeartbeat(h.parse, s, e, d);
    } else {
      RequestsKeepHeartbeat(h.parse, s, e, d);
    }
  }

  /** Step `o` has set the heartbeat of `d` to `ts`: by the reservation, or by an
      update, to the earlier of its timestamp and the clock reading. */
  ghost predicate Sets(h: History, o: nat, d: int, ts: Timestamp)
    requires h.IsLegal() && o < |h.events|
  {
    var e := h.events[o];
    || (e.Reserve? && e.debtorId == d && ts == e.now)
    || (Beats(h.states[o], e, d) && ts == Min(e.update.ts, e.now))
  }

  /** Every heartbeat comes from a step in the life of the record. Hence it is never
      ahead of all clock readings, whatever timestamps the updates bear. */
  lemma {:induction false} HeartbeatHasSource(h: History, j: nat, d: int) returns (o: nat)
    requires h.IsLegal() && j <= |h.events| && d in h.states[j].debtors
    ensures o < j && Sets(h, o, d, h.states[j].debtors[d].accountLastHeartbeatTs)
    ensures Lifecycle.IsThere(h, d, o + 1, j)
  {
    o := j - 1;
    if d !in h.states[o].debtors {
      Lifecycle.AdvanceOf(h, o);
      assert Lifecycle.RowAdvances(h.states[o], h.states[j], h.events[o], d);
    } else if Beats(h.states[o], h.events[o], d)
              && h.events[o].update.ts > h.states[o].debtors[d].accountLastHeartbeatTs {
      DeliveryMovesHeartbeat(h, o, d);
    } else {
      if Beats(h.states[o], h.events[o], d) {
        DeliveryMovesHeartbeat(h, o, d);
      } else {
        OtherStepsKeepHeartbeat(h, o, d);
      }
      o := HeartbeatHasSource(h, j - 1, d);
    }
  }
}
