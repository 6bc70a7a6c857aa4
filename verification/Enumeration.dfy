/** The paginated list of active debtors, read page by page while debtors are
    being activated and deactivated. */
module Enumeration {
  import opened Basics
  import opened Model
  import opened Histories

  // ---------- One page ----------

  lemma {:induction false} LeastExists(ids: set<int>)
    requires ids != {}
    ensures exists x :: x in ids && forall y | y in ids :: x <= y
  {
    assert (forall x :: x !in ids) ==> ids == {};
    var x :| x in ids;
    var others := ids - {x};
    if others != {} {
      LeastExists(others);
      var y :| y in others && forall z | z in others :: y <= z;
      var least := Min(x, y);
      forall z | z in ids ensures least <= z {
        assert z == x || z in others;
      }
      assert least in ids;
    } else {
      forall z | z in ids ensures x <= z {
        assert z == x || z in others;
      }
    }
  }

  function Least(ids: set<int>): (x: int)
    requires ids != {}
    ensures x in ids && forall y | y in ids :: x <= y
  {
    LeastExists(ids);
    var x :| x in ids && forall y | y in ids :: x <= y;
    x
  }

  predicate IsIncreasing(s: seq<int>) {
    forall i, j | 0 <= i < j < |s| :: s[i] < s[j]
  }

  lemma IncreasingFrom(x: int, s: seq<int>)
    requires IsIncreasing(s) && forall y | y in s :: x < y
    ensures IsIncreasing([x] + s)
  {
    forall i, j | 0 <= i < j < |s| + 1 ensures ([x] + s)[i] < ([x] + s)[j] {
      assert ([x] + s)[j] == s[j - 1] && s[j - 1] in s;
    }
  }

  /** `ORDER BY debtor_id LIMIT limit`. */
  function FirstIds(ids: set<int>, limit: nat): (page: seq<int>)
    ensures IsIncreasing(page) && forall x | x in page :: x in ids
    ensures |page| <= limit
    ensures forall x | x in ids && x !in page :: |page| == limit && forall y | y in page :: y < x
  {
    if limit == 0 || ids == {} then []
    else
      var (x, rest) := (Least(ids), FirstIds(ids - {Least(ids)}, limit - 1));
      IncreasingFrom(x, rest);
      [x] + rest
  }

  datatype Page = Page(ids: seq<int>, next: Option<int>)

  function ActiveIds(s: State): set<int> {
    set d | d in s.debtors && s.debtors[d].IsActive()
  }

  /** A page lists, in order, the active debtors from `start` up to, but not
      including, the next page's start; or all the rest, when no page follows. */
  ghost predicate IsPage(page: Page, active: set<int>, start: int, count: nat) {
    && IsIncreasing(page.ids)
    && (forall x | x in page.ids :: x in active && start <= x)
    && |page.ids| <= count
    && match page.next
       case None => forall x | x in active && start <= x :: x in page.ids
       case Some(next) =>
         && next in active && |page.ids| == count
         && (forall x | x in page.ids :: x < next)
         && (forall x | x in active && start <= x < next :: x in page.ids)
  }

  lemma SplitLast(ids: seq<int>, init: seq<int>, last: int)
    requires ids == init + [last] && IsIncreasing(ids)
    ensures IsIncreasing(init)
    ensures last in ids && forall x :: x in ids <==> x in init || x == last
    ensures forall x | x in init :: x < last
  {
    assert ids[|init|] == last;
    assert forall i | 0 <= i < |init| :: init[i] == ids[i];
    forall x | x in init ensures x in ids && x < last {
      var i :| 0 <= i < |init| && init[i] == x;
      assert ids[i] == x;
    }
  }

  function GetDebtorIds(active: set<int>, start: int, count: nat): (page: Page)
    requires count >= 1
    ensures IsPage(page, active, start, count)
  {
    var from := set x | x in active && start <= x;
    var ids := FirstIds(from, count + 1);
    if |ids| > count then
      var (init, last) := (ids[..|ids| - 1], ids[|ids| - 1]);
      SplitLast(ids, init, last);
      Page(init, Some(last))
    else Page(ids, None)
  }

  // ---------- Following the links ----------

  /** The pages that a client gets, which finds the set `snapshots[i]` active when
      it requests the `i`-th page, and follows every `next` link. */
  function Walk(snapshots: seq<set<int>>, start: int, count: nat): (pages: seq<Page>)
    requires count >= 1
    ensures |pages| <= |snapshots| && (snapshots != [] ==> pages != [])
  {
    if snapshots == [] then []
    else
      var page := GetDebtorIds(snapshots[0], start, count);
      [page] + if page.next.None? then [] else Walk(snapshots[1..], page.next.value, count)
  }

  predicate IsFinished(pages: seq<Page>) {
    pages != [] && Last(pages).next.None?
  }

  function Valid(ids: seq<int>, valid: int -> bool): (r: seq<int>)
    ensures forall x :: x in r <==> x in ids && valid(x)
  {
    if ids == [] then [] else (if valid(ids[0]) then [ids[0]] else []) + Valid(ids[1..], valid)
  }

  /** All the IDs listed on the pages, in order; a page lists only the IDs that
      belong to this shard. */
  function Listed(pages: seq<Page>, valid: int -> bool): seq<int> {
    if pages == [] then [] else Valid(pages[0].ids, valid) + Listed(pages[1..], valid)
  }

  lemma {:induction false} ValidIsIncreasing(ids: seq<int>, valid: int -> bool)
    requires IsIncreasing(ids)
    ensures IsIncreasing(Valid(ids, valid))
  {
    if ids != [] {
      ValidIsIncreasing(ids[1..], valid);
      if valid(ids[0]) {
        IncreasingFrom(ids[0], Valid(ids[1..], valid));
      }
    }
  }

  lemma IncreasingJoin(a: seq<int>, b: seq<int>, middle: int)
    requires IsIncreasing(a) && IsIncreasing(b)
    requires (forall x | x in a :: x < middle) && (forall x | x in b :: middle <= x)
    ensures IsIncreasing(a + b)
  {
    forall i, j | 0 <= i < j < |a + b| ensures (a + b)[i] < (a + b)[j] {
      if i < |a| <= j {
        assert a[i] in a && b[j - |a|] in b;
      }
    }
  }

  /** Whatever changes between the pages, the listed IDs strictly increase, so
      there are no duplicates; all are valid, and not below the start. */
  lemma {:induction false} ListingIncreases(snapshots: seq<set<int>>, start: int, count: nat, valid: int -> bool)
    requires count >= 1
    ensures var listed := Listed(Walk(snapshots, start, count), valid);
            IsIncreasing(listed) && forall x | x in listed :: valid(x) && start <= x
  {
    if snapshots != [] {
      var page := GetDebtorIds(snapshots[0], start, count);
      var rest := if page.next.None? then [] else Walk(snapshots[1..], page.next.value, count);
      assert Walk(snapshots, start, count)[1..] == rest;
      ValidIsIncreasing(page.ids, valid);
      if page.next.Some? {
        ListingIncreases(snapshots[1..], page.next.value, count, valid);
        assert page.ids[0] in page.ids;
        IncreasingJoin(Valid(page.ids, valid), Listed(rest, valid), page.next.value);
      }
    }
  }

  /** Every ID on a page was active when the page was read; and a finished listing
      contains every valid debtor that was active all the time. */
  lemma {:induction false} ListingIsComplete(snapshots: seq<set<int>>, start: int, count: nat,
                                             valid: int -> bool, d: int)
    requires count >= 1 && IsFinished(Walk(snapshots, start, count))
    requires valid(d) && start <= d && forall i | 0 <= i < |snapshots| :: d in snapshots[i]
    ensures d in Listed(Walk(snapshots, start, count), valid)
  {
    var page := GetDebtorIds(snapshots[0], start, count);
    var pages := Walk(snapshots, start, count);
    assert d in snapshots[0];
    if d !in page.ids {
      var rest := Walk(snapshots[1..], page.next.value, count);
      assert pages == [page] + rest;
      assert rest != [] && Last(rest) == Last(pages);
      assert pages[1..] == rest;
      ListingIsComplete(snapshots[1..], page.next.value, count, valid, d);
    }
  }

  lemma {:induction false} ListedWasActive(snapshots: seq<set<int>>, start: int, count: nat,
                                           valid: int -> bool, d: int)
    requires count >= 1 && d in Listed(Walk(snapshots, start, count), valid)
    ensures exists i :: 0 <= i < |snapshots| && d in snapshots[i]
  {
    var page := GetDebtorIds(snapshots[0], start, count);
    if d in page.ids {
      assert d in snapshots[0];
    } else {
      var rest := Walk(snapshots[1..], page.next.value, count);
      assert Walk(snapshots, start, count)[1..] == rest;
      ListedWasActive(snapshots[1..], page.next.value, count, valid, d);
      var i :| 0 <= i < |snapshots[1..]| && d in snapshots[1..][i];
      assert d in snapshots[i + 1];
    }
  }

  /** The starts of the pages strictly increase, so that a walk through IDs not
      above `max` gets to its last page after at most `max - start + 1` pages. */
  lemma {:induction false} WalkTerminates(snapshots: seq<set<int>>, start: int, count: nat, max: int)
    requires count >= 1 && start <= max
    requires forall i | 0 <= i < |snapshots| :: forall x | x in snapshots[i] :: x <= max
    ensures |Walk(snapshots, start, count)| <= max - start + 1
    ensures |snapshots| > max - start ==> IsFinished(Walk(snapshots, start, count))
  {
    if snapshots != [] {
      var page := GetDebtorIds(snapshots[0], start, count);
      if page.next.Some? {
        assert page.ids[0] in page.ids;
        assert page.next.value in snapshots[0];
        forall i | 0 <= i < |snapshots[1..]| ensures forall x | x in snapshots[1..][i] :: x <= max {
          assert snapshots[1..][i] == snapshots[i + 1];
        }
        WalkTerminates(snapshots[1..], page.next.value, count, max);
      }
    }
  }

  lemma SameElementsSameOrder(a: seq<int>, b: seq<int>)
    requires IsIncreasing(a) && IsIncreasing(b) && forall x :: x in a <==> x in b
    ensures a == b
  {
    assert a == [] ==> forall x :: x !in b;
    assert forall i | 0 <= i < |b| :: b[i] in b;
    if a != [] {
      assert a[0] in b && b[0] in a;
      var i :| 0 <= i < |b| && b[i] == a[0];
      var j :| 0 <= j < |a| && a[j] == b[0];
      assert a[0] == b[0];
      forall x ensures x in a[1..] <==> x in b[1..] {
        assert x in a <==> x == a[0] || x in a[1..];
        assert x in b <==> x == b[0] || x in b[1..];
        if x in a[1..] {
          var p :| 1 <= p < |a| && a[p] == x;
        }
        if x in b[1..] {
          var p :| 1 <= p < |b| && b[p] == x;
        }
      }
      SameElementsSameOrder(a[1..], b[1..]);
    }
  }

  /** On a table that does not change, the pages together are exactly the sorted
      list of the valid active debtors. */
  lemma StaticListingIsExact(active: set<int>, pages: nat, start: int, count: nat,
                             valid: int -> bool, sorted: seq<int>)
    requires count >= 1 && IsFinished(Walk(seq(pages, _ => active), start, count))
    requires IsIncreasing(sorted) && forall x :: x in sorted <==> x in active && valid(x) && start <= x
    ensures Listed(Walk(seq(pages, _ => active), start, count), valid) == sorted
  {
    var snapshots := seq(pages, _ => active);
    var listed := Listed(Walk(snapshots, start, count), valid);
    ListingIncreases(snapshots, start, count, valid);
    forall x ensures x in listed <==> x in sorted {
      if x in listed {
        ListedWasActive(snapshots, start, count, valid, x);
      }
      if x in sorted {
        ListingIsComplete(snapshots, start, count, valid, x);
      }
    }
    SameElementsSameOrder(listed, sorted);
  }

  // ---------- During a run of the agent ----------

  /** The client requests its `i`-th page after `times[i]` steps of the run. */
  ghost function Snapshots(h: History, times: seq<nat>): seq<set<int>>
    requires h.IsLegal() && forall i | 0 <= i < |times| :: times[i] <= |h.events|
  {
    seq(|times|, i requires 0 <= i < |times| => ActiveIds(h.states[times[i]]))
  }

  predicate OccursOnce(s: seq<int>, x: int) {
    x in s && forall i, j | 0 <= i < |s| && 0 <= j < |s| && s[i] == x && s[j] == x :: i == j
  }

  /** While debtors come and go, the listing of all 64-bit IDs contains every valid
      debtor that is active at all the requests, exactly once; and it ends. */
  lemma ListingDuringRun(h: History, times: seq<nat>, count: nat, valid: int -> bool, d: int)
    requires h.IsLegal() && forall i | 0 <= i < |times| :: times[i] <= |h.events|
    requires forall s, x | s in h.states && x in s.debtors :: MIN_INT64 <= x <= MAX_INT64
    requires count >= 1 && valid(d) && MIN_INT64 <= d
    requires forall i | 0 <= i < |times| :: IsActive(h.states[times[i]], d)
    ensures var pages := Walk(Snapshots(h, times), MIN_INT64, count);
            && |pages| <= MAX_INT64 - MIN_INT64 + 1
            && (|times| > MAX_INT64 - MIN_INT64 ==> IsFinished(pages))
            && (IsFinished(pages) ==>
                  OccursOnce(Listed(pages, valid), d))
  {
    var snapshots := Snapshots(h, times);
    forall i | 0 <= i < |snapshots| ensures forall x | x in snapshots[i] :: x <= MAX_INT64 {
      assert h.states[times[i]] in h.states;
    }
    WalkTerminates(snapshots, MIN_INT64, count, MAX_INT64);
    if IsFinished(Walk(snapshots, MIN_INT64, count)) {
      ListingIncreases(snapshots, MIN_INT64, count, valid);
      ListingIsComplete(snapshots, MIN_INT64, count, valid, d);
    }
  }
}
