/**
 * The daily trade-count compliance check: group the trade ledger by entry
 * day, count the trades of each day, and compare the busiest day with the cap.
 * A trade is seen only through its entry day, a day number.
 */
module Compliance {

  import opened Wrappers

  /** The most trade entries allowed on one calendar day. */
  const DailyCap: nat := 100

  /** One group of the ledger: a day and the number of trades entered on it. */
  datatype DayCount = DayCount(day: int, trades: nat)

  /** Reference count: how many ledger entries fall on day d. */
  function Count(days: seq<int>, d: int): nat
  {
    if days == [] then 0
    else Count(days[..|days| - 1], d) + (if days[|days| - 1] == d then 1 else 0)
  }

  function DaysOf(groups: seq<DayCount>): set<int>
  {
    set k | 0 <= k < |groups| :: groups[k].day
  }

  ghost predicate DistinctDays(groups: seq<DayCount>)
  {
    forall j, k :: 0 <= j < k < |groups| ==> groups[j].day != groups[k].day
  }

  lemma DaysOfCons(h: DayCount, t: seq<DayCount>)
    ensures DaysOf([h] + t) == {h.day} + DaysOf(t)
  {
    var g := [h] + t;
    assert g[0].day == h.day;
    forall e | e in DaysOf(g) ensures e in {h.day} + DaysOf(t) {
      var k :| 0 <= k < |g| && g[k].day == e;
      if k > 0 { assert t[k - 1] == g[k]; }
    }
    forall e | e in DaysOf(t) ensures e in DaysOf(g) {
      var k :| 0 <= k < |t| && t[k].day == e;
      assert g[k + 1] == t[k];
    }
  }

  /** The first group's day does not occur again in a grouping with distinct days. */
  lemma HeadDayUnique(groups: seq<DayCount>)
    requires DistinctDays(groups) && groups != []
    ensures groups[0].day !in DaysOf(groups[1..])
    ensures DistinctDays(groups[1..])
  {
    var rest := groups[1..];
    forall m | 0 <= m < |rest| ensures rest[m].day != groups[0].day {
      assert rest[m] == groups[m + 1];
    }
    forall j, k | 0 <= j < k < |rest| ensures rest[j].day != rest[k].day {
      assert rest[j] == groups[j + 1] && rest[k] == groups[k + 1];
    }
  }

  ghost predicate AllPositive(groups: seq<DayCount>)
  {
    forall k :: 0 <= k < |groups| ==> groups[k].trades > 0
  }

  /** Sum of the per-day counts. */
  function Total(groups: seq<DayCount>): nat
  {
    if groups == [] then 0 else groups[0].trades + Total(groups[1..])
  }

  /** The count recorded for day d, or 0 when d has no group. */
  function TradesOn(groups: seq<DayCount>, d: int): (r: nat)
    ensures d !in DaysOf(groups) ==> r == 0
    ensures r == 0 || exists k :: 0 <= k < |groups| && groups[k].day == d && groups[k].trades == r
  {
    if groups == [] then 0
    else if groups[0].day == d then groups[0].trades
    else
      var r := TradesOn(groups[1..], d);
      assert r != 0 ==> exists k :: 0 <= k < |groups| && groups[k].day == d && groups[k].trades == r by {
        if r != 0 {
          var k :| 0 <= k < |groups[1..]| && groups[1..][k].day == d && groups[1..][k].trades == r;
          assert groups[k + 1] == groups[1..][k];
        }
      }
      assert DaysOf(groups) == {groups[0].day} + DaysOf(groups[1..]) by {
        assert groups == [groups[0]] + groups[1..];
        DaysOfCons(groups[0], groups[1..]);
      }
      r
  }

  /** In a grouping with distinct days, looking a group's day up finds that group. */
  lemma {:induction false} TradesOnGroup(groups: seq<DayCount>, k: nat)
    requires DistinctDays(groups) && k < |groups|
    ensures TradesOn(groups, groups[k].day) == groups[k].trades
  {
    if k > 0 {
      assert groups[1..][k - 1] == groups[k];
      TradesOnGroup(groups[1..], k - 1);
    }
  }

  /** Records one more trade on day x: bumps x's group, or appends a new group for x. */
  function Bump(groups: seq<DayCount>, x: int): (r: seq<DayCount>)
    requires DistinctDays(groups) && AllPositive(groups)
    ensures DistinctDays(r) && AllPositive(r)
    ensures DaysOf(r) == DaysOf(groups) + {x}
    ensures |r| == |groups| + (if x in DaysOf(groups) then 0 else 1)
    ensures forall d :: TradesOn(r, d) == TradesOn(groups, d) + (if d == x then 1 else 0)
    ensures Total(r) == Total(groups) + 1
  {
    if groups == [] then
      DaysOfCons(DayCount(x, 1), []);
      assert [DayCount(x, 1)] + [] == [DayCount(x, 1)];
      [DayCount(x, 1)]
    else if groups[0].day == x then
      var r := [DayCount(x, groups[0].trades + 1)] + groups[1..];
      assert r[1..] == groups[1..];
      assert DaysOf(r) == DaysOf(groups) by {
        assert groups == [groups[0]] + groups[1..];
        DaysOfCons(groups[0], groups[1..]);
        DaysOfCons(r[0], groups[1..]);
      }
      assert forall d :: d != x ==> TradesOn(r, d) == TradesOn(groups, d);
      r
    else
      var rest := Bump(groups[1..], x);
      var r := [groups[0]] + rest;
      assert r[1..] == rest;
      assert DaysOf(groups) == {groups[0].day} + DaysOf(groups[1..]) by {
        assert groups == [groups[0]] + groups[1..];
        DaysOfCons(groups[0], groups[1..]);
      }
      DaysOfCons(groups[0], rest);
      HeadDayUnique(groups);
      ConsDistinct(groups[0], rest);
      r
  }

  /** Putting a group with a new day in front keeps the days distinct. */
  lemma ConsDistinct(h: DayCount, t: seq<DayCount>)
    requires DistinctDays(t) && h.day !in DaysOf(t)
    ensures DistinctDays([h] + t)
  {
    var g := [h] + t;
    forall j, k | 0 <= j < k < |g| ensures g[j].day != g[k].day {
      assert g[k] == t[k - 1];
      if j > 0 {
        assert g[j] == t[j - 1];
      }
    }
  }

  /**
   * groupby(entry day).size(): one group per distinct day, in order of first
   * appearance, each holding the number of trades entered that day.
   */
  function TradesPerDay(days: seq<int>): (r: seq<DayCount>)
    ensures DistinctDays(r) && AllPositive(r)
    ensures DaysOf(r) == set d | d in days
    ensures forall d :: TradesOn(r, d) == Count(days, d)
    ensures Total(r) == |days|
  {
    if days == [] then []
    else
      var init := days[..|days| - 1];
      assert days == init + [days[|days| - 1]];
      Bump(TradesPerDay(init), days[|days| - 1])
  }

  /** Largest per-day count, attained by some group. */
  function MaxTrades(groups: seq<DayCount>): (m: nat)
    requires |groups| > 0
    ensures forall k :: 0 <= k < |groups| ==> groups[k].trades <= m
    ensures exists k :: 0 <= k < |groups| && groups[k].trades == m
  {
    if |groups| == 1 then groups[0].trades
    else
      var rest := MaxTrades(groups[1..]);
      assert forall k :: 1 <= k < |groups| ==> groups[k] == groups[1..][k - 1];
      var k :| 0 <= k < |groups[1..]| && groups[1..][k].trades == rest;
      assert groups[k + 1].trades == rest;
      if groups[0].trades >= rest then groups[0].trades else rest
  }

  /** The per-day counts sum to at most the number of days times the largest count. */
  lemma {:induction false} TotalAtMost(groups: seq<DayCount>, hi: nat)
    requires forall k :: 0 <= k < |groups| ==> groups[k].trades <= hi
    ensures Total(groups) as real <= |groups| as real * hi as real
  {
    if groups != [] {
      assert forall k :: 0 <= k < |groups[1..]| ==> groups[1..][k] == groups[k + 1];
      TotalAtMost(groups[1..], hi);
      assert (|groups[1..]| as real + 1.0) * hi as real == |groups[1..]| as real * hi as real + hi as real;
    }
  }

  /** Every group counts at least one trade, so the sum is at least the number of groups. */
  lemma {:induction false} TotalAtLeastGroups(groups: seq<DayCount>)
    requires AllPositive(groups)
    ensures Total(groups) >= |groups|
  {
    if groups != [] {
      assert forall k :: 0 <= k < |groups[1..]| ==> groups[1..][k] == groups[k + 1];
      TotalAtLeastGroups(groups[1..]);
    }
  }

  /** What the check reports; the maximum and mean are undefined for an empty ledger. */
  datatype Report = Report(perDay: seq<DayCount>, maxPerDay: Option<nat>,
                           avgPerDay: Option<real>, complies: bool)

  /**
   * The report for a grouping and a cap: the busiest day's count against the
   * cap. An undefined maximum compares false, so no groups means no compliance.
   */
  function Summarise(groups: seq<DayCount>, cap: nat): (r: Report)
    ensures r.perDay == groups
    ensures groups == [] <==> r.maxPerDay.None?
    ensures groups == [] ==> r == Report([], None, None, false)
    ensures groups != [] ==> r.complies == (MaxTrades(groups) <= cap)
  {
    if groups == [] then Report(groups, None, None, false)
    else
      var mx := MaxTrades(groups);
      Report(groups, Some(mx), Some(Total(groups) as real / |groups| as real), mx <= cap)
  }

  /** The check of a ledger (its entry days) against the cap `cap`. */
  function Check(days: seq<int>, cap: nat): Report
  {
    Summarise(TradesPerDay(days), cap)
  }

  /** An empty ledger has no groups, an undefined maximum and mean, and does not comply. */
  lemma CheckEmptyLedger(cap: nat)
    ensures Check([], cap) == Report([], None, None, false)
  {
    assert TradesPerDay([]) == [];
  }

  /** The script's compliance check, with the cap of 100 trades a day. */
  function TradeComplianceCheck(days: seq<int>): (r: Report)
    ensures r.complies <==> |days| > 0 && forall d :: Count(days, d) <= DailyCap
  {
    CheckVerdict(days, DailyCap);
    Check(days, DailyCap)
  }

  /** The maximum is the largest per-day count of the ledger, attained on some entry day. */
  lemma CheckMaximum(days: seq<int>, cap: nat)
    requires |days| > 0
    ensures Check(days, cap).maxPerDay.Some?
    ensures forall d :: Count(days, d) <= Check(days, cap).maxPerDay.value
    ensures exists d :: d in days && Count(days, d) == Check(days, cap).maxPerDay.value
  {
    var g := TradesPerDay(days);
    assert days[0] in DaysOf(g);
    var mx := MaxTrades(g);
    forall d ensures Count(days, d) <= mx {
      assert TradesOn(g, d) == Count(days, d);
    }
    var k :| 0 <= k < |g| && g[k].trades == mx;
    TradesOnGroup(g, k);
    assert g[k].day in DaysOf(g);
  }

  /**
   * The mean is the number of trades over the number of distinct entry days,
   * and lies between 1 and the maximum.
   */
  lemma CheckMean(days: seq<int>, cap: nat)
    requires |days| > 0
    ensures var r := Check(days, cap);
      && r.avgPerDay.Some? && r.maxPerDay.Some?
      && r.avgPerDay.value == |days| as real / |set d | d in days| as real
      && 1.0 <= r.avgPerDay.value <= r.maxPerDay.value as real
  {
    var g := TradesPerDay(days);
    assert days[0] in DaysOf(g);
    DistinctDaysCardinality(g);
    MeanBetweenOneAndMax(g);
  }

  /** The mean of positive per-day counts lies between 1 and their maximum. */
  lemma MeanBetweenOneAndMax(groups: seq<DayCount>)
    requires |groups| > 0 && AllPositive(groups)
    ensures 1.0 <= Total(groups) as real / |groups| as real <= MaxTrades(groups) as real
  {
    MeanAtLeastOne(groups);
    MeanAtMostMax(groups);
  }

  lemma MeanAtLeastOne(groups: seq<DayCount>)
    requires |groups| > 0 && AllPositive(groups)
    ensures 1.0 <= Total(groups) as real / |groups| as real
  {
    TotalAtLeastGroups(groups);
    RatioAtLeastOne(Total(groups) as real, |groups| as real);
  }

  lemma MeanAtMostMax(groups: seq<DayCount>)
    requires |groups| > 0
    ensures Total(groups) as real / |groups| as real <= MaxTrades(groups) as real
  {
    MeanAtMost(groups, MaxTrades(groups));
  }

  lemma MeanAtMost(groups: seq<DayCount>, hi: nat)
    requires |groups| > 0
    requires forall k :: 0 <= k < |groups| ==> groups[k].trades <= hi
    ensures Total(groups) as real / |groups| as real <= hi as real
  {
    TotalAtMost(groups, hi);
    RatioAtMost(Total(groups) as real, |groups| as real, hi as real);
  }

  lemma RatioAtLeastOne(t: real, n: real)
    requires 0.0 < n <= t
    ensures 1.0 <= t / n
  {
    assert t / n * n == t;
  }

  lemma RatioAtMost(t: real, n: real, m: real)
    requires 0.0 < n && t <= n * m
    ensures t / n <= m
  {
    assert n * (m - t / n) == n * m - t;
  }

  /** Distinct days: the number of groups is the number of distinct days. */
  lemma {:induction false} DistinctDaysCardinality(groups: seq<DayCount>)
    requires DistinctDays(groups)
    ensures |DaysOf(groups)| == |groups|
  {
    if groups != [] {
      var rest := groups[1..];
      HeadDayUnique(groups);
      DistinctDaysCardinality(rest);
      assert groups == [groups[0]] + rest;
      DaysOfCons(groups[0], rest);
    }
  }

  /** The verdict holds exactly when the ledger is non-empty and no day exceeds the cap. */
  lemma CheckVerdict(days: seq<int>, cap: nat)
    ensures Check(days, cap).complies <==> |days| > 0 && forall d :: Count(days, d) <= cap
  {
    if |days| > 0 {
      CheckMaximum(days, cap);
    }
  }

  /** Raising the cap can turn a failing ledger into a passing one, never the reverse. */
  lemma CheckMonotoneInCap(days: seq<int>, cap1: nat, cap2: nat)
    requires cap1 <= cap2 && Check(days, cap1).complies
    ensures Check(days, cap2).complies
  {
    CheckVerdict(days, cap1);
    CheckVerdict(days, cap2);
  }

  /** Daily counts 3, 5 and 2: the maximum is 5, the mean 10/3, and the default cap is met. */
  lemma ExampleThreeDays()
    ensures var r := Summarise([DayCount(1, 3), DayCount(2, 5), DayCount(3, 2)], DailyCap);
      r.maxPerDay == Some(5) && r.avgPerDay == Some(10.0 / 3.0) && r.complies
  {
    var g := [DayCount(1, 3), DayCount(2, 5), DayCount(3, 2)];
    assert g[1..] == [DayCount(2, 5), DayCount(3, 2)] && g[1..][1..] == [DayCount(3, 2)];
    assert MaxTrades(g[1..][1..]) == 2;
    assert MaxTrades(g[1..]) == 5;
    assert Total(g) == 10;
  }
}
