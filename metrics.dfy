/**
 * The final metrics report: eleven statistics copied (and renamed) from the
 * backtest engine's summary when it supplies them, plus the buy-and-hold
 * return computed from the bar closes alone.
 */
module Metrics {

  import opened Wrappers

  /** One row of the report: the metric's display name and its value, if any. */
  datatype Metric = Metric(name: string, value: Option<real>)

  /** (report name, engine summary key), in report order. */
  const Renames: seq<(string, string)> := [
    ("Sharpe Ratio", "Sharpe Ratio"),
    ("Sortino Ratio", "Sortino Ratio"),
    ("Win Rate (%)", "Win Rate [%]"),
    ("Net Profit (%)", "Return [%]"),
    ("Maximum Drawdown (%)", "Max. Drawdown [%]"),
    ("Total Closed Trades", "# Trades"),
    ("Average Holding Duration", "Avg. Trade Duration"),
    ("Largest Winning Trade (%)", "Best Trade [%]"),
    ("Largest Losing Trade (%)", "Worst Trade [%]"),
    ("Average Trade (%)", "Avg. Trade [%]"),
    ("Profit Factor", "Profit Factor")
  ]

  const BuyAndHoldName: string := "Buy & Hold Return (%)"

  /** The summary value under `key`, or None when the engine did not report it. */
  function Safe(stats: map<string, real>, key: string): (r: Option<real>)
    ensures r.Some? <==> key in stats
    ensures r.Some? ==> r.value == stats[key]
  {
    if key in stats then Some(stats[key]) else None
  }

  /**
   * Percentage return of holding from the first close to the last. A zero
   * first close gives no finite value.
   */
  function BuyAndHold(closes: seq<real>): (r: Option<real>)
    requires |closes| >= 1
    ensures r.Some? <==> closes[0] != 0.0
    ensures r.Some? ==> closes[|closes| - 1] == closes[0] * (1.0 + r.value / 100.0)
  {
    if closes[0] == 0.0 then None
    else
      var first, last := closes[0], closes[|closes| - 1];
      var ret := (last - first) / first * 100.0;
      assert first * (1.0 + ret / 100.0) == first + first * ((last - first) / first);
      Some(ret)
  }

  /** The buy-and-hold return is the only percentage that grows the first close into the last. */
  lemma BuyAndHoldUnique(closes: seq<real>, pct: real)
    requires |closes| >= 1 && closes[0] != 0.0
    requires closes[|closes| - 1] == closes[0] * (1.0 + pct / 100.0)
    ensures BuyAndHold(closes) == Some(pct)
  {
    var first := closes[0];
    var r := BuyAndHold(closes).value;
    assert first * (1.0 + r / 100.0) == first * (1.0 + pct / 100.0);
    assert first * (r - pct) == 0.0 by {
      assert first * (1.0 + r / 100.0) - first * (1.0 + pct / 100.0) == first * (r - pct) / 100.0;
    }
  }

  /** The report: the renamed statistics in order, then the buy-and-hold return. */
  function ExtractMetrics(stats: map<string, real>, closes: seq<real>): (r: seq<Metric>)
    requires |closes| >= 1
    ensures |r| == |Renames| + 1
    ensures forall k :: 0 <= k < |Renames| ==>
      && r[k].name == Renames[k].0
      && (r[k].value.Some? <==> Renames[k].1 in stats)
      && (r[k].value.Some? ==> r[k].value.value == stats[Renames[k].1])
    ensures r[|Renames|].name == BuyAndHoldName
    ensures r[|Renames|].value == BuyAndHold(closes)
  {
    seq(|Renames|, k requires 0 <= k < |Renames| => Metric(Renames[k].0, Safe(stats, Renames[k].1)))
      + [Metric(BuyAndHoldName, BuyAndHold(closes))]
  }

  /** Every report names each metric once, so it reads as a mapping from name to value. */
  lemma ReportNamesDistinct(stats: map<string, real>, closes: seq<real>)
    requires |closes| >= 1
    ensures var r := ExtractMetrics(stats, closes);
      forall j, k :: 0 <= j < k < |r| ==> r[j].name != r[k].name
  {
  }

  /** The buy-and-hold row does not depend on the engine's summary at all. */
  lemma BuyAndHoldIgnoresSummary(stats1: map<string, real>, stats2: map<string, real>, closes: seq<real>)
    requires |closes| >= 1
    ensures ExtractMetrics(stats1, closes)[|Renames|] == ExtractMetrics(stats2, closes)[|Renames|]
  {
  }

  /** A summary without any of the eleven keys still yields a full report, with every copied row undefined. */
  lemma EmptySummaryStillReports(closes: seq<real>)
    requires |closes| >= 1
    ensures var r := ExtractMetrics(map[], closes);
      |r| == 12 && forall k :: 0 <= k < 11 ==> r[k].value.None?
  {
  }
}
