/**
 * The volatility indicator of the EMA trend strategy: per-bar true range and
 * its plain rolling mean (the ATR), computed from the bar series alone.
 */
module Indicators {

  import opened Wrappers

  /** One price bar. The bar's timestamp is its position in the series. */
  datatype Bar = Bar(open: real, high: real, low: real, close: real, volume: real)

  function Abs(x: real): (r: real)
    ensures r >= 0.0 && (r == x || r == -x)
  {
    if x < 0.0 then -x else x
  }

  /** The largest of three values, which is always one of them. */
  function Max3(a: real, b: real, c: real): (m: real)
    ensures m >= a && m >= b && m >= c
    ensures m == a || m == b || m == c
  {
    if a >= b && a >= c then a else if b >= c then b else c
  }

  /**
   * True range of bar i. Bar 0 has no previous close: its slot keeps the zero
   * the array was allocated with.
   */
  function TrueRange(bars: seq<Bar>, i: nat): (r: real)
    requires i < |bars|
    ensures r >= 0.0
    ensures i == 0 ==> r == 0.0
    ensures i > 0 ==> r >= bars[i].high - bars[i].low
    ensures i > 0 ==> r >= Abs(bars[i].high - bars[i - 1].close)
    ensures i > 0 ==> r >= Abs(bars[i].low - bars[i - 1].close)
    ensures i > 0 ==> r == bars[i].high - bars[i].low
                      || r == Abs(bars[i].high - bars[i - 1].close)
                      || r == Abs(bars[i].low - bars[i - 1].close)
  {
    if i == 0 then 0.0
    else Max3(bars[i].high - bars[i].low,
              Abs(bars[i].high - bars[i - 1].close),
              Abs(bars[i].low - bars[i - 1].close))
  }

  /** The true-range series, one entry per bar. */
  function TrueRanges(bars: seq<Bar>): (tr: seq<real>)
    ensures |tr| == |bars|
  {
    seq(|bars|, i requires 0 <= i < |bars| => TrueRange(bars, i))
  }

  /** Fills a zero-initialised array with the true range of every bar after the first. */
  method ComputeTrueRanges(bars: seq<Bar>) returns (tr: array<real>)
    ensures fresh(tr)
    ensures tr[..] == TrueRanges(bars)
  {
    tr := new real[|bars|](_ => 0.0);
    var i := 1;
    while i < |bars|
      invariant 1 <= i && (i <= |bars| || i == 1)
      invariant forall k :: 0 <= k < i && k < |bars| ==> tr[k] == TrueRange(bars, k)
      invariant forall k :: i <= k < |bars| ==> tr[k] == 0.0
    {
      tr[i] := Max3(bars[i].high - bars[i].low,
                    Abs(bars[i].high - bars[i - 1].close),
                    Abs(bars[i].low - bars[i - 1].close));
      i := i + 1;
    }
    assert forall k :: 0 <= k < |bars| ==> tr[..][k] == TrueRanges(bars)[k];
  }

  /** Sum of a sequence, accumulated from the left. */
  function Sum(s: seq<real>): real
  {
    if s == [] then 0.0 else Sum(s[..|s| - 1]) + s[|s| - 1]
  }

  /** Largest element of a non-empty sequence. */
  function MaxOf(s: seq<real>): (m: real)
    requires |s| > 0
    ensures m in s
    ensures forall k :: 0 <= k < |s| ==> s[k] <= m
  {
    if |s| == 1 then s[0]
    else
      var rest := MaxOf(s[..|s| - 1]);
      assert forall k :: 0 <= k < |s| - 1 ==> s[..|s| - 1][k] == s[k];
      if rest >= s[|s| - 1] then rest else s[|s| - 1]
  }

  /** Smallest element of a non-empty sequence. */
  function MinOf(s: seq<real>): (m: real)
    requires |s| > 0
    ensures m in s
    ensures forall k :: 0 <= k < |s| ==> m <= s[k]
  {
    if |s| == 1 then s[0]
    else
      var rest := MinOf(s[..|s| - 1]);
      assert forall k :: 0 <= k < |s| - 1 ==> s[..|s| - 1][k] == s[k];
      if rest <= s[|s| - 1] then rest else s[|s| - 1]
  }

  /** A sum of values that are each at most `hi` is at most `|s| * hi`. */
  lemma {:induction false} SumAtMost(s: seq<real>, hi: real)
    requires forall k :: 0 <= k < |s| ==> s[k] <= hi
    ensures Sum(s) <= |s| as real * hi
  {
    if s != [] {
      var init := s[..|s| - 1];
      SumAtMost(init, hi);
      assert (|init| as real + 1.0) * hi == |init| as real * hi + hi;
    }
  }

  /** A sum of values that are each at least `lo` is at least `|s| * lo`. */
  lemma {:induction false} SumAtLeast(s: seq<real>, lo: real)
    requires forall k :: 0 <= k < |s| ==> lo <= s[k]
    ensures |s| as real * lo <= Sum(s)
  {
    if s != [] {
      var init := s[..|s| - 1];
      SumAtLeast(init, lo);
      assert (|init| as real + 1.0) * lo == |init| as real * lo + lo;
    }
  }

  lemma CancelScale(p: real, x: real, y: real)
    requires p > 0.0 && p * x <= p * y
    ensures x <= y
  {
    assert p * (y - x) >= 0.0;
  }

  lemma DivideBetween(a: real, p: real, lo: real, hi: real)
    requires p > 0.0 && p * lo <= a <= p * hi
    ensures lo <= a / p <= hi
  {
    var m := a / p;
    assert a == p * m;
    CancelScale(p, lo, m);
    CancelScale(p, m, hi);
  }

  lemma {:induction false} SumPrepend(x: real, s: seq<real>)
    ensures Sum([x] + s) == x + Sum(s)
  {
    if s != [] {
      assert ([x] + s)[..|s|] == [x] + s[..|s| - 1];
      SumPrepend(x, s[..|s| - 1]);
    }
  }

  /**
   * pandas' rolling(period).mean(): undefined until `period` values are
   * available, then the arithmetic mean of exactly the last `period` values.
   */
  function RollingMean(xs: seq<real>, period: nat): (r: seq<Option<real>>)
    requires period >= 1
    ensures |r| == |xs|
    ensures forall i :: 0 <= i < |xs| ==> (r[i].Some? <==> i + 1 >= period)
  {
    seq(|xs|, i requires 0 <= i < |xs| =>
      if i + 1 < period then None
      else Some(Sum(xs[i + 1 - period..i + 1]) / period as real))
  }

  /** A defined rolling mean is the sum of its window divided by the period. */
  lemma RollingMeanAt(xs: seq<real>, period: nat, i: nat)
    requires period >= 1 && period <= i + 1 <= |xs|
    ensures RollingMean(xs, period)[i] == Some(Sum(xs[i + 1 - period..i + 1]) / period as real)
  {
  }

  /** A defined rolling mean lies between the smallest and the largest value of its window. */
  lemma RollingMeanWithinWindow(xs: seq<real>, period: nat, i: nat)
    requires period >= 1 && period <= i + 1 <= |xs|
    ensures RollingMean(xs, period)[i] == Some(Sum(xs[i + 1 - period..i + 1]) / period as real)
    ensures MinOf(xs[i + 1 - period..i + 1]) <= RollingMean(xs, period)[i].value
    ensures RollingMean(xs, period)[i].value <= MaxOf(xs[i + 1 - period..i + 1])
  {
    var w := xs[i + 1 - period..i + 1];
    RollingMeanAt(xs, period, i);
    WindowMeanBetween(w, period);
  }

  /** The mean of a non-empty window lies between its smallest and largest value. */
  lemma WindowMeanBetween(w: seq<real>, period: nat)
    requires period >= 1 && |w| == period
    ensures MinOf(w) <= Sum(w) / period as real <= MaxOf(w)
  {
    SumAtMost(w, MaxOf(w));
    SumAtLeast(w, MinOf(w));
    DivideBetween(Sum(w), period as real, MinOf(w), MaxOf(w));
  }

  /** The ATR indicator: rolling mean over `period` true ranges. */
  method Atr(bars: seq<Bar>, period: nat) returns (atr: seq<Option<real>>)
    requires period >= 1
    ensures |atr| == |bars|
    ensures forall i :: 0 <= i < |bars| ==> (atr[i].None? <==> i + 1 < period)
    ensures atr == RollingMean(TrueRanges(bars), period)
  {
    var tr := ComputeTrueRanges(bars);
    atr := RollingMean(tr[..], period);
  }

  /** A rolling mean of non-negative values is non-negative. */
  lemma RollingMeanNonneg(xs: seq<real>, period: nat, i: nat)
    requires forall k :: 0 <= k < |xs| ==> xs[k] >= 0.0
    requires period >= 1 && period <= i + 1 <= |xs|
    ensures RollingMean(xs, period)[i].Some? && RollingMean(xs, period)[i].value >= 0.0
  {
    var w := xs[i + 1 - period..i + 1];
    RollingMeanWithinWindow(xs, period, i);
    var j :| 0 <= j < |w| && w[j] == MinOf(w);
    assert w[j] == xs[i + 1 - period + j];
  }

  /**
   * Every defined ATR value is the mean of the last `period` true ranges, is
   * non-negative and does not exceed the largest true range in its window.
   */
  lemma AtrBounds(bars: seq<Bar>, period: nat, i: nat)
    requires period >= 1 && period <= i + 1 <= |bars|
    ensures var atr := RollingMean(TrueRanges(bars), period);
      && atr[i].Some?
      && atr[i].value == Sum(TrueRanges(bars)[i + 1 - period..i + 1]) / period as real
      && 0.0 <= atr[i].value <= MaxOf(TrueRanges(bars)[i + 1 - period..i + 1])
  {
    var tr := TrueRanges(bars);
    assert forall k :: 0 <= k < |tr| ==> tr[k] == TrueRange(bars, k);
    RollingMeanWithinWindow(tr, period, i);
    RollingMeanNonneg(tr, period, i);
  }

  /**
   * The first defined ATR value (at index period - 1) averages the zero left
   * in slot 0 together with only period - 1 real true ranges.
   */
  lemma FirstAtrIncludesZeroSlot(bars: seq<Bar>, period: nat)
    requires 1 <= period <= |bars|
    ensures RollingMean(TrueRanges(bars), period)[period - 1]
         == Some(Sum(TrueRanges(bars)[1..period]) / period as real)
  {
    var tr := TrueRanges(bars);
    assert tr[0..period] == [0.0] + tr[1..period];
    SumPrepend(0.0, tr[1..period]);
  }

  /** Two bars with high = low = close have ATR exactly 0 once a window of 2 is full. */
  lemma ExampleZeroAtr()
    ensures var bars := [Bar(10.0, 10.0, 10.0, 10.0, 1.0), Bar(10.0, 10.0, 10.0, 10.0, 1.0)];
      RollingMean(TrueRanges(bars), 2)[1] == Some(0.0)
  {
    var bars := [Bar(10.0, 10.0, 10.0, 10.0, 1.0), Bar(10.0, 10.0, 10.0, 10.0, 1.0)];
    var tr := TrueRanges(bars);
    assert tr[0] == 0.0 && tr[1] == TrueRange(bars, 1) == 0.0;
    assert tr[0..2] == [0.0, 0.0];
    assert Sum([0.0, 0.0]) == Sum([0.0]) + 0.0;
    assert [0.0, 0.0][..1] == [0.0];
    assert Sum([0.0]) == Sum([]) + 0.0 by { assert [0.0][..0] == []; }
    RollingMeanWithinWindow(tr, 2, 1);
  }
}
