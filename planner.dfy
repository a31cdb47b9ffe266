/**
 * The EMA trend strategy's per-bar step: when flat and the ATR is defined, a
 * fast-over-slow crossover opens a long bracket order and a slow-over-fast
 * crossover a short one, with the stop one ATR away and the target `rr` ATRs away.
 */
module Planner {

  import opened Wrappers
  import Indicators

  /** Run-level configuration: EMA spans, ATR window and reward-to-risk multiple. */
  datatype Config = Config(fast: nat, slow: nat, atrPeriod: nat, rr: real)

  /** The strategy's class-level defaults. */
  const Defaults := Config(20, 50, 14, 2.0)

  datatype Side = Long | Short

  /** A market order handed to the engine, with its stop-loss and take-profit levels. */
  datatype Bracket = Bracket(side: Side, sl: real, tp: real)

  /**
   * The library's crossover test, seen only through the last two values of
   * each series: (previous a, previous b, current a, current b). Whether the
   * previous comparison is strict is the library's business.
   */
  type CrossRule = (real, real, real, real) -> bool

  /** A rule can only report "a crossed over b" when a is now above b. */
  ghost predicate EndsAbove(rule: CrossRule)
  {
    forall a0: real, b0: real, a1: real, b1: real :: rule(a0, b0, a1, b1) ==> a1 > b1
  }

  /** `a` crossed over `b` at the last value; a series with fewer than two values has not crossed. */
  function Crossover(rule: CrossRule, a: seq<real>, b: seq<real>): bool
  {
    |a| >= 2 && |b| >= 2 && rule(a[|a| - 2], b[|b| - 2], a[|a| - 1], b[|b| - 1])
  }

  /**
   * The decision of one bar: nothing while the ATR is undefined or a position
   * is open; otherwise a long bracket on an upward crossover, else a short
   * bracket on a downward one.
   */
  function Decide(rr: real, atr: Option<real>, flat: bool, up: bool, down: bool, price: real)
    : (r: Option<Bracket>)
    ensures r.Some? <==> atr.Some? && flat && (up || down)
    ensures r.Some? ==> (r.value.side == Long <==> up)
    ensures r.Some? && r.value.side == Long ==>
      price - r.value.sl == atr.value && r.value.tp - price == rr * (price - r.value.sl)
    ensures r.Some? && r.value.side == Short ==>
      r.value.sl - price == atr.value && price - r.value.tp == rr * (r.value.sl - price)
  {
    if atr.None? || !flat then None
    else if up then Some(Bracket(Long, price - atr.value, price + atr.value * rr))
    else if down then Some(Bracket(Short, price + atr.value, price - atr.value * rr))
    else None
  }

  /** With a positive ATR and a positive multiple the entry price lies strictly inside its bracket. */
  lemma BracketBrackets(rr: real, atr: real, flat: bool, up: bool, down: bool, price: real)
    requires atr > 0.0 && rr > 0.0
    ensures var r := Decide(rr, Some(atr), flat, up, down, price);
      && (r.Some? && r.value.side == Long ==> r.value.sl < price < r.value.tp)
      && (r.Some? && r.value.side == Short ==> r.value.tp < price < r.value.sl)
  {
    assert atr * rr > 0.0;
  }

  /**
   * A zero ATR (bars whose ranges are all zero) is still a defined value: the
   * strategy hands the engine a bracket whose stop and target both sit at the
   * entry price.
   */
  lemma ZeroAtrDegenerateBracket(rr: real, up: bool, down: bool, price: real)
    requires up || down
    ensures var r := Decide(rr, Some(0.0), true, up, down, price);
      r.Some? && r.value.sl == price && r.value.tp == price
  {
    var r := Decide(rr, Some(0.0), true, up, down, price);
    assert 0.0 * rr == 0.0;
    assert r.value.side == Long ==> r.value.sl == price - 0.0 && r.value.tp == price + 0.0 * rr;
    assert r.value.side == Short ==> r.value.sl == price + 0.0 && r.value.tp == price - 0.0 * rr;
  }

  /** Under a rule that ends above, the two crossovers never hold on the same bar. */
  lemma CrossoversExclusive(rule: CrossRule, fast: seq<real>, slow: seq<real>)
    requires EndsAbove(rule)
    ensures !(Crossover(rule, fast, slow) && Crossover(rule, slow, fast))
  {
    if Crossover(rule, fast, slow) {
      var f0, s0, f1, s1 := fast[|fast| - 2], slow[|slow| - 2], fast[|fast| - 1], slow[|slow| - 1];
      assert rule(f0, s0, f1, s1);
      assert !rule(s0, f0, s1, f1);
    }
  }

  /** Equal current EMA values (a flat market) never produce an order. */
  lemma EqualTrendsNoOrder(rule: CrossRule, rr: real, atr: Option<real>, flat: bool,
                           fast: seq<real>, slow: seq<real>, price: real)
    requires EndsAbove(rule)
    requires |fast| >= 1 && |slow| >= 1 && fast[|fast| - 1] == slow[|slow| - 1]
    ensures Decide(rr, atr, flat, Crossover(rule, fast, slow), Crossover(rule, slow, fast), price).None?
  {
    if |fast| >= 2 && |slow| >= 2 {
      var f0, s0, f1, s1 := fast[|fast| - 2], slow[|slow| - 2], fast[|fast| - 1], slow[|slow| - 1];
      assert !rule(f0, s0, f1, s1);
      assert !rule(s0, f0, s1, f1);
    }
  }

  /** Under the default rr of 2, an upward crossover at close 100 with ATR 2 buys with stop 98 and target 104. */
  lemma ExampleLongIntent()
    ensures Decide(Defaults.rr, Some(2.0), true, true, false, 100.0) == Some(Bracket(Long, 98.0, 104.0))
  {
    var r := Decide(Defaults.rr, Some(2.0), true, true, false, 100.0);
    assert r.value.side == Long && r.value.sl == 98.0 && r.value.tp == 104.0;
  }

  /** The orders a decision hands to the engine: none, or the one it took. */
  function Emitted(r: Option<Bracket>): seq<Bracket>
  {
    if r.Some? then [r.value] else []
  }

  /**
   * The strategy object as the engine drives it: indicator series fixed at
   * construction, an engine-held position size, and the orders placed so far.
   */
  class EMATrend {
    const config: Config
    const crossover: CrossRule
    const closes: seq<real>
    const emaFast: seq<real>
    const emaSlow: seq<real>
    const atr: seq<Option<real>>

    /** Size of the open position, kept up to date by the engine; zero when flat. */
    var positionSize: int
    /** Bracket orders handed to the engine, oldest first. */
    var orders: seq<Bracket>

    ghost predicate Valid()
      reads this
    {
      |emaFast| == |closes| && |emaSlow| == |closes| && |atr| == |closes|
    }

    /**
     * Builds the indicators for a bar series. The two EMA series come from
     * the caller; the ATR is computed here.
     */
    constructor (config: Config, crossover: CrossRule, bars: seq<Indicators.Bar>,
                 emaFast: seq<real>, emaSlow: seq<real>)
      requires config.atrPeriod >= 1
      requires |emaFast| == |bars| && |emaSlow| == |bars|
      ensures Valid()
      ensures this.config == config && this.crossover == crossover
      ensures |closes| == |bars| && forall i :: 0 <= i < |bars| ==> closes[i] == bars[i].close
      ensures this.emaFast == emaFast && this.emaSlow == emaSlow
      ensures atr == Indicators.RollingMean(Indicators.TrueRanges(bars), config.atrPeriod)
      ensures positionSize == 0 && orders == []
    {
      this.config := config;
      this.crossover := crossover;
      closes := seq(|bars|, i requires 0 <= i < |bars| => bars[i].close);
      this.emaFast := emaFast;
      this.emaSlow := emaSlow;
      var a := Indicators.Atr(bars, config.atrPeriod);
      atr := a;
      positionSize := 0;
      orders := [];
    }

    /**
     * The step for bar i: the engine has revealed bars 0..i, so "the last
     * value" of every series is its value at i.
     */
    method Next(i: nat)
      requires Valid() && i < |closes|
      modifies this`orders
      ensures Valid()
      ensures var up := Crossover(crossover, emaFast[..i + 1], emaSlow[..i + 1]);
              var down := Crossover(crossover, emaSlow[..i + 1], emaFast[..i + 1]);
              orders == old(orders) + Emitted(Decide(config.rr, atr[i], positionSize == 0, up, down, closes[i]))
      ensures atr[i].None? || positionSize != 0 ==> orders == old(orders)
      ensures |old(orders)| <= |orders| <= |old(orders)| + 1
    {
      if atr[i].None? {
        return;
      }
      var price := closes[i];
      var range := atr[i].value;
      if positionSize == 0 {
        var up := Crossover(crossover, emaFast[..i + 1], emaSlow[..i + 1]);
        ghost var d := Decide(config.rr, atr[i], true, up,
                              Crossover(crossover, emaSlow[..i + 1], emaFast[..i + 1]), price);
        if up {
          orders := orders + [Bracket(Long, price - range, price + range * config.rr)];
          assert d.value.sl == price - range && d.value.tp == price + range * config.rr;
        } else if Crossover(crossover, emaSlow[..i + 1], emaFast[..i + 1]) {
          orders := orders + [Bracket(Short, price + range, price - range * config.rr)];
          assert d.value.sl == price + range && d.value.tp == price - range * config.rr;
        }
      }
    }
  }
}
