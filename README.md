# EMA trend strategy: a verified model of its core

This project models the logic of `strategy.py`, a single-file backtest of a
trend-following rule on price bars. The strategy computes a fast and a slow
exponential moving average of the close and an average true range (ATR).
When no position is open and the fast average crosses the slow one, it places
a bracket order. The stop-loss sits one ATR from the close and the take-profit
`rr` ATRs away. After the backtest, the script copies eleven statistics from
the engine's summary into a renamed report, adds the buy-and-hold return, and
checks that no calendar day saw more than 100 trade entries.

Floating-point numbers are modelled as `real`. A NaN produced by the script's
own computations, or a Python `None`, is modelled as `Option.None`.

Modules, one per part of the file:

- `Wrappers` (`wrappers.dfy`): the `Option` type.
- `Indicators` (`indicators.dfy`): `EMATrend._atr`. A method fills a
  zero-initialised array with true ranges, as the script's loop does
  (strategy.py:52-58). The
  rolling mean is written out as a function: undefined until `atr_period`
  values exist, then the mean of exactly the last `atr_period` values.
- `Planner` (`planner.dfy`): `EMATrend` as a class. It holds the run
  configuration (`fast`, `slow`, `atr_period`, `rr`), the indicator series,
  the position size kept by the engine and the list of orders handed to the
  engine. `Next` is the per-bar step. The decision it takes is the function
  `Decide`.
- `Metrics` (`metrics.dfy`): `extract_metrics` as functions over a summary
  map and the list of closes.
- `Compliance` (`compliance.dfy`): `trade_compliance_check` as functions. It
  groups entry days (day numbers), counts per day, and takes the maximum, the
  mean and the verdict against the cap.

Points where the code behaves differently from what a reader might expect, and what the model does:

- ATR warm-up. The code leaves `tr[0]` at 0, not undefined, and averages that
  0 into the first window. So the first defined ATR is at index
  `atr_period - 1`, and it averages only `atr_period - 1` real true ranges. `Indicators.FirstAtrIncludesZeroSlot`
  states this value exactly.
- EMAs. The code calls pandas' `ewm(span=...).mean()` with default settings,
  which is the bias-adjusted average, not the plain recurrence
  `v[i] = a*p[i] + (1 - a)*v[i-1]` seeded with the first price. The model takes both EMA series as inputs. It does not substitute
  either formula.
- Position state. `next` never sets the position itself. `self.buy` and
  `self.sell` only hand an order to the engine, and the engine opens the
  position when the order fills. The model keeps the engine-held position size
  as a field that `Next` reads and never writes.
- Crossover. `crossover` comes from the backtesting library, whose code is not
  part of this model. The model takes it as a rule over the previous and
  current values of both series. Whether the previous comparison is strict is
  left open. The lemmas assume only that a crossover of `a` over `b` ends with
  `a` above `b` (`Planner.EndsAbove`). A series with fewer than two values
  counts as not crossed.

## Model

| member | source | states |
|---|---|---|
| `Indicators.TrueRange` | strategy.py:52-58 | bar 0 has true range 0; every later bar's true range is one of the three range terms, is at least each of them (so at least high − low), and is never negative |
| `Indicators.ComputeTrueRanges` | strategy.py:52-58 | the array the loop fills is fresh, has one entry per bar and holds exactly the true-range series |
| `Indicators.RollingMean` | strategy.py:60 | the rolling mean has one entry per input, and entry i is defined exactly when i + 1 ≥ period |
| `Indicators.RollingMeanWithinWindow` | strategy.py:60 | a defined rolling mean is the sum of its window divided by the period, and lies between the smallest and the largest value of that window |
| `Indicators.Atr` | strategy.py:47-60 | the ATR series has one entry per bar, is undefined exactly before index period − 1, and equals the rolling mean of the true ranges |
| `Indicators.AtrBounds` | strategy.py:52-60 | each defined ATR value is the mean of the last `period` true ranges, is ≥ 0, and is ≤ the largest true range in its window |
| `Indicators.ExampleZeroAtr` | strategy.py:52-60 | two bars with high = low = close give an ATR of exactly 0 at index 1 under a window of 2 |
| `Indicators.FirstAtrIncludesZeroSlot` | strategy.py:52-60 | the first defined ATR value is the sum of true ranges 1..period−1 divided by period, because slot 0 contributes 0 |
| `Planner.Decide` | strategy.py:62-74 | an order is placed exactly when the ATR is defined, no position is open and one crossover holds; it is long exactly when the upward crossover holds (buy takes precedence); risk (entry to stop) equals the ATR, and reward (entry to target) equals rr times the risk, on the correct side for each direction |
| `Planner.BracketBrackets` | strategy.py:71-74 | with ATR > 0 and rr > 0, a long order has sl < price < tp and a short order has tp < price < sl |
| `Planner.ZeroAtrDegenerateBracket` | strategy.py:63-74 | with a defined ATR of exactly 0, a crossover while flat still hands the engine a bracket whose stop and target both sit at the entry price |
| `Planner.CrossoversExclusive` | strategy.py:70-73 | under a rule that ends above, the upward and the downward crossover never hold on the same bar |
| `Planner.EqualTrendsNoOrder` | strategy.py:69-74 | when the two current EMA values are equal (as in a flat market), no order is placed |
| `Planner.ExampleLongIntent` | strategy.py:71 | close 100, ATR 2, rr 2 with an upward crossover gives a long order with stop 98 and target 104 |
| `Planner.EMATrend.constructor` | strategy.py:33-45 | the strategy keeps its configuration, crossover rule, closes and both EMA series; its ATR series is the rolling mean of the true ranges; it starts flat with no orders |
| `Planner.EMATrend.Next` | strategy.py:62-74 | the order list grows by exactly the order `Decide` takes for the current bar, so by at most one; it is unchanged while the ATR is undefined or a position is open; the position and the indicators are not touched |
| `Metrics.Safe` | strategy.py:79-80 | a lookup yields a value exactly when the key is in the summary, and then it is the summary's value; a missing key is not an error |
| `Metrics.BuyAndHold` | strategy.py:96-99 | the return is defined exactly when the first close is non-zero, and then growing the first close by that percentage gives the last close |
| `Metrics.BuyAndHoldUnique` | strategy.py:96-99 | any percentage that grows the first close into the last is the buy-and-hold return |
| `Metrics.ExtractMetrics` | strategy.py:78-101 | the report has the eleven renamed statistics in order, each holding the summary's value under its source key or undefined, then the buy-and-hold row computed from the closes |
| `Metrics.ReportNamesDistinct` | strategy.py:82-99 | no metric name appears twice in the report |
| `Metrics.BuyAndHoldIgnoresSummary` | strategy.py:96-99 | the buy-and-hold row is the same whatever the engine's summary holds |
| `Metrics.EmptySummaryStillReports` | strategy.py:79-94 | an empty summary still gives a full report of twelve rows, with all eleven copied values undefined |
| `Compliance.Bump` | strategy.py:111 | recording one trade on day x keeps days distinct and counts positive, adds x to the days, adds 1 to x's count only, and adds 1 to the total |
| `Compliance.TradesPerDay` | strategy.py:109-111 | the groups have distinct days, which are exactly the ledger's entry days; each count is positive and equals the reference count of that day; the counts sum to the number of trades |
| `Compliance.MaxTrades` | strategy.py:113 | the maximum is at least every per-day count and equals one of them |
| `Compliance.CheckMaximum` | strategy.py:113 | for a non-empty ledger, the reported maximum bounds every day's count and is the count of some entry day |
| `Compliance.CheckMean` | strategy.py:114 | for a non-empty ledger, the reported mean is the number of trades over the number of distinct entry days, and 1 ≤ mean ≤ maximum |
| `Compliance.MeanBetweenOneAndMax` | strategy.py:113-114 | the mean of positive per-day counts lies between 1 and their maximum |
| `Compliance.Summarise` | strategy.py:113-116 | the report keeps the groups; the maximum is undefined exactly when there are no groups, and then the mean is undefined and the verdict fails; otherwise the verdict is the maximum against the cap |
| `Compliance.CheckEmptyLedger` | strategy.py:109-116 | an empty ledger gives no groups, an undefined maximum and mean, and a failing verdict |
| `Compliance.CheckVerdict` | strategy.py:116 | the verdict holds exactly when the ledger is non-empty and no day's count exceeds the cap |
| `Compliance.TradeComplianceCheck` | strategy.py:105-123 | with the cap of 100, the check complies exactly when the ledger is non-empty and every day has at most 100 entries |
| `Compliance.CheckMonotoneInCap` | strategy.py:116 | raising the cap never turns a pass into a fail |
| `Compliance.ExampleThreeDays` | strategy.py:113-116 | daily counts 3, 5 and 2 give maximum 5, mean 10/3, and compliance under the cap of 100 |

## Left out

- `load_data` (strategy.py:8-23): CSV reading, datetime parsing and sorting are pandas I/O with no logic of the file's own. Bars are given as a sequence.
- EMA computation (strategy.py:36-43): pandas' adjusted `ewm` mean is library code. Both EMA series are inputs, and their warm-up is whatever the caller supplies.
- `crossover` internals (strategy.py:4): library code. It is a rule parameter; see `Planner.EndsAbove`.
- The backtesting engine (strategy.py:136-144): order fills, stop/target exits, the commission function, position accounting, the trade ledger and the summary statistics. The engine writes `positionSize`; trades arrive only as their entry days, and the summary as a map. Whether the engine accepts a bracket whose stop and target sit at the entry price (a zero ATR) is not modelled.
- Printing and CSV output (strategy.py:118-121, 149-152), and the command-line argument check (strategy.py:127-132): I/O.
- IEEE floating point: rounding, infinities and NaN arithmetic. A NaN from the script's own computations, or a `None`, is `Option.None`. A zero first close, which gives a non-finite buy-and-hold return in floating point, gives `None`.
- `Metrics.ExtractMetrics`: every summary value is modelled as a finite real, including the average trade duration, which the engine reports as a time span. A statistic the engine reports as NaN (such as the win rate or profit factor of a run without trades) is outside the model's inputs; only a missing key becomes `None`.
- `Compliance.TradesPerDay`: the groups are in order of first appearance. pandas sorts them by date, which changes only their presentation.
- `Compliance.TradeComplianceCheck`: for an empty ledger the model reports an undefined maximum and mean and a failing verdict, because a NaN maximum compares false with 100. Whether pandas' `.dt` accessor accepts the engine's empty trade table is not modelled.
- `Indicators.Atr`, `Indicators.RollingMean`, `Planner.EMATrend.constructor`: an `atr_period` of 0, which pandas may reject or treat differently, is excluded by a precondition; the strategy's value is 14.
- `Metrics.BuyAndHold`, `Metrics.ExtractMetrics`: an empty bar series makes the program raise IndexError at strategy.py:97 (`iloc[0]` and `iloc[-1]` on an empty column); the precondition `|closes| >= 1` excludes that input instead of modelling the exception.
