# BNB dip back-tests, modelled in Dafny

This project models the two back-testing engines of the repository. Both are
deterministic passes over an immutable sequence of OHLC bars.

- **DCA-on-dip back-test** (`bnb_spike_backtest.py`):
  - `detect_hiccups` finds "hiccups". A bar fires when the lowest low of the
    next two bars is at least 2% below its close. The scan then finds the
    bottom and the first close back at the reference price, within 96 bars.
    A cooldown cursor keeps events from overlapping.
  - `backtest` stages $10 buys at -2.0%, -2.5%, -3.0%, … below the reference
    price. A level fills only when the bottom reached it. Everything is sold
    at the reference price, or at the partial-recovery close, and one
    capital balance is carried forward.
  - `main` splits the trades into winners and losers and folds the capital
    curve into a peak and a maximum drawdown.
- **Compounding take-profit / stop-loss strategy** (`bnb_optimizer.py`):
  - `compute_rolling_high` is a trailing-window maximum built on a monotonic
    deque.
  - `run_strategy` is one pass that does four things:
    - it enters at a close at least `trigger_pct` below the rolling high of
      the bars before it;
    - it invests `pos_pct`% of the current capital;
    - it exits on the first bar after entry that touches the stop-loss
      (checked first) or the take-profit price. Otherwise it exits at the
      close of bar `min(i + 17280, n-1)`: 60 days of 5-minute bars, or the
      last bar if the data end first;
    - it keeps win/loss counters and the running peak and drawdown.

Prices are Dafny `real`, so the arithmetic is exact.

The hiccup scan, the rolling high and the optimizer pass each have two
forms: an executable method that follows the source loop, with its cooldown
cursor, early `break` and deque, and a reference definition. Each method is
proved equal to its reference, and the properties are stated about the
reference:
- `Hiccups.DetectFrom` is recursive and jumps straight past each event's
  cooldown.
- `RollingHigh.RollingHighSpec` gives, at each position, the maximum high
  of the trailing window.
- `Optimizer.TradesFrom` is recursive and jumps past each trade's holding
  period. `Optimizer.TallyOf` records its trades in order.

`backtest` and its staging loop are modelled only as the recursive functions
`DcaBacktest.Backtest` and `DcaBacktest.Ladder`. Each recursive call handles
one event or one ladder level, as the source's loops do.

Files:
- `bars.dfy`: the `Bar` record, `DropPct` and small arithmetic facts.
- `drawdown.dfy`: the running-peak / maximum-drawdown fold. Both scripts use
  the same fold.
- `rolling_high.dfy`: `compute_rolling_high`.
- `hiccups.dfy`: `detect_hiccups`.
- `dca_backtest.dfy`: `backtest` and the trade statistics of `main`.
- `optimizer.dfy`: `run_strategy`.

The two scripts detect a dip differently:
- The DCA script compares `close[i]` with the lows of bars i+1 and i+2. This
  is `Hiccups.Triggers`.
- The optimizer compares `close[i]` with `rolling_high[i-1]`. This is
  `Optimizer.Enters`.

Neither script checks its configuration or looks for zero prices. The model
states what its arithmetic needs as preconditions (see "Left out"). Any
window length is accepted, including one longer than the series; the model
only asks for `window >= 1`.

## Model

| member | source | states |
|---|---|---|
| `Drawdown.Observe` | bnb_optimizer.py:129-133 | the peak is raised to the new capital before the drawdown is measured from it; the peak never falls and is at least the new capital; the maximum drawdown never falls, bounds the new drawdown and is either the old maximum or the new drawdown |
| `Drawdown.Fold` | bnb_spike_backtest.py:356-363 | folding a capital curve keeps the peak and maximum drawdown non-decreasing; the final peak is at least every value observed and is either the starting peak or one of the values |
| `Drawdown.FoldMonotone` | bnb_spike_backtest.py:358-363 | the running peak and the running maximum drawdown after any prefix of the curve are at most their values after the whole curve |
| `Drawdown.FoldBoundsEveryDrawdown` | bnb_spike_backtest.py:358-363 | the final maximum drawdown is at least the drawdown of every value from the peak that was current when that value was observed |
| `Drawdown.FoldDrawdownAttained` | bnb_spike_backtest.py:358-363 | returns a witness: -1 when the final maximum drawdown is the starting one, otherwise an index j whose value's drawdown from the peak current at it equals the final maximum |
| `Bars.DropPctAtLeast` | bnb_spike_backtest.py:96-97 | a percentage drop of at least `pct` below `ref` is the same as a price at or below `ref * (1 - pct/100)` |
| `Bars.DropPctAntitone` | bnb_spike_backtest.py:120 | a lower price gives a larger percentage drop from the same reference |
| `RollingHigh.MaxHigh` | bnb_optimizer.py:47-58 | the reference window maximum is at least every high in the window and is the high of some bar in it |
| `RollingHigh.FrontIsMax` | bnb_optimizer.py:57 | with the deque invariant, the front entry's high is the maximum high of the trailing window `max(0, i-window+1) .. i` |
| `RollingHigh.SizeBound` | bnb_optimizer.py:52-56 | every deque entry lies inside the window, so the deque never holds more than `window` indices |
| `RollingHigh.KeepsLatestTie` | bnb_optimizer.py:54-55 | the `<=` eviction keeps only the most recent of equal highs: no later bar of the window has the same high as a deque entry |
| `RollingHigh.EvictExpired` | bnb_optimizer.py:52-53 | popping front indices below `i - window + 1` leaves an ordered, covering deque whose entries all lie in the window, ready to admit bar i |
| `RollingHigh.EvictDominated` | bnb_optimizer.py:54-55 | popping back indices whose high is at most bar i's keeps the deque ordered and covering, and leaves a back entry strictly higher than bar i |
| `RollingHigh.Push` | bnb_optimizer.py:56 | appending i behind strictly higher entries restores the invariant: indices strictly increase, highs strictly decrease, entries lie in the window, and each entry dominates the bars back to the previous entry |
| `RollingHigh.Advance` | bnb_optimizer.py:51-57 | one step of the scan keeps the deque invariant, keeps at most `window` entries, and reads the window maximum at the front |
| `RollingHigh.ComputeRollingHigh` | bnb_optimizer.py:47-58 | the output has one value per bar, and value i is the maximum high over bars `max(0, i-window+1) .. i` |
| `RollingHigh.RollingHighPositive` | bnb_optimizer.py:57 | with positive prices every rolling high is positive, so the entry rule never divides by zero |
| `Hiccups.FirstRecoveryShape` | bnb_spike_backtest.py:108-118 | every close before the recovery bar is below the reference price, and the recovery bar closes at or above it or is the last bar scanned |
| `Hiccups.FirstMinLowShape` | bnb_spike_backtest.py:103-111 | the bottom bar has the lowest low of the range and a strictly lower low than every earlier bar of the range (first minimum wins ties) |
| `Hiccups.SpikeAt` | bnb_spike_backtest.py:100-122 | the event that bar i opens starts at i and recovers strictly after i, no later than `min(i+96, n-1)` |
| `Hiccups.SpikeShape` | bnb_spike_backtest.py:103-137 | the event has reference price `close[i]` and recovery price `close[recovery_idx]`. Every close before the recovery bar is below the reference. A recovered event closes at or above the reference; an unrecovered one ends on the last scanned bar, below it. The duration is between 15 and 1440 minutes. The bottom is `low[bottom_idx]`, the minimum over `i+1 .. max(i+2, recovery_idx)`, with the first minimum winning ties |
| `Hiccups.SpikeDropsAtLeastTrigger` | bnb_spike_backtest.py:94-98 | a firing bar's look-ahead low is at most `close[i] * 0.98`, the bottom is at most that low, and the event's drop is at least 2% |
| `Hiccups.ScanForward` | bnb_spike_backtest.py:103-118 | the forward scan returns the first close back at the reference price (else `min(i+96, n-1)`) and the first lowest low over `i+1 .. max(i+2, recovery)` |
| `Hiccups.ScanSpike` | bnb_spike_backtest.py:91-137 | the record the scan builds is the reference event `SpikeAt` |
| `Hiccups.DetectFromEvents` | bnb_spike_backtest.py:87-98 | every detected event starts at a firing bar with at least two bars after it (`idx <= n-3`) and is the event that bar opens |
| `Hiccups.DetectFromStartsAt` | bnb_spike_backtest.py:84-89 | no event of a scan from bar i starts before i |
| `Hiccups.DetectFromNonOverlapping` | bnb_spike_backtest.py:139-140 | each event starts after the previous event's recovery bar |
| `Hiccups.DetectedInTimeOrder` | bnb_spike_backtest.py:273 | event start bars strictly increase, so sorting by `idx` leaves the list unchanged |
| `Hiccups.DetectFromQuiet` | bnb_spike_backtest.py:84-98 | no firing bar is skipped: none lies before the first event, between one event's recovery and the next event, or after the last recovery |
| `Hiccups.DetectHiccups` | bnb_spike_backtest.py:69-142 | the cooldown-cursor scan returns the reference detection, whose events fire, are the events their bars open, and do not overlap |
| `DcaBacktest.AffordableStep` | bnb_spike_backtest.py:173-183 | paying one order leaves exactly one whole order fewer affordable |
| `DcaBacktest.Ladder` | bnb_spike_backtest.py:163-184 | staging buys nothing exactly when the first level is below the bottom or the capital is below one order |
| `DcaBacktest.LadderRungs` | bnb_spike_backtest.py:164-182 | fill k is one order at level `trigger + k*step`, at price `ref*(1-level/100)`, which the bottom reached, for quantity `order/price` |
| `DcaBacktest.LadderWithinCapital` | bnb_spike_backtest.py:173-183 | the orders staged cost no more than the capital available |
| `DcaBacktest.LadderAtMostAffordable` | bnb_spike_backtest.py:173-183 | the number of fills is at most `floor(capital / order_size)` |
| `DcaBacktest.LadderStops` | bnb_spike_backtest.py:166-174 | staging stops at the first level the bottom did not reach or once the remaining capital is below one order |
| `DcaBacktest.LadderTotals` | bnb_spike_backtest.py:192-193 | the total cost is one order per fill and the total quantity is positive when anything filled |
| `DcaBacktest.LadderAccounts` | bnb_spike_backtest.py:192-199 | a non-empty ladder costs `num_buys * order_size`, within the capital, and its quantity is positive and worth a non-negative amount at the sell price |
| `DcaBacktest.Settle` | bnb_spike_backtest.py:159-217 | there is no trade, and capital is unchanged, exactly when the first level was not reached or one order is unaffordable. Otherwise the trade holds the staged ladder, invests `num_buys * order_size <= capital`, and sells at `ref` if recovered, else at the recovery close. Its revenue is `Σqty * sell`, its profit is revenue minus invested, and capital after is capital before plus profit |
| `DcaBacktest.Backtest` | bnb_spike_backtest.py:145-219 | there are at most as many trades as events, the final capital is the initial capital plus every trade's profit, and it equals the last trade's capital after |
| `DcaBacktest.CapitalStaysNonNegative` | bnb_spike_backtest.py:173-174 | starting from non-negative capital, the capital after every trade and at the end is non-negative |
| `DcaBacktest.BacktestFromFirst` | bnb_spike_backtest.py:159 | no trade comes from before the first event |
| `DcaBacktest.BacktestKeepsOrder` | bnb_spike_backtest.py:159-217 | trades keep the order of their events: trade indices strictly increase |
| `DcaBacktest.RevenueAbovePrices` | bnb_spike_backtest.py:192-196 | selling fills at a price above each fill price returns more than the orders cost |
| `DcaBacktest.RungBelowRef` | bnb_spike_backtest.py:167 | a fill at a positive level is priced below the reference price |
| `DcaBacktest.LadderBelowRef` | bnb_spike_backtest.py:164-184 | with a positive first level and a non-negative step every fill is below the reference price |
| `DcaBacktest.RecoveredTradeProfits` | bnb_spike_backtest.py:190-196 | a trade on a fully recovered event has a positive profit |
| `DcaBacktest.BacktestRecoveredWin` | bnb_spike_backtest.py:159-217 | every recovered trade of a run is a winner, so every losing trade is a partial recovery |
| `DcaBacktest.ThreeLevelDip` | bnb_spike_backtest.py:163-184 | a 3% dip from 100 with the default ladder fills exactly the 98, 97.5 and 97 levels |
| `DcaBacktest.Winners` | bnb_spike_backtest.py:307 | every winner has a positive profit |
| `DcaBacktest.Losers` | bnb_spike_backtest.py:308 | every loser has a profit of at most zero |
| `DcaBacktest.WinnersLosersPartition` | bnb_spike_backtest.py:307-308 | winners and losers together are exactly the trades, each once (as multisets) |
| `DcaBacktest.WinnersLosersCount` | bnb_spike_backtest.py:307-312 | the winner and loser counts add up to the number of trades |
| `DcaBacktest.Capitals` | bnb_spike_backtest.py:353 | the curve is 100 followed by each trade's capital after |
| `DcaBacktest.Extremes` | bnb_spike_backtest.py:354-355 | peak and trough are values of the curve, at least and at most every value |
| `DcaBacktest.MaxDrawdown` | bnb_spike_backtest.py:356-363 | the loop's maximum drawdown is the shared drawdown fold over the curve, and it is non-negative |
| `DcaBacktest.DetectedArePriced` | bnb_spike_backtest.py:273 | detected events carry positive prices and come in bar order |
| `DcaBacktest.SpikeBacktest` | bnb_spike_backtest.py:243-274 | detection followed by the default back-test ends with non-negative capital and trades in bar order |
| `Optimizer.FirstTouch` | bnb_optimizer.py:101-111 | the scan stops at the first bar whose low reaches the stop-loss or whose high reaches the take-profit |
| `Optimizer.ExitAt` | bnb_optimizer.py:96-114 | the exit index lies in `i .. min(i + max_hold, n-1)` and is strictly after i whenever `i < n-1` |
| `Optimizer.ExitShape` | bnb_optimizer.py:96-114 | no bar between entry and exit touched either price. A stop-loss exit sells at exactly the stop-loss on a bar whose low reached it. A take-profit exit sells at exactly the take-profit on a bar whose high reached it and whose low did not reach the stop-loss (stop-loss wins a tie). A timeout sells at the close of bar `min(i + max_hold, n-1)`, and no held bar touched a price |
| `Optimizer.ResolveExit` | bnb_optimizer.py:95-114 | the exit loop with its early `break` computes the reference exit |
| `Optimizer.Open` | bnb_optimizer.py:85-121 | a position opened at bar i records i and the capital before, and exits within the holding bound |
| `Optimizer.TradesEntries` | bnb_optimizer.py:74-93 | every trade enters at a bar at or after the first full window, where the close lies at least `trigger_pct` below `rolling_high[i-1]` and the position invests at least 1 |
| `Optimizer.TradesChained` | bnb_optimizer.py:121-135 | each trade starts with the capital the previous one ended with and enters after the previous exit, so trades never overlap |
| `Optimizer.ChainConservesCapital` | bnb_optimizer.py:117-121 | a chain of trades ends with its starting capital plus the sum of the profits |
| `Optimizer.TradesConserveCapital` | bnb_optimizer.py:117-121 | a run ends with the initial capital plus every trade's profit |
| `Optimizer.SkipIsPermanent` | bnb_optimizer.py:91-93 | once the position would invest less than 1, capital never changes again and no further trade occurs |
| `Optimizer.ProfitByExit` | bnb_optimizer.py:87-121 | a take-profit trade gains `invest * tp_pct/100`; a stop-loss trade loses `invest * sl_pct/100`; a trade entered on the last bar times out there with zero profit; capital after is `capital - invest + (invest/buy) * sell` |
| `Optimizer.WinLossByExit` | bnb_optimizer.py:124-127 | for a position that invests a positive amount with a positive take-profit and a non-negative stop-loss percentage, a take-profit exit has a positive profit (a win) and a stop-loss exit a profit of at most zero (a loss) |
| `Optimizer.TradesGaps` | bnb_optimizer.py:74-93 | no bar before the first trade could have traded, and no bar at all when the run has no trade |
| `Optimizer.TradesGapsBetween` | bnb_optimizer.py:74-93 | no bar between one trade's exit and the next trade's entry could have traded at the capital the earlier trade left |
| `Optimizer.TradesGapAfterLast` | bnb_optimizer.py:74-93 | no bar after the last trade's exit could have traded at the capital that trade left |
| `Optimizer.Record` | bnb_optimizer.py:121-133 | recording a trade sets capital to the trade's capital after and adds one trade. A positive profit adds one win and leaves losses unchanged; otherwise losses rise by one and wins stay. Peak and maximum drawdown never fall |
| `Optimizer.TallyOf` | bnb_optimizer.py:66-135 | after any trades the peak is at least 100, the maximum drawdown is at least 0, wins plus losses equal the trade count, and capital is the last trade's capital after (100 before any trade) |
| `Optimizer.TallyCurveIsFold` | bnb_optimizer.py:129-133 | the peak and maximum drawdown are the shared drawdown fold over the capitals after each trade, starting from 100 |
| `Optimizer.TallyCountsWins` | bnb_optimizer.py:124-127 | wins count the trades with positive profit; losses count all the others, including zero-profit trades |
| `Optimizer.Summarize` | bnb_optimizer.py:137-148 | the final capital is 100 grown by the return percentage, so the return is non-negative exactly when the final capital is at least 100. The win rate is the share of winning trades in percent (rate times trade count is 100 times the wins), and lies in 0..100. It is 0 with no trades and exactly when nothing won, and 100 exactly when every trade won |
| `Optimizer.ExecuteTrade` | bnb_optimizer.py:85-121 | the entry, exit scan and P&L compute the reference position |
| `Optimizer.RecordTrade` | bnb_optimizer.py:121-133 | the counter and peak/drawdown updates equal recording the trade |
| `Optimizer.TakeTrade` | bnb_optimizer.py:95-135 | the trade branch opens the position at bar i. The cooldown becomes that position's exit bar, which lies in `i .. n-1`, and capital becomes its capital after. The trades taken so far grow by exactly that position, which is the next trade of the reference run, and the counters stay equal to the tally of those trades |
| `Optimizer.RunStrategy` | bnb_optimizer.py:61-148 | the single pass with its cooldown cursor returns the summary of the reference trades. Its trade count is their number, wins plus losses equals that count, and the maximum drawdown is non-negative |
| `Optimizer.Evaluate` | bnb_optimizer.py:170-181 | a sweep cell (rolling high for the window, then one run) returns the summary of the reference trades over the reference rolling high |

## Left out

- CSV loading (`load_candles_from_csv`, `load_candles`), the microsecond timestamp normalisation and `sys.exit`: I/O. The bars are an input sequence.
- `ts_str` and the `time`, `bottom_time` and `recovery_time` fields: date formatting is a foreign library call. A trade keeps its event's bar index `idx` in place of the formatted time.
- All printing in both `main` functions: report headers, the `level` label string of a fill, sorting by drop or profit for the reports, top/worst lists, average win/loss, best/worst trade, and total deployed/returned.
- The parameter sweep (`itertools.product`) and the sorting and filtering of its results. `Optimizer.Evaluate` models one cell of the sweep.
- Floating-point rounding: prices are exact `real` numbers.
- The model assumes positive highs, lows and closes, as market prices are. Without that, the source can raise ZeroDivisionError in four places: a zero close at a candidate bar (bnb_spike_backtest.py:96), a zero close at an entry bar (bnb_optimizer.py:117), a zero rolling high (bnb_optimizer.py:80), and a zero buy price in DCA staging. That last one follows from a non-positive low that becomes a DCA bottom: the strict-fill test (bnb_spike_backtest.py:170) never stops staging, which can reach a zero buy price at bnb_spike_backtest.py:176; negative buy prices below it would give negative quantities. The model does not follow those inputs.
- The model requires a positive `order_size`, which it uses as the termination measure of the staging loop. The source's loop also stops once a level falls below the bottom, so a zero order with a positive step still ends there. That case is not modelled.
- `RollingHigh.ComputeRollingHigh`: requires `window >= 1`. The sweep only uses windows of at least 864 bars.
- `Optimizer.RunStrategy`: requires `window_candles >= 1`. With 0, the source reads `rolling_high[-1]`, Python's last element.
- `DcaTrade.avgBuy` and `DcaTrade.pnlPct` are computed as in the source. No property is stated about them beyond their defining divisions.
- Optimizer.Summarize: states the return and win rate through exact relations to the final capital and the win count, not as the source's floating-point divisions.
- The `candles` argument of `backtest` is never read by the source and is not a parameter of `DcaBacktest.Backtest`.
- `SpikeBacktest` passes the detected events to the back-test without re-sorting them. `Hiccups.DetectedInTimeOrder` proves their start bars strictly increase, so Python's stable sort by `idx` returns them unchanged.
