/** The compounding take-profit / stop-loss strategy of the parameter sweep
    (bnb_optimizer.py, run_strategy): enter at the close of a bar that lies
    at least trigger_pct below the rolling high of the bars before it, invest
    a fixed percentage of the current capital, exit at the first bar that
    touches the stop-loss (checked first) or the take-profit price, or at
    the close after at most 60 days, and skip every bar up to the exit. */
module Optimizer {
  import opened Bars
  import Drawdown
  import RollingHigh

  /** Length of one bar in minutes. */
  const CandleMinutes: nat := 5
  /** Capital the strategy starts from. */
  const InitialCapital: real := 100.0
  /** Longest holding period in days. */
  const MaxHoldDays: nat := 60
  /** Longest holding period in bars: 60 days of 5-minute bars. */
  const MaxHoldCandles: nat := MaxHoldDays * 24 * 60 / CandleMinutes
  /** Smallest amount a trade invests; a smaller position is skipped. */
  const MinInvest: real := 1.0

  /** Parameters of one run: window of the rolling high in bars and the
      trigger, take-profit, stop-loss and position-size percentages. */
  datatype Params = Params(windowCandles: nat, triggerPct: real, tpPct: real, slPct: real, posPct: real)

  datatype ExitReason = StopLoss | TakeProfit | Timeout

  /** How, where and at what price a position was closed. */
  datatype Exit = Exit(reason: ExitReason, idx: nat, price: real)

  /** One round trip, from the capital before it to the capital after it. */
  datatype Position = Position(
    entryIdx: nat,
    buyPrice: real,
    tpPrice: real,
    slPrice: real,
    capitalBefore: real,
    invest: real,
    exit: Exit,
    qty: real,
    revenue: real,
    profit: real,
    capitalAfter: real)

  /** Counters and capital-curve state after a sequence of trades. */
  datatype Tally = Tally(capital: real, numTrades: nat, wins: nat, losses: nat, curve: Drawdown.Curve)

  /** The result record of a run. */
  datatype Summary = Summary(
    finalCapital: real,
    returnPct: real,
    numTrades: nat,
    wins: nat,
    losses: nat,
    winRate: real,
    maxDd: real)

  /** Last bar a position entered at bar i may be held to. */
  function LastHeld(n: nat, i: nat): nat
    requires i < n
  {
    Min(i + MaxHoldCandles, n - 1)
  }

  /** Bar k touches the stop-loss or the take-profit price. */
  predicate Touches(b: Bar, sl: real, tp: real)
  {
    b.low <= sl || b.high >= tp
  }

  /** The first bar of k..last that touches either price, or last + 1 when
      none does. */
  function FirstTouch(bars: seq<Bar>, k: nat, last: nat, sl: real, tp: real): (r: nat)
    requires k <= last + 1 && last < |bars|
    ensures k <= r <= last + 1
    ensures forall j :: k <= j < r ==> !Touches(bars[j], sl, tp)
    ensures r <= last ==> Touches(bars[r], sl, tp)
    decreases last + 1 - k
  {
    if k > last || Touches(bars[k], sl, tp) then k else FirstTouch(bars, k + 1, last, sl, tp)
  }

  /** FirstTouch is pinned down by its contract. */
  lemma FirstTouchIs(bars: seq<Bar>, k: nat, last: nat, sl: real, tp: real, r: nat)
    requires k <= r <= last + 1 && last < |bars|
    requires forall j :: k <= j < r ==> !Touches(bars[j], sl, tp)
    requires r <= last ==> Touches(bars[r], sl, tp)
    ensures FirstTouch(bars, k, last, sl, tp) == r
  {
  }

  /** The exit of a position entered at bar i: the first later bar that
      touches a price closes it, at the stop-loss when its low reached the
      stop-loss and otherwise at the take-profit; with no such bar it times
      out at the close of the last bar it may be held to. */
  function ExitAt(bars: seq<Bar>, i: nat, sl: real, tp: real): (e: Exit)
    requires i < |bars|
    ensures i <= e.idx <= LastHeld(|bars|, i)
    ensures i + 1 < |bars| ==> i < e.idx
  {
    var last := LastHeld(|bars|, i);
    var r := FirstTouch(bars, i + 1, last, sl, tp);
    if r > last then Exit(Timeout, last, bars[last].close)
    else if bars[r].low <= sl then Exit(StopLoss, r, sl)
    else Exit(TakeProfit, r, tp)
  }

  /** What an exit means: no bar strictly between entry and exit touched a
      price; a stop-loss exit sells at the stop-loss on a bar whose low
      reached it; a take-profit exit sells at the take-profit on a bar whose
      high reached it and whose low did not reach the stop-loss (the
      stop-loss wins a tie); a timeout sells at the close of the last bar the
      position may be held to, and no held bar touched a price. */
  lemma ExitShape(bars: seq<Bar>, i: nat, sl: real, tp: real)
    requires i < |bars|
    ensures var e := ExitAt(bars, i, sl, tp);
      forall k :: i < k < e.idx ==> !Touches(bars[k], sl, tp)
    ensures var e := ExitAt(bars, i, sl, tp);
      e.reason == StopLoss ==> e.price == sl && bars[e.idx].low <= sl
    ensures var e := ExitAt(bars, i, sl, tp);
      e.reason == TakeProfit ==> e.price == tp && bars[e.idx].high >= tp && bars[e.idx].low > sl
    ensures var e := ExitAt(bars, i, sl, tp);
      e.reason == Timeout ==> && e.idx == LastHeld(|bars|, i)
                              && e.price == bars[e.idx].close
                              && forall k :: i < k <= e.idx ==> !Touches(bars[k], sl, tp)
  {
  }

  /** The source's exit scan over bars i+1 .. min(i + max hold, n-1): the
      stop-loss is checked before the take-profit on every bar, and the
      scan stops at the first bar that touches either. */
  method ResolveExit(bars: seq<Bar>, i: nat, sl: real, tp: real) returns (e: Exit)
    requires i < |bars|
    ensures e == ExitAt(bars, i, sl, tp)
  {
    var n := |bars|;
    var reason := Timeout;
    var sellPrice := 0.0;
    var scanEnd := Min(i + MaxHoldCandles + 1, n);
    var exitIdx := Min(i + MaxHoldCandles, n - 1);
    var last := LastHeld(n, i);
    var k := i + 1;
    while k < scanEnd
      invariant i + 1 <= k <= scanEnd && scanEnd == last + 1
      invariant reason == Timeout && exitIdx == last
      invariant forall j :: i + 1 <= j < k ==> !Touches(bars[j], sl, tp)
    {
      if bars[k].low <= sl {
        FirstTouchIs(bars, i + 1, last, sl, tp, k);
        reason, sellPrice, exitIdx := StopLoss, sl, k;
        break;
      }
      if bars[k].high >= tp {
        FirstTouchIs(bars, i + 1, last, sl, tp, k);
        reason, sellPrice, exitIdx := TakeProfit, tp, k;
        break;
      }
      k := k + 1;
    }
    if reason == Timeout {
      FirstTouchIs(bars, i + 1, last, sl, tp, k);
      sellPrice := bars[exitIdx].close;
    }
    e := Exit(reason, exitIdx, sellPrice);
  }

  /** Every value of the rolling-high sequence is positive. */
  ghost predicate PositiveHighs(rh: seq<real>)
  {
    forall k :: 0 <= k < |rh| ==> rh[k] > 0.0
  }

  /** The inputs a run needs: positive prices and one positive rolling high
      per bar. */
  ghost predicate Inputs(bars: seq<Bar>, rh: seq<real>)
  {
    PositivePrices(bars) && |rh| == |bars| && PositiveHighs(rh)
  }

  /** Bar i is an entry signal: its close lies at least trigger_pct below the
      rolling high of the bars up to i - 1 (never bar i's own high). */
  predicate Enters(bars: seq<Bar>, rh: seq<real>, p: Params, i: nat)
    requires Inputs(bars, rh) && 1 <= i < |bars|
  {
    !(DropPct(rh[i - 1], bars[i].close) < p.triggerPct)
  }

  /** Amount a trade invests out of `capital`. */
  function Invest(capital: real, p: Params): real
  {
    capital * (p.posPct / 100.0)
  }

  /** Take-profit price of a position bought at `buy`. */
  function TpPrice(buy: real, p: Params): real
  {
    buy * (1.0 + p.tpPct / 100.0)
  }

  /** Stop-loss price of a position bought at `buy`. */
  function SlPrice(buy: real, p: Params): real
  {
    buy * (1.0 - p.slPct / 100.0)
  }

  /** The position entered at the close of bar i with `capital` available. */
  function Open(bars: seq<Bar>, p: Params, i: nat, capital: real): (t: Position)
    requires PositivePrices(bars) && i < |bars|
    ensures t.entryIdx == i && t.capitalBefore == capital
    ensures i <= t.exit.idx <= LastHeld(|bars|, i)
    ensures i + 1 < |bars| ==> i < t.exit.idx
  {
    var buy := bars[i].close;
    var tpPrice := TpPrice(buy, p);
    var slPrice := SlPrice(buy, p);
    var invest := Invest(capital, p);
    var e := ExitAt(bars, i, slPrice, tpPrice);
    var qty := invest / buy;
    var revenue := qty * e.price;
    Position(i, buy, tpPrice, slPrice, capital, invest, e, qty, revenue, revenue - invest,
             capital - invest + revenue)
  }

  /** Reference run from bar i with `capital`: the first bar that signals
      while the position would invest at least the minimum opens a trade,
      and the search resumes just after its exit bar. */
  function TradesFrom(bars: seq<Bar>, rh: seq<real>, p: Params, i: nat, capital: real): seq<Position>
    requires Inputs(bars, rh) && i >= 1
    decreases |bars| - i
  {
    if i >= |bars| then []
    else if Enters(bars, rh, p, i) && Invest(capital, p) >= MinInvest then
      var t := Open(bars, p, i, capital);
      [t] + TradesFrom(bars, rh, p, t.exit.idx + 1, t.capitalAfter)
    else TradesFrom(bars, rh, p, i + 1, capital)
  }

  /** The trades of a run: from the first bar with a full window, starting
      with the initial capital. */
  function Trades(bars: seq<Bar>, rh: seq<real>, p: Params): seq<Position>
    requires Inputs(bars, rh) && p.windowCandles >= 1
  {
    TradesFrom(bars, rh, p, p.windowCandles, InitialCapital)
  }

  /** A position that the pass may have opened at or after bar i: a signal
      bar, a position of at least the minimum size, and the position opened
      there with the capital it records. */
  ghost predicate ValidEntry(bars: seq<Bar>, rh: seq<real>, p: Params, i: nat, t: Position)
    requires Inputs(bars, rh)
  {
    && 1 <= i <= t.entryIdx < |bars|
    && Enters(bars, rh, p, t.entryIdx)
    && Invest(t.capitalBefore, p) >= MinInvest
    && t == Open(bars, p, t.entryIdx, t.capitalBefore)
  }

  ghost predicate EntriesFrom(bars: seq<Bar>, rh: seq<real>, p: Params, i: nat, ts: seq<Position>)
    requires Inputs(bars, rh)
  {
    forall k :: 0 <= k < |ts| ==> ValidEntry(bars, rh, p, i, ts[k])
  }

  /** Every trade from bar i on enters at a signalling bar at or after i,
      invests at least the minimum, and is the position opened there with the
      capital it had. */
  lemma {:induction false} TradesEntries(bars: seq<Bar>, rh: seq<real>, p: Params, i: nat, capital: real)
    requires Inputs(bars, rh) && i >= 1
    ensures EntriesFrom(bars, rh, p, i, TradesFrom(bars, rh, p, i, capital))
    decreases |bars| - i
  {
    if i < |bars| {
      if Enters(bars, rh, p, i) && Invest(capital, p) >= MinInvest {
        var t := Open(bars, p, i, capital);
        var rest := TradesFrom(bars, rh, p, t.exit.idx + 1, t.capitalAfter);
        TradesEntries(bars, rh, p, t.exit.idx + 1, t.capitalAfter);
        assert TradesFrom(bars, rh, p, i, capital) == [t] + rest;
        assert ValidEntry(bars, rh, p, i, t);
        forall k | 0 <= k < |rest| ensures ValidEntry(bars, rh, p, i, rest[k]) {
          assert ValidEntry(bars, rh, p, t.exit.idx + 1, rest[k]);
        }
      } else {
        TradesEntries(bars, rh, p, i + 1, capital);
        forall t | ValidEntry(bars, rh, p, i + 1, t) ensures ValidEntry(bars, rh, p, i, t) { }
      }
    }
  }

  /** Trades chain: the first starts with `capital`, each later one starts
      with the capital the previous one ended with, and enters after the
      previous one's exit bar. */
  ghost predicate Chained(ts: seq<Position>, capital: real)
  {
    && (|ts| > 0 ==> ts[0].capitalBefore == capital)
    && (forall k :: 0 <= k < |ts| - 1 ==> ts[k + 1].capitalBefore == ts[k].capitalAfter)
    && (forall k :: 0 <= k < |ts| - 1 ==> ts[k].exit.idx < ts[k + 1].entryIdx)
  }

  /** The reference run's trades chain from the capital it starts with. */
  lemma {:induction false} TradesChained(bars: seq<Bar>, rh: seq<real>, p: Params, i: nat, capital: real)
    requires Inputs(bars, rh) && i >= 1
    ensures Chained(TradesFrom(bars, rh, p, i, capital), capital)
    decreases |bars| - i
  {
    if i < |bars| {
      if Enters(bars, rh, p, i) && Invest(capital, p) >= MinInvest {
        var t := Open(bars, p, i, capital);
        var rest := TradesFrom(bars, rh, p, t.exit.idx + 1, t.capitalAfter);
        TradesChained(bars, rh, p, t.exit.idx + 1, t.capitalAfter);
        TradesEntries(bars, rh, p, t.exit.idx + 1, t.capitalAfter);
        var ts := [t] + rest;
        assert TradesFrom(bars, rh, p, i, capital) == ts;
        forall k | 0 <= k < |ts| - 1
          ensures ts[k + 1].capitalBefore == ts[k].capitalAfter && ts[k].exit.idx < ts[k + 1].entryIdx
        {
          assert ts[k + 1] == rest[k];
          if k > 0 {
            assert ts[k] == rest[k - 1];
          }
        }
      } else {
        TradesChained(bars, rh, p, i + 1, capital);
      }
    }
  }

  /** Sum of the profits of a sequence of trades. */
  function SumProfit(ts: seq<Position>): real
  {
    if |ts| == 0 then 0.0 else ts[0].profit + SumProfit(ts[1..])
  }

  /** Capital is conserved: each trade ends with the capital it started
      with plus its profit, so a chain ends with the starting capital plus
      the sum of the profits. */
  lemma {:induction false} ChainConservesCapital(bars: seq<Bar>, ts: seq<Position>, p: Params, capital: real)
    requires PositivePrices(bars) && Chained(ts, capital)
    requires forall k :: 0 <= k < |ts| ==> ts[k].entryIdx < |bars| && ts[k] == Open(bars, p, ts[k].entryIdx, ts[k].capitalBefore)
    ensures |ts| > 0 ==> ts[|ts| - 1].capitalAfter == capital + SumProfit(ts)
  {
    if |ts| > 0 {
      var t := ts[0];
      assert t == Open(bars, p, t.entryIdx, t.capitalBefore);
      assert t.capitalAfter == capital + t.profit;
      var rest := ts[1..];
      if |rest| > 0 {
        assert Chained(rest, t.capitalAfter) by {
          forall k | 0 <= k < |rest| - 1
            ensures rest[k + 1].capitalBefore == rest[k].capitalAfter && rest[k].exit.idx < rest[k + 1].entryIdx
          {
            assert rest[k] == ts[k + 1] && rest[k + 1] == ts[k + 2];
          }
        }
        ChainConservesCapital(bars, rest, p, t.capitalAfter);
        assert ts[|ts| - 1] == rest[|rest| - 1];
      }
    }
  }

  /** The final capital of a run is the initial capital plus every trade's
      profit. */
  lemma TradesConserveCapital(bars: seq<Bar>, rh: seq<real>, p: Params)
    requires Inputs(bars, rh) && p.windowCandles >= 1
    ensures var ts := Trades(bars, rh, p);
      |ts| > 0 ==> ts[|ts| - 1].capitalAfter == InitialCapital + SumProfit(ts)
  {
    var ts := Trades(bars, rh, p);
    TradesEntries(bars, rh, p, p.windowCandles, InitialCapital);
    TradesChained(bars, rh, p, p.windowCandles, InitialCapital);
    ChainConservesCapital(bars, ts, p, InitialCapital);
  }

  /** Once the position size falls under the minimum the capital can no
      longer change, so no later signal trades either. */
  lemma {:induction false} SkipIsPermanent(bars: seq<Bar>, rh: seq<real>, p: Params, i: nat, capital: real)
    requires Inputs(bars, rh) && i >= 1 && Invest(capital, p) < MinInvest
    ensures TradesFrom(bars, rh, p, i, capital) == []
    decreases |bars| - i
  {
    if i < |bars| {
      SkipIsPermanent(bars, rh, p, i + 1, capital);
    }
  }

  /** The profit of a trade by exit: a take-profit gains invest * tp_pct /
      100, a stop-loss loses invest * sl_pct / 100, and a position entered on
      the last bar times out on that same bar with zero profit. */
  lemma ProfitByExit(bars: seq<Bar>, p: Params, i: nat, capital: real)
    requires PositivePrices(bars) && i < |bars|
    ensures var t := Open(bars, p, i, capital);
      t.exit.reason == TakeProfit ==> t.profit == t.invest * p.tpPct / 100.0
    ensures var t := Open(bars, p, i, capital);
      t.exit.reason == StopLoss ==> t.profit == - t.invest * p.slPct / 100.0
    ensures var t := Open(bars, p, i, capital);
      i == |bars| - 1 ==> t.exit == Exit(Timeout, i, bars[i].close) && t.profit == 0.0
    ensures var t := Open(bars, p, i, capital);
      t.capitalAfter == t.capitalBefore - t.invest + t.invest / t.buyPrice * t.exit.price
  {
    var t := Open(bars, p, i, capital);
    var buy := bars[i].close;
    assert t.invest / buy * buy == t.invest;
    if t.exit.reason == TakeProfit {
      assert t.revenue == t.invest / buy * (buy * (1.0 + p.tpPct / 100.0));
    } else if t.exit.reason == StopLoss {
      assert t.revenue == t.invest / buy * (buy * (1.0 - p.slPct / 100.0));
    }
  }

  /** With positive take-profit and non-negative stop-loss percentages and a
      positive position, a take-profit is a win and a stop-loss a loss. */
  lemma WinLossByExit(bars: seq<Bar>, p: Params, i: nat, capital: real)
    requires PositivePrices(bars) && i < |bars|
    requires p.tpPct > 0.0 && p.slPct >= 0.0 && Invest(capital, p) > 0.0
    ensures Open(bars, p, i, capital).exit.reason == TakeProfit ==> Open(bars, p, i, capital).profit > 0.0
    ensures Open(bars, p, i, capital).exit.reason == StopLoss ==> Open(bars, p, i, capital).profit <= 0.0
  {
    ProfitByExit(bars, p, i, capital);
    var t := Open(bars, p, i, capital);
    MulPositive(p.tpPct / 100.0, t.invest);
    MulPositive(p.slPct / 100.0, t.invest);
  }

  /** Between trades no bar trades: before the first trade, between one
      trade's exit and the next entry, and after the last exit, every bar
      either does not signal or would invest less than the minimum. */
  ghost predicate NoTradeIn(bars: seq<Bar>, rh: seq<real>, p: Params, a: nat, b: nat, capital: real)
    requires Inputs(bars, rh) && a >= 1
  {
    forall j :: a <= j < b && j < |bars| ==> !(Enters(bars, rh, p, j) && Invest(capital, p) >= MinInvest)
  }

  /** No bar before the first trade of a run from bar i could have traded,
      and none at all when the run has no trade. */
  lemma {:induction false} TradesGaps(bars: seq<Bar>, rh: seq<real>, p: Params, i: nat, capital: real)
    requires Inputs(bars, rh) && i >= 1
    ensures var ts := TradesFrom(bars, rh, p, i, capital);
      && (|ts| == 0 ==> NoTradeIn(bars, rh, p, i, |bars|, capital))
      && (|ts| > 0 ==> NoTradeIn(bars, rh, p, i, ts[0].entryIdx, capital))
    decreases |bars| - i
  {
    if i < |bars| {
      if !(Enters(bars, rh, p, i) && Invest(capital, p) >= MinInvest) {
        TradesGaps(bars, rh, p, i + 1, capital);
      }
    }
  }

  /** No bar after the last exit of a run from bar i could have traded, at
      the capital the last trade left. */
  lemma {:induction false} TradesGapAfterLast(bars: seq<Bar>, rh: seq<real>, p: Params, i: nat, capital: real)
    requires Inputs(bars, rh) && i >= 1
    ensures var ts := TradesFrom(bars, rh, p, i, capital);
      |ts| > 0 ==> NoTradeIn(bars, rh, p, ts[|ts| - 1].exit.idx + 1, |bars|, ts[|ts| - 1].capitalAfter)
    decreases |bars| - i
  {
    if i < |bars| {
      if Enters(bars, rh, p, i) && Invest(capital, p) >= MinInvest {
        var t := Open(bars, p, i, capital);
        var rest := TradesFrom(bars, rh, p, t.exit.idx + 1, t.capitalAfter);
        var ts := [t] + rest;
        TradeStep(bars, rh, p, i, capital);
        var last := if |rest| > 0 then rest[|rest| - 1] else t;
        assert ts[|ts| - 1] == last;
        assert NoTradeIn(bars, rh, p, last.exit.idx + 1, |bars|, last.capitalAfter) by {
          if |rest| > 0 {
            TradesGapAfterLast(bars, rh, p, t.exit.idx + 1, t.capitalAfter);
          } else {
            TradesGaps(bars, rh, p, t.exit.idx + 1, t.capitalAfter);
          }
        }
      } else {
        SkipStep(bars, rh, p, i, capital);
        TradesGapAfterLast(bars, rh, p, i + 1, capital);
      }
    }
  }

  /** Putting a trade in front of a run keeps every gap between consecutive
      trades free of entries, provided the gap it opens is. */
  lemma GapsCons(bars: seq<Bar>, rh: seq<real>, p: Params, t: Position, rest: seq<Position>)
    requires Inputs(bars, rh)
    requires |rest| > 0 ==> NoTradeIn(bars, rh, p, t.exit.idx + 1, rest[0].entryIdx, t.capitalAfter)
    requires forall k :: 0 <= k < |rest| - 1 ==> NoTradeIn(bars, rh, p, rest[k].exit.idx + 1, rest[k + 1].entryIdx, rest[k].capitalAfter)
    ensures var ts := [t] + rest;
      forall k :: 0 <= k < |ts| - 1 ==> NoTradeIn(bars, rh, p, ts[k].exit.idx + 1, ts[k + 1].entryIdx, ts[k].capitalAfter)
  {
    var ts := [t] + rest;
    forall k | 0 <= k < |ts| - 1
      ensures NoTradeIn(bars, rh, p, ts[k].exit.idx + 1, ts[k + 1].entryIdx, ts[k].capitalAfter)
    {
      assert ts[k + 1] == rest[k];
      if k > 0 {
        assert ts[k] == rest[k - 1];
      }
    }
  }

  /** No bar between one trade's exit and the next trade's entry could have
      traded, at the capital the earlier trade left. */
  lemma {:induction false} TradesGapsBetween(bars: seq<Bar>, rh: seq<real>, p: Params, i: nat, capital: real)
    requires Inputs(bars, rh) && i >= 1
    ensures var ts := TradesFrom(bars, rh, p, i, capital);
      forall k :: 0 <= k < |ts| - 1 ==> NoTradeIn(bars, rh, p, ts[k].exit.idx + 1, ts[k + 1].entryIdx, ts[k].capitalAfter)
    decreases |bars| - i
  {
    if i < |bars| {
      if Enters(bars, rh, p, i) && Invest(capital, p) >= MinInvest {
        var t := Open(bars, p, i, capital);
        var rest := TradesFrom(bars, rh, p, t.exit.idx + 1, t.capitalAfter);
        TradesGapsBetween(bars, rh, p, t.exit.idx + 1, t.capitalAfter);
        TradesGaps(bars, rh, p, t.exit.idx + 1, t.capitalAfter);
        TradeStep(bars, rh, p, i, capital);
        GapsCons(bars, rh, p, t, rest);
      } else {
        SkipStep(bars, rh, p, i, capital);
        TradesGapsBetween(bars, rh, p, i + 1, capital);
      }
    }
  }

  /** Records one trade: capital becomes the trade's capital after, the trade
      counts as a win when its profit is positive and as a loss otherwise,
      and the capital curve observes the new capital. */
  function Record(t: Tally, pos: Position): (r: Tally)
    requires t.curve.peak > 0.0
    ensures r.numTrades == t.numTrades + 1 && r.wins + r.losses == t.wins + t.losses + 1
    ensures r.wins == t.wins + 1 <==> pos.profit > 0.0
    ensures pos.profit > 0.0 ==> r.wins == t.wins + 1 && r.losses == t.losses
    ensures pos.profit <= 0.0 ==> r.wins == t.wins && r.losses == t.losses + 1
    ensures r.capital == pos.capitalAfter
    ensures r.curve.peak >= t.curve.peak && r.curve.maxDd >= t.curve.maxDd
  {
    Tally(pos.capitalAfter, t.numTrades + 1,
          if pos.profit > 0.0 then t.wins + 1 else t.wins,
          if pos.profit > 0.0 then t.losses else t.losses + 1,
          Drawdown.Observe(t.curve, pos.capitalAfter))
  }

  /** The tally before any trade. */
  const Start: Tally := Tally(InitialCapital, 0, 0, 0, Drawdown.Curve(InitialCapital, 0.0))

  /** The tally after the trades `ts`, recorded in order. */
  function TallyOf(ts: seq<Position>): (t: Tally)
    ensures t.curve.peak >= InitialCapital && t.curve.maxDd >= 0.0
    ensures t.numTrades == |ts| && t.wins + t.losses == |ts|
    ensures t.capital == if |ts| == 0 then InitialCapital else ts[|ts| - 1].capitalAfter
    decreases |ts|
  {
    if |ts| == 0 then Start else Record(TallyOf(ts[..|ts| - 1]), ts[|ts| - 1])
  }

  /** The capital after each trade. */
  function CapitalsAfter(ts: seq<Position>): (cs: seq<real>)
    ensures |cs| == |ts| && forall k :: 0 <= k < |ts| ==> cs[k] == ts[k].capitalAfter
  {
    seq(|ts|, k requires 0 <= k < |ts| => ts[k].capitalAfter)
  }

  /** The tally's peak and maximum drawdown are the shared capital-curve fold
      over the capitals after the trades, starting from the initial capital:
      the peak is at least the initial capital and every capital after a
      trade, and the maximum drawdown is the largest drawdown from the peak
      current at each trade. */
  lemma {:induction false} TallyCurveIsFold(ts: seq<Position>)
    ensures TallyOf(ts).curve == Drawdown.Fold(Start.curve, CapitalsAfter(ts))
    decreases |ts|
  {
    if |ts| > 0 {
      var m := |ts| - 1;
      TallyCurveIsFold(ts[..m]);
      assert CapitalsAfter(ts)[..m] == CapitalsAfter(ts[..m]);
    }
  }

  /** Number of winning trades, counted from the front. */
  function CountWins(ts: seq<Position>): nat
  {
    if |ts| == 0 then 0 else (if ts[0].profit > 0.0 then 1 else 0) + CountWins(ts[1..])
  }

  lemma {:induction false} CountWinsSnoc(ts: seq<Position>, t: Position)
    ensures CountWins(ts + [t]) == CountWins(ts) + (if t.profit > 0.0 then 1 else 0)
    decreases |ts|
  {
    if |ts| > 0 {
      assert (ts + [t])[1..] == ts[1..] + [t];
      CountWinsSnoc(ts[1..], t);
    }
  }

  /** The tally's wins are the trades with a positive profit, its losses all
      the others. */
  lemma {:induction false} TallyCountsWins(ts: seq<Position>)
    ensures TallyOf(ts).wins == CountWins(ts)
    ensures TallyOf(ts).losses == |ts| - CountWins(ts)
    decreases |ts|
  {
    if |ts| > 0 {
      var m := |ts| - 1;
      TallyCountsWins(ts[..m]);
      assert ts == ts[..m] + [ts[m]];
      CountWinsSnoc(ts[..m], ts[m]);
    }
  }

  /** The result record of a tally: return in percent of the initial
      capital and win rate in percent of the trades (0 with no trades). */
  function Summarize(t: Tally): (s: Summary)
    requires t.wins <= t.numTrades
    ensures s.finalCapital == t.capital && s.numTrades == t.numTrades
    ensures s.wins == t.wins && s.losses == t.losses && s.maxDd == t.curve.maxDd
    ensures s.returnPct >= 0.0 <==> s.finalCapital >= InitialCapital
    ensures s.finalCapital == InitialCapital * (1.0 + s.returnPct / 100.0)
    ensures 0.0 <= s.winRate <= 100.0
    ensures s.numTrades == 0 ==> s.winRate == 0.0
    ensures s.numTrades > 0 ==> s.winRate * s.numTrades as real == s.wins as real * 100.0
    ensures s.winRate == 0.0 <==> s.wins == 0
    ensures s.winRate == 100.0 <==> s.numTrades > 0 && s.wins == s.numTrades
  {
    var rate := if t.numTrades > 0 then t.wins as real / t.numTrades as real * 100.0 else 0.0;
    assert t.numTrades > 0 ==> t.wins as real / t.numTrades as real <= 1.0;
    Summary(t.capital, (t.capital - InitialCapital) / InitialCapital * 100.0, t.numTrades,
            t.wins, t.losses, rate, t.curve.maxDd)
  }

  /** Opens the position at the close of bar i, resolves its exit and
      settles it against `capital`. */
  method ExecuteTrade(bars: seq<Bar>, p: Params, i: nat, capital: real) returns (t: Position)
    requires PositivePrices(bars) && i < |bars|
    ensures t == Open(bars, p, i, capital)
  {
    var buyPrice := bars[i].close;
    var tpPrice := TpPrice(buyPrice, p);
    var slPrice := SlPrice(buyPrice, p);
    var invest := Invest(capital, p);
    var e := ResolveExit(bars, i, slPrice, tpPrice);
    var qty := invest / buyPrice;
    var revenue := qty * e.price;
    var profit := revenue - invest;
    t := Position(i, buyPrice, tpPrice, slPrice, capital, invest, e, qty, revenue, profit,
                  capital - invest + revenue);
  }

  /** Updates the counters and the running peak and maximum drawdown with
      one trade: the peak is raised first, then the drawdown is measured
      from it. */
  method RecordTrade(numTrades: nat, wins: nat, losses: nat, peakCapital: real, maxDd: real, t: Position)
    returns (numTrades': nat, wins': nat, losses': nat, peakCapital': real, maxDd': real)
    requires peakCapital > 0.0
    ensures Tally(t.capitalAfter, numTrades', wins', losses', Drawdown.Curve(peakCapital', maxDd'))
         == Record(Tally(t.capitalBefore, numTrades, wins, losses, Drawdown.Curve(peakCapital, maxDd)), t)
  {
    var capital := t.capitalAfter;
    numTrades' := numTrades + 1;
    wins', losses' := wins, losses;
    if t.profit > 0.0 {
      wins' := wins + 1;
    } else {
      losses' := losses + 1;
    }
    peakCapital' := peakCapital;
    if capital > peakCapital' {
      peakCapital' := capital;
    }
    var dd := (peakCapital' - capital) / peakCapital' * 100.0;
    maxDd' := maxDd;
    if dd > maxDd' {
      maxDd' := dd;
    }
  }

  /** Recording one more trade extends the tally by that trade. */
  lemma TallyOfSnoc(ts: seq<Position>, t: Position)
    ensures TallyOf(ts + [t]) == Record(TallyOf(ts), t)
  {
    assert (ts + [t])[..|ts|] == ts;
  }

  /** A bar that trades puts its position in front of the run from its exit. */
  lemma TradeStep(bars: seq<Bar>, rh: seq<real>, p: Params, i: nat, capital: real)
    requires Inputs(bars, rh) && 1 <= i < |bars|
    requires Enters(bars, rh, p, i) && Invest(capital, p) >= MinInvest
    ensures var t := Open(bars, p, i, capital);
      TradesFrom(bars, rh, p, i, capital) == [t] + TradesFrom(bars, rh, p, t.exit.idx + 1, t.capitalAfter)
  {
  }

  /** A bar that does not trade leaves the rest of the run unchanged. */
  lemma SkipStep(bars: seq<Bar>, rh: seq<real>, p: Params, i: nat, capital: real)
    requires Inputs(bars, rh) && 1 <= i < |bars|
    requires !(Enters(bars, rh, p, i) && Invest(capital, p) >= MinInvest)
    ensures TradesFrom(bars, rh, p, i, capital) == TradesFrom(bars, rh, p, i + 1, capital)
  {
  }

  /** The trade branch of the pass: opens the position at bar i, records it
      and sets the cooldown to its exit bar. The ghost ledger of trades taken
      so far grows by that trade, which is the next trade of the reference
      run from bar i. */
  method TakeTrade(bars: seq<Bar>, rh: seq<real>, p: Params, i: nat, capital: real,
                   numTrades: nat, wins: nat, losses: nat, peakCapital: real, maxDd: real,
                   ghost ledger: seq<Position>)
    returns (capital': real, cooldownUntil': nat, numTrades': nat, wins': nat, losses': nat,
             peakCapital': real, maxDd': real, ghost ledger': seq<Position>)
    requires Inputs(bars, rh) && 1 <= i < |bars|
    requires Enters(bars, rh, p, i) && Invest(capital, p) >= MinInvest
    requires TallyOf(ledger) == Tally(capital, numTrades, wins, losses, Drawdown.Curve(peakCapital, maxDd))
    ensures i <= cooldownUntil' < |bars|
    ensures cooldownUntil' == Open(bars, p, i, capital).exit.idx
    ensures capital' == Open(bars, p, i, capital).capitalAfter
    ensures ledger' == ledger + [Open(bars, p, i, capital)]
    ensures ledger' + TradesFrom(bars, rh, p, cooldownUntil' + 1, capital') == ledger + TradesFrom(bars, rh, p, i, capital)
    ensures TallyOf(ledger') == Tally(capital', numTrades', wins', losses', Drawdown.Curve(peakCapital', maxDd'))
  {
    var t := ExecuteTrade(bars, p, i, capital);
    TallyOfSnoc(ledger, t);
    numTrades', wins', losses', peakCapital', maxDd' := RecordTrade(numTrades, wins, losses, peakCapital, maxDd, t);
    capital' := t.capitalAfter;
    cooldownUntil' := t.exit.idx;
    ledger' := ledger + [t];
    assert ledger' + TradesFrom(bars, rh, p, cooldownUntil' + 1, capital') == ledger + TradesFrom(bars, rh, p, i, capital) by {
      var rest := TradesFrom(bars, rh, p, cooldownUntil' + 1, capital');
      TradeStep(bars, rh, p, i, capital);
      assert (ledger + [t]) + rest == ledger + ([t] + rest);
    }
  }

  /** run_strategy: one pass over the bars from the first full window with a
      cooldown cursor; each signal with a large enough position is opened,
      its exit resolved, capital, counters and drawdown updated, and every
      bar up to the exit skipped. */
  method RunStrategy(bars: seq<Bar>, rh: seq<real>, p: Params) returns (r: Summary)
    requires Inputs(bars, rh) && p.windowCandles >= 1
    ensures r == Summarize(TallyOf(Trades(bars, rh, p)))
    ensures r.numTrades == |Trades(bars, rh, p)| && r.wins + r.losses == r.numTrades
    ensures r.maxDd >= 0.0
  {
    var n := |bars|;
    var capital := InitialCapital;
    var cooldownUntil: int := -1;
    var numTrades: nat := 0;
    var wins: nat := 0;
    var losses: nat := 0;
    var maxDd := 0.0;
    var peakCapital := capital;
    ghost var ledger: seq<Position> := [];
    var i := p.windowCandles;
    while i < n
      invariant p.windowCandles <= i && -1 <= cooldownUntil < n
      invariant ledger + TradesFrom(bars, rh, p, Max(i, cooldownUntil + 1), capital) == Trades(bars, rh, p)
      invariant TallyOf(ledger) == Tally(capital, numTrades, wins, losses, Drawdown.Curve(peakCapital, maxDd))
      decreases n - i
    {
      if i > cooldownUntil {
        assert Max(i, cooldownUntil + 1) == i;
        var peak := rh[i - 1];
        var close := bars[i].close;
        var dropPct := DropPct(peak, close);
        if !(dropPct < p.triggerPct) {
          var invest := Invest(capital, p);
          if !(invest < MinInvest) {
            var c;
            capital, c, numTrades, wins, losses, peakCapital, maxDd, ledger :=
              TakeTrade(bars, rh, p, i, capital, numTrades, wins, losses, peakCapital, maxDd, ledger);
            cooldownUntil := c;
            assert Max(i + 1, cooldownUntil + 1) == cooldownUntil + 1;
          } else {
            SkipStep(bars, rh, p, i, capital);
            assert Max(i + 1, cooldownUntil + 1) == i + 1;
          }
        } else {
          SkipStep(bars, rh, p, i, capital);
          assert Max(i + 1, cooldownUntil + 1) == i + 1;
        }
      } else {
        assert Max(i + 1, cooldownUntil + 1) == Max(i, cooldownUntil + 1);
      }
      i := i + 1;
    }
    assert ledger == Trades(bars, rh, p);
    r := Summarize(Tally(capital, numTrades, wins, losses, Drawdown.Curve(peakCapital, maxDd)));
  }

  /** The sweep's unit of work: the rolling high of the chosen window, then
      one run over it. */
  method Evaluate(bars: seq<Bar>, p: Params) returns (r: Summary)
    requires PositivePrices(bars) && p.windowCandles >= 1
    ensures Inputs(bars, RollingHigh.RollingHighSpec(bars, p.windowCandles))
    ensures r == Summarize(TallyOf(Trades(bars, RollingHigh.RollingHighSpec(bars, p.windowCandles), p)))
  {
    var rh := RollingHigh.ComputeRollingHigh(bars, p.windowCandles);
    RollingHigh.RollingHighPositive(bars, p.windowCandles);
    r := RunStrategy(bars, rh, p);
  }
}
