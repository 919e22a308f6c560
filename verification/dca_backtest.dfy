/** The DCA-on-dip back-test (bnb_spike_backtest.py, backtest and the summary
    statistics of main): for every detected dip, buy a fixed order at the
    trigger level and at every further step down that the dip's bottom
    actually reached, while capital lasts; sell everything at the reference
    price when the dip recovered, else at the last scanned close. */
module DcaBacktest {
  import opened Bars
  import opened Hiccups
  import Drawdown

  /** Capital the summary statistics start the capital curve from. */
  const InitialCapital: real := 100.0

  /** Parameters of the back-test; the source's defaults are `Defaults`. */
  datatype Config = Config(initialCapital: real, orderSize: real, triggerPct: real, stepPct: real)

  const Defaults: Config := Config(100.0, 10.0, 2.0, 0.5)

  /** One filled ladder level. The source also keeps the level formatted as
      text; `levelPct` is the number it formats. */
  datatype Buy = Buy(levelPct: real, price: real, qty: real, cost: real)

  /** One settled dip. The formatted time of the source is left out; `idx`
      identifies the dip's bar. */
  datatype DcaTrade = DcaTrade(
    idx: nat,
    refPrice: real,
    bottom: real,
    dropPct: real,
    numBuys: nat,
    invested: real,
    avgBuy: real,
    sellPrice: real,
    revenue: real,
    profit: real,
    pnlPct: real,
    capitalAfter: real,
    recovered: bool,
    buys: seq<Buy>,
    durationMin: int)

  /** The outcome of settling one dip: the trade, if any level filled, and
      the capital afterwards. */
  datatype Step = Step(trade: Option<DcaTrade>, capital: real)

  /** The trades of a whole run and the final capital. */
  datatype Outcome = Outcome(trades: seq<DcaTrade>, capital: real)

  /** Price of the level `levelPct` percent below `ref`. */
  function LevelPrice(ref: real, levelPct: real): real
  {
    ref * (1.0 - levelPct / 100.0)
  }

  /** How many whole orders `capital` pays for. */
  function Affordable(capital: real, orderSize: real): nat
    requires orderSize > 0.0
  {
    if capital < orderSize then 0 else (capital / orderSize).Floor
  }

  /** Paying for one order leaves one order fewer affordable. */
  lemma AffordableStep(capital: real, orderSize: real)
    requires orderSize > 0.0 && capital >= orderSize
    ensures Affordable(capital - orderSize, orderSize) == Affordable(capital, orderSize) - 1
  {
    var q := capital / orderSize;
    var r := (capital - orderSize) / orderSize;
    assert r == q - 1.0 by {
      assert (capital - orderSize) / orderSize == capital / orderSize - orderSize / orderSize;
      assert orderSize / orderSize == 1.0;
    }
    assert q >= 1.0 by {
      assert q * orderSize == capital;
      MulPositive(q - 1.0, orderSize);
    }
    assert r.Floor == q.Floor - 1;
    if capital - orderSize < orderSize {
      assert r * orderSize == capital - orderSize;
      assert r < 1.0 by {
        MulPositive(r - 1.0, orderSize);
        assert (r - 1.0) * orderSize == r * orderSize - orderSize;
      }
      assert 0.0 <= r by {
        MulPositive(r, orderSize);
      }
      assert r.Floor == 0;
    }
  }

  /** k repeated additions of x: the offset of the k-th ladder level and the
      spend of k orders, kept as a sum so that the ladder proofs stay linear. */
  function Steps(k: nat, x: real): real
  {
    if k == 0 then 0.0 else Steps(k - 1, x) + x
  }

  /** Steps(k, x) is the product k * x. */
  lemma {:induction false} StepsIsProduct(k: nat, x: real)
    ensures Steps(k, x) == k as real * x
  {
    if k > 0 {
      StepsIsProduct(k - 1, x);
    }
  }

  /** Non-negative steps add up to a non-negative offset. */
  lemma {:induction false} StepsNonNegative(k: nat, x: real)
    requires x >= 0.0
    ensures Steps(k, x) >= 0.0
  {
    if k > 0 {
      StepsNonNegative(k - 1, x);
    }
  }

  /** The level k steps below `level + step` is the level k + 1 steps below
      `level`. */
  lemma {:induction false} StepsShift(level: real, step: real, k: nat)
    ensures (level + step) + Steps(k, step) == level + Steps(k + 1, step)
  {
    if k > 0 {
      StepsShift(level, step, k - 1);
    }
  }

  /** The buy ladder of one dip: starting at `level`, fill one order per
      level while the level's price is not below the dip's bottom and the
      remaining capital pays for an order, stepping `step` percent deeper
      each time. */
  function Ladder(ref: real, bottom: real, capital: real, orderSize: real, level: real, step: real): (buys: seq<Buy>)
    requires bottom > 0.0 && orderSize > 0.0
    ensures |buys| == 0 <==> LevelPrice(ref, level) < bottom || capital < orderSize
    decreases Affordable(capital, orderSize)
  {
    var price := LevelPrice(ref, level);
    if price < bottom || capital < orderSize then []
    else
      AffordableStep(capital, orderSize);
      [Buy(level, price, orderSize / price, orderSize)]
        + Ladder(ref, bottom, capital - orderSize, orderSize, level + step, step)
  }

  /** `b` is the fill of one order at the level `level` below `ref`, which
      the dip's bottom reached. */
  ghost predicate Rung(b: Buy, ref: real, bottom: real, orderSize: real, level: real)
  {
    && bottom > 0.0
    && b.levelPct == level
    && b.price == LevelPrice(ref, level)
    && b.price >= bottom
    && b.qty == orderSize / b.price
    && b.cost == orderSize
  }

  /** Fill k of a ladder is one order at `level + k * step`, at a price the
      bottom reached. */
  lemma {:induction false} LadderRungs(ref: real, bottom: real, capital: real, orderSize: real, level: real, step: real)
    requires bottom > 0.0 && orderSize > 0.0
    ensures var buys := Ladder(ref, bottom, capital, orderSize, level, step);
      forall k :: 0 <= k < |buys| ==> Rung(buys[k], ref, bottom, orderSize, level + Steps(k, step))
    decreases Affordable(capital, orderSize)
  {
    var buys := Ladder(ref, bottom, capital, orderSize, level, step);
    if |buys| > 0 {
      AffordableStep(capital, orderSize);
      var rest := Ladder(ref, bottom, capital - orderSize, orderSize, level + step, step);
      LadderRungs(ref, bottom, capital - orderSize, orderSize, level + step, step);
      assert buys[1..] == rest;
      forall k | 0 < k < |buys|
        ensures Rung(buys[k], ref, bottom, orderSize, level + Steps(k, step))
      {
        assert buys[k] == rest[k - 1];
        RungShift(buys[k], ref, bottom, orderSize, level, step, k - 1);
      }
    }
  }

  /** A rung k levels below `level + step` is the rung k + 1 levels below
      `level`. */
  lemma RungShift(b: Buy, ref: real, bottom: real, orderSize: real, level: real, step: real, k: nat)
    requires Rung(b, ref, bottom, orderSize, (level + step) + Steps(k, step))
    ensures Rung(b, ref, bottom, orderSize, level + Steps(k + 1, step))
  {
    StepsShift(level, step, k);
  }

  /** A ladder spends no more than the capital. */
  lemma {:induction false} LadderWithinCapital(ref: real, bottom: real, capital: real, orderSize: real, level: real, step: real)
    requires bottom > 0.0 && orderSize > 0.0
    ensures var buys := Ladder(ref, bottom, capital, orderSize, level, step);
      |buys| > 0 ==> Steps(|buys|, orderSize) <= capital
    decreases Affordable(capital, orderSize)
  {
    var buys := Ladder(ref, bottom, capital, orderSize, level, step);
    if |buys| > 0 {
      AffordableStep(capital, orderSize);
      var rest := Ladder(ref, bottom, capital - orderSize, orderSize, level + step, step);
      LadderWithinCapital(ref, bottom, capital - orderSize, orderSize, level + step, step);
      assert |buys| == |rest| + 1;
      StepsShift(0.0, orderSize, |rest|);
    }
  }

  /** A ladder holds at most as many fills as whole orders the capital pays
      for. */
  lemma {:induction false} LadderAtMostAffordable(ref: real, bottom: real, capital: real, orderSize: real, level: real, step: real)
    requires bottom > 0.0 && orderSize > 0.0
    ensures |Ladder(ref, bottom, capital, orderSize, level, step)| <= Affordable(capital, orderSize)
    decreases Affordable(capital, orderSize)
  {
    if |Ladder(ref, bottom, capital, orderSize, level, step)| > 0 {
      AffordableStep(capital, orderSize);
      LadderAtMostAffordable(ref, bottom, capital - orderSize, orderSize, level + step, step);
    }
  }

  /** A ladder stops at the first level the bottom did not reach or the first
      order the remaining capital cannot pay for. */
  lemma {:induction false} LadderStops(ref: real, bottom: real, capital: real, orderSize: real, level: real, step: real)
    requires bottom > 0.0 && orderSize > 0.0
    ensures var buys := Ladder(ref, bottom, capital, orderSize, level, step);
      LevelPrice(ref, level + Steps(|buys|, step)) < bottom || capital - Steps(|buys|, orderSize) < orderSize
    decreases Affordable(capital, orderSize)
  {
    var buys := Ladder(ref, bottom, capital, orderSize, level, step);
    if |buys| > 0 {
      AffordableStep(capital, orderSize);
      var rest := Ladder(ref, bottom, capital - orderSize, orderSize, level + step, step);
      LadderStops(ref, bottom, capital - orderSize, orderSize, level + step, step);
      assert |buys| == |rest| + 1;
      StepsShift(level, step, |rest|);
      StepsShift(0.0, orderSize, |rest|);
    }
  }

  /** Total quantity bought. */
  function SumQty(buys: seq<Buy>): real
  {
    if |buys| == 0 then 0.0 else buys[0].qty + SumQty(buys[1..])
  }

  /** Total amount spent. */
  function SumCost(buys: seq<Buy>): real
  {
    if |buys| == 0 then 0.0 else buys[0].cost + SumCost(buys[1..])
  }

  /** Every fill of a ladder is a positive quantity bought for one order. */
  ghost predicate Fills(buys: seq<Buy>, orderSize: real)
  {
    forall k :: 0 <= k < |buys| ==> buys[k].price > 0.0 && buys[k].qty == orderSize / buys[k].price && buys[k].cost == orderSize
  }

  /** The fills of a ladder are fills of one order each. */
  lemma LadderFills(ref: real, bottom: real, capital: real, orderSize: real, level: real, step: real)
    requires bottom > 0.0 && orderSize > 0.0
    ensures Fills(Ladder(ref, bottom, capital, orderSize, level, step), orderSize)
  {
    var buys := Ladder(ref, bottom, capital, orderSize, level, step);
    LadderRungs(ref, bottom, capital, orderSize, level, step);
    forall k | 0 <= k < |buys|
      ensures buys[k].price > 0.0
    {
      assert Rung(buys[k], ref, bottom, orderSize, level + Steps(k, step));
    }
  }

  /** The spend of a ladder is one order per fill and its quantity is
      positive when anything filled. */
  lemma {:induction false} LadderTotals(buys: seq<Buy>, orderSize: real)
    requires orderSize > 0.0 && Fills(buys, orderSize)
    ensures SumCost(buys) == Steps(|buys|, orderSize)
    ensures SumQty(buys) >= 0.0
    ensures |buys| > 0 ==> SumQty(buys) > 0.0
  {
    if |buys| > 0 {
      LadderTotals(buys[1..], orderSize);
      assert buys[0].qty > 0.0 by {
        MulPositive(orderSize, 1.0 / buys[0].price);
      }
    }
  }

  /** A non-empty ladder costs one order per fill, within the capital, and
      buys a positive quantity, worth a non-negative amount at a
      non-negative price. */
  lemma LadderAccounts(ref: real, bottom: real, capital: real, orderSize: real, level: real, step: real, sell: real)
    requires bottom > 0.0 && orderSize > 0.0 && sell >= 0.0
    ensures var buys := Ladder(ref, bottom, capital, orderSize, level, step);
      |buys| > 0 ==>
        && SumCost(buys) == |buys| as real * orderSize <= capital
        && SumQty(buys) > 0.0
        && SumQty(buys) * sell >= 0.0
  {
    var buys := Ladder(ref, bottom, capital, orderSize, level, step);
    LadderFills(ref, bottom, capital, orderSize, level, step);
    LadderWithinCapital(ref, bottom, capital, orderSize, level, step);
    LadderTotals(buys, orderSize);
    StepsIsProduct(|buys|, orderSize);
    if sell > 0.0 {
      MulPositive(SumQty(buys), sell);
    }
  }

  /** The prices the settlement divides by and sells at are positive. */
  ghost predicate Priced(h: Hiccup)
  {
    h.refPrice > 0.0 && h.bottomPrice > 0.0 && h.recoveryPrice > 0.0
  }

  ghost predicate AllPriced(hs: seq<Hiccup>)
  {
    forall k :: 0 <= k < |hs| ==> Priced(hs[k])
  }

  /** Exit price: the reference price after a full recovery, else the close
      of the last scanned bar. */
  function SellPrice(h: Hiccup): real
  {
    if h.recovered then h.refPrice else h.recoveryPrice
  }

  /** Settles one dip against the capital available: no trade, and capital
      unchanged, when the trigger level was not reached or one order is not
      affordable; otherwise the ladder is bought and all of it sold at the
      exit price. */
  function Settle(h: Hiccup, capital: real, cfg: Config): (s: Step)
    requires Priced(h) && cfg.orderSize > 0.0
    ensures s.trade.None? <==> LevelPrice(h.refPrice, cfg.triggerPct) < h.bottomPrice || capital < cfg.orderSize
    ensures s.trade.None? ==> s.capital == capital
    ensures s.trade.Some? ==>
      var t := s.trade.value;
      && t.idx == h.idx && t.recovered == h.recovered
      && t.buys == Ladder(h.refPrice, h.bottomPrice, capital, cfg.orderSize, cfg.triggerPct, cfg.stepPct)
      && t.numBuys == |t.buys| >= 1
      && t.invested == t.numBuys as real * cfg.orderSize <= capital
      && t.sellPrice == SellPrice(h)
      && t.revenue == SumQty(t.buys) * t.sellPrice >= 0.0
      && t.profit == t.revenue - t.invested
      && t.capitalAfter == capital + t.profit == s.capital
  {
    var buys := Ladder(h.refPrice, h.bottomPrice, capital, cfg.orderSize, cfg.triggerPct, cfg.stepPct);
    if |buys| == 0 then Step(None, capital)
    else
      var sell := SellPrice(h);
      LadderAccounts(h.refPrice, h.bottomPrice, capital, cfg.orderSize, cfg.triggerPct, cfg.stepPct, sell);
      var totalQty := SumQty(buys);
      var totalCost := SumCost(buys);
      var revenue := totalQty * sell;
      var profit := revenue - totalCost;
      var after := capital - totalCost + revenue;
      Step(Some(DcaTrade(h.idx, h.refPrice, h.bottomPrice, h.dropPct, |buys|, totalCost,
                         totalCost / totalQty, sell, revenue, profit, profit / totalCost * 100.0,
                         after, h.recovered, buys, h.durationMin)),
           after)
  }

  /** Sum of the profits of a sequence of trades. */
  function SumProfit(ts: seq<DcaTrade>): real
  {
    if |ts| == 0 then 0.0 else ts[0].profit + SumProfit(ts[1..])
  }

  /** backtest: settles the dips in order, each against the capital the
      previous ones left. The final capital is the starting capital plus
      every trade's profit, and it is the last trade's capital after. */
  function Backtest(hs: seq<Hiccup>, capital: real, cfg: Config): (o: Outcome)
    requires AllPriced(hs) && cfg.orderSize > 0.0
    ensures |o.trades| <= |hs|
    ensures o.capital == capital + SumProfit(o.trades)
    ensures |o.trades| == 0 ==> o.capital == capital
    ensures |o.trades| > 0 ==> o.capital == o.trades[|o.trades| - 1].capitalAfter
    decreases |hs|
  {
    if |hs| == 0 then Outcome([], capital)
    else
      var s := Settle(hs[0], capital, cfg);
      var rest := Backtest(hs[1..], s.capital, cfg);
      match s.trade
      case None => rest
      case Some(t) =>
        assert ([t] + rest.trades)[1..] == rest.trades;
        Outcome([t] + rest.trades, rest.capital)
  }

  /** Starting from non-negative capital, no trade ever overspends: the
      capital after every trade, and at the end, is non-negative. */
  lemma {:induction false} CapitalStaysNonNegative(hs: seq<Hiccup>, capital: real, cfg: Config)
    requires AllPriced(hs) && cfg.orderSize > 0.0 && capital >= 0.0
    ensures Backtest(hs, capital, cfg).capital >= 0.0
    ensures forall k :: 0 <= k < |Backtest(hs, capital, cfg).trades| ==> Backtest(hs, capital, cfg).trades[k].capitalAfter >= 0.0
    decreases |hs|
  {
    if |hs| > 0 {
      var s := Settle(hs[0], capital, cfg);
      CapitalStaysNonNegative(hs[1..], s.capital, cfg);
      var o := Backtest(hs, capital, cfg);
      var rest := Backtest(hs[1..], s.capital, cfg);
      if s.trade.Some? {
        assert o.trades == [s.trade.value] + rest.trades;
        forall k | 0 <= k < |o.trades|
          ensures o.trades[k].capitalAfter >= 0.0
        {
          if k > 0 {
            assert o.trades[k] == rest.trades[k - 1];
          }
        }
      }
    }
  }

  /** Trade indices strictly increase. */
  ghost predicate InTimeOrder(ts: seq<DcaTrade>)
  {
    forall k, l :: 0 <= k < l < |ts| ==> ts[k].idx < ts[l].idx
  }

  /** Every trade is one of the dips, so none precedes the first dip. */
  lemma {:induction false} BacktestFromFirst(hs: seq<Hiccup>, capital: real, cfg: Config)
    requires AllPriced(hs) && cfg.orderSize > 0.0 && EventsInOrder(hs)
    ensures forall k :: 0 <= k < |Backtest(hs, capital, cfg).trades| ==> hs[0].idx <= Backtest(hs, capital, cfg).trades[k].idx
    decreases |hs|
  {
    if |hs| > 0 {
      var s := Settle(hs[0], capital, cfg);
      var rest := Backtest(hs[1..], s.capital, cfg);
      BacktestFromFirst(hs[1..], s.capital, cfg);
      if |hs| > 1 {
        assert hs[0].idx < hs[1..][0].idx;
      }
      var o := Backtest(hs, capital, cfg);
      if s.trade.Some? {
        assert o.trades == [s.trade.value] + rest.trades;
        forall k | 0 < k < |o.trades|
          ensures hs[0].idx <= o.trades[k].idx
        {
          assert o.trades[k] == rest.trades[k - 1];
        }
      }
    }
  }

  /** A trade placed before trades in order, all later than it, keeps the
      sequence in order. */
  lemma ConsInTimeOrder(t: DcaTrade, rest: seq<DcaTrade>)
    requires InTimeOrder(rest)
    requires forall m :: 0 <= m < |rest| ==> t.idx < rest[m].idx
    ensures InTimeOrder([t] + rest)
  {
    var ts := [t] + rest;
    forall k, l | 0 <= k < l < |ts|
      ensures ts[k].idx < ts[l].idx
    {
      assert ts[l] == rest[l - 1];
      if k > 0 {
        assert ts[k] == rest[k - 1];
      }
    }
  }

  /** Settling the first dip in front of an ordered run of later dips keeps
      the trades in order. */
  lemma KeepsOrderStep(hs: seq<Hiccup>, capital: real, cfg: Config)
    requires AllPriced(hs) && cfg.orderSize > 0.0 && |hs| > 0 && EventsInOrder(hs)
    requires InTimeOrder(Backtest(hs[1..], Settle(hs[0], capital, cfg).capital, cfg).trades)
    ensures InTimeOrder(Backtest(hs, capital, cfg).trades)
  {
    var s := Settle(hs[0], capital, cfg);
    var rest := Backtest(hs[1..], s.capital, cfg);
    if s.trade.Some? {
      assert forall m :: 0 <= m < |rest.trades| ==> s.trade.value.idx < rest.trades[m].idx by {
        BacktestFromFirst(hs[1..], s.capital, cfg);
        if |hs| > 1 {
          assert hs[0].idx < hs[1..][0].idx;
        }
      }
      ConsInTimeOrder(s.trade.value, rest.trades);
      assert Backtest(hs, capital, cfg).trades == [s.trade.value] + rest.trades;
    }
  }

  /** Trades come out in the order of their dips. */
  lemma {:induction false} BacktestKeepsOrder(hs: seq<Hiccup>, capital: real, cfg: Config)
    requires AllPriced(hs) && cfg.orderSize > 0.0 && EventsInOrder(hs)
    ensures InTimeOrder(Backtest(hs, capital, cfg).trades)
    decreases |hs|
  {
    if |hs| > 0 {
      BacktestKeepsOrder(hs[1..], Settle(hs[0], capital, cfg).capital, cfg);
      KeepsOrderStep(hs, capital, cfg);
    }
  }

  /** Quantity times a price above every fill price is worth more than the
      orders paid for it. */
  lemma {:induction false} RevenueAbovePrices(buys: seq<Buy>, orderSize: real, sell: real)
    requires orderSize > 0.0 && Fills(buys, orderSize)
    requires forall k :: 0 <= k < |buys| ==> buys[k].price < sell
    ensures |buys| > 0 ==> SumQty(buys) * sell > Steps(|buys|, orderSize)
    ensures SumQty(buys) * sell >= Steps(|buys|, orderSize)
  {
    if |buys| > 0 {
      RevenueAbovePrices(buys[1..], orderSize, sell);
      FillValue(buys[0], orderSize, sell);
      SumQtyScale(buys, sell);
    }
  }

  /** One fill sold above its price returns more than its order. */
  lemma FillValue(b: Buy, orderSize: real, sell: real)
    requires orderSize > 0.0 && b.price > 0.0 && b.qty == orderSize / b.price && b.price < sell
    ensures b.qty * sell > orderSize
  {
    assert b.qty * b.price == orderSize;
    assert b.qty > 0.0 by {
      MulPositive(orderSize, 1.0 / b.price);
    }
    MulPositive(sell - b.price, b.qty);
  }

  /** Selling the whole quantity is selling the first fill and then the rest. */
  lemma SumQtyScale(buys: seq<Buy>, sell: real)
    requires |buys| > 0
    ensures SumQty(buys) * sell == buys[0].qty * sell + SumQty(buys[1..]) * sell
  {
    assert SumQty(buys) == buys[0].qty + SumQty(buys[1..]);
  }

  /** A rung at a positive level is priced below the reference price. */
  lemma RungBelowRef(b: Buy, ref: real, bottom: real, orderSize: real, level: real)
    requires ref > 0.0 && level > 0.0 && Rung(b, ref, bottom, orderSize, level)
    ensures b.price < ref
  {
    MulPositive(level / 100.0, ref);
  }

  /** From a positive first level with a non-negative step, every fill of the
      ladder is priced below the reference price. */
  lemma LadderBelowRef(ref: real, bottom: real, capital: real, orderSize: real, level: real, step: real)
    requires ref > 0.0 && bottom > 0.0 && orderSize > 0.0 && level > 0.0 && step >= 0.0
    ensures forall k :: 0 <= k < |Ladder(ref, bottom, capital, orderSize, level, step)| ==>
      Ladder(ref, bottom, capital, orderSize, level, step)[k].price < ref
  {
    var buys := Ladder(ref, bottom, capital, orderSize, level, step);
    LadderRungs(ref, bottom, capital, orderSize, level, step);
    forall k | 0 <= k < |buys|
      ensures buys[k].price < ref
    {
      StepsNonNegative(k, step);
      RungBelowRef(buys[k], ref, bottom, orderSize, level + Steps(k, step));
    }
  }

  /** With a positive trigger and a non-negative step every fill is below the
      reference price, so a dip that recovered in full is always a winning
      trade. */
  lemma RecoveredTradeProfits(h: Hiccup, capital: real, cfg: Config)
    requires Priced(h) && cfg.orderSize > 0.0 && cfg.triggerPct > 0.0 && cfg.stepPct >= 0.0
    requires h.recovered && Settle(h, capital, cfg).trade.Some?
    ensures Settle(h, capital, cfg).trade.value.profit > 0.0
  {
    var buys := Ladder(h.refPrice, h.bottomPrice, capital, cfg.orderSize, cfg.triggerPct, cfg.stepPct);
    LadderBelowRef(h.refPrice, h.bottomPrice, capital, cfg.orderSize, cfg.triggerPct, cfg.stepPct);
    LadderFills(h.refPrice, h.bottomPrice, capital, cfg.orderSize, cfg.triggerPct, cfg.stepPct);
    RevenueAbovePrices(buys, cfg.orderSize, h.refPrice);
    StepsIsProduct(|buys|, cfg.orderSize);
  }

  /** Every trade of a run that recovered in full made a profit: all losing
      trades are partial recoveries. */
  lemma {:induction false} BacktestRecoveredWin(hs: seq<Hiccup>, capital: real, cfg: Config)
    requires AllPriced(hs) && cfg.orderSize > 0.0 && cfg.triggerPct > 0.0 && cfg.stepPct >= 0.0
    ensures forall k :: 0 <= k < |Backtest(hs, capital, cfg).trades| && Backtest(hs, capital, cfg).trades[k].recovered
              ==> Backtest(hs, capital, cfg).trades[k].profit > 0.0
    decreases |hs|
  {
    if |hs| > 0 {
      var s := Settle(hs[0], capital, cfg);
      var rest := Backtest(hs[1..], s.capital, cfg);
      BacktestRecoveredWin(hs[1..], s.capital, cfg);
      var o := Backtest(hs, capital, cfg);
      if s.trade.Some? {
        if hs[0].recovered {
          RecoveredTradeProfits(hs[0], capital, cfg);
        }
        assert o.trades == [s.trade.value] + rest.trades;
        forall k | 0 <= k < |o.trades| && o.trades[k].recovered
          ensures o.trades[k].profit > 0.0
        {
          if k > 0 {
            assert o.trades[k] == rest.trades[k - 1];
          }
        }
      }
    }
  }

  /** A 3% dip from 100 with the default ladder fills the -2.0%, -2.5% and
      -3.0% levels (98, 97.5 and 97) and stops at -3.5% (96.5 is below the
      bottom). */
  lemma ThreeLevelDip()
    ensures var buys := Ladder(100.0, 97.0, 100.0, 10.0, 2.0, 0.5);
      && |buys| == 3
      && buys[0].price == 98.0 && buys[1].price == 97.5 && buys[2].price == 97.0
  {
    var buys := Ladder(100.0, 97.0, 100.0, 10.0, 2.0, 0.5);
    assert LevelPrice(100.0, 2.0 + 3.0 * 0.5) < 97.0;
    assert |buys| >= 3 by {
      var b3 := Ladder(100.0, 97.0, 70.0, 10.0, 3.5, 0.5);
      assert b3 == [];
      var b2 := Ladder(100.0, 97.0, 80.0, 10.0, 3.0, 0.5);
      assert b2 == [Buy(3.0, 97.0, 10.0 / 97.0, 10.0)] + b3;
      var b1 := Ladder(100.0, 97.0, 90.0, 10.0, 2.5, 0.5);
      assert b1 == [Buy(2.5, 97.5, 10.0 / 97.5, 10.0)] + b2;
      assert buys == [Buy(2.0, 98.0, 10.0 / 98.0, 10.0)] + b1;
    }
  }

  /** The trades with a positive profit, in order. */
  function Winners(ts: seq<DcaTrade>): (w: seq<DcaTrade>)
    ensures forall k :: 0 <= k < |w| ==> w[k].profit > 0.0
  {
    if |ts| == 0 then []
    else
      assert ts == [ts[0]] + ts[1..];
      (if ts[0].profit > 0.0 then [ts[0]] else []) + Winners(ts[1..])
  }

  /** The trades with no profit, in order. */
  function Losers(ts: seq<DcaTrade>): (l: seq<DcaTrade>)
    ensures forall k :: 0 <= k < |l| ==> l[k].profit <= 0.0
  {
    if |ts| == 0 then []
    else
      assert ts == [ts[0]] + ts[1..];
      (if ts[0].profit <= 0.0 then [ts[0]] else []) + Losers(ts[1..])
  }

  lemma ConsMultiset<T>(t: T, tail: seq<T>)
    ensures multiset([t] + tail) == multiset{t} + multiset(tail)
  {
  }

  /** The first trade goes to exactly one side. */
  lemma SplitFirst(ts: seq<DcaTrade>)
    requires |ts| > 0
    ensures multiset(Winners(ts)) + multiset(Losers(ts))
         == multiset{ts[0]} + multiset(Winners(ts[1..])) + multiset(Losers(ts[1..]))
  {
    var t, tail := ts[0], ts[1..];
    if t.profit > 0.0 {
      ConsMultiset(t, Winners(tail));
      assert Losers(ts) == Losers(tail);
    } else {
      ConsMultiset(t, Losers(tail));
      assert Winners(ts) == Winners(tail);
    }
  }

  /** Winners and losers split the trades: together they are exactly the
      trades, each once. */
  lemma {:induction false} WinnersLosersPartition(ts: seq<DcaTrade>)
    ensures multiset(Winners(ts)) + multiset(Losers(ts)) == multiset(ts)
  {
    if |ts| > 0 {
      WinnersLosersPartition(ts[1..]);
      SplitFirst(ts);
      ConsMultiset(ts[0], ts[1..]);
      assert ts == [ts[0]] + ts[1..];
    }
  }

  /** Every trade is counted once, as a winner or as a loser. */
  lemma WinnersLosersCount(ts: seq<DcaTrade>)
    ensures |Winners(ts)| + |Losers(ts)| == |ts|
  {
    WinnersLosersPartition(ts);
    assert |multiset(Winners(ts)) + multiset(Losers(ts))| == |multiset(ts)|;
  }

  /** The capital curve of the summary: the initial capital followed by the
      capital after each trade. */
  function Capitals(ts: seq<DcaTrade>): (cs: seq<real>)
    ensures |cs| == |ts| + 1 && cs[0] == InitialCapital
    ensures forall k :: 0 <= k < |ts| ==> cs[k + 1] == ts[k].capitalAfter
  {
    [InitialCapital] + seq(|ts|, k requires 0 <= k < |ts| => ts[k].capitalAfter)
  }

  /** The summary's highest and lowest capital. */
  method Extremes(capitals: seq<real>) returns (peak: real, trough: real)
    requires |capitals| > 0
    ensures peak in capitals && forall k :: 0 <= k < |capitals| ==> capitals[k] <= peak
    ensures trough in capitals && forall k :: 0 <= k < |capitals| ==> trough <= capitals[k]
  {
    peak, trough := capitals[0], capitals[0];
    var i := 1;
    while i < |capitals|
      invariant 1 <= i <= |capitals|
      invariant peak in capitals && forall k :: 0 <= k < i ==> capitals[k] <= peak
      invariant trough in capitals && forall k :: 0 <= k < i ==> trough <= capitals[k]
    {
      if capitals[i] > peak { peak := capitals[i]; }
      if capitals[i] < trough { trough := capitals[i]; }
      i := i + 1;
    }
  }

  /** The summary's largest drawdown: over the capital curve, the peak is
      raised before each value's drawdown from it is measured. */
  method MaxDrawdown(capitals: seq<real>) returns (maxDd: real)
    requires |capitals| > 0 && capitals[0] > 0.0
    ensures maxDd == Drawdown.Fold(Drawdown.Curve(capitals[0], 0.0), capitals).maxDd
    ensures maxDd >= 0.0
  {
    var start := Drawdown.Curve(capitals[0], 0.0);
    maxDd := 0.0;
    var runningPeak := capitals[0];
    var i := 0;
    while i < |capitals|
      invariant i <= |capitals|
      invariant Drawdown.Fold(start, capitals[..i]) == Drawdown.Curve(runningPeak, maxDd)
    {
      var c := capitals[i];
      if c > runningPeak { runningPeak := c; }
      var dd := (runningPeak - c) / runningPeak * 100.0;
      if dd > maxDd { maxDd := dd; }
      assert capitals[..i + 1][..i] == capitals[..i];
      i := i + 1;
    }
    assert capitals[..i] == capitals;
  }

  /** Every dip the detector reports carries positive prices. */
  lemma DetectedArePriced(bars: seq<Bar>)
    requires PositivePrices(bars)
    ensures AllPriced(DetectFrom(bars, 0))
    ensures EventsInOrder(DetectFrom(bars, 0))
  {
    var hs := DetectFrom(bars, 0);
    DetectFromEvents(bars, 0);
    forall k | 0 <= k < |hs|
      ensures Priced(hs[k])
    {
      SpikeShape(bars, hs[k].idx);
    }
    DetectedInTimeOrder(bars, 0);
  }

  /** The whole back-test: detect the dips, take them in bar order and run
      the default ladder from the default capital. */
  method SpikeBacktest(bars: seq<Bar>) returns (o: Outcome)
    requires PositivePrices(bars)
    ensures AllPriced(DetectFrom(bars, 0))
    ensures o == Backtest(DetectFrom(bars, 0), Defaults.initialCapital, Defaults)
    ensures o.capital >= 0.0 && InTimeOrder(o.trades)
  {
    var hs := DetectHiccups(bars);
    DetectedArePriced(bars);
    o := Backtest(hs, Defaults.initialCapital, Defaults);
    CapitalStaysNonNegative(hs, Defaults.initialCapital, Defaults);
    BacktestKeepsOrder(hs, Defaults.initialCapital, Defaults);
  }
}
