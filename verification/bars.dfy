/** Price bars, the immutable input that both back-testing engines consume,
    and the small arithmetic vocabulary they share. */
module Bars {

  /** One OHLC bar. Times are milliseconds since the epoch; the engines never
      read them, they only travel with the bar. */
  datatype Bar = Bar(openTime: int, open: real, high: real, low: real, close: real, volume: real, closeTime: int)

  /** A value that may be absent, as Python's `None`. */
  datatype Option<T> = None | Some(value: T)

  /** Every price the engines divide by or compare against is strictly
      positive. Floating-point prices from a market feed always are. */
  ghost predicate PositivePrices(bars: seq<Bar>)
  {
    forall k :: 0 <= k < |bars| ==> bars[k].high > 0.0 && bars[k].low > 0.0 && bars[k].close > 0.0
  }

  function Min(a: int, b: int): int
  {
    if a <= b then a else b
  }

  function Max(a: int, b: int): int
  {
    if a >= b then a else b
  }

  function MinReal(a: real, b: real): real
  {
    if a <= b then a else b
  }

  /** How far, in percent of `ref`, the price `price` lies below `ref`. */
  function DropPct(ref: real, price: real): real
    requires ref > 0.0
  {
    (ref - price) / ref * 100.0
  }

  /** A drop of at least `pct` percent is the same as a price at or below the
      level `ref * (1 - pct / 100)`. */
  lemma DropPctAtLeast(ref: real, price: real, pct: real)
    requires ref > 0.0
    ensures DropPct(ref, price) >= pct <==> price <= ref * (1.0 - pct / 100.0)
  {
    var d := (ref - price) / ref;
    assert d * ref == ref - price;
    calc {
      DropPct(ref, price) >= pct;
    <==>
      d * 100.0 >= pct;
    <==> { MulPositive(d * 100.0 - pct, ref); MulPositive(pct - d * 100.0, ref); }
      (d * 100.0 - pct) * ref >= 0.0;
    <==>
      price <= ref * (1.0 - pct / 100.0);
    }
  }

  /** The lower the price, the larger the drop. */
  lemma DropPctAntitone(ref: real, a: real, b: real)
    requires ref > 0.0 && a <= b
    ensures DropPct(ref, a) >= DropPct(ref, b)
  {
    assert (ref - a) / ref - (ref - b) / ref == (b - a) / ref;
    MulPositive(b - a, 1.0 / ref);
  }

  lemma MulPositive(x: real, y: real)
    requires y > 0.0
    ensures x > 0.0 ==> x * y > 0.0
    ensures x >= 0.0 ==> x * y >= 0.0
    ensures x < 0.0 ==> x * y < 0.0
  {
  }
}
