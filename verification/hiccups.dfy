/** Dip ("hiccup") detection of the DCA back-test (bnb_spike_backtest.py,
    detect_hiccups): a bar fires when the lowest low of the next two bars is at
    least 2% below its close; the event then runs until the first close back at
    that reference price, for at most 96 bars, and no event starts inside it. */
module Hiccups {
  import opened Bars

  /** Minimum drop, in percent, that fires an event. */
  const TriggerDropPct: real := 2.0
  /** Longest stretch scanned for the bottom and the recovery: 24 hours of 15-minute bars. */
  const ScanBars: nat := 96
  /** Length of one bar in minutes. */
  const BarMinutes: nat := 15

  /** One detected dip. The formatted timestamps of the source are left out;
      `idx` identifies the bar. */
  datatype Hiccup = Hiccup(
    idx: nat,
    refPrice: real,
    bottomPrice: real,
    bottomIdx: nat,
    recoveryIdx: nat,
    recoveryPrice: real,
    recovered: bool,
    dropPct: real,
    durationMin: int)

  /** Lowest low of the two bars after i. */
  function WindowLow(bars: seq<Bar>, i: nat): real
    requires i + 2 < |bars|
  {
    MinReal(bars[i + 1].low, bars[i + 2].low)
  }

  /** Bar i fires: its two-bar look-ahead drop is not below the trigger. */
  predicate Triggers(bars: seq<Bar>, i: nat)
    requires i + 2 < |bars| && PositivePrices(bars)
  {
    !(DropPct(bars[i].close, WindowLow(bars, i)) < TriggerDropPct)
  }

  /** Last bar the scan after bar i looks at. */
  function LastScanned(n: nat, i: nat): nat
    requires i < n
  {
    Min(i + ScanBars, n - 1)
  }

  /** The first bar in k..last whose close is at least `ref`, or `last` when
      there is none (see FirstRecoveryShape). */
  function FirstRecovery(bars: seq<Bar>, ref: real, k: nat, last: nat): (r: nat)
    requires k <= last < |bars|
    ensures k <= r <= last
    decreases last - k
  {
    if bars[k].close >= ref || k == last then k else FirstRecovery(bars, ref, k + 1, last)
  }

  /** Every close before the recovery bar is below `ref`, and the recovery bar
      is at `ref` or is the last bar scanned. */
  lemma {:induction false} FirstRecoveryShape(bars: seq<Bar>, ref: real, k: nat, last: nat)
    requires k <= last < |bars|
    ensures var r := FirstRecovery(bars, ref, k, last);
      && (forall j :: k <= j < r ==> bars[j].close < ref)
      && (bars[r].close >= ref || r == last)
    decreases last - k
  {
    if !(bars[k].close >= ref || k == last) {
      FirstRecoveryShape(bars, ref, k + 1, last);
    }
  }

  /** The first bar of lo..hi with the lowest low (see FirstMinLowShape). */
  function FirstMinLow(bars: seq<Bar>, lo: nat, hi: nat): (r: nat)
    requires lo <= hi < |bars|
    ensures lo <= r <= hi
    decreases hi - lo
  {
    if lo == hi then lo
    else
      var r' := FirstMinLow(bars, lo, hi - 1);
      if bars[hi].low < bars[r'].low then hi else r'
  }

  /** The first bar of lo..hi with the lowest low is `r`. */
  ghost predicate IsFirstMinLow(bars: seq<Bar>, lo: nat, hi: nat, r: nat)
    requires hi < |bars|
  {
    && lo <= r <= hi
    && (forall j :: lo <= j <= hi ==> bars[r].low <= bars[j].low)
    && (forall j :: lo <= j < r ==> bars[r].low < bars[j].low)
  }

  /** FirstMinLow's bar has a low no greater than any bar of the range and
      strictly below every earlier one. */
  lemma {:induction false} FirstMinLowShape(bars: seq<Bar>, lo: nat, hi: nat)
    requires lo <= hi < |bars|
    ensures IsFirstMinLow(bars, lo, hi, FirstMinLow(bars, lo, hi))
    decreases hi - lo
  {
    if lo < hi {
      FirstMinLowShape(bars, lo, hi - 1);
    }
  }

  /** The event that bar i opens: reference price, bottom and recovery. */
  function SpikeAt(bars: seq<Bar>, i: nat): (h: Hiccup)
    requires i + 2 < |bars| && PositivePrices(bars)
    ensures h.idx == i && i < h.recoveryIdx <= LastScanned(|bars|, i)
  {
    var ref := bars[i].close;
    var rec := FirstRecovery(bars, ref, i + 1, LastScanned(|bars|, i));
    var b := FirstMinLow(bars, i + 1, Max(i + 2, rec));
    Hiccup(i, ref, bars[b].low, b, rec, bars[rec].close, bars[rec].close >= ref,
           DropPct(ref, bars[b].low), (rec - i) * BarMinutes)
  }

  /** The shape of the event a bar opens: the recovery is the first close
      back at the reference price within the scan (else the last scanned bar,
      not recovered), the duration is 15 minutes to 24 hours, and the bottom is
      the first lowest low of the look-ahead pair and the scanned bars. */
  lemma SpikeShape(bars: seq<Bar>, i: nat)
    requires i + 2 < |bars| && PositivePrices(bars)
    ensures SpikeAt(bars, i).refPrice == bars[i].close
    ensures var h := SpikeAt(bars, i); h.recoveryPrice == bars[h.recoveryIdx].close
    ensures var h := SpikeAt(bars, i); forall j :: i < j < h.recoveryIdx ==> bars[j].close < h.refPrice
    ensures var h := SpikeAt(bars, i); h.recovered ==> bars[h.recoveryIdx].close >= h.refPrice
    ensures var h := SpikeAt(bars, i); !h.recovered ==> h.recoveryIdx == LastScanned(|bars|, i) && bars[h.recoveryIdx].close < h.refPrice
    ensures var h := SpikeAt(bars, i); BarMinutes <= h.durationMin <= ScanBars * BarMinutes
    ensures var h := SpikeAt(bars, i); i < h.bottomIdx <= Max(i + 2, h.recoveryIdx)
    ensures var h := SpikeAt(bars, i); h.bottomPrice == bars[h.bottomIdx].low
    ensures var h := SpikeAt(bars, i); forall j :: i < j <= Max(i + 2, h.recoveryIdx) ==> h.bottomPrice <= bars[j].low
    ensures var h := SpikeAt(bars, i); forall j :: i < j < h.bottomIdx ==> h.bottomPrice < bars[j].low
  {
    var rec := FirstRecovery(bars, bars[i].close, i + 1, LastScanned(|bars|, i));
    FirstRecoveryShape(bars, bars[i].close, i + 1, LastScanned(|bars|, i));
    FirstMinLowShape(bars, i + 1, Max(i + 2, rec));
  }

  /** A firing bar opens an event whose look-ahead low, and hence whose bottom,
      lies at least 2% below the reference price. */
  lemma SpikeDropsAtLeastTrigger(bars: seq<Bar>, i: nat)
    requires i + 2 < |bars| && PositivePrices(bars) && Triggers(bars, i)
    ensures WindowLow(bars, i) <= bars[i].close * (1.0 - TriggerDropPct / 100.0)
    ensures SpikeAt(bars, i).bottomPrice <= WindowLow(bars, i)
    ensures SpikeAt(bars, i).dropPct >= TriggerDropPct
  {
    var h := SpikeAt(bars, i);
    SpikeShape(bars, i);
    DropPctAtLeast(bars[i].close, WindowLow(bars, i), TriggerDropPct);
    assert h.bottomPrice <= bars[i + 1].low && h.bottomPrice <= bars[i + 2].low;
    DropPctAntitone(bars[i].close, h.bottomPrice, WindowLow(bars, i));
  }

  /** FirstRecovery is pinned down by its contract. */
  lemma FirstRecoveryIs(bars: seq<Bar>, ref: real, k: nat, last: nat, r: nat)
    requires k <= r <= last < |bars|
    requires forall j :: k <= j < r ==> bars[j].close < ref
    requires bars[r].close >= ref || r == last
    ensures FirstRecovery(bars, ref, k, last) == r
  {
    FirstRecoveryShape(bars, ref, k, last);
  }

  /** SpikeAt once its recovery and bottom bars are known. */
  lemma SpikeAtUnfold(bars: seq<Bar>, i: nat, rec: nat, b: nat)
    requires i + 2 < |bars| && PositivePrices(bars)
    requires i < rec <= LastScanned(|bars|, i) && rec == FirstRecovery(bars, bars[i].close, i + 1, LastScanned(|bars|, i))
    requires b < |bars| && b == FirstMinLow(bars, i + 1, Max(i + 2, rec))
    ensures SpikeAt(bars, i) == Hiccup(i, bars[i].close, bars[b].low, b, rec, bars[rec].close,
                                       bars[rec].close >= bars[i].close, DropPct(bars[i].close, bars[b].low),
                                       (rec - i) * BarMinutes)
  {
  }

  /** FirstMinLow is pinned down by its contract. */
  lemma FirstMinLowIs(bars: seq<Bar>, lo: nat, hi: nat, r: nat)
    requires lo <= hi < |bars| && IsFirstMinLow(bars, lo, hi, r)
    ensures FirstMinLow(bars, lo, hi) == r
  {
    var f := FirstMinLow(bars, lo, hi);
    FirstMinLowShape(bars, lo, hi);
    assert bars[f].low <= bars[r].low && bars[r].low <= bars[f].low;
  }

  /** The source's inner scan over bars i+1 .. min(i+96, n-1): tracks the
      lowest low (a later bar replaces the bottom only when strictly lower) and
      stops at the first close back at the reference price. */
  method ScanForward(bars: seq<Bar>, i: nat) returns (bottomIdx: nat, recoveryIdx: nat)
    requires i + 2 < |bars| && PositivePrices(bars)
    ensures i < recoveryIdx <= LastScanned(|bars|, i)
    ensures forall j :: i < j < recoveryIdx ==> bars[j].close < bars[i].close
    ensures bars[recoveryIdx].close >= bars[i].close || recoveryIdx == LastScanned(|bars|, i)
    ensures IsFirstMinLow(bars, i + 1, Max(i + 2, recoveryIdx), bottomIdx)
  {
    var n := |bars|;
    var ref := bars[i].close;
    var bottomPrice := MinReal(bars[i + 1].low, bars[i + 2].low);
    bottomIdx := if bars[i + 1].low <= bars[i + 2].low then i + 1 else i + 2;
    var recovery: Option<nat> := None;
    var scanEnd := Min(i + ScanBars + 1, n);
    var k := i + 1;
    while k < scanEnd
      invariant i + 1 <= k <= scanEnd
      invariant recovery == None
      invariant forall j :: i + 1 <= j < k ==> bars[j].close < ref
      invariant IsFirstMinLow(bars, i + 1, Max(i + 2, k - 1), bottomIdx)
      invariant bottomPrice == bars[bottomIdx].low
    {
      if bars[k].low < bottomPrice {
        bottomPrice := bars[k].low;
        bottomIdx := k;
      }
      if bars[k].close >= ref {
        recovery := Some(k);
        assert IsFirstMinLow(bars, i + 1, Max(i + 2, k), bottomIdx);
        break;
      }
      k := k + 1;
    }
    if recovery.Some? {
      recoveryIdx := recovery.value;
    } else {
      recoveryIdx := Min(i + ScanBars, n - 1);
      assert recoveryIdx == k - 1;
    }
  }

  /** Builds the event record of a firing bar i from the scan. */
  method ScanSpike(bars: seq<Bar>, i: nat) returns (h: Hiccup)
    requires i + 2 < |bars| && PositivePrices(bars)
    ensures h == SpikeAt(bars, i)
  {
    var ref := bars[i].close;
    var bottomIdx, recoveryIdx := ScanForward(bars, i);
    var bottomPrice := bars[bottomIdx].low;
    FirstMinLowIs(bars, i + 1, Max(i + 2, recoveryIdx), bottomIdx);
    FirstRecoveryIs(bars, ref, i + 1, LastScanned(|bars|, i), recoveryIdx);
    SpikeAtUnfold(bars, i, recoveryIdx, bottomIdx);
    h := Hiccup(i, ref, bottomPrice, bottomIdx, recoveryIdx, bars[recoveryIdx].close,
                bars[recoveryIdx].close >= ref, DropPct(ref, bottomPrice), (recoveryIdx - i) * BarMinutes);
  }

  /** Reference detection from bar i onward: the first firing bar opens an
      event and the search resumes just after its recovery bar. */
  function DetectFrom(bars: seq<Bar>, i: nat): seq<Hiccup>
    requires PositivePrices(bars) && i <= |bars|
    decreases |bars| - i
  {
    if i + 2 >= |bars| then []
    else if Triggers(bars, i) then
      var h := SpikeAt(bars, i);
      [h] + DetectFrom(bars, h.recoveryIdx + 1)
    else DetectFrom(bars, i + 1)
  }

  /** No bar in a..b-1 that has a two-bar look-ahead fires. */
  ghost predicate Quiet(bars: seq<Bar>, a: nat, b: nat)
    requires PositivePrices(bars)
  {
    forall j :: a <= j < b && j + 2 < |bars| ==> !Triggers(bars, j)
  }

  /** Every event starts at a firing bar at or after i and is the event that
      bar opens. */
  ghost predicate EventsFrom(bars: seq<Bar>, i: nat, hs: seq<Hiccup>)
    requires PositivePrices(bars)
  {
    forall k :: 0 <= k < |hs| ==>
      && i <= hs[k].idx && hs[k].idx + 2 < |bars|
      && Triggers(bars, hs[k].idx)
      && hs[k] == SpikeAt(bars, hs[k].idx)
  }

  /** Each event starts after the previous event's recovery bar. */
  ghost predicate NonOverlapping(hs: seq<Hiccup>)
  {
    forall k :: 0 <= k < |hs| - 1 ==> hs[k].recoveryIdx < hs[k + 1].idx
  }

  /** Every event of DetectFrom(bars, i) is opened by a firing bar at or after i. */
  lemma {:induction false} DetectFromEvents(bars: seq<Bar>, i: nat)
    requires PositivePrices(bars) && i <= |bars|
    ensures EventsFrom(bars, i, DetectFrom(bars, i))
    decreases |bars| - i
  {
    if i + 2 < |bars| {
      if Triggers(bars, i) {
        var h := SpikeAt(bars, i);
        var rest := DetectFrom(bars, h.recoveryIdx + 1);
        DetectFromEvents(bars, h.recoveryIdx + 1);
        var hs := [h] + rest;
        assert DetectFrom(bars, i) == hs;
        forall k | 0 <= k < |hs|
          ensures i <= hs[k].idx && hs[k].idx + 2 < |bars|
          ensures Triggers(bars, hs[k].idx) && hs[k] == SpikeAt(bars, hs[k].idx)
        {
          if k > 0 {
            assert hs[k] == rest[k - 1];
          }
        }
      } else {
        DetectFromEvents(bars, i + 1);
      }
    }
  }

  /** No event of DetectFrom(bars, i) starts before bar i. */
  lemma {:induction false} DetectFromStartsAt(bars: seq<Bar>, i: nat)
    requires PositivePrices(bars) && i <= |bars|
    ensures forall k :: 0 <= k < |DetectFrom(bars, i)| ==> i <= DetectFrom(bars, i)[k].idx
    decreases |bars| - i
  {
    if i + 2 < |bars| {
      if Triggers(bars, i) {
        var h := SpikeAt(bars, i);
        var rest := DetectFrom(bars, h.recoveryIdx + 1);
        DetectFromStartsAt(bars, h.recoveryIdx + 1);
        var hs := [h] + rest;
        assert DetectFrom(bars, i) == hs;
        forall k | 0 < k < |hs| ensures i <= hs[k].idx {
          assert hs[k] == rest[k - 1];
        }
      } else {
        DetectFromStartsAt(bars, i + 1);
      }
    }
  }

  /** An event that ends before non-overlapping events start keeps them
      non-overlapping when placed in front. */
  lemma ConsNonOverlapping(h: Hiccup, rest: seq<Hiccup>)
    requires NonOverlapping(rest)
    requires |rest| > 0 ==> h.recoveryIdx < rest[0].idx
    ensures NonOverlapping([h] + rest)
  {
    var hs := [h] + rest;
    forall k | 0 <= k < |hs| - 1
      ensures hs[k].recoveryIdx < hs[k + 1].idx
    {
      assert hs[k + 1] == rest[k];
      if k > 0 {
        assert hs[k] == rest[k - 1];
      }
    }
  }

  /** The events of DetectFrom(bars, i) do not overlap. */
  lemma {:induction false} DetectFromNonOverlapping(bars: seq<Bar>, i: nat)
    requires PositivePrices(bars) && i <= |bars|
    ensures NonOverlapping(DetectFrom(bars, i))
    decreases |bars| - i
  {
    if i + 2 < |bars| {
      if Triggers(bars, i) {
        var h := SpikeAt(bars, i);
        var rest := DetectFrom(bars, h.recoveryIdx + 1);
        DetectFromNonOverlapping(bars, h.recoveryIdx + 1);
        DetectFromStartsAt(bars, h.recoveryIdx + 1);
        ConsNonOverlapping(h, rest);
        assert DetectFrom(bars, i) == [h] + rest;
      } else {
        DetectFromNonOverlapping(bars, i + 1);
      }
    }
  }

  /** Event start bars strictly increase. */
  ghost predicate EventsInOrder(hs: seq<Hiccup>)
  {
    forall k, l :: 0 <= k < l < |hs| ==> hs[k].idx < hs[l].idx
  }

  /** An event placed before events in order, all starting after it, keeps
      the sequence in order. */
  lemma ConsInOrder(h: Hiccup, rest: seq<Hiccup>)
    requires EventsInOrder(rest)
    requires forall m :: 0 <= m < |rest| ==> h.idx < rest[m].idx
    ensures EventsInOrder([h] + rest)
  {
    var hs := [h] + rest;
    forall k, l | 0 <= k < l < |hs|
      ensures hs[k].idx < hs[l].idx
    {
      assert hs[l] == rest[l - 1];
      if k > 0 {
        assert hs[k] == rest[k - 1];
      }
    }
  }

  /** Events come out in bar order, so sorting them by bar index changes
      nothing. */
  lemma {:induction false} DetectedInTimeOrder(bars: seq<Bar>, i: nat)
    requires PositivePrices(bars) && i <= |bars|
    ensures EventsInOrder(DetectFrom(bars, i))
    decreases |bars| - i
  {
    if i + 2 < |bars| {
      if Triggers(bars, i) {
        var h := SpikeAt(bars, i);
        var rest := DetectFrom(bars, h.recoveryIdx + 1);
        DetectedInTimeOrder(bars, h.recoveryIdx + 1);
        DetectFromStartsAt(bars, h.recoveryIdx + 1);
        ConsInOrder(h, rest);
        assert DetectFrom(bars, i) == [h] + rest;
      } else {
        DetectedInTimeOrder(bars, i + 1);
      }
    }
  }

  /** Between events nothing fires: no firing bar precedes the first event,
      lies strictly between an event's recovery and the next event, or follows
      the last event's recovery. */
  lemma {:induction false} DetectFromQuiet(bars: seq<Bar>, i: nat)
    requires PositivePrices(bars) && i <= |bars|
    ensures var hs := DetectFrom(bars, i);
      && (|hs| == 0 ==> Quiet(bars, i, |bars|))
      && (|hs| > 0 ==> Quiet(bars, i, hs[0].idx) && Quiet(bars, hs[|hs| - 1].recoveryIdx + 1, |bars|))
      && (forall k :: 0 <= k < |hs| - 1 ==> Quiet(bars, hs[k].recoveryIdx + 1, hs[k + 1].idx))
    decreases |bars| - i
  {
    if i + 2 < |bars| {
      if Triggers(bars, i) {
        DetectFromQuiet(bars, SpikeAt(bars, i).recoveryIdx + 1);
      } else {
        DetectFromQuiet(bars, i + 1);
      }
    }
  }

  /** detect_hiccups: one pass over the bars with a cooldown cursor that skips
      every bar up to the last event's recovery bar. */
  method DetectHiccups(bars: seq<Bar>) returns (hs: seq<Hiccup>)
    requires PositivePrices(bars)
    ensures hs == DetectFrom(bars, 0)
    ensures EventsFrom(bars, 0, hs) && NonOverlapping(hs)
  {
    hs := [];
    var cooldownUntil: int := -1;
    var i := 0;
    while i + 2 < |bars|
      invariant i <= |bars| && -1 <= cooldownUntil < |bars|
      invariant hs + DetectFrom(bars, Max(i, cooldownUntil + 1)) == DetectFrom(bars, 0)
    {
      if i > cooldownUntil {
        assert Max(i, cooldownUntil + 1) == i;
        if Triggers(bars, i) {
          var h := ScanSpike(bars, i);
          hs := hs + [h];
          cooldownUntil := h.recoveryIdx;
        }
      }
      i := i + 1;
    }
    DetectFromEvents(bars, 0);
    DetectFromNonOverlapping(bars, 0);
  }
}
