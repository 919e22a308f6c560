/** The optimizer's trailing-window maximum of bar highs, computed with a
    monotonic deque of bar indices (bnb_optimizer.py, compute_rolling_high). */
module RollingHigh {
  import opened Bars

  /** First index of the trailing window of `window` bars that ends at bar `i`:
      max(0, i - window + 1). */
  function WindowStart(i: nat, window: nat): nat
  {
    if i + 1 >= window then i + 1 - window else 0
  }

  /** Highest high over bars[lo..hi], both ends included. */
  function MaxHigh(bars: seq<Bar>, lo: nat, hi: nat): (m: real)
    requires lo <= hi < |bars|
    ensures forall j :: lo <= j <= hi ==> bars[j].high <= m
    ensures exists j :: lo <= j <= hi && bars[j].high == m
    decreases hi - lo
  {
    if lo == hi then bars[hi].high
    else
      var m' := MaxHigh(bars, lo, hi - 1);
      if bars[hi].high > m' then bars[hi].high else m'
  }

  /** The reference definition: position i holds the highest high of the
      trailing window of `window` bars ending at i. */
  function RollingHighSpec(bars: seq<Bar>, window: nat): (rh: seq<real>)
    requires window >= 1
    ensures |rh| == |bars|
  {
    seq(|bars|, i requires 0 <= i < |bars| => MaxHigh(bars, WindowStart(i, window), i))
  }

  /** Start of the stretch of bars that deque entry p is responsible for. */
  function SegmentStart(dq: seq<nat>, p: nat, lo: nat): nat
    requires p < |dq|
  {
    if p == 0 then lo else dq[p - 1] + 1
  }

  /** Every entry dominates the bars between the previous entry (or the window
      start) and itself. */
  ghost predicate Covers(bars: seq<Bar>, dq: seq<nat>, lo: nat)
    requires forall p :: 0 <= p < |dq| ==> dq[p] < |bars|
  {
    forall p, j {:trigger SegmentStart(dq, p, lo), bars[j]} :: 0 <= p < |dq| && SegmentStart(dq, p, lo) <= j <= dq[p] ==> bars[j].high <= bars[dq[p]].high
  }

  /** Indices strictly increase from front to back while their highs strictly
      decrease. */
  ghost predicate Monotonic(bars: seq<Bar>, dq: seq<nat>)
    requires forall p :: 0 <= p < |dq| ==> dq[p] < |bars|
  {
    forall p, q :: 0 <= p < q < |dq| ==> dq[p] < dq[q] && bars[dq[q]].high < bars[dq[p]].high
  }

  /** The deque once bar i has been pushed. */
  ghost predicate DequeInv(bars: seq<Bar>, window: nat, dq: seq<nat>, i: nat)
  {
    && i < |bars|
    && |dq| > 0 && dq[|dq| - 1] == i
    && (forall p :: 0 <= p < |dq| ==> WindowStart(i, window) <= dq[p] <= i)
    && Monotonic(bars, dq)
    && Covers(bars, dq, WindowStart(i, window))
  }

  /** The deque entry whose segment holds bar j. */
  lemma {:induction false} FindSegment(dq: seq<nat>, lo: nat, j: nat) returns (p: nat)
    requires |dq| > 0 && lo <= j <= dq[|dq| - 1]
    requires forall p, q :: 0 <= p < q < |dq| ==> dq[p] < dq[q]
    ensures p < |dq| && SegmentStart(dq, p, lo) <= j <= dq[p]
    decreases |dq|
  {
    var m := |dq| - 1;
    if m == 0 || dq[m - 1] < j {
      p := m;
    } else {
      p := FindSegment(dq[..m], lo, j);
    }
  }

  /** A strictly increasing sequence of indices inside lo..hi has at most
      hi - lo + 1 elements. */
  lemma {:induction false} IncreasingLength(s: seq<nat>, lo: int, hi: int)
    requires forall p :: 0 <= p < |s| ==> lo <= s[p] <= hi
    requires forall p, q :: 0 <= p < q < |s| ==> s[p] < s[q]
    ensures |s| <= if hi - lo + 1 >= 0 then hi - lo + 1 else 0
    decreases |s|
  {
    if |s| > 0 {
      IncreasingLength(s[1..], s[0] + 1, hi);
    }
  }

  /** The front entry is the highest high of the whole window. */
  lemma FrontIsMax(bars: seq<Bar>, window: nat, dq: seq<nat>, i: nat)
    requires window >= 1 && DequeInv(bars, window, dq, i)
    ensures bars[dq[0]].high == MaxHigh(bars, WindowStart(i, window), i)
  {
    var lo := WindowStart(i, window);
    forall j | lo <= j <= i
      ensures bars[j].high <= bars[dq[0]].high
    {
      var p := FindSegment(dq, lo, j);
      assert bars[j].high <= bars[dq[p]].high;
    }
    var m := MaxHigh(bars, lo, i);
    var k :| lo <= k <= i && bars[k].high == m;
    assert bars[k].high <= bars[dq[0]].high;
  }

  /** Entries all lie inside the window, so there are at most `window` of them. */
  lemma SizeBound(bars: seq<Bar>, window: nat, dq: seq<nat>, i: nat)
    requires window >= 1 && DequeInv(bars, window, dq, i)
    ensures |dq| <= window
  {
    IncreasingLength(dq, WindowStart(i, window), i);
  }

  /** Among bars of the window with equal highs only the latest can be in the
      deque: the `<=` eviction drops an earlier equal high. */
  lemma KeepsLatestTie(bars: seq<Bar>, window: nat, dq: seq<nat>, i: nat, p: nat, k: nat)
    requires window >= 1 && DequeInv(bars, window, dq, i)
    requires p < |dq| && dq[p] < k <= i
    ensures bars[k].high != bars[dq[p]].high
  {
    var q := FindSegment(dq, WindowStart(i, window), k);
    assert p < q;
  }

  /** Bars after the last entry (or from the window start) up to i - 1 are
      no higher than bar i. */
  ghost predicate TailDominated(bars: seq<Bar>, dq: seq<nat>, lo: nat, i: nat)
    requires i < |bars|
    requires forall p :: 0 <= p < |dq| ==> dq[p] < |bars|
  {
    forall j :: (if |dq| == 0 then lo else dq[|dq| - 1] + 1) <= j < i ==> bars[j].high <= bars[i].high
  }

  /** The deque while bar i is being admitted: entries before i, ordered and
      covering from the window start lo. */
  ghost predicate Ordered(bars: seq<Bar>, dq: seq<nat>, lo: nat, i: nat)
  {
    && i < |bars|
    && (forall p :: 0 <= p < |dq| ==> dq[p] < i)
    && Monotonic(bars, dq)
    && Covers(bars, dq, lo)
  }

  /** The deque once expired entries are gone and before bar i is pushed:
      every entry inside the window and every bar after the last entry no
      higher than bar i. */
  ghost predicate Admitting(bars: seq<Bar>, dq: seq<nat>, lo: nat, i: nat)
  {
    && Ordered(bars, dq, lo, i)
    && (forall p :: 0 <= p < |dq| ==> lo <= dq[p])
    && TailDominated(bars, dq, lo, i)
  }

  /** A window start that moves right keeps every segment covered. */
  lemma CoversNarrower(bars: seq<Bar>, dq: seq<nat>, lo: nat, lo': nat)
    requires forall p :: 0 <= p < |dq| ==> dq[p] < |bars|
    requires lo <= lo' && Covers(bars, dq, lo)
    ensures Covers(bars, dq, lo')
  {
    forall p, j | 0 <= p < |dq| && SegmentStart(dq, p, lo') <= j <= dq[p]
      ensures bars[j].high <= bars[dq[p]].high
    {
      assert SegmentStart(dq, p, lo) <= j;
    }
  }

  /** Evicting a front entry that left the window keeps the deque ordered and
      covering, and keeps its last entry. */
  lemma DropFront(bars: seq<Bar>, dq: seq<nat>, lo: nat, i: nat)
    requires Ordered(bars, dq, lo, i) && |dq| > 0 && dq[0] < lo
    ensures Ordered(bars, dq[1..], lo, i)
    ensures |dq| > 1 ==> dq[1..][|dq| - 2] == dq[|dq| - 1]
  {
    var d := dq[1..];
    forall p, j | 0 <= p < |d| && SegmentStart(d, p, lo) <= j <= d[p]
      ensures bars[j].high <= bars[d[p]].high
    {
      assert SegmentStart(dq, p + 1, lo) <= j;
    }
  }

  /** Dropping the last entry keeps the rest ordered and covering. */
  lemma DropLast(bars: seq<Bar>, dq: seq<nat>, lo: nat, i: nat)
    requires Ordered(bars, dq, lo, i) && |dq| > 0
    ensures Ordered(bars, dq[..|dq| - 1], lo, i)
  {
    var d := dq[..|dq| - 1];
    forall p, j | 0 <= p < |d| && SegmentStart(d, p, lo) <= j <= d[p]
      ensures bars[j].high <= bars[d[p]].high
    {
      assert SegmentStart(dq, p, lo) <= j;
    }
  }

  /** Dropping a last entry no higher than bar i extends the stretch of bars
      that bar i dominates back to the new last entry. */
  lemma DropLastTail(bars: seq<Bar>, dq: seq<nat>, lo: nat, i: nat)
    requires Admitting(bars, dq, lo, i)
    requires |dq| > 0 && bars[dq[|dq| - 1]].high <= bars[i].high
    ensures TailDominated(bars, dq[..|dq| - 1], lo, i)
  {
    var m := |dq| - 1;
    var d := dq[..m];
    forall j | (if |d| == 0 then lo else d[|d| - 1] + 1) <= j < i
      ensures bars[j].high <= bars[i].high
    {
      if j <= dq[m] {
        assert SegmentStart(dq, m, lo) <= j;
      }
    }
  }

  /** Evicting a back entry dominated by bar i keeps the deque admitting i. */
  lemma DropBack(bars: seq<Bar>, dq: seq<nat>, lo: nat, i: nat)
    requires Admitting(bars, dq, lo, i)
    requires |dq| > 0 && bars[dq[|dq| - 1]].high <= bars[i].high
    ensures Admitting(bars, dq[..|dq| - 1], lo, i)
  {
    DropLast(bars, dq, lo, i);
    DropLastTail(bars, dq, lo, i);
  }

  /** Pushing i behind entries all higher than it restores the invariant. */
  lemma Push(bars: seq<Bar>, window: nat, dq: seq<nat>, i: nat)
    requires window >= 1 && Admitting(bars, dq, WindowStart(i, window), i)
    requires |dq| > 0 ==> bars[dq[|dq| - 1]].high > bars[i].high
    ensures DequeInv(bars, window, dq + [i], i)
  {
    var lo := WindowStart(i, window);
    var d := dq + [i];
    forall p, q | 0 <= p < q < |d|
      ensures d[p] < d[q] && bars[d[q]].high < bars[d[p]].high
    {
      if q == |dq| && p < |dq| - 1 {
        assert bars[dq[|dq| - 1]].high < bars[dq[p]].high;
      }
    }
    forall p, j | 0 <= p < |d| && SegmentStart(d, p, lo) <= j <= d[p]
      ensures bars[j].high <= bars[d[p]].high
    {
      if p < |dq| {
        assert SegmentStart(dq, p, lo) <= j;
      }
    }
  }

  /** Evicts from the front the entries that left the window ending at i. */
  method EvictExpired(bars: seq<Bar>, window: nat, dq: seq<nat>, i: nat) returns (d: seq<nat>)
    requires window >= 1 && i < |bars|
    requires i == 0 ==> dq == []
    requires i > 0 ==> DequeInv(bars, window, dq, i - 1)
    ensures Admitting(bars, d, WindowStart(i, window), i)
  {
    var lo := WindowStart(i, window);
    if i > 0 {
      CoversNarrower(bars, dq, WindowStart(i - 1, window), lo);
    }
    d := dq;
    while |d| > 0 && d[0] < i - window + 1
      invariant Ordered(bars, d, lo, i)
      invariant |d| > 0 ==> d[|d| - 1] == i - 1
      invariant |d| == 0 ==> lo == i
      decreases |d|
    {
      DropFront(bars, d, lo, i);
      d := d[1..];
    }
    forall p | 0 <= p < |d|
      ensures lo <= d[p]
    {
      if p > 0 {
        assert d[0] < d[p];
      }
    }
  }

  /** Evicts from the back the entries whose high does not exceed bar i's. */
  method EvictDominated(bars: seq<Bar>, dq: seq<nat>, lo: nat, i: nat) returns (d: seq<nat>)
    requires Admitting(bars, dq, lo, i)
    ensures Admitting(bars, d, lo, i)
    ensures |d| > 0 ==> bars[d[|d| - 1]].high > bars[i].high
  {
    d := dq;
    while |d| > 0 && bars[d[|d| - 1]].high <= bars[i].high
      invariant Admitting(bars, d, lo, i)
      decreases |d|
    {
      DropBack(bars, d, lo, i);
      d := d[..|d| - 1];
    }
  }

  /** One step of the scan: evict entries that left the window, evict entries
      whose high does not exceed the new bar's, push the new bar and read the
      front. */
  method Advance(bars: seq<Bar>, window: nat, dq: seq<nat>, i: nat) returns (dq': seq<nat>, top: real)
    requires window >= 1 && i < |bars|
    requires i == 0 ==> dq == []
    requires i > 0 ==> DequeInv(bars, window, dq, i - 1)
    ensures DequeInv(bars, window, dq', i)
    ensures |dq'| <= window
    ensures top == bars[dq'[0]].high == MaxHigh(bars, WindowStart(i, window), i)
  {
    var lo := WindowStart(i, window);
    var d := EvictExpired(bars, window, dq, i);
    d := EvictDominated(bars, d, lo, i);
    Push(bars, window, d, i);
    dq' := d + [i];
    top := bars[dq'[0]].high;
    FrontIsMax(bars, window, dq', i);
    SizeBound(bars, window, dq', i);
  }

  /** The rolling high of every bar, one Advance per bar. */
  method ComputeRollingHigh(bars: seq<Bar>, window: nat) returns (rh: seq<real>)
    requires window >= 1
    ensures |rh| == |bars|
    ensures forall i :: 0 <= i < |bars| ==> rh[i] == MaxHigh(bars, WindowStart(i, window), i)
    ensures rh == RollingHighSpec(bars, window)
  {
    rh := [];
    var dq: seq<nat> := [];
    var i := 0;
    while i < |bars|
      invariant i <= |bars| && |rh| == i
      invariant forall k :: 0 <= k < i ==> rh[k] == MaxHigh(bars, WindowStart(k, window), k)
      invariant i == 0 ==> dq == []
      invariant i > 0 ==> DequeInv(bars, window, dq, i - 1)
    {
      var top;
      dq, top := Advance(bars, window, dq, i);
      rh := rh + [top];
      i := i + 1;
    }
  }

  /** With positive prices every rolling high is positive. */
  lemma RollingHighPositive(bars: seq<Bar>, window: nat)
    requires window >= 1 && PositivePrices(bars)
    ensures forall i :: 0 <= i < |bars| ==> RollingHighSpec(bars, window)[i] > 0.0
  {
    forall i | 0 <= i < |bars|
      ensures RollingHighSpec(bars, window)[i] > 0.0
    {
      assert bars[i].high <= MaxHigh(bars, WindowStart(i, window), i);
    }
  }
}
