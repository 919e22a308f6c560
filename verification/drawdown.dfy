/** The capital-curve bookkeeping both scripts perform: a running peak of the
    capital seen so far and the largest percentage drawdown from that peak. */
module Drawdown {

  /** State of the fold: highest capital observed and largest drawdown so far. */
  datatype Curve = Curve(peak: real, maxDd: real)

  /** Drawdown, in percent, of capital `c` below the peak `peak`. */
  function DrawdownPct(peak: real, c: real): real
    requires peak > 0.0
  {
    (peak - c) / peak * 100.0
  }

  /** Observes one more capital value: raise the peak first, then measure the
      drawdown from the (possibly new) peak and keep the larger of the two. */
  function Observe(s: Curve, c: real): (r: Curve)
    requires s.peak > 0.0
    ensures r.peak >= s.peak && r.peak >= c
    ensures r.peak == s.peak || r.peak == c
    ensures r.maxDd >= s.maxDd && r.maxDd >= DrawdownPct(r.peak, c)
    ensures r.maxDd == s.maxDd || r.maxDd == DrawdownPct(r.peak, c)
  {
    var p := if c > s.peak then c else s.peak;
    var dd := DrawdownPct(p, c);
    Curve(p, if dd > s.maxDd then dd else s.maxDd)
  }

  /** Observes every value of `cs` in order, starting from `s`. Defined on the
      last element so that the running state after k values is Fold(s, cs[..k]). */
  function Fold(s: Curve, cs: seq<real>): (r: Curve)
    requires s.peak > 0.0
    ensures r.peak >= s.peak && r.maxDd >= s.maxDd
    ensures forall j :: 0 <= j < |cs| ==> cs[j] <= r.peak
    ensures r.peak == s.peak || exists j :: 0 <= j < |cs| && r.peak == cs[j]
    decreases |cs|
  {
    if |cs| == 0 then s
    else
      var prev := Fold(s, cs[..|cs| - 1]);
      assert forall j :: 0 <= j < |cs| - 1 ==> cs[..|cs| - 1][j] == cs[j];
      Observe(prev, cs[|cs| - 1])
  }

  /** The running peak and the running maximum drawdown never decrease as
      more capital values are observed. */
  lemma {:induction false} FoldMonotone(s: Curve, cs: seq<real>, k: nat)
    requires s.peak > 0.0 && k <= |cs|
    ensures Fold(s, cs[..k]).peak <= Fold(s, cs).peak
    ensures Fold(s, cs[..k]).maxDd <= Fold(s, cs).maxDd
    decreases |cs| - k
  {
    if k < |cs| {
      var m := |cs| - 1;
      assert cs[..m][..k] == cs[..k];
      FoldMonotone(s, cs[..m], k);
      assert cs[..|cs|] == cs;
    } else {
      assert cs[..k] == cs;
    }
  }

  /** The final maximum drawdown is at least the drawdown of every observed
      value from the peak that was current when it was observed. */
  lemma FoldBoundsEveryDrawdown(s: Curve, cs: seq<real>, j: nat)
    requires s.peak > 0.0 && j < |cs|
    ensures Fold(s, cs).maxDd >= DrawdownPct(Fold(s, cs[..j + 1]).peak, cs[j])
  {
    assert cs[..j + 1][..j] == cs[..j];
    FoldMonotone(s, cs, j + 1);
  }

  /** When the last value raised the maximum drawdown, the new maximum is
      that value's drawdown from the peak current at it. */
  lemma AttainedAtLast(s: Curve, cs: seq<real>, m: nat)
    requires s.peak > 0.0 && m + 1 == |cs|
    requires Fold(s, cs).maxDd != Fold(s, cs[..m]).maxDd
    ensures Fold(s, cs).maxDd == DrawdownPct(Fold(s, cs[..m + 1]).peak, cs[m])
  {
    assert cs[..m + 1] == cs;
  }

  /** A drawdown attained within a prefix is attained, at the same index,
      within the whole curve. */
  lemma AttainedInPrefix(s: Curve, cs: seq<real>, m: nat, j: nat)
    requires s.peak > 0.0 && j < m <= |cs|
    requires Fold(s, cs[..m]).maxDd == DrawdownPct(Fold(s, cs[..m][..j + 1]).peak, cs[..m][j])
    ensures Fold(s, cs[..m]).maxDd == DrawdownPct(Fold(s, cs[..j + 1]).peak, cs[j])
  {
    assert cs[..m][..j + 1] == cs[..j + 1];
  }

  /** The final maximum drawdown is the starting one (reported as -1) or the
      drawdown of the value at index j from the peak that was current when it
      was observed. */
  lemma {:induction false} FoldDrawdownAttained(s: Curve, cs: seq<real>) returns (j: int)
    requires s.peak > 0.0
    ensures -1 <= j < |cs|
    ensures j == -1 ==> Fold(s, cs).maxDd == s.maxDd
    ensures j >= 0 ==> Fold(s, cs).maxDd == DrawdownPct(Fold(s, cs[..j + 1]).peak, cs[j])
    decreases |cs|
  {
    j := -1;
    if |cs| > 0 {
      var m := |cs| - 1;
      var prev := Fold(s, cs[..m]);
      if Fold(s, cs).maxDd != prev.maxDd {
        AttainedAtLast(s, cs, m);
        j := m;
      } else {
        j := FoldDrawdownAttained(s, cs[..m]);
        if j >= 0 {
          AttainedInPrefix(s, cs, m, j);
        }
      }
    }
  }
}
