/** The one-pass maximum drawdown against its definition over all pairs of points. */
module Drawdown {
  import opened Decimals
  import opened Types

  datatype NavPoint = NavPoint(time: Time, nav: real)

  /** The relative fall from one value to a later one, as the decimal library rounds it. */
  function Fall(from: real, to: real): real
    requires from > 0.0
  {
    Div(from - to, from)
  }

  /** A fall is the part of the higher value that is lost, to within half a last place. */
  lemma FallIsPartLost(from: real, to: real)
    requires from > 0.0
    ensures IsQuotient(Fall(from, to), from - to, from)
  {
    DivIsQuotient(from - to, from);
  }

  /** Point j lies after point i, and the fall between them can be expressed as a fraction. */
  ghost predicate Pair(curve: seq<NavPoint>, i: int, j: int) {
    0 <= i < j < |curve| && curve[i].nav > 0.0
  }

  /** The largest fall over all pairs, and never below zero. */
  ghost predicate IsMaxDrawdown(curve: seq<NavPoint>, dd: real) {
    && dd >= 0.0
    && (forall i, j | Pair(curve, i, j) :: Fall(curve[i].nav, curve[j].nav) <= dd)
    && (dd == 0.0 || exists i, j :: Pair(curve, i, j) && Fall(curve[i].nav, curve[j].nav) == dd)
  }

  lemma MaxDrawdownIsUnique(curve: seq<NavPoint>, a: real, b: real)
    requires IsMaxDrawdown(curve, a) && IsMaxDrawdown(curve, b)
    ensures a == b
  {
  }

  ghost predicate NonNegative(curve: seq<NavPoint>) {
    forall p <- curve :: p.nav >= 0.0
  }

  /** Falling to the same non-negative value from higher up is the deeper fall. */
  lemma HigherPeakFallsDeeper(low: real, high: real, to: real)
    requires 0.0 < low <= high && 0.0 <= to
    ensures Fall(low, to) <= Fall(high, to)
  {
    QuotientOrder(low, high, to);
    Round16Monotone((low - to) / low, (high - to) / high);
  }

  lemma QuotientOrder(low: real, high: real, to: real)
    requires 0.0 < low <= high && 0.0 <= to
    ensures (low - to) / low <= (high - to) / high
  {
    assert to * low <= to * high;
    assert (low - to) * high <= (high - to) * low;
    CrossMultiply(low - to, low, high - to, high);
  }

  lemma CrossMultiply(a: real, b: real, c: real, d: real)
    requires b > 0.0 && d > 0.0 && a * d <= c * b
    ensures a / b <= c / d
  {
    var x, y := a / b, c / d;
    assert a == x * b && c == y * d;
    assert x * (b * d) == a * d && y * (b * d) == c * b;
    ScaledOrder(y, x, b * d);
  }

  /** The highest value so far, the peak the running fall is measured from. */
  ghost predicate IsPeak(curve: seq<NavPoint>, n: nat, peak: real) {
    && 0 < n <= |curve|
    && (forall i | 0 <= i < n :: curve[i].nav <= peak)
    && exists i :: 0 <= i < n && curve[i].nav == peak
  }

  /** Point j is measured against the peak of the points before it. */
  ghost predicate Measured(curve: seq<NavPoint>, j: nat, peak: real) {
    j < |curve| && IsPeak(curve, j, peak) && peak > 0.0
  }

  /** The largest fall from the running peak: what the loop computes on any curve at all. */
  ghost predicate IsPeakDrawdown(curve: seq<NavPoint>, dd: real) {
    && dd >= 0.0
    && (forall j: nat, peak | Measured(curve, j, peak) :: Fall(peak, curve[j].nav) <= dd)
    && (dd == 0.0 || exists j: nat, peak :: Measured(curve, j, peak) && Fall(peak, curve[j].nav) == dd)
  }

  method ComputeMaxDrawdown(curve: seq<NavPoint>) returns (maxDD: real)
    ensures IsPeakDrawdown(curve, maxDD)
    ensures NonNegative(curve) ==> IsMaxDrawdown(curve, maxDD) && maxDD <= 1.0
  {
    if curve == [] { return 0.0; }
    var peak := curve[0].nav;
    maxDD := 0.0;
    OnePointFallsNowhere(curve);
    for k := 1 to |curve|
      invariant IsPeak(curve, k, peak)
      invariant IsPeakDrawdown(curve[..k], maxDD)
    {
      var nav := curve[k].nav;
      ghost var was, before := maxDD, peak;
      if nav > peak {
        peak := nav;
      } else if peak > 0.0 {
        var dd := Div(peak - nav, peak);
        if dd > maxDD { maxDD := dd; }
      }
      PeakMoves(curve, k, before);
      PeakDrawdownGrows(curve, k, before, was, maxDD);
    }
    assert curve[..|curve|] == curve;
    if NonNegative(curve) { PeaksAreEnough(curve, maxDD); }
  }

  lemma OnePointFallsNowhere(curve: seq<NavPoint>)
    requires curve != []
    ensures IsPeak(curve, 1, curve[0].nav) && IsPeakDrawdown(curve[..1], 0.0)
  {
  }

  lemma PeakMoves(curve: seq<NavPoint>, k: nat, peak: real)
    requires k < |curve| && IsPeak(curve, k, peak)
    ensures IsPeak(curve, k + 1, if curve[k].nav > peak then curve[k].nav else peak)
  {
  }

  lemma MeasuredInPrefix(curve: seq<NavPoint>, k: nat, j: nat, peak: real)
    requires j < k <= |curve|
    ensures Measured(curve[..k], j, peak) <==> Measured(curve, j, peak)
  {
    if i :| 0 <= i < j && curve[i].nav == peak {
      assert curve[..k][i].nav == peak;
    }
  }

  lemma OnePeak(curve: seq<NavPoint>, n: nat, p: real, q: real)
    requires IsPeak(curve, n, p) && IsPeak(curve, n, q)
    ensures p == q
  {
  }

  lemma PeakDrawdownGrows(curve: seq<NavPoint>, k: nat, peak: real, was: real, now: real)
    requires k < |curve| && IsPeak(curve, k, peak) && IsPeakDrawdown(curve[..k], was)
    requires now == if peak > 0.0 && Fall(peak, curve[k].nav) > was && curve[k].nav <= peak
                    then Fall(peak, curve[k].nav) else was
    ensures IsPeakDrawdown(curve[..k + 1], now)
  {
    var longer := curve[..k + 1];
    forall j: nat, p | Measured(longer, j, p) ensures Fall(p, longer[j].nav) <= now {
      if j < k {
        MeasuredInPrefix(curve, k + 1, j, p);
        MeasuredInPrefix(curve, k, j, p);
      } else {
        MeasuredInPrefix(curve, k + 1, k, p);
        OnePeak(curve, k, peak, p);
        if curve[k].nav > peak { RiseIsNoFall(peak, curve[k].nav); }
      }
    }
    if now != was {
      MeasuredInPrefix(curve, k + 1, k, peak);
      assert Measured(longer, k, peak);
    } else if was != 0.0 {
      var j: nat, p :| Measured(curve[..k], j, p) && Fall(p, curve[..k][j].nav) == was;
      MeasuredInPrefix(curve, k, j, p);
      MeasuredInPrefix(curve, k + 1, j, p);
    }
  }

  lemma RiseIsNoFall(peak: real, nav: real)
    requires 0.0 < peak <= nav
    ensures Fall(peak, nav) <= 0.0
  {
    assert (peak - nav) / peak <= 0.0;
    Round16Monotone((peak - nav) / peak, 0.0);
  }

  lemma PeakExists(curve: seq<NavPoint>, n: nat) returns (peak: real)
    requires 0 < n <= |curve|
    ensures IsPeak(curve, n, peak)
  {
    peak := curve[0].nav;
    for k := 1 to n
      invariant IsPeak(curve, k, peak)
    {
      if curve[k].nav > peak { peak := curve[k].nav; }
    }
  }

  /** On non-negative curves the running peak realises the deepest fall over all pairs. */
  /** Among these values, falling from higher up is never the shallower fall. */
  ghost predicate DeepestFromTop(values: iset<real>) {
    forall low, high, to | low in values && high in values && to in values && 0.0 < low <= high ::
      Fall(low, to) <= Fall(high, to)
  }

  ghost predicate DrawnFrom(curve: seq<NavPoint>, values: iset<real>) {
    forall p <- curve :: p.nav in values
  }

  /** Then measuring from running peaks loses no pair. */
  lemma TopsAreEnough(curve: seq<NavPoint>, dd: real, values: iset<real>)
    requires IsPeakDrawdown(curve, dd) && DrawnFrom(curve, values) && DeepestFromTop(values)
    ensures IsMaxDrawdown(curve, dd)
  {
    forall i, j | Pair(curve, i, j) ensures Fall(curve[i].nav, curve[j].nav) <= dd {
      var peak := PeakExists(curve, j);
      var top :| 0 <= top < j && curve[top].nav == peak;
      assert curve[i] in curve && curve[j] in curve && curve[top] in curve;
      assert Measured(curve, j, peak);
    }
    if dd != 0.0 {
      var j: nat, peak :| Measured(curve, j, peak) && Fall(peak, curve[j].nav) == dd;
      PeakIsAPair(curve, j, peak);
    }
  }

  /** On every curve of such values the loop computes the maximum over all pairs. */
  ghost predicate PeaksSuffice(values: iset<real>) {
    forall curve, dd | DrawnFrom(curve, values) && IsPeakDrawdown(curve, dd) :: IsMaxDrawdown(curve, dd)
  }

  /** The first value, then a higher one, then a fall that is deeper from the first. */
  lemma DeeperFromBelow(low: real, high: real, to: real)
    requires 0.0 < low < high && Fall(low, to) > Fall(high, to)
    ensures var curve := [NavPoint(0, low), NavPoint(1, high), NavPoint(2, to)];
            IsPeakDrawdown(curve, Fall(high, to)) && !IsMaxDrawdown(curve, Fall(high, to))
  {
    var curve := [NavPoint(0, low), NavPoint(1, high), NavPoint(2, to)];
    if to >= 0.0 {
      HigherPeakFallsDeeper(low, high, to);
    } else {
      NegativeFallsBelow(high, to);
    }
    RiseIsNoFall(low, high);
    assert IsPeak(curve, 2, high) by { assert curve[1].nav == high; }
    assert Measured(curve, 2, high) && Pair(curve, 0, 2);
  }

  lemma NegativeFallsBelow(peak: real, to: real)
    requires 0.0 < peak && to < 0.0
    ensures Fall(peak, to) >= 1.0
  {
    ScaledOrder(1.0, (peak - to) / peak, peak);
    Round16Exact(1.0, 10000000000000000);
    Round16Monotone(1.0, (peak - to) / peak);
  }

  /** Running peaks suffice exactly on values among which falling from higher up is never shallower. */
  lemma PeaksSufficeExactly(values: iset<real>)
    ensures PeaksSuffice(values) <==> DeepestFromTop(values)
  {
    if DeepestFromTop(values) {
      forall curve, dd | DrawnFrom(curve, values) && IsPeakDrawdown(curve, dd) ensures IsMaxDrawdown(curve, dd) {
        TopsAreEnough(curve, dd, values);
      }
    } else {
      var low, high, to :| low in values && high in values && to in values && 0.0 < low <= high
                           && Fall(low, to) > Fall(high, to);
      DeeperFromBelow(low, high, to);
      assert DrawnFrom([NavPoint(0, low), NavPoint(1, high), NavPoint(2, to)], values);
    }
  }

  ghost function ValuesOf(curve: seq<NavPoint>): iset<real> {
    iset p | p in curve :: p.nav
  }

  lemma NonNegativeIsDeepest(curve: seq<NavPoint>)
    requires NonNegative(curve)
    ensures DeepestFromTop(ValuesOf(curve))
  {
    var values := ValuesOf(curve);
    forall low, high, to | low in values && high in values && to in values && 0.0 < low <= high
      ensures Fall(low, to) <= Fall(high, to)
    {
      HigherPeakFallsDeeper(low, high, to);
    }
  }

  lemma PeaksAreEnough(curve: seq<NavPoint>, dd: real)
    requires IsPeakDrawdown(curve, dd) && NonNegative(curve)
    ensures IsMaxDrawdown(curve, dd) && dd <= 1.0
  {
    NonNegativeIsDeepest(curve);
    TopsAreEnough(curve, dd, ValuesOf(curve));
    if dd != 0.0 {
      var j: nat, peak :| Measured(curve, j, peak) && Fall(peak, curve[j].nav) == dd;
      assert curve[j] in curve;
      FallAtMostOne(peak, curve[j].nav);
    }
  }

  lemma PeakIsAPair(curve: seq<NavPoint>, j: nat, peak: real)
    requires Measured(curve, j, peak)
    ensures exists i :: Pair(curve, i, j) && curve[i].nav == peak
  {
    var i :| 0 <= i < j && curve[i].nav == peak;
    assert Pair(curve, i, j);
  }

  lemma FallAtMostOne(peak: real, nav: real)
    requires peak > 0.0 && nav >= 0.0
    ensures Fall(peak, nav) <= 1.0
  {
    assert (peak - nav) / peak <= 1.0;
    Round16Monotone((peak - nav) / peak, 1.0);
  }

  /** Below zero the two definitions part: here the peak is 2, but falling from 1 to -1 is the deeper fall. */
  lemma NegativeNavBreaksPairs()
    ensures var curve := [NavPoint(0, 1.0), NavPoint(1, 2.0), NavPoint(2, -1.0)];
            IsPeakDrawdown(curve, 1.5) && !IsMaxDrawdown(curve, 1.5)
  {
    var curve := [NavPoint(0, 1.0), NavPoint(1, 2.0), NavPoint(2, -1.0)];
    Round16Exact(1.5, 15000000000000000);
    Round16Exact(2.0, 20000000000000000);
    Round16Exact(-1.0, -10000000000000000);
    assert IsPeak(curve, 2, 2.0) by { assert curve[1].nav == 2.0; }
    assert Fall(2.0, -1.0) == 1.5 && Fall(1.0, 2.0) == -1.0 && Fall(1.0, -1.0) == 2.0;
    assert Pair(curve, 0, 2);
  }
}
