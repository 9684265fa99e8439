/**
 Fixed-point arithmetic as the repository's decimal library does it: addition, subtraction
 and multiplication are exact, division keeps 16 decimal places and rounds half away from zero.
 */
module Decimals {

  const SCALE := 10000000000000000.0

  /** Half a unit in the sixteenth decimal place. */
  const HALF_ULP := 0.00000000000000005

  function Abs(x: real): real {
    if x < 0.0 then -x else x
  }

  /** Nearest integer, ties away from zero. */
  function RoundHalfAway(x: real): int {
    if x >= 0.0 then (x + 0.5).Floor else -(0.5 - x).Floor
  }

  function Round16(x: real): real {
    RoundHalfAway(x * SCALE) as real / SCALE
  }

  function Div(a: real, b: real): real
    requires b != 0.0
  {
    Round16(a / b)
  }

  lemma RoundHalfAwayMonotone(x: real, y: real)
    requires x <= y
    ensures RoundHalfAway(x) <= RoundHalfAway(y)
  {
  }

  lemma Round16Monotone(x: real, y: real)
    requires x <= y
    ensures Round16(x) <= Round16(y)
  {
    RoundHalfAwayMonotone(x * SCALE, y * SCALE);
  }

  /** Rounding moves a value by at most half a unit in the last place kept. */
  lemma Round16Error(x: real)
    ensures -HALF_ULP <= Round16(x) - x <= HALF_ULP
  {
    var scaled := x * SCALE;
    var n := RoundHalfAway(scaled) as real;
    assert -0.5 <= n - scaled <= 0.5;
    assert Round16(x) - x == (n - scaled) / SCALE;
  }

  /** A value that already has 16 places is left alone. */
  lemma Round16Exact(x: real, n: int)
    requires x * SCALE == n as real
    ensures Round16(x) == x
  {
    assert RoundHalfAway(n as real) == n;
  }

  /** The rounded value lies strictly below a 16-place bound exactly when the exact one clears half a unit. */
  lemma Round16Below(x: real, bound: real, n: nat)
    requires 0.0 <= x
    requires bound * SCALE == n as real
    ensures Round16(x) < bound <==> x < bound - HALF_ULP
  {
    var scaled := x * SCALE;
    assert Round16(x) < bound <==> RoundHalfAway(scaled) < n;
    assert RoundHalfAway(scaled) < n <==> scaled + 0.5 < n as real;
    assert scaled + 0.5 < n as real <==> x < bound - HALF_ULP;
  }

  lemma DivNonNegative(a: real, b: real)
    requires 0.0 <= a && 0.0 < b
    ensures 0.0 <= Div(a, b)
  {
    QuotientNonNegative(a, b);
    Round16Monotone(0.0, a / b);
  }

  lemma QuotientNonNegative(a: real, b: real)
    requires 0.0 <= a && 0.0 < b
    ensures 0.0 <= a / b
  {
  }

  /** A positive factor keeps the order. */
  lemma ScaledOrder(x: real, y: real, k: real)
    requires k > 0.0
    ensures x < y <==> x * k < y * k
  {
    if x < y {
      assert (y - x) * k > 0.0;
    } else {
      assert (x - y) * k >= 0.0;
    }
  }

  lemma ScaledBounds(off: real, e: real, b: real)
    requires b > 0.0 && -e <= off <= e
    ensures -(e * b) <= off * b <= e * b
  {
    ScaledOrder(e, off, b);
    ScaledOrder(off, -e, b);
    assert (-e) * b == -(e * b);
  }

  lemma SumTimes(q: real, off: real, b: real)
    ensures (q + off) * b == q * b + off * b
  {
  }

  lemma NearQuotient(q: real, off: real, a: real, b: real)
    requires b > 0.0 && q * b == a && -HALF_ULP <= off <= HALF_ULP
    ensures IsQuotient(q + off, a, b)
  {
    ScaledBounds(off, HALF_ULP, b);
    SumTimes(q, off, b);
  }

  /** Times the divisor, the quotient is the dividend, to within half a last place of the divisor. */
  predicate IsQuotient(q: real, a: real, b: real) {
    -(HALF_ULP * b) <= q * b - a <= HALF_ULP * b
  }

  lemma DivIsQuotient(a: real, b: real)
    requires b > 0.0
    ensures IsQuotient(Div(a, b), a, b)
  {
    var q, r := a / b, Div(a, b);
    Round16Error(q);
    assert q * b == a;
    NearQuotient(q, r - q, a, b);
  }
}
