/** Conversion between TAO, a decimal, and RAO, the chain's 64-bit integer unit. */
module Rao {
  import opened Decimals
  import opened Integers

  const RAO_PER_TAO := 1000000000.0

  /** Drops the fraction, toward zero. */
  function Truncate(x: real): int {
    if x >= 0.0 then x.Floor else -(-x).Floor
  }

  function RAOToTAO(rao: Uint64): real {
    Div(rao as real, RAO_PER_TAO)
  }

  /** Negative amounts become zero, and amounts past the last 64-bit value stick to it. */
  function TAOToRAO(tao: real): Uint64 {
    var scaled := Truncate(tao * RAO_PER_TAO);
    if scaled < 0 then 0 else if scaled > MAX_UINT64 then MAX_UINT64 else scaled
  }

  /** One billion divides within sixteen places, so the division loses nothing. */
  lemma RaoIsExact(rao: Uint64)
    ensures RAOToTAO(rao) * RAO_PER_TAO == rao as real
  {
    var x := rao as real / RAO_PER_TAO;
    assert x * SCALE == (rao * 10000000) as real;
    Round16Exact(x, rao * 10000000);
  }

  /** Every chain amount survives the trip to a decimal and back. */
  lemma RoundTrip(rao: Uint64)
    ensures TAOToRAO(RAOToTAO(rao)) == rao
  {
    RaoIsExact(rao);
  }

  /**
   The RAO bought by a non-negative amount is the largest one the amount covers, saturated amounts
   included: this fixes the conversion completely.
   */
  lemma LargestAffordable(tao: real, rao: Uint64)
    requires tao >= 0.0
    ensures RAOToTAO(rao) <= tao <==> rao <= TAOToRAO(tao)
  {
    RaoIsExact(rao);
    assert RAOToTAO(rao) <= tao <==> rao as real <= tao * RAO_PER_TAO;
  }

  /** Going to the chain and back loses less than one RAO exactly for the amounts the chain can hold. */
  lemma DustExact(tao: real)
    ensures var back := RAOToTAO(TAOToRAO(tao));
            back <= tao < back + 0.000000001 <==> 0.0 <= tao * RAO_PER_TAO < (MAX_UINT64 + 1) as real
  {
    var rao := TAOToRAO(tao);
    var back := RAOToTAO(rao);
    RaoIsExact(rao);
    assert back <= tao <==> rao as real <= tao * RAO_PER_TAO;
    assert tao < back + 0.000000001 <==> tao * RAO_PER_TAO < rao as real + 1.0;
  }

  /** A larger amount never buys less, negative and saturated amounts included. */
  lemma Monotone(low: real, high: real)
    requires low <= high
    ensures TAOToRAO(low) <= TAOToRAO(high)
  {
    assert low * RAO_PER_TAO <= high * RAO_PER_TAO;
  }
}
