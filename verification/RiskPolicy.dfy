/** The hard limits checked before each intent is executed. */
module RiskPolicy {
  import opened Collections
  import opened Types
  import opened Decimals

  /** A limit of zero switches its check off. */
  datatype Limits = Limits(
    maxNotionalPerLeg: real, maxTotalBasisExposure: real,
    maxSpotSlippageBps: int, maxConcurrentPositions: int)

  datatype Reason = MaxNotionalPerLeg | MaxTotalExposure | MaxConcurrentPositions | MaxSpotSlippageBps

  datatype Verdict = Allow | Block(reason: Reason)

  datatype Intent = Order(order: OrderIntent) | Swap(swap: SwapIntent)

  type RiskEngine = (Intent, seq<BasisPosition>) -> Verdict

  /** What one position contributes to exposure: its first perp leg at entry price. */
  function LegExposure(legs: seq<Leg>): (e: real)
    ensures e >= 0.0
  {
    if legs == [] then 0.0
    else if legs[0].kind == Perp then Abs(legs[0].avgPrice * legs[0].qty)
    else LegExposure(legs[1..])
  }

  function TotalBasisExposure(open: seq<BasisPosition>): (e: real)
    ensures e >= 0.0
  {
    if open == [] then 0.0 else LegExposure(open[0].legs) + TotalBasisExposure(open[1..])
  }

  predicate AtCap(l: Limits, open: seq<BasisPosition>) {
    l.maxConcurrentPositions > 0 && |open| >= l.maxConcurrentPositions
  }

  function CheckOrder(l: Limits, o: OrderIntent, open: seq<BasisPosition>): Verdict {
    if l.maxNotionalPerLeg != 0.0 && o.Notional() > l.maxNotionalPerLeg then Block(MaxNotionalPerLeg)
    else if o.reduceOnly then Allow
    else if l.maxTotalBasisExposure != 0.0
         && TotalBasisExposure(open) + o.Notional() > l.maxTotalBasisExposure then Block(MaxTotalExposure)
    else if AtCap(l, open) then Block(MaxConcurrentPositions)
    else Allow
  }

  function CheckSwap(l: Limits, s: SwapIntent, open: seq<BasisPosition>): Verdict {
    if l.maxSpotSlippageBps > 0 && s.slippageBps > l.maxSpotSlippageBps then Block(MaxSpotSlippageBps)
    else if l.maxNotionalPerLeg != 0.0 && s.inAmount > l.maxNotionalPerLeg then Block(MaxNotionalPerLeg)
    else if s.IsOpening() && AtCap(l, open) then Block(MaxConcurrentPositions)
    else Allow
  }

  function PreTrade(l: Limits, intent: Intent, open: seq<BasisPosition>): Verdict {
    match intent
    case Order(o) => CheckOrder(l, o, open)
    case Swap(s) => CheckSwap(l, s, open)
  }

  lemma {:induction false} ExposureOfConcat(a: seq<BasisPosition>, b: seq<BasisPosition>)
    ensures TotalBasisExposure(a + b) == TotalBasisExposure(a) + TotalBasisExposure(b)
  {
    if a == [] {
      assert a + b == b;
    } else {
      assert (a + b)[1..] == a[1..] + b;
      ExposureOfConcat(a[1..], b);
    }
  }

  lemma {:induction false} ExposureWithout(b: seq<BasisPosition>, i: nat)
    requires i < |b|
    ensures TotalBasisExposure(b) == LegExposure(b[i].legs) + TotalBasisExposure(b[..i] + b[i + 1..])
  {
    assert b == b[..i] + b[i..];
    ExposureOfConcat(b[..i], b[i..]);
    ExposureOfConcat(b[..i], b[i + 1..]);
    assert b[i..][1..] == b[i + 1..];
  }

  /** Exposure does not depend on the order in which the map of open positions is walked. */
  lemma {:induction false} ExposureOrderFree(a: seq<BasisPosition>, b: seq<BasisPosition>)
    requires multiset(a) == multiset(b)
    ensures TotalBasisExposure(a) == TotalBasisExposure(b)
  {
    if a == [] {
      assert |multiset(b)| == 0;
    } else {
      var i := Located(a, b);
      ExposureWithout(b, i);
      ExposureOrderFree(a[1..], b[..i] + b[i + 1..]);
    }
  }

  /** The gate reads a snapshot as a bag: any two listings of the same positions get the same verdict. */
  lemma VerdictOrderFree(l: Limits, intent: Intent, a: seq<BasisPosition>, b: seq<BasisPosition>)
    requires multiset(a) == multiset(b)
    ensures PreTrade(l, intent, a) == PreTrade(l, intent, b)
  {
    assert |a| == |multiset(a)| == |multiset(b)| == |b|;
    ExposureOrderFree(a, b);
  }

  /** Unwinding: neither a reduce-only order nor a swap that opens nothing is gated by what is open. */
  lemma UnwindIgnoresBook(l: Limits, o: OrderIntent, s: SwapIntent, a: seq<BasisPosition>, b: seq<BasisPosition>)
    ensures o.reduceOnly ==> PreTrade(l, Order(o), a) == PreTrade(l, Order(o), b)
    ensures !s.IsOpening() ==> PreTrade(l, Swap(s), a) == PreTrade(l, Swap(s), b)
  {
  }

  /** Holding more never turns a refusal into an approval. */
  lemma MorePositionsNeverUnblock(l: Limits, intent: Intent, open: seq<BasisPosition>, extra: seq<BasisPosition>)
    requires PreTrade(l, intent, open + extra) == Allow
    ensures PreTrade(l, intent, open) == Allow
  {
    ExposureOfConcat(open, extra);
  }
}
