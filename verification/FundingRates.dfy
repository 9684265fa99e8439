/** What funding comes to in plain arithmetic: its sign, its size, and what every close of a run reports. */
module FundingRates {
  import opened Decimals
  import opened Types
  import opened MarketData
  import opened SimulatedPortfolio
  import opened Backtest
  import opened HoldingWindows

  /** The tick is one of the symbol in the half-open window. */
  predicate InWindow(tk: FundingTick, symbol: string, from: Time, to: Time) {
    tk.symbol == symbol && from <= tk.time && tk.time < to
  }

  /** Rates of a window, each for the part of its interval that one step covers. */
  ghost function RateSum(ticks: seq<FundingTick>, symbol: string, step: int, from: Time, to: Time): real
    requires ValidTicks(ticks)
  {
    if ticks == [] then 0.0 else
      var tk := ticks[|ticks| - 1];
      RateSum(ticks[..|ticks| - 1], symbol, step, from, to) +
        (if InWindow(tk, symbol, from, to) then tk.rate * (step as real / tk.interval as real) else 0.0)
  }

  /** How large they are, whichever way they go. */
  ghost function RateSize(ticks: seq<FundingTick>, symbol: string, from: Time, to: Time): real {
    if ticks == [] then 0.0 else
      var tk := ticks[|ticks| - 1];
      RateSize(ticks[..|ticks| - 1], symbol, from, to) + (if InWindow(tk, symbol, from, to) then Abs(tk.rate) else 0.0)
  }

  /* ----- size ----- */

  /** The amount is the notional times the rates, to within half a last place of each rate. */
  ghost predicate Pays(amount: real, notional: real, rates: real, size: real) {
    -(Abs(notional) * (size * HALF_ULP)) <= amount - notional * rates <= Abs(notional) * (size * HALF_ULP)
  }

  lemma ProductError(x: real, y: real, e: real)
    requires -e <= y <= e
    ensures -(Abs(x) * e) <= x * y <= Abs(x) * e
  {
    var a := Abs(x);
    assert a * (e - y) >= 0.0 && a * (e + y) >= 0.0;
    if x >= 0.0 { assert x * y == a * y; } else { assert x * y == -(a * y); }
  }

  lemma Spread(x: real, a: real, b: real)
    ensures x * (a + b) == x * a + x * b
  {
  }

  lemma PaysBoth(notional: real, total: real, rates: real, size: real,
                 a: real, ratesA: real, sizeA: real, b: real, ratesB: real, sizeB: real)
    requires Pays(a, notional, ratesA, sizeA) && Pays(b, notional, ratesB, sizeB)
    requires total == a + b && rates == ratesA + ratesB && size == sizeA + sizeB
    ensures Pays(total, notional, rates, size)
  {
    Spread(notional, ratesA, ratesB);
    Spread(HALF_ULP, sizeA, sizeB);
    Spread(Abs(notional), sizeA * HALF_ULP, sizeB * HALF_ULP);
  }

  lemma PaymentSplits(notional: real, rate: real, part: real, off: real)
    ensures notional * rate * (part + off) == notional * (rate * part) + notional * (rate * off)
  {
    Spread(rate, part, off);
    Spread(notional, rate * part, rate * off);
    assert notional * rate * (part + off) == notional * (rate * (part + off));
  }

  lemma RoundedPays(notional: real, rate: real, part: real, off: real)
    requires -HALF_ULP <= off <= HALF_ULP
    ensures Pays(notional * rate * (part + off), notional, rate * part, Abs(rate))
  {
    ProductError(rate, off, HALF_ULP);
    ProductError(notional, rate * off, Abs(rate) * HALF_ULP);
    PaymentSplits(notional, rate, part, off);
  }

  /** One tick pays a short the notional times the rate, for the part of its interval that a step covers. */
  lemma OneTickPays(tk: FundingTick, notional: real, step: int)
    requires tk.interval != 0
    ensures Pays(TickFunding(tk, notional, step), notional, tk.rate * (step as real / tk.interval as real),
                 Abs(tk.rate))
  {
    var part, rounded := step as real / tk.interval as real, Div(step as real, tk.interval as real);
    Round16Error(part);
    RoundedPays(notional, tk.rate, part, rounded - part);
  }

  lemma NothingPays(notional: real)
    ensures Pays(0.0, notional, 0.0, 0.0)
  {
  }

  /** What a position earns in a window is its notional times the rates. */
  lemma {:induction false} EarnedIsRates(ticks: seq<FundingTick>, symbol: string, notional: real, step: int,
                                         from: Time, to: Time)
    requires ValidTicks(ticks)
    ensures Pays(Earned(ticks, symbol, notional, step, from, to), notional,
                 RateSum(ticks, symbol, step, from, to), RateSize(ticks, symbol, from, to))
  {
    if ticks == [] {
      NothingPays(notional);
    } else {
      var init, tk := ticks[..|ticks| - 1], ticks[|ticks| - 1];
      EarnedIsRates(init, symbol, notional, step, from, to);
      if InWindow(tk, symbol, from, to) {
        OneTickPays(tk, notional, step);
        PaysBoth(notional, Earned(ticks, symbol, notional, step, from, to),
                 RateSum(ticks, symbol, step, from, to), RateSize(ticks, symbol, from, to),
                 Earned(init, symbol, notional, step, from, to), RateSum(init, symbol, step, from, to),
                 RateSize(init, symbol, from, to), TickFunding(tk, notional, step),
                 tk.rate * (step as real / tk.interval as real), Abs(tk.rate));
      }
    }
  }

  /** Every tick's interval is one step. */
  ghost predicate StepwiseTicks(ticks: seq<FundingTick>, step: int) {
    forall i | 0 <= i < |ticks| :: ticks[i].interval == step
  }

  /** Then it is the notional times the rates exactly. */
  lemma {:induction false} EarnedStepwise(ticks: seq<FundingTick>, symbol: string, notional: real, step: int,
                                          from: Time, to: Time)
    requires ValidTicks(ticks) && StepwiseTicks(ticks, step)
    ensures Earned(ticks, symbol, notional, step, from, to) == notional * RateSum(ticks, symbol, step, from, to)
  {
    if ticks != [] {
      var init, tk := ticks[..|ticks| - 1], ticks[|ticks| - 1];
      EarnedStepwise(init, symbol, notional, step, from, to);
      if InWindow(tk, symbol, from, to) {
        WholeStep(step);
        Spread(notional, RateSum(init, symbol, step, from, to), tk.rate * (step as real / tk.interval as real));
      }
    }
  }

  lemma WholeStep(step: int)
    requires step != 0
    ensures step as real / step as real == 1.0 && Div(step as real, step as real) == 1.0
  {
    Round16Exact(1.0, 10000000000000000);
  }

  /* ----- sign ----- */

  /** No rate of the symbol in the window is negative. */
  ghost predicate RatesPay(ticks: seq<FundingTick>, symbol: string, from: Time, to: Time) {
    forall i | 0 <= i < |ticks| && InWindow(ticks[i], symbol, from, to) :: ticks[i].rate >= 0.0
  }

  /** No rate of the symbol in the window is positive. */
  ghost predicate RatesCharge(ticks: seq<FundingTick>, symbol: string, from: Time, to: Time) {
    forall i | 0 <= i < |ticks| && InWindow(ticks[i], symbol, from, to) :: ticks[i].rate <= 0.0
  }

  ghost predicate PositiveIntervals(ticks: seq<FundingTick>) {
    forall i | 0 <= i < |ticks| :: ticks[i].interval > 0
  }

  lemma ProductSign(x: real, y: real, z: real)
    requires x >= 0.0 && z >= 0.0
    ensures y >= 0.0 ==> x * y * z >= 0.0
    ensures y <= 0.0 ==> x * y * z <= 0.0
  {
    if y >= 0.0 {
      assert x * y >= 0.0;
      assert (x * y) * z >= 0.0;
    } else {
      assert x * -y >= 0.0;
      assert x * y == -(x * -y);
      assert (x * -y) * z >= 0.0;
    }
  }

  lemma TickSign(tk: FundingTick, notional: real, step: int)
    requires tk.interval > 0 && notional >= 0.0 && step > 0
    ensures tk.rate >= 0.0 ==> TickFunding(tk, notional, step) >= 0.0
    ensures tk.rate <= 0.0 ==> TickFunding(tk, notional, step) <= 0.0
  {
    DivNonNegative(step as real, tk.interval as real);
    ProductSign(notional, tk.rate, Div(step as real, tk.interval as real));
  }

  /** A short receives on positive rates and pays on negative ones. */
  lemma {:induction false} ShortsReceive(ticks: seq<FundingTick>, symbol: string, notional: real, step: int,
                                         from: Time, to: Time)
    requires ValidTicks(ticks) && PositiveIntervals(ticks) && notional >= 0.0 && step > 0
    ensures RatesPay(ticks, symbol, from, to) ==> Earned(ticks, symbol, notional, step, from, to) >= 0.0
    ensures RatesCharge(ticks, symbol, from, to) ==> Earned(ticks, symbol, notional, step, from, to) <= 0.0
  {
    if ticks != [] {
      var init, tk := ticks[..|ticks| - 1], ticks[|ticks| - 1];
      ShortsReceive(init, symbol, notional, step, from, to);
      TickSign(tk, notional, step);
      assert forall i | 0 <= i < |init| :: init[i] == ticks[i];
    }
  }

  /* ----- every close of a run ----- */

  /** An amount earned by a short of this notional, told by the rates of a window: its size and its sign. */
  ghost predicate ToldByRates(ticks: seq<FundingTick>, step: int, amount: real, symbol: string, notional: real,
                              from: Time, to: Time)
    requires ValidTicks(ticks)
  {
    && Pays(amount, notional, RateSum(ticks, symbol, step, from, to), RateSize(ticks, symbol, from, to))
    && (StepwiseTicks(ticks, step) ==> amount == notional * RateSum(ticks, symbol, step, from, to))
    && (PositiveIntervals(ticks) && notional >= 0.0 && RatesPay(ticks, symbol, from, to) ==> amount >= 0.0)
    && (PositiveIntervals(ticks) && notional >= 0.0 && RatesCharge(ticks, symbol, from, to) ==> amount <= 0.0)
  }

  lemma EarnedIsTold(ticks: seq<FundingTick>, step: int, symbol: string, notional: real, from: Time, to: Time)
    requires ValidTicks(ticks) && step > 0
    ensures ToldByRates(ticks, step, Earned(ticks, symbol, notional, step, from, to), symbol, notional, from, to)
  {
    EarnedIsRates(ticks, symbol, notional, step, from, to);
    if StepwiseTicks(ticks, step) {
      EarnedStepwise(ticks, symbol, notional, step, from, to);
    }
    if PositiveIntervals(ticks) && notional >= 0.0 {
      ShortsReceive(ticks, symbol, notional, step, from, to);
    }
  }

  /** The funding of trade j is what its notional earns on the rates between trade i, which opened it, and itself. */
  ghost predicate ReportsRates(ticks: seq<FundingTick>, step: int, trades: seq<Trade>, i: int, j: int)
    requires ValidTicks(ticks)
  {
    && 0 <= i < j < |trades| && trades[i].action == OpenAction && trades[j].action == CloseAction
    && trades[i].symbol == trades[j].symbol && trades[i].notional == trades[j].notional
    && ToldByRates(ticks, step, trades[j].funding, trades[j].symbol, trades[j].notional, trades[i].time, trades[j].time)
  }

  lemma RoundTripReportsRates(ticks: seq<FundingTick>, step: int, costs: Costs, trades: seq<Trade>, i: int, j: int)
    requires ValidTicks(ticks) && step > 0 && RoundTrip(ticks, step, costs, trades, i, j)
    ensures ReportsRates(ticks, step, trades, i, j)
  {
    EarnedIsTold(ticks, step, trades[j].symbol, trades[j].notional, trades[i].time, trades[j].time);
  }

  /** In every run every close reports its notional times the rates of its holding window. */
  lemma ClosesReportRates<S>(setup: Setup<S>, ticks: seq<FundingTick>, state: S, start: Time, k: nat, j: int)
    requires ValidTicks(ticks) && setup.step > 0
    requires var trades := Simulated(setup, ticks, state, start, k).sim.trades;
             0 <= j < |trades| && trades[j].action == CloseAction
    ensures exists i :: ReportsRates(ticks, setup.step, Simulated(setup, ticks, state, start, k).sim.trades, i, j)
  {
    var trades := Simulated(setup, ticks, state, start, k).sim.trades;
    TradesEarnTheirWindows(setup, ticks, state, start, k);
    var i :| RoundTrip(ticks, setup.step, setup.costs, trades, i, j);
    RoundTripReportsRates(ticks, setup.step, setup.costs, trades, i, j);
  }
}
