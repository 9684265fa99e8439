/** Which trades a backtest makes, and what it charges for them. */
module BacktestTrades {
  import opened Wrappers
  import opened Collections
  import opened Decimals
  import opened Types
  import opened MarketData
  import opened SimulatedPortfolio
  import opened Backtest
  import opened HoldingWindows

  /* ----- what a side costs ----- */

  /** The proportional costs in basis points of the notional, plus the gas. */
  function Price(notional: real, costs: Costs): real {
    notional * costs.perpFeeBps as real / 10000.0 + notional * costs.swapFeeBps as real / 10000.0
      + notional * costs.slippageBps as real / 10000.0 + costs.gasUsdPerSwap
  }

  /** A fee for this many sides, to within half a last place each. */
  ghost predicate Charges(fees: real, sides: nat, notional: real, costs: Costs) {
    -(sides as real * HALF_ULP) <= fees - sides as real * Price(notional, costs) <= sides as real * HALF_ULP
  }

  lemma PointsAddUp(notional: real, costs: Costs)
    ensures notional * (costs.perpFeeBps + costs.swapFeeBps + costs.slippageBps) as real / 10000.0 + costs.gasUsdPerSwap
         == Price(notional, costs)
  {
    var a, b, c := costs.perpFeeBps as real, costs.swapFeeBps as real, costs.slippageBps as real;
    assert notional * (a + b + c) == notional * a + notional * b + notional * c;
  }

  lemma SideFeesCharge(notional: real, costs: Costs)
    ensures Charges(SideFees(notional, costs), 1, notional, costs)
  {
    PointsAddUp(notional, costs);
    Round16Error(notional * (costs.perpFeeBps + costs.swapFeeBps + costs.slippageBps) as real / 10000.0);
  }

  /* ----- closes ----- */

  function ReducesOn(k: string): OrderIntent -> bool {
    (o: OrderIntent) => o.reduceOnly && o.symbol == k
  }

  ghost predicate Ordered(orders: seq<OrderIntent>, k: string) {
    Any(orders, ReducesOn(k))
  }

  /** The orders of a decision close exactly the positions that a reduce-only one names; the others stay as they are. */
  lemma {:induction false} ClosesExactly<S>(costs: Costs, t: Time, orders: seq<OrderIntent>, s: Sim<S>, k: string)
    ensures var m, n := s.book.positions, AfterCloses(costs, t, orders, s).book.positions;
            && (k in n <==> k in m && !Ordered(orders, k))
            && (k in n ==> n[k] == m[k])
  {
    if orders != [] {
      ClosesExactly(costs, t, orders[..|orders| - 1], s, k);
      AnyOneMore(orders, ReducesOn(k));
    }
  }

  /* ----- opens ----- */

  /**
   A swap opens a position exactly when it buys something else than dollars, for some amount, that is
   not held, and the cash covers the amount and the fees; and then it is worth the amount, and paid for.
   */
  lemma OpensExactly<S>(costs: Costs, t: Time, sw: SwapIntent, s: Sim<S>, k: string)
    ensures var m, n := s.book.positions, OpenStep(costs, t, sw, s).book.positions;
            var left := s.book.cash - sw.inAmount - SideFees(sw.inAmount, costs);
            var opens := k !in m && k == sw.outToken.symbol && k != "USDC" && sw.inAmount != 0.0 && left >= 0.0;
            && (k in n <==> k in m || opens)
            && (k in m ==> n[k] == m[k])
            && (opens ==> n[k] == OpenPosition(t, k, sw.inAmount, 0.0, SideFees(sw.inAmount, costs)))
            && (opens ==> OpenStep(costs, t, sw, s).book.cash == left)
  {
  }

  /** Opening never overdraws the cash. */
  lemma {:induction false} OpensNeverOverdraw<S>(costs: Costs, t: Time, swaps: seq<SwapIntent>, s: Sim<S>)
    requires s.book.cash >= 0.0
    ensures AfterOpens(costs, t, swaps, s).book.cash >= 0.0
  {
    if swaps != [] { OpensNeverOverdraw(costs, t, swaps[..|swaps| - 1], s); }
  }

  /* ----- the trades of a step ----- */

  /** The trade does what an intent of the decision asks for, at time t. */
  ghost predicate Asked(t: Time, dec: Decision, tr: Trade) {
    && tr.time == t
    && (tr.action == CloseAction ==> Ordered(dec.orders, tr.symbol))
    && (tr.action == OpenAction ==>
          exists sw :: sw in dec.swaps && sw.outToken.symbol == tr.symbol != "USDC" && sw.inAmount == tr.notional)
  }

  ghost predicate AskedFrom(t: Time, dec: Decision, trades: seq<Trade>, n: nat) {
    forall i | n <= i < |trades| :: Asked(t, dec, trades[i])
  }

  lemma {:induction false} ClosesAsked<S>(costs: Costs, t: Time, dec: Decision, orders: seq<OrderIntent>, s: Sim<S>)
    requires orders <= dec.orders && (forall k <- s.book.positions :: s.book.positions[k].symbol == k)
    ensures var r := AfterCloses(costs, t, orders, s);
            && s.trades <= r.trades && AskedFrom(t, dec, r.trades, |s.trades|)
            && (forall k <- r.book.positions :: r.book.positions[k].symbol == k)
  {
    if orders != [] {
      var n := |orders| - 1;
      ClosesAsked(costs, t, dec, orders[..n], s);
      assert dec.orders[n] == orders[n];
    }
  }

  lemma {:induction false} OpensAsked<S>(costs: Costs, t: Time, dec: Decision, swaps: seq<SwapIntent>, s: Sim<S>,
                                         n: nat)
    requires swaps <= dec.swaps && AskedFrom(t, dec, s.trades, n)
    ensures var r := AfterOpens(costs, t, swaps, s); s.trades <= r.trades && AskedFrom(t, dec, r.trades, n)
  {
    if swaps != [] {
      var m := |swaps| - 1;
      OpensAsked(costs, t, dec, swaps[..m], s, n);
      assert dec.swaps[m] == swaps[m] && dec.swaps[m] in dec.swaps;
    }
  }

  /** Every trade of a step closes or opens what its decision asks for. */
  lemma StepTradesAreAsked<S>(costs: Costs, t: Time, state: S, dec: Decision, s: Sim<S>)
    requires forall k <- s.book.positions :: s.book.positions[k].symbol == k
    ensures var r := AfterDecision(costs, t, state, dec, s);
            s.trades <= r.trades && AskedFrom(t, dec, r.trades, |s.trades|)
  {
    var decided := s.(state := state, decisions := s.decisions + 1);
    var closed := AfterCloses(costs, t, dec.orders, decided);
    ClosesAsked(costs, t, dec, dec.orders, decided);
    OpensAsked(costs, t, dec, dec.swaps, closed, |s.trades|);
  }

  /* ----- what a run is charged ----- */

  /** Every open in the report is charged one side. */
  ghost predicate OpensCharged(trades: seq<Trade>, costs: Costs) {
    forall i | 0 <= i < |trades| && trades[i].action == OpenAction ::
      Charges(trades[i].fees, 1, trades[i].notional, costs)
  }

  lemma {:induction false} ClosesKeepCharged<S>(costs: Costs, t: Time, orders: seq<OrderIntent>, s: Sim<S>)
    requires OpensCharged(s.trades, costs)
    ensures OpensCharged(AfterCloses(costs, t, orders, s).trades, costs)
  {
    if orders != [] { ClosesKeepCharged(costs, t, orders[..|orders| - 1], s); }
  }

  lemma {:induction false} OpensKeepCharged<S>(costs: Costs, t: Time, swaps: seq<SwapIntent>, s: Sim<S>)
    requires OpensCharged(s.trades, costs)
    ensures OpensCharged(AfterOpens(costs, t, swaps, s).trades, costs)
  {
    if swaps != [] {
      OpensKeepCharged(costs, t, swaps[..|swaps| - 1], s);
      SideFeesCharge(swaps[|swaps| - 1].inAmount, costs);
    }
  }

  lemma StepKeepsCharged<S>(setup: Setup<S>, ticks: seq<FundingTick>, t: Time, s: Sim<S>)
    requires ValidTicks(ticks) && OpensCharged(s.trades, setup.costs)
    ensures OpensCharged(StepAt(setup, ticks, t, s).sim.trades, setup.costs)
  {
    var accrued := AfterAccrual(ticks, setup.step, t, s);
    match setup.decide(s.state, StepInput(t, SnapshotAt(t, ticks), accrued.book.positions))
    case Err(message) =>
    case Ok((state, dec)) =>
      var decided := accrued.(state := state, decisions := accrued.decisions + 1);
      ClosesKeepCharged(setup.costs, t, dec.orders, decided);
      OpensKeepCharged(setup.costs, t, dec.swaps, AfterCloses(setup.costs, t, dec.orders, decided));
  }

  lemma {:induction false} RunKeepsCharged<S>(setup: Setup<S>, ticks: seq<FundingTick>, state: S, start: Time, k: nat)
    requires ValidTicks(ticks)
    ensures OpensCharged(Simulated(setup, ticks, state, start, k).sim.trades, setup.costs)
  {
    if k > 0 {
      RunKeepsCharged(setup, ticks, state, start, k - 1);
      var before := Simulated(setup, ticks, state, start, k - 1);
      if before.Going? {
        StepKeepsCharged(setup, ticks, start + (k - 1) * setup.step, before.sim);
      }
    }
  }

  lemma TwoSides(a: real, b: real, notional: real, costs: Costs)
    requires Charges(a, 1, notional, costs) && Charges(b, 1, notional, costs)
    ensures Charges(a + b, 2, notional, costs)
  {
  }

  /**
   In every run an open is charged one side and a close two, its own and that of the open, and the close
   nets them off.
   */
  lemma TradesAreCharged<S>(setup: Setup<S>, ticks: seq<FundingTick>, state: S, start: Time, k: nat, j: int)
    requires ValidTicks(ticks) && setup.step > 0
    requires 0 <= j < |Simulated(setup, ticks, state, start, k).sim.trades|
    ensures var tr := Simulated(setup, ticks, state, start, k).sim.trades[j];
            && Charges(tr.fees, if tr.action == OpenAction then 1 else 2, tr.notional, setup.costs)
            && (tr.action == CloseAction ==> tr.netPnL == tr.funding - tr.fees)
  {
    var trades := Simulated(setup, ticks, state, start, k).sim.trades;
    RunKeepsCharged(setup, ticks, state, start, k);
    if trades[j].action == CloseAction {
      TradesEarnTheirWindows(setup, ticks, state, start, k);
      var i :| RoundTrip(ticks, setup.step, setup.costs, trades, i, j);
      SideFeesCharge(trades[j].notional, setup.costs);
      TwoSides(trades[i].fees, SideFees(trades[j].notional, setup.costs), trades[j].notional, setup.costs);
    }
  }

  /* ----- how far a run gets ----- */

  lemma DecidingLeavesCount<S>(costs: Costs, t: Time, state: S, dec: Decision, s: Sim<S>)
    ensures AfterDecision(costs, t, state, dec, s).decisions == s.decisions + 1
  {
    var decided := s.(state := state, decisions := s.decisions + 1);
    ClosesLeaveDecisions(costs, t, dec.orders, decided);
    OpensLeaveDecisions(costs, t, dec.swaps, AfterCloses(costs, t, dec.orders, decided));
  }

  lemma {:induction false} ClosesLeaveDecisions<S>(costs: Costs, t: Time, orders: seq<OrderIntent>, s: Sim<S>)
    ensures AfterCloses(costs, t, orders, s).decisions == s.decisions
  {
    if orders != [] { ClosesLeaveDecisions(costs, t, orders[..|orders| - 1], s); }
  }

  lemma {:induction false} OpensLeaveDecisions<S>(costs: Costs, t: Time, swaps: seq<SwapIntent>, s: Sim<S>)
    ensures AfterOpens(costs, t, swaps, s).decisions == s.decisions
  {
    if swaps != [] { OpensLeaveDecisions(costs, t, swaps[..|swaps| - 1], s); }
  }

  lemma StepDecides<S>(setup: Setup<S>, ticks: seq<FundingTick>, t: Time, s: Sim<S>)
    requires ValidTicks(ticks)
    ensures var r := StepAt(setup, ticks, t, s);
            r.sim.decisions == if r.Going? then s.decisions + 1 else s.decisions
  {
    var accrued := AfterAccrual(ticks, setup.step, t, s);
    match setup.decide(s.state, StepInput(t, SnapshotAt(t, ticks), accrued.book.positions))
    case Err(message) =>
    case Ok((state, dec)) => DecidingLeavesCount(setup.costs, t, state, dec, accrued);
  }

  /** A run that is still going has counted one decision per step. */
  lemma {:induction false} DecisionsCountSteps<S>(setup: Setup<S>, ticks: seq<FundingTick>, state: S, start: Time,
                                                  k: nat)
    requires ValidTicks(ticks) && Simulated(setup, ticks, state, start, k).Going?
    ensures Simulated(setup, ticks, state, start, k).sim.decisions == k
  {
    if k > 0 {
      DecisionsCountSteps(setup, ticks, state, start, k - 1);
      StepDecides(setup, ticks, start + (k - 1) * setup.step, Simulated(setup, ticks, state, start, k - 1).sim);
    }
  }

  /**
   How a run ends: without an error exactly when the strategy never refuses and no step finds the
   context cancelled, and with a cancellation exactly when one does before the strategy refuses.
   */
  lemma RunEndsExactly<S>(setup: Setup<S>, series: seq<FundingTick>, state: S, cancelledAt: Option<nat>)
    requires setup.step > 0 && ValidTicks(series) && series != []
    ensures var start, steps := StartOf(series, setup.step), StepsOf(series, setup.step);
            var error := ErrorOf(setup, series, Replayed(setup, series, state, cancelledAt), cancelledAt);
            var cancels := cancelledAt.Some? && cancelledAt.value < steps;
            && (error == None <==> !cancels && Simulated(setup, series, state, start, steps).Going?)
            && (error == Some(Cancelled) <==>
                cancels && Simulated(setup, series, state, start, cancelledAt.value).Going?)
            && (error.Some? && error.value.DecideFailed? ==> Simulated(setup, series, state, start, steps).Stopped?)
  {
    var start, steps := StartOf(series, setup.step), StepsOf(series, setup.step);
    var made := Allowed(cancelledAt, steps);
    if Simulated(setup, series, state, start, made).Stopped? {
      StoppedForGood(setup, series, state, start, made, steps);
    }
  }
}
