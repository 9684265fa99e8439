/** Conservation of money in a backtest, for every strategy and every series. */
module BacktestLaws {
  import opened Types
  import opened MarketData
  import opened SimulatedPortfolio
  import opened Backtest

  /* ----- conservation ----- */

  ghost function SumTrades(trades: seq<Trade>, f: Trade -> real): real {
    if trades == [] then 0.0 else SumTrades(trades[..|trades| - 1], f) + f(trades[|trades| - 1])
  }

  function Fees(tr: Trade): real { tr.fees }
  function OpeningFees(tr: Trade): real { if tr.action == OpenAction then tr.fees else 0.0 }
  function RealisedNet(tr: Trade): real { if tr.action == CloseAction then tr.netPnL else 0.0 }

  function CountOf(trades: seq<Trade>, action: Action): nat {
    if trades == [] then 0
    else CountOf(trades[..|trades| - 1], action) + (if trades[|trades| - 1].action == action then 1 else 0)
  }

  /** What a close charges beyond its own side: the fees its position had paid when it opened. */
  function ClosedOpeningFees(costs: Costs): Trade -> real {
    (tr: Trade) => if tr.action == CloseAction then tr.fees - SideFees(tr.notional, costs) else 0.0
  }

  /** Where the money went: by trades and by totals. Closing charges the opening fees a second time to the fee total. */
  ghost predicate Conserved<S>(setup: Setup<S>, s: Sim<S>) {
    && Nav(s.book) - setup.startingNav == SumTrades(s.trades, RealisedNet) + Sum(s.book.positions, Carry)
    && Nav(s.book) - setup.startingNav
         == s.totalFunding - s.totalFees + SumTrades(s.trades, ClosedOpeningFees(setup.costs))
    && SumTrades(s.trades, OpeningFees)
         == SumTrades(s.trades, ClosedOpeningFees(setup.costs)) + Sum(s.book.positions, Paid)
    && s.totalFees == SumTrades(s.trades, Fees)
    && s.opens == CountOf(s.trades, OpenAction) && s.closes == CountOf(s.trades, CloseAction)
    && s.opens - s.closes == |s.book.positions|
  }

  lemma SumTradesGrow(trades: seq<Trade>, tr: Trade, f: Trade -> real)
    ensures SumTrades(trades + [tr], f) == SumTrades(trades, f) + f(tr)
  {
    assert (trades + [tr])[..|trades|] == trades;
  }

  lemma CountGrows(trades: seq<Trade>, tr: Trade, action: Action)
    ensures CountOf(trades + [tr], action) == CountOf(trades, action) + (if tr.action == action then 1 else 0)
  {
    assert (trades + [tr])[..|trades|] == trades;
  }

  lemma TradeRecorded(costs: Costs, trades: seq<Trade>, tr: Trade)
    ensures SumTrades(trades + [tr], Fees) == SumTrades(trades, Fees) + tr.fees
    ensures SumTrades(trades + [tr], OpeningFees) == SumTrades(trades, OpeningFees) + OpeningFees(tr)
    ensures SumTrades(trades + [tr], RealisedNet) == SumTrades(trades, RealisedNet) + RealisedNet(tr)
    ensures SumTrades(trades + [tr], ClosedOpeningFees(costs))
            == SumTrades(trades, ClosedOpeningFees(costs)) + ClosedOpeningFees(costs)(tr)
  {
    SumTradesGrow(trades, tr, Fees);
    SumTradesGrow(trades, tr, OpeningFees);
    SumTradesGrow(trades, tr, RealisedNet);
    SumTradesGrow(trades, tr, ClosedOpeningFees(costs));
  }

  lemma AccrualConserved<S>(setup: Setup<S>, ticks: seq<FundingTick>, t: Time, s: Sim<S>)
    requires ValidTicks(ticks) && Conserved(setup, s)
    ensures Conserved(setup, AfterAccrual(ticks, setup.step, t, s))
  {
    AccrualConserves(s.book.positions, t, ticks, setup.step, Locked);
    AccrualConserves(s.book.positions, t, ticks, setup.step, Carry);
    AccrualLeavesPaid(s.book.positions, t, ticks, setup.step);
    assert Accrued(s.book.positions, t, ticks, setup.step).Keys == s.book.positions.Keys;
  }

  lemma CloseConserved<S>(setup: Setup<S>, t: Time, o: OrderIntent, s: Sim<S>)
    requires Conserved(setup, s) && Keyed(s.book.positions)
    ensures Conserved(setup, CloseStep(setup.costs, t, o, s)) && Keyed(CloseStep(setup.costs, t, o, s).book.positions)
  {
    if o.reduceOnly && o.symbol in s.book.positions {
      var m, trade := s.book.positions, CloseTrade(t, s.book.positions[o.symbol], setup.costs);
      SumAfterRemove(m, o.symbol, Locked);
      SumAfterRemove(m, o.symbol, Carry);
      SumAfterRemove(m, o.symbol, Paid);
      TradeRecorded(setup.costs, s.trades, trade);
      CountGrows(s.trades, trade, OpenAction);
      CountGrows(s.trades, trade, CloseAction);
      assert (m - {o.symbol}).Keys == m.Keys - {o.symbol};
    }
  }

  lemma OpenConserved<S>(setup: Setup<S>, t: Time, sw: SwapIntent, s: Sim<S>)
    requires Conserved(setup, s) && Keyed(s.book.positions)
    ensures Conserved(setup, OpenStep(setup.costs, t, sw, s)) && Keyed(OpenStep(setup.costs, t, sw, s).book.positions)
  {
    var sym := sw.outToken.symbol;
    if sym != "USDC" && CanOpen(s.book, sym, sw.inAmount, setup.costs) {
      var m, trade := s.book.positions, OpenTrade(t, sym, sw.inAmount, setup.costs);
      var p := OpenPosition(t, sym, sw.inAmount, 0.0, trade.fees);
      SumAfterInsert(m, sym, p, Locked);
      SumAfterInsert(m, sym, p, Carry);
      SumAfterInsert(m, sym, p, Paid);
      TradeRecorded(setup.costs, s.trades, trade);
      CountGrows(s.trades, trade, OpenAction);
      CountGrows(s.trades, trade, CloseAction);
      assert m[sym := p].Keys == m.Keys + {sym};
    }
  }

  lemma {:induction false} ClosesConserved<S>(setup: Setup<S>, t: Time, orders: seq<OrderIntent>, s: Sim<S>)
    requires Conserved(setup, s) && Keyed(s.book.positions)
    ensures var r := AfterCloses(setup.costs, t, orders, s); Conserved(setup, r) && Keyed(r.book.positions)
  {
    if orders != [] {
      var n := |orders| - 1;
      ClosesConserved(setup, t, orders[..n], s);
      CloseConserved(setup, t, orders[n], AfterCloses(setup.costs, t, orders[..n], s));
    }
  }

  lemma {:induction false} OpensConserved<S>(setup: Setup<S>, t: Time, swaps: seq<SwapIntent>, s: Sim<S>)
    requires Conserved(setup, s) && Keyed(s.book.positions)
    ensures var r := AfterOpens(setup.costs, t, swaps, s); Conserved(setup, r) && Keyed(r.book.positions)
  {
    if swaps != [] {
      var n := |swaps| - 1;
      OpensConserved(setup, t, swaps[..n], s);
      OpenConserved(setup, t, swaps[n], AfterOpens(setup.costs, t, swaps[..n], s));
    }
  }

  lemma StepConserved<S>(setup: Setup<S>, ticks: seq<FundingTick>, t: Time, s: Sim<S>)
    requires ValidTicks(ticks) && Conserved(setup, s) && Keyed(s.book.positions)
    ensures var r := StepAt(setup, ticks, t, s).sim; Conserved(setup, r) && Keyed(r.book.positions)
  {
    var accrued := AfterAccrual(ticks, setup.step, t, s);
    AccrualConserved(setup, ticks, t, s);
    match setup.decide(s.state, StepInput(t, SnapshotAt(t, ticks), accrued.book.positions))
    case Err(message) =>
    case Ok((state, dec)) =>
      var decided := accrued.(state := state, decisions := accrued.decisions + 1);
      assert Conserved(setup, decided);
      ClosesConserved(setup, t, dec.orders, decided);
      OpensConserved(setup, t, dec.swaps, AfterCloses(setup.costs, t, dec.orders, decided));
  }

  /** The reported ending value is the value of the portfolio after the last step. */
  lemma EndingNavIsBookValue<S>(setup: Setup<S>, ticks: seq<FundingTick>, state: S, start: Time, k: nat)
    requires ValidTicks(ticks) && k > 0 && Simulated(setup, ticks, state, start, k).Going?
    ensures var s := Simulated(setup, ticks, state, start, k).sim; EndingNav(setup, s) == Nav(s.book)
  {
    var before := Simulated(setup, ticks, state, start, k - 1);
    var t := start + (k - 1) * setup.step;
    assert Simulated(setup, ticks, state, start, k) == StepAt(setup, ticks, t, before.sim);
  }

  ghost predicate Balanced<S>(setup: Setup<S>, s: Sim<S>) {
    Conserved(setup, s) && Keyed(s.book.positions)
  }

  lemma NextBalanced<S>(setup: Setup<S>, ticks: seq<FundingTick>, state: S, start: Time, k: nat)
    requires ValidTicks(ticks) && Balanced(setup, Simulated(setup, ticks, state, start, k).sim)
    ensures Balanced(setup, Simulated(setup, ticks, state, start, k + 1).sim)
  {
    var before := Simulated(setup, ticks, state, start, k);
    if before.Going? {
      SimulatedNext(setup, ticks, state, start, k);
      StepConserved(setup, ticks, start + k * setup.step, before.sim);
    } else {
      SimulatedStays(setup, ticks, state, start, k);
    }
  }

  /** The books balance after any number of steps of any run, stopped early or not. */
  lemma {:induction false} RunConserved<S>(setup: Setup<S>, ticks: seq<FundingTick>, state: S, start: Time, k: nat)
    requires ValidTicks(ticks)
    ensures Balanced(setup, Simulated(setup, ticks, state, start, k).sim)
  {
    if k > 0 {
      RunConserved(setup, ticks, state, start, k - 1);
      NextBalanced(setup, ticks, state, start, k - 1);
    }
  }
}
