/** The simulated portfolio: cash and open positions, changed in place by funding, opens and closes. */
module SimulatedPortfolio {
  import opened Collections
  import opened Wrappers
  import opened Decimals
  import opened Types
  import opened MarketData

  datatype Costs = Costs(perpFeeBps: int, swapFeeBps: int, gasUsdPerSwap: real, slippageBps: int)

  datatype OpenPosition = OpenPosition(openedAt: Time, symbol: string, notional: real, funding: real, openFees: real)

  datatype Action = OpenAction | CloseAction

  datatype Trade = Trade(time: Time, action: Action, symbol: string, notional: real, funding: real, fees: real,
                         netPnL: real)

  type Positions = map<string, OpenPosition>

  /** One side of a round trip: proportional costs plus gas. */
  function SideFees(notional: real, c: Costs): real {
    Div(notional * (c.perpFeeBps + c.swapFeeBps + c.slippageBps) as real, 10000.0) + c.gasUsdPerSwap
  }

  /* ----- sums over the open positions ----- */

  ghost function SumOver(m: Positions, keys: set<string>, f: OpenPosition -> real): real {
    if keys == {} then 0.0 else
      var k := First(keys);
      (if k in m then f(m[k]) else 0.0) + SumOver(m, keys - {k}, f)
  }

  ghost function Sum(m: Positions, f: OpenPosition -> real): real {
    SumOver(m, m.Keys, f)
  }

  ghost function At(m: Positions, k: string, f: OpenPosition -> real): real {
    if k in m then f(m[k]) else 0.0
  }

  /** The order in which a map is walked does not matter to a sum. */
  lemma {:induction false} SumWithout(m: Positions, keys: set<string>, f: OpenPosition -> real, k: string)
    requires k in keys
    ensures SumOver(m, keys, f) == At(m, k, f) + SumOver(m, keys - {k}, f)
  {
    var p := First(keys);
    if p != k {
      SumWithout(m, keys - {p}, f, k);
      SumWithout(m, keys - {k}, f, p);
      assert keys - {p} - {k} == keys - {k} - {p};
    }
  }

  lemma {:induction false} SumDependsOnEntries(m: Positions, n: Positions, keys: set<string>, f: OpenPosition -> real,
                                               g: OpenPosition -> real)
    requires forall k <- keys :: At(m, k, f) == At(n, k, g)
    ensures SumOver(m, keys, f) == SumOver(n, keys, g)
  {
    if keys != {} { SumDependsOnEntries(m, n, keys - {First(keys)}, f, g); }
  }

  lemma SumAfterInsert(m: Positions, k: string, p: OpenPosition, f: OpenPosition -> real)
    requires k !in m
    ensures Sum(m[k := p], f) == Sum(m, f) + f(p)
  {
    var n := m[k := p];
    SumWithout(n, n.Keys, f, k);
    assert n.Keys - {k} == m.Keys;
    SumDependsOnEntries(n, m, m.Keys, f, f);
  }

  lemma SumAfterRemove(m: Positions, k: string, f: OpenPosition -> real)
    requires k in m
    ensures Sum(m - {k}, f) == Sum(m, f) - f(m[k])
  {
    SumWithout(m, m.Keys, f, k);
    assert (m - {k}).Keys == m.Keys - {k};
    SumDependsOnEntries(m - {k}, m, m.Keys - {k}, f, f);
  }

  lemma SumAfterUpdate(m: Positions, k: string, p: OpenPosition, f: OpenPosition -> real)
    requires k in m
    ensures Sum(m[k := p], f) == Sum(m, f) - f(m[k]) + f(p)
  {
    var n := m[k := p];
    SumWithout(m, m.Keys, f, k);
    SumWithout(n, n.Keys, f, k);
    assert n.Keys == m.Keys;
    SumDependsOnEntries(n, m, m.Keys - {k}, f, f);
  }

  /* ----- funding ----- */

  /** What a short of the given notional earns from one tick: the rate, pro-rated to the step. */
  function TickFunding(tk: FundingTick, notional: real, step: int): real
    requires tk.interval != 0
  {
    notional * tk.rate * Div(step as real, tk.interval as real)
  }

  ghost predicate ValidTicks(ticks: seq<FundingTick>) {
    forall i | 0 <= i < |ticks| :: ticks[i].interval != 0
  }

  /** What a position of this symbol and notional earns from the ticks of the half-open window [from, to). */
  ghost function Earned(ticks: seq<FundingTick>, symbol: string, notional: real, step: int, from: Time, to: Time): real
    requires ValidTicks(ticks)
  {
    if ticks == [] then 0.0 else
      var tk := ticks[|ticks| - 1];
      Earned(ticks[..|ticks| - 1], symbol, notional, step, from, to) +
        (if tk.symbol == symbol && from <= tk.time < to then TickFunding(tk, notional, step) else 0.0)
  }

  /** Windows that meet add up. */
  lemma {:induction false} WindowsAddUp(ticks: seq<FundingTick>, symbol: string, notional: real, step: int, from: Time,
                                        mid: Time, to: Time)
    requires ValidTicks(ticks) && from <= mid <= to
    ensures Earned(ticks, symbol, notional, step, from, to) ==
            Earned(ticks, symbol, notional, step, from, mid) + Earned(ticks, symbol, notional, step, mid, to)
  {
    if ticks != [] { WindowsAddUp(ticks[..|ticks| - 1], symbol, notional, step, from, mid, to); }
  }

  lemma {:induction false} EmptyWindow(ticks: seq<FundingTick>, symbol: string, notional: real, step: int, at: Time)
    requires ValidTicks(ticks)
    ensures Earned(ticks, symbol, notional, step, at, at) == 0.0
  {
    if ticks != [] { EmptyWindow(ticks[..|ticks| - 1], symbol, notional, step, at); }
  }

  /** Ticks from `to` on earn nothing in the window. */
  lemma {:induction false} LaterTicksEarnNothing(past: seq<FundingTick>, future: seq<FundingTick>, symbol: string,
                                                 notional: real, step: int, from: Time, to: Time)
    requires ValidTicks(past + future) && ValidTicks(past) && forall tk <- future :: tk.time >= to
    ensures Earned(past + future, symbol, notional, step, from, to) == Earned(past, symbol, notional, step, from, to)
  {
    if future == [] {
      assert past + future == past;
    } else {
      var n := |future| - 1;
      var all := past + future;
      assert all[..|all| - 1] == past + future[..n];
      LaterTicksEarnNothing(past, future[..n], symbol, notional, step, from, to);
    }
  }

  /** Every position credited with what it earned in the step that ends at t. */
  ghost function Accrued(m: Positions, t: Time, ticks: seq<FundingTick>, step: int): Positions
    requires ValidTicks(ticks)
  {
    map k <- m :: m[k].(funding := m[k].funding + Earned(ticks, k, m[k].notional, step, t - step, t))
  }

  /** Positions after one tick of the step that ends at t. */
  function Credited(m: Positions, t: Time, tk: FundingTick, step: int): Positions
    requires tk.interval != 0
  {
    if t - step <= tk.time < t && tk.symbol in m then
      var p := m[tk.symbol];
      m[tk.symbol := p.(funding := p.funding + TickFunding(tk, p.notional, step))]
    else m
  }

  /** What one tick credits in all. */
  function TickCredit(m: Positions, t: Time, tk: FundingTick, step: int): real
    requires tk.interval != 0
  {
    if t - step <= tk.time < t && tk.symbol in m then TickFunding(tk, m[tk.symbol].notional, step) else 0.0
  }

  /** What the step that ends at t credits in all. */
  ghost function StepCredit(m: Positions, t: Time, ticks: seq<FundingTick>, step: int): real
    requires ValidTicks(ticks)
  {
    if ticks == [] then 0.0
    else StepCredit(m, t, ticks[..|ticks| - 1], step) + TickCredit(m, t, ticks[|ticks| - 1], step)
  }

  function Locked(p: OpenPosition): real { p.notional + p.funding }

  /** What an open position has brought in so far, its opening costs included. */
  function Carry(p: OpenPosition): real { p.funding - p.openFees }

  function Paid(p: OpenPosition): real { p.openFees }

  /** A quantity that moves one for one with a position's funding. */
  ghost predicate FollowsFunding(f: OpenPosition -> real) {
    forall p, more :: f(Plus(p, more)) == f(p) + more
  }

  function Plus(p: OpenPosition, more: real): OpenPosition {
    p.(funding := p.funding + more)
  }

  /** Accrual conserves: what the positions gain is exactly what the step credits. */
  lemma {:induction false} AccrualConserves(m: Positions, t: Time, ticks: seq<FundingTick>, step: int,
                                            f: OpenPosition -> real)
    requires ValidTicks(ticks) && FollowsFunding(f)
    ensures Sum(Accrued(m, t, ticks, step), f) == Sum(m, f) + StepCredit(m, t, ticks, step)
  {
    if ticks == [] {
      AccrueNothing(m, t, step);
    } else {
      var n := |ticks| - 1;
      var before, tk := Accrued(m, t, ticks[..n], step), ticks[n];
      AccrualConserves(m, t, ticks[..n], step, f);
      AccrueOneTick(m, t, ticks, step, n);
      assert ticks[..n + 1] == ticks;
      if t - step <= tk.time < t && tk.symbol in m {
        var p, more := before[tk.symbol], TickFunding(tk, m[tk.symbol].notional, step);
        SumAfterUpdate(before, tk.symbol, Plus(p, more), f);
      }
    }
  }

  lemma AccrualLeavesPaid(m: Positions, t: Time, ticks: seq<FundingTick>, step: int)
    requires ValidTicks(ticks)
    ensures Sum(Accrued(m, t, ticks, step), Paid) == Sum(m, Paid)
  {
    var n := Accrued(m, t, ticks, step);
    assert n.Keys == m.Keys;
    SumDependsOnEntries(n, m, m.Keys, Paid, Paid);
  }

  /* ----- the portfolio ----- */

  datatype Book = Book(cash: real, positions: Positions)

  ghost predicate Keyed(m: Positions) {
    forall k <- m :: m[k].symbol == k
  }

  function OpenTrade(t: Time, symbol: string, notional: real, costs: Costs): Trade {
    Trade(t, OpenAction, symbol, notional, 0.0, SideFees(notional, costs), 0.0)
  }

  function CloseTrade(t: Time, p: OpenPosition, costs: Costs): Trade {
    var fees := p.openFees + SideFees(p.notional, costs);
    Trade(t, CloseAction, p.symbol, p.notional, p.funding, fees, p.funding - fees)
  }

  predicate CanOpen(b: Book, symbol: string, notional: real, costs: Costs) {
    symbol !in b.positions && notional != 0.0 && b.cash >= notional + SideFees(notional, costs)
  }

  function AfterOpen(b: Book, t: Time, symbol: string, notional: real, costs: Costs): Book {
    if !CanOpen(b, symbol, notional, costs) then b else
      var fees := SideFees(notional, costs);
      Book(b.cash - notional - fees, b.positions[symbol := OpenPosition(t, symbol, notional, 0.0, fees)])
  }

  function AfterClose(b: Book, symbol: string, costs: Costs): Book {
    if symbol !in b.positions then b else
      var p := b.positions[symbol];
      Book(b.cash + p.notional + p.funding - SideFees(p.notional, costs), b.positions - {symbol})
  }

  ghost function Nav(b: Book): real {
    b.cash + Sum(b.positions, Locked)
  }

  class Portfolio {
    var cash: real
    var positions: Positions

    ghost function View(): Book
      reads this
    {
      Book(cash, positions)
    }

    constructor (startingNav: real)
      ensures View() == Book(startingNav, map[])
    {
      cash, positions := startingNav, map[];
    }

    /** Cash plus what is locked in positions, whatever order the map yields them. */
    method ComputeNav() returns (v: real)
      ensures v == Nav(View())
    {
      v := cash;
      var rest := positions.Keys;
      while rest != {}
        invariant rest <= positions.Keys
        invariant v + SumOver(positions, rest, Locked) == Nav(View())
        decreases rest
      {
        var k :| k in rest;
        SumWithout(positions, rest, Locked, k);
        v := v + positions[k].notional + positions[k].funding;
        rest := rest - {k};
      }
    }

    /** Credits one tick, if it falls in the step that ends at t and its symbol is held. */
    method CreditTick(t: Time, tk: FundingTick, step: int) returns (credited: real)
      requires tk.interval != 0
      modifies this`positions
      ensures positions == Credited(old(positions), t, tk, step)
      ensures credited == TickCredit(old(positions), t, tk, step)
    {
      credited := 0.0;
      if tk.time < t - step || tk.time >= t { return; }
      if tk.symbol !in positions { return; }
      var op := positions[tk.symbol];
      var intervals := Div(step as real, tk.interval as real);
      credited := op.notional * tk.rate * intervals;
      assert credited == TickFunding(tk, op.notional, step);
      positions := positions[tk.symbol := op.(funding := op.funding + credited)];
    }

    /** Credits the ticks of the elapsed step to the open positions and returns what was credited in all. */
    method AccrueFunding(t: Time, ticks: seq<FundingTick>, step: int) returns (stepFunding: real)
      requires ValidTicks(ticks)
      modifies this`positions
      ensures positions == Accrued(old(positions), t, ticks, step)
      ensures stepFunding == StepCredit(old(positions), t, ticks, step)
    {
      stepFunding := 0.0;
      if |positions| == 0 {
        EmptyBookEarnsNothing(positions, t, ticks, step);
        return;
      }
      AccrueNothing(positions, t, step);
      for i := 0 to |ticks|
        invariant positions == Accrued(old(positions), t, ticks[..i], step)
        invariant stepFunding == StepCredit(old(positions), t, ticks[..i], step)
      {
        AccrueOneTick(old(positions), t, ticks, step, i);
        assert ticks[..i + 1][..i] == ticks[..i];
        var credited := CreditTick(t, ticks[i], step);
        stepFunding := stepFunding + credited;
      }
      assert ticks[..|ticks|] == ticks;
    }

    method Open(t: Time, symbol: string, notional: real, costs: Costs) returns (trade: Option<Trade>)
      modifies this
      ensures View() == AfterOpen(old(View()), t, symbol, notional, costs)
      ensures trade == if CanOpen(old(View()), symbol, notional, costs) then Some(OpenTrade(t, symbol, notional, costs))
                else None
    {
      if symbol in positions { return None; }
      if notional == 0.0 { return None; }
      var fees := SideFees(notional, costs);
      if cash < notional + fees { return None; }
      cash := cash - notional - fees;
      positions := positions[symbol := OpenPosition(t, symbol, notional, 0.0, fees)];
      trade := Some(Trade(t, OpenAction, symbol, notional, 0.0, fees, 0.0));
    }

    method Close(t: Time, symbol: string, costs: Costs) returns (trade: Option<Trade>)
      modifies this
      requires Keyed(positions)
      ensures View() == AfterClose(old(View()), symbol, costs)
      ensures trade == if symbol in old(positions) then Some(CloseTrade(t, old(positions)[symbol], costs)) else None
    {
      if symbol !in positions { return None; }
      var op := positions[symbol];
      var closeFee := SideFees(op.notional, costs);
      var totalFees := op.openFees + closeFee;
      positions := positions - {symbol};
      cash := cash + op.notional + op.funding - closeFee;
      trade := Some(Trade(t, CloseAction, symbol, op.notional, op.funding, totalFees, op.funding - totalFees));
    }
  }

  lemma {:induction false} EmptyBookEarnsNothing(m: Positions, t: Time, ticks: seq<FundingTick>, step: int)
    requires ValidTicks(ticks) && |m| == 0
    ensures Accrued(m, t, ticks, step) == m && StepCredit(m, t, ticks, step) == 0.0
  {
    if ticks != [] { EmptyBookEarnsNothing(m, t, ticks[..|ticks| - 1], step); }
  }

  lemma AccrueNothing(m: Positions, t: Time, step: int)
    ensures Accrued(m, t, [], step) == m
  {
  }

  lemma AccrueOneTick(m: Positions, t: Time, ticks: seq<FundingTick>, step: int, i: nat)
    requires ValidTicks(ticks) && i < |ticks|
    ensures Accrued(m, t, ticks[..i + 1], step) == Credited(Accrued(m, t, ticks[..i], step), t, ticks[i], step)
  {
    assert ticks[..i + 1][..i] == ticks[..i];
  }
}
