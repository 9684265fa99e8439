/** What the rotation does in terms of prices: it holds what rose, and prefers what rose more. */
module MomentumPrices {
  import opened Decimals
  import opened Momentum
  import opened MomentumRuns

  /** A conversion to floats never reverses the order. */
  ghost predicate Monotone(toFloat: real -> real) {
    forall x, y | x <= y :: toFloat(x) <= toFloat(y)
  }

  /** A conversion that tells any two decimals apart. */
  ghost predicate Increasing(toFloat: real -> real) {
    forall x, y | x < y :: toFloat(x) < toFloat(y)
  }

  lemma IncreasingIsMonotone(toFloat: real -> real)
    requires Increasing(toFloat)
    ensures Monotone(toFloat)
  {
  }

  /** The window has two prices or more, and starts with a positive one. */
  predicate Started(prices: seq<real>) {
    |prices| >= 2 && prices[0] > 0.0
  }

  /** Over the window the price rose by this part of its first value, or more, to within half a last place. */
  predicate RoseBy(prices: seq<real>, rise: real)
    requires Started(prices)
  {
    prices[|prices| - 1] - prices[0] > (rise - HALF_ULP) * prices[0]
  }

  /** It rose by no more than that, half a last place included. */
  predicate RoseAtMost(prices: seq<real>, rise: real)
    requires Started(prices)
  {
    prices[|prices| - 1] - prices[0] <= (rise - HALF_ULP) * prices[0]
  }

  /** It rose by that part, and half a last place more. */
  predicate RoseClearly(prices: seq<real>, rise: real)
    requires Started(prices)
  {
    prices[|prices| - 1] - prices[0] >= (rise + HALF_ULP) * prices[0]
  }

  predicate Fell(prices: seq<real>)
    requires Started(prices)
  {
    prices[|prices| - 1] <= prices[0]
  }

  lemma QuotientAtMost(a: real, b: real, bound: real)
    requires b > 0.0
    ensures a <= bound * b <==> a / b <= bound
  {
    var q := a / b;
    assert q * b == a;
    if q <= bound { assert (bound - q) * b >= 0.0; } else { assert (q - bound) * b > 0.0; }
  }

  /** Half a last place separates a quotient from its rounding. */
  lemma RoundedChange(prices: seq<real>, rise: real)
    requires Started(prices)
    ensures var change := Div(prices[|prices| - 1] - prices[0], prices[0]);
            && (RoseAtMost(prices, rise) ==> change <= rise)
            && (RoseClearly(prices, rise) ==> change >= rise)
  {
    var a, b := prices[|prices| - 1] - prices[0], prices[0];
    Round16Error(a / b);
    QuotientAtMost(a, b, rise - HALF_ULP);
    QuotientAtMost(-a, b, -(rise + HALF_ULP));
    assert -a / b == -(a / b);
    assert -(rise + HALF_ULP) * b == -((rise + HALF_ULP) * b);
  }

  lemma FellChange(prices: seq<real>)
    requires Started(prices) && Fell(prices)
    ensures Div(prices[|prices| - 1] - prices[0], prices[0]) <= 0.0
  {
    var a, b := prices[|prices| - 1] - prices[0], prices[0];
    QuotientAtMost(a, b, 0.0);
    Round16Exact(0.0, 0);
    Round16Monotone(a / b, 0.0);
  }

  lemma ScoreBounds(cfg: Config, prices: seq<real>, rise: real)
    requires Started(prices) && Monotone(cfg.toFloat)
    ensures RoseAtMost(prices, rise) ==> Score(cfg, prices) <= cfg.toFloat(rise)
    ensures RoseClearly(prices, rise) ==> Score(cfg, prices) >= cfg.toFloat(rise)
  {
    RoundedChange(prices, rise);
  }

  /* ----- what is held ----- */

  /** A member of the target rose by more than any change that the threshold, as a float, is not below. */
  lemma MembersRose(cfg: Config, h: History, target: set<Netuid>, n: Netuid, rise: real)
    requires WithinTarget(cfg, h, target) && n in target && Started(Prices(h, n))
    requires Monotone(cfg.toFloat) && cfg.toFloat(rise) <= cfg.exitThreshold
    ensures RoseBy(Prices(h, n), rise)
  {
    ScoreBounds(cfg, Prices(h, n), rise);
  }

  /** With a threshold at zero or above, whatever fell or stood still is not in the target. */
  lemma FallersAreOut(cfg: Config, h: History, target: set<Netuid>, n: Netuid)
    requires WithinTarget(cfg, h, target) && Started(Prices(h, n)) && Fell(Prices(h, n))
    requires Monotone(cfg.toFloat) && cfg.toFloat(0.0) <= cfg.exitThreshold
    ensures n !in target
  {
    FellChange(Prices(h, n));
  }

  /* ----- what is preferred ----- */

  lemma ScoresDecide(cfg: Config, h: History, target: set<Netuid>, m: Netuid, n: Netuid)
    requires IsTopSet(cfg, h, target) && m in cfg.universe && Started(Prices(h, m)) && Started(Prices(h, n))
    requires n in target && m !in target && Score(cfg, Prices(h, m)) > cfg.exitThreshold
    ensures Score(cfg, Prices(h, m)) <= Score(cfg, Prices(h, n))
  {
    assert IsScored(cfg, h, m) && IsScored(cfg, h, n);
  }

  /**
   A subnet that clears the threshold and rose by y or more is not left out for one that rose by x or
   less, as long as floats tell x from y.
   */
  lemma BiggerRiseIsPreferred(cfg: Config, h: History, target: set<Netuid>, m: Netuid, n: Netuid, x: real, y: real)
    requires IsTopSet(cfg, h, target) && m in cfg.universe && Started(Prices(h, m)) && Started(Prices(h, n))
    requires Monotone(cfg.toFloat) && cfg.toFloat(x) < cfg.toFloat(y) && cfg.exitThreshold < cfg.toFloat(y)
    requires RoseClearly(Prices(h, m), y) && RoseAtMost(Prices(h, n), x)
    ensures n in target ==> m in target
  {
    ScoreBounds(cfg, Prices(h, m), y);
    ScoreBounds(cfg, Prices(h, n), x);
    if n in target && m !in target {
      ScoresDecide(cfg, h, target, m, n);
    }
  }

  /**
   Where floats are as fine as decimals, no member's price ratio is worse than that of one left out, but
   for the rounding.
   */
  lemma RatioDecides(cfg: Config, h: History, target: set<Netuid>, m: Netuid, n: Netuid, rise: real)
    requires IsTopSet(cfg, h, target) && m in cfg.universe && Started(Prices(h, m)) && Started(Prices(h, n))
    requires Increasing(cfg.toFloat) && cfg.toFloat(rise) > cfg.exitThreshold
    requires n in target && m !in target && RoseClearly(Prices(h, m), rise)
    ensures Growth(Prices(h, m)) <= Growth(Prices(h, n)) + 2.0 * HALF_ULP
  {
    IncreasingIsMonotone(cfg.toFloat);
    ScoreBounds(cfg, Prices(h, m), rise);
    ScoresDecide(cfg, h, target, m, n);
    ScoresOrderGrowth(cfg, Prices(h, m), Prices(h, n));
  }

  lemma ScoresOrderGrowth(cfg: Config, p: seq<real>, q: seq<real>)
    requires Started(p) && Started(q) && Score(cfg, p) <= Score(cfg, q)
    requires Increasing(cfg.toFloat)
    ensures Growth(p) <= Growth(q) + 2.0 * HALF_ULP
  {
    RoundedGrowth(p);
    RoundedGrowth(q);
  }

  /** The last price as a multiple of the first. */
  function Growth(prices: seq<real>): real
    requires Started(prices)
  {
    prices[|prices| - 1] / prices[0]
  }

  lemma LessOne(a: real, b: real)
    requires b > 0.0
    ensures (a - b) / b == a / b - 1.0
  {
    var p, q := (a - b) / b, a / b;
    assert p * b == a - b && q * b == a;
    assert (q - 1.0) * b == q * b - b;
    ScaledOrder(p, q - 1.0, b);
    ScaledOrder(q - 1.0, p, b);
  }

  lemma RoundedGrowth(prices: seq<real>)
    requires Started(prices)
    ensures var change := Div(prices[|prices| - 1] - prices[0], prices[0]);
            -HALF_ULP <= change - (Growth(prices) - 1.0) <= HALF_ULP
  {
    var a, b := prices[|prices| - 1], prices[0];
    LessOne(a, b);
    Round16Error((a - b) / b);
  }

  /** A subnet that clears the threshold clearly is held, unless the target is full. */
  lemma RisersAreHeld(cfg: Config, h: History, target: set<Netuid>, m: Netuid, y: real)
    requires IsTopSet(cfg, h, target) && m in cfg.universe && Started(Prices(h, m)) && Monotone(cfg.toFloat)
    requires RoseClearly(Prices(h, m), y) && cfg.exitThreshold < cfg.toFloat(y)
    ensures m in target || |target| == Cap(cfg)
  {
    ScoreBounds(cfg, Prices(h, m), y);
    assert IsScored(cfg, h, m);
  }

  /* ----- over whole runs ----- */

  /** After every tick of every run: nothing is held that fell over its window, and no bigger riser is passed over. */
  ghost predicate HoldsRisers(cfg: Config, h: History, held: set<Netuid>) {
    && (cfg.toFloat(0.0) <= cfg.exitThreshold ==>
          forall n <- held :: Started(Prices(h, n)) ==> !Fell(Prices(h, n)))
    && (forall n <- held, rise: real | Started(Prices(h, n)) && cfg.toFloat(rise) <= cfg.exitThreshold ::
          RoseBy(Prices(h, n), rise))
    && (forall m <- cfg.universe, n <- held, x: real, y: real
          {:trigger RoseClearly(Prices(h, m), y), RoseAtMost(Prices(h, n), x)} |
          && Started(Prices(h, m)) && Started(Prices(h, n)) && cfg.toFloat(x) < cfg.toFloat(y)
          && cfg.exitThreshold < cfg.toFloat(y) && RoseClearly(Prices(h, m), y) && RoseAtMost(Prices(h, n), x) ::
          m in held)
  }

  lemma TopSetHoldsRisers(cfg: Config, h: History, held: set<Netuid>)
    requires IsTopSet(cfg, h, held) && Monotone(cfg.toFloat)
    ensures HoldsRisers(cfg, h, held)
  {
    forall n | n in held && Started(Prices(h, n)) && cfg.toFloat(0.0) <= cfg.exitThreshold
      ensures !Fell(Prices(h, n))
    {
      if Fell(Prices(h, n)) { FallersAreOut(cfg, h, held, n); }
    }
    forall n, rise: real | n in held && Started(Prices(h, n)) && cfg.toFloat(rise) <= cfg.exitThreshold
      ensures RoseBy(Prices(h, n), rise)
    {
      MembersRose(cfg, h, held, n, rise);
    }
    forall m, n, x: real, y: real {:trigger RoseClearly(Prices(h, m), y), RoseAtMost(Prices(h, n), x)} |
      && m in cfg.universe && n in held && Started(Prices(h, m)) && Started(Prices(h, n))
      && cfg.toFloat(x) < cfg.toFloat(y) && cfg.exitThreshold < cfg.toFloat(y)
      && RoseClearly(Prices(h, m), y) && RoseAtMost(Prices(h, n), x)
      ensures m in held
    {
      BiggerRiseIsPreferred(cfg, h, held, m, n, x, y);
    }
  }

  lemma RunsHoldRisers(cfg: Config, run: Run, k: nat)
    requires Happened(cfg, run) && Distinct(cfg.universe) && 0 < k <= |run.markets| && Monotone(cfg.toFloat)
    ensures HoldsRisers(cfg, run.states[k].history, run.states[k].held.Keys)
  {
    HeldIsTopSet(cfg, run, k);
    TopSetHoldsRisers(cfg, run.states[k].history, run.states[k].held.Keys);
  }

  /* ----- prices and sizes ----- */

  /** A two-sided book is priced half way, to within half a last place; a one-sided one at its last trade. */
  lemma MidIsHalfWay(tk: Tick)
    ensures tk.bid != 0.0 && tk.ask != 0.0 ==> -HALF_ULP <= tk.Mid() - (tk.bid + tk.ask) / 2.0 <= HALF_ULP
    ensures tk.bid == 0.0 || tk.ask == 0.0 ==> tk.Mid() == tk.last
  {
    Round16Error((tk.bid + tk.ask) / 2.0);
  }

  /** What an entry books is worth the stake at its price, to within half a last place of the size. */
  lemma BookedIsWorthStake(cfg: Config, price: real)
    requires price > 0.0
    ensures IsQuotient(SizeAt(cfg, price), cfg.taoPerPosition, price)
  {
    DivIsQuotient(cfg.taoPerPosition, price);
  }

  /** A new position is booked at the price its window ends with and the size for it; one that stays is left alone. */
  ghost predicate BookedAtLast(cfg: Config, prices: seq<real>, was: Held, held: Held, n: Netuid) {
    n in held ==>
      && (n in was ==> held[n] == was[n])
      && (n !in was ==>
            && |prices| >= 2 && held[n].entryPrice == prices[|prices| - 1]
            && held[n].alphaHeld == SizeAt(cfg, held[n].entryPrice))
  }

  lemma RotatedBooksAtLast(cfg: Config, h: History, was: Held, held: Held, n: Netuid)
    requires WithinTarget(cfg, h, held.Keys) && held == Rotated(cfg, h, was, held.Keys)
    ensures BookedAtLast(cfg, Prices(h, n), was, held, n)
  {
    if n in held { assert IsScored(cfg, h, n); }
  }

  /** So it is at every tick of every run. */
  lemma EntriesRecordPrice(cfg: Config, run: Run, i: nat, n: Netuid)
    requires Happened(cfg, run) && i < |run.markets|
    ensures BookedAtLast(cfg, Prices(run.states[i + 1].history, n), run.states[i].held, run.states[i + 1].held, n)
  {
    assert Decided(cfg, run.states[i].history, run.states[i].held, run.markets[i],
                   run.states[i + 1].history, run.states[i + 1].held, run.intents[i]);
    RotatedBooksAtLast(cfg, run.states[i + 1].history, run.states[i].held, run.states[i + 1].held, n);
  }
}
