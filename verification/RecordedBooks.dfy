/** What the book of a run is worth: each entry is a recorded hedge, and the limits are about those hedges. */
module RecordedBooks {
  import opened Wrappers
  import opened Collections
  import opened Decimals
  import opened Types
  import opened RiskPolicy
  import opened TickSpec
  import opened TickFacts
  import Reconcile

  /* ----- where entries come from ----- */

  /** Tick m of the run recorded the entry, from a swap and a hedge of its decision. */
  ghost predicate RecordedBy(cfg: Config, inputs: seq<TickInput>, m: nat, k: string, bp: BasisPosition) {
    m < |inputs| && exists i: nat, j: nat :: BooksLegs(cfg, inputs[m], i, j, k, bp)
  }

  /** Every entry of a run was there at first, or is just what one of its ticks recorded. */
  lemma {:induction false} EveryEntryWasRecorded(cfg: Config, d: Desk, inputs: seq<TickInput>, k: string)
    requires ValidRun(inputs) && k in Run(cfg, d, inputs).open
    ensures (k in d.open && Run(cfg, d, inputs).open[k] == d.open[k])
         || exists m: nat :: RecordedBy(cfg, inputs, m, k, Run(cfg, d, inputs).open[k])
  {
    if inputs != [] {
      var n := |inputs| - 1;
      var before, bp := Run(cfg, d, inputs[..n]), Run(cfg, d, inputs).open[k];
      OpenSetAfterTick(cfg, before, inputs[n], k);
      if k in before.open && !ClosedInTick(inputs[n], Legs(cfg, before, inputs[n]), k) {
        EveryEntryWasRecorded(cfg, d, inputs[..n], k);
        if m: nat :| RecordedBy(cfg, inputs[..n], m, k, bp) {
          assert RecordedBy(cfg, inputs, m, k, bp);
        }
      } else {
        assert RecordedBy(cfg, inputs, n, k, bp);
      }
    }
  }

  /** The hedge each entry records. */
  type Hedges = map<string, OrderIntent>

  ghost predicate Hedged(open: OpenBasis, hedges: Hedges) {
    open.Keys == hedges.Keys && forall k <- open :: exists s :: RecordsLegs(s, hedges[k], open[k])
  }

  /** The order was a hedge of some tick of the run, under this key. */
  ghost predicate SentAsHedge(inputs: seq<TickInput>, k: string, o: OrderIntent) {
    exists m: nat, j: nat :: m < |inputs| && HedgeAt(inputs[m].decision, j, k) && inputs[m].decision.orders[j] == o
  }

  /** The book of a run that starts with none is a book of hedges that its ticks sent. */
  lemma RunIsHedged(cfg: Config, d: Desk, inputs: seq<TickInput>) returns (hedges: Hedges)
    requires ValidRun(inputs) && d.open == map[]
    ensures Hedged(Run(cfg, d, inputs).open, hedges)
    ensures forall k <- hedges :: SentAsHedge(inputs, k, hedges[k])
  {
    var open := Run(cfg, d, inputs).open;
    forall k | k in open ensures exists o: OrderIntent :: EntryHedge(inputs, k, o, open[k]) {
      HedgeOfEntry(cfg, d, inputs, k);
    }
    hedges := map k | k in open :: var o: OrderIntent :| EntryHedge(inputs, k, o, open[k]); o;
  }

  ghost predicate EntryHedge(inputs: seq<TickInput>, k: string, o: OrderIntent, bp: BasisPosition) {
    SentAsHedge(inputs, k, o) && exists s :: RecordsLegs(s, o, bp)
  }

  lemma HedgeOfEntry(cfg: Config, d: Desk, inputs: seq<TickInput>, k: string)
    requires ValidRun(inputs) && d.open == map[] && k in Run(cfg, d, inputs).open
    ensures exists o: OrderIntent :: EntryHedge(inputs, k, o, Run(cfg, d, inputs).open[k])
  {
    var bp := Run(cfg, d, inputs).open[k];
    EveryEntryWasRecorded(cfg, d, inputs, k);
    var m: nat :| RecordedBy(cfg, inputs, m, k, bp);
    var i: nat, j: nat :| BooksLegs(cfg, inputs[m], i, j, k, bp);
    var s, o := inputs[m].decision.swaps[i], inputs[m].decision.orders[j];
    assert RecordsLegs(s, o, bp) && HedgeAt(inputs[m].decision, j, k);
    assert EntryHedge(inputs, k, o, bp);
  }

  /* ----- exposure ----- */

  /** A position is exposed by its first perp leg, at entry price; without one it is not exposed. */
  lemma {:induction false} ExposureIsFirstPerp(legs: seq<Leg>, i: nat)
    requires i <= |legs| && (forall h | 0 <= h < i :: legs[h].kind != Perp)
    requires i < |legs| ==> legs[i].kind == Perp
    ensures LegExposure(legs) == if i < |legs| then Abs(legs[i].avgPrice * legs[i].qty) else 0.0
  {
    if i > 0 {
      ExposureIsFirstPerp(legs[1..], i - 1);
    }
  }

  /** What the hedges of a book come to. */
  ghost function HedgeSum(hedges: Hedges, keys: set<string>): real
    requires keys <= hedges.Keys
  {
    if keys == {} then 0.0 else
      var k := First(keys);
      Abs(hedges[k].price * hedges[k].size) + HedgeSum(hedges, keys - {k})
  }

  lemma {:induction false} ExposureIsHedgeSum(open: OpenBasis, hedges: Hedges, keys: set<string>)
    requires Hedged(open, hedges) && keys <= open.Keys
    ensures TotalBasisExposure(Entries(open, keys)) == HedgeSum(hedges, keys)
  {
    if keys != {} {
      var k := First(keys);
      ExposureIsHedgeSum(open, hedges, keys - {k});
      ExposureIsFirstPerp(open[k].legs, 1);
      assert ([open[k]] + Entries(open, keys - {k}))[1..] == Entries(open, keys - {k});
    }
  }

  lemma {:induction false} PhantomsAreUnexposed(keys: set<string>, exclude: string)
    ensures TotalBasisExposure(Phantoms(keys, exclude)) == 0.0
  {
    if keys != {} {
      var k := First(keys);
      PhantomsAreUnexposed(keys - {k}, exclude);
      assert ([Phantom(k)] + Phantoms(keys - {k}, exclude))[1..] == Phantoms(keys - {k}, exclude);
      assert [] + Phantoms(keys - {k}, exclude) == Phantoms(keys - {k}, exclude);
    }
  }

  /** The exposure the gate sees is the sum of the recorded hedges; keys in flight add nothing to it. */
  lemma SnapshotExposure(open: OpenBasis, hedges: Hedges, inflight: set<string>, exclude: string)
    requires Hedged(open, hedges)
    ensures TotalBasisExposure(RiskSnapshot(open, inflight, exclude)) == HedgeSum(hedges, hedges.Keys)
  {
    ExposureIsHedgeSum(open, hedges, open.Keys);
    PhantomsAreUnexposed(inflight, exclude);
    ExposureOfConcat(Entries(open, open.Keys), Phantoms(inflight, exclude));
  }

  /* ----- the gate over such a book ----- */

  /** An amount within a limit, where zero means none. */
  predicate Within(amount: real, limit: real) {
    limit == 0.0 || amount <= limit
  }

  predicate CountWithin(n: int, cap: int) {
    cap <= 0 || n <= cap
  }

  /** The verdict on an order that leads to this exposure and count: whether it passes, and which limit refuses it. */
  ghost predicate Judges(l: Limits, o: OrderIntent, exposure: real, count: int, verdict: Verdict) {
    var sized := Within(o.Notional(), l.maxNotionalPerLeg);
    var exposed, counted := Within(exposure, l.maxTotalBasisExposure), CountWithin(count, l.maxConcurrentPositions);
    && (verdict == Allow <==> sized && (o.reduceOnly || (exposed && counted)))
    && (verdict == Block(MaxNotionalPerLeg) <==> !sized)
    && (verdict == Block(MaxTotalExposure) <==> sized && !o.reduceOnly && !exposed)
    && (verdict == Block(MaxConcurrentPositions) <==> sized && !o.reduceOnly && exposed && !counted)
  }

  /** The size of an order is what it is worth, whichever sign its figures have. */
  lemma NotionalIsWorth(o: OrderIntent)
    ensures o.Notional() == o.price * o.size || o.Notional() == -(o.price * o.size)
    ensures o.Notional() >= 0.0
  {
  }

  /** Over any snapshot, worth this much and of this many positions. */
  ghost predicate JudgedOver(l: Limits, o: OrderIntent, snap: seq<BasisPosition>, exposure: real, count: int) {
    Judges(l, o, exposure + o.Notional(), count + 1, PreTrade(l, Intent.Order(o), snap))
  }

  lemma OrderVerdictExact(l: Limits, o: OrderIntent, snap: seq<BasisPosition>)
    ensures JudgedOver(l, o, snap, TotalBasisExposure(snap), |snap|)
  {
  }

  /** At a tick's point with these keys in flight, by what the hedges and the order come to. */
  ghost predicate JudgedByHedges(l: Limits, open: OpenBasis, hedges: Hedges, o: OrderIntent, inflight: set<string>,
                                 exclude: string) {
    JudgedOver(l, o, RiskSnapshot(open, inflight, exclude), HedgeSum(hedges, hedges.Keys),
               |open| + |inflight - {exclude}|)
  }

  /**
   Over a book of hedges, an order passes exactly when its own size is within the limit per leg and,
   unless it only reduces, the book with it is within both limits; and which limit refuses it.
   */
  lemma OrderPassesExactly(l: Limits, o: OrderIntent, open: OpenBasis, hedges: Hedges, inflight: set<string>,
                           exclude: string)
    requires Hedged(open, hedges)
    ensures JudgedByHedges(l, open, hedges, o, inflight, exclude)
  {
    var snap := RiskSnapshot(open, inflight, exclude);
    assert TotalBasisExposure(snap) == HedgeSum(hedges, hedges.Keys) by {
      SnapshotExposure(open, hedges, inflight, exclude);
    }
    assert |snap| == |open| + |inflight - {exclude}| by { SnapshotSize(open, inflight, exclude); }
    OrderVerdictExact(l, o, snap);
  }

  /**
   A swap passes exactly when its slippage and its amount are within their limits and, if it buys with
   dollars, so is the count.
   */
  lemma SwapPassesExactly(l: Limits, s: SwapIntent, open: OpenBasis, inflight: set<string>)
    ensures var verdict := PreTrade(l, Intent.Swap(s), RiskSnapshot(open, inflight, ""));
            var slips := CountWithin(s.slippageBps, l.maxSpotSlippageBps);
            var sized := Within(s.inAmount, l.maxNotionalPerLeg);
            var buys := s.inToken.symbol == "USDC" && s.outToken.symbol != "USDC";
            var counted := CountWithin(|open| + |inflight - {""}| + 1, l.maxConcurrentPositions);
            && (verdict == Allow <==> slips && sized && (buys ==> counted))
            && (verdict == Block(MaxSpotSlippageBps) <==> !slips)
            && (verdict == Block(MaxNotionalPerLeg) <==> slips && !sized)
            && (verdict == Block(MaxConcurrentPositions) <==> slips && sized && buys && !counted)
  {
    SnapshotSize(open, inflight, "");
  }

  /** Every order is judged by what these hedges and the order come to, and by how many positions there are. */
  ghost predicate LimitedBy(l: Limits, open: OpenBasis, hedges: Hedges) {
    forall o: OrderIntent, inflight: set<string>, exclude: string ::
      JudgedByHedges(l, open, hedges, o, inflight, exclude)
  }

  lemma HedgedIsLimited(l: Limits, open: OpenBasis, hedges: Hedges)
    requires Hedged(open, hedges)
    ensures LimitedBy(l, open, hedges)
  {
    forall o: OrderIntent, inflight: set<string>, exclude: string
      ensures JudgedByHedges(l, open, hedges, o, inflight, exclude)
    {
      OrderPassesExactly(l, o, open, hedges, inflight, exclude);
    }
  }

  /** After any run from an empty book the limits are about the hedges that its ticks sent. */
  lemma LimitsOverRuns(cfg: Config, l: Limits, d: Desk, inputs: seq<TickInput>) returns (hedges: Hedges)
    requires ValidRun(inputs) && d.open == map[]
    ensures Hedged(Run(cfg, d, inputs).open, hedges) && (forall k <- hedges :: SentAsHedge(inputs, k, hedges[k]))
    ensures LimitedBy(l, Run(cfg, d, inputs).open, hedges)
  {
    hedges := RunIsHedged(cfg, d, inputs);
    HedgedIsLimited(l, Run(cfg, d, inputs).open, hedges);
  }

  /* ----- against the venues ----- */

  /** The venues hold what was hedged: the perp venue is short the size, the wallet has as many tokens or more. */
  ghost predicate VenuesHold(e: Reconcile.Engine, s: SwapIntent, o: OrderIntent, bal: real) {
    && e.perp.Some? && Reconcile.QtyOf(e.perp.value, o.symbol) == Some(-o.size)
    && s.outToken.chain in e.swaps && e.swaps[s.outToken.chain](s.outToken) == Some(bal)
    && bal >= o.size && (o.size > 0.0 ==> bal > 0.0)
  }

  /** An entry reconciles without a drift against venues that hold what it records, whatever the tolerance. */
  lemma EntryReconciles(e: Reconcile.Engine, s: SwapIntent, o: OrderIntent, bp: BasisPosition, bal: real)
    requires RecordsLegs(s, o, bp) && VenuesHold(e, s, o, bal)
    ensures Reconcile.DriftsOf(e, bp) == []
  {
    var legs := bp.legs;
    assert legs[..|legs| - 1] == [legs[0]];
    assert Reconcile.LastOf(legs, Perp) == Some(legs[1]);
    assert Reconcile.LastOf(legs, Spot) == Some(legs[0]);
    NoDriftNoPoints(o.size);
  }

  lemma NoDriftNoPoints(size: real)
    ensures Reconcile.RelativeBps(0.0, Abs(size)) == 0
  {
    if size != 0.0 {
      assert 0.0 * 10000.0 / Abs(size) == 0.0;
      Round16Exact(0.0, 0);
    }
  }
}
