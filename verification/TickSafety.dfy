/** The position cap: what it guarantees, and exactly for which decisions. */
module TickSafety {
  import opened Wrappers
  import opened Types
  import opened RiskPolicy
  import opened TickSpec
  import opened TickFacts
  import opened Staging

  function Max(a: int, b: int): int { if a >= b then a else b }

  /** An opening swap and another swap share the key, so the other one can vouch for the open. */
  ghost predicate Mixed(dec: Decision, k: string) {
    Pairable(dec, k) && HasOtherSwap(dec, k)
  }

  /**
   A pair whose swap leg can succeed without taking a counted slot: another swap vouches for it, or its
   key is empty.
   */
  ghost predicate Uncounted(dec: Decision, k: string) {
    Pairable(dec, k) && (HasOtherSwap(dec, k) || k == "")
  }

  /** A pair whose key an order of the same decision unwinds: such an order always passes, and vouches for the hedge. */
  ghost predicate Unwound(dec: Decision, k: string) {
    Pairable(dec, k) && HasReduceOnly(dec, k)
  }

  /** An opening swap under the empty key, and after it one under another key. */
  ghost predicate EmptyThenSwap(dec: Decision, a: nat, b: nat) {
    a < b < |dec.swaps| && OpeningAt(dec, a, "") && dec.swaps[b].IsOpening() && SwapKey(dec.swaps[b]) != ""
  }

  /** The shape of decision that cannot be made to exceed the cap. */
  ghost predicate OverbookProof(dec: Decision) {
    && (forall k | Mixed(dec, k) :: !HasReduceOnly(dec, k))
    && (forall k, m | Uncounted(dec, k) && Uncounted(dec, m) :: k == m)
    && (forall a: nat, b: nat | EmptyThenSwap(dec, a, b) :: !(Unwound(dec, "") && Unwound(dec, SwapKey(dec.swaps[b]))))
  }

  ghost predicate Capped(cfg: Config, l: Limits) {
    UsesPolicy(cfg, l) && l.maxConcurrentPositions > 0
  }

  /** A gate that lets opens and hedges through only below `cap`, counting `held` positions and the phantoms. */
  ghost predicate CapGate(plan: Plan, held: nat, cap: int) {
    && (forall i: nat, inflight: set<string> {:trigger plan.refusesSwap(i, inflight)} |
          i < |plan.decision.swaps| && plan.decision.swaps[i].IsOpening() ::
          !plan.refusesSwap(i, inflight) ==> held + |inflight - {""}| < cap)
    && (forall j: nat, inflight: set<string> {:trigger plan.refusesOrder(j, inflight)} |
          j < |plan.decision.orders| && !plan.decision.orders[j].reduceOnly ::
          !plan.refusesOrder(j, inflight) ==>
            held + |inflight - {Exclusion(plan.decision.orders[j], inflight)}| < cap)
  }

  lemma PolicyGate(cfg: Config, l: Limits, open: OpenBasis, inp: TickInput)
    requires inp.Valid() && Capped(cfg, l)
    ensures CapGate(PlanOf(cfg, open, inp), |open|, l.maxConcurrentPositions)
  {
    var plan := PlanOf(cfg, open, inp);
    forall i: nat, inflight: set<string> | i < |plan.decision.swaps| && plan.decision.swaps[i].IsOpening()
      ensures !plan.refusesSwap(i, inflight) ==> |open| + |inflight - {""}| < l.maxConcurrentPositions
    {
      PolicyGateForSwap(cfg, l, open, inp, i, inflight);
    }
    forall j: nat, inflight: set<string> | j < |plan.decision.orders| && !plan.decision.orders[j].reduceOnly
      ensures !plan.refusesOrder(j, inflight) ==>
                |open| + |inflight - {Exclusion(plan.decision.orders[j], inflight)}| < l.maxConcurrentPositions
    {
      PolicyGateForOrder(cfg, l, open, inp, j, inflight);
    }
  }

  lemma PolicyGateForSwap(cfg: Config, l: Limits, open: OpenBasis, inp: TickInput, i: nat, inflight: set<string>)
    requires Capped(cfg, l) && i < |inp.decision.swaps| && inp.decision.swaps[i].IsOpening()
    ensures !SwapRefused(cfg, open, inp, i, inflight) ==> |open| + |inflight - {""}| < l.maxConcurrentPositions
  {
    SnapshotSize(open, inflight, "");
  }

  lemma PolicyGateForOrder(cfg: Config, l: Limits, open: OpenBasis, inp: TickInput, j: nat, inflight: set<string>)
    requires Capped(cfg, l) && j < |inp.decision.orders| && !inp.decision.orders[j].reduceOnly
    ensures !OrderRefused(cfg, open, inp, j, inflight) ==>
              |open| + |inflight - {Exclusion(inp.decision.orders[j], inflight)}| < l.maxConcurrentPositions
  {
    SnapshotSize(open, inflight, Exclusion(inp.decision.orders[j], inflight));
  }

  /** The keys the cap counts: the empty one asks for nothing to be left out, so nothing else ever leaves it in. */
  ghost function Named(inflight: set<string>): set<string> {
    inflight - {""}
  }

  /** Named phantoms plus open positions fit under the cap as soon as there is a phantom. */
  ghost predicate Fits(inflight: set<string>, held: nat, cap: int) {
    inflight != {} ==> held + |Named(inflight)| <= cap
  }

  lemma FitsOneMore(inflight: set<string>, k: string, held: nat, cap: int)
    requires Fits(inflight, held, cap)
    requires k !in inflight ==> held + |Named(inflight)| < cap
    ensures Fits(inflight + {k}, held, cap)
  {
    if k in inflight {
      assert inflight + {k} == inflight;
    } else if k == "" {
      assert Named(inflight + {k}) == Named(inflight);
    } else {
      assert Named(inflight + {k}) == Named(inflight) + {k};
    }
  }

  /** If the empty key is in flight under a full cap, a swap after its own filled the cap, and succeeded. */
  ghost predicate FilledAfterEmpty(dec: Decision, inflight: set<string>, held: nat, cap: int) {
    "" in inflight && held + |Named(inflight)| >= cap ==>
      exists a: nat, b: nat :: EmptyThenSwap(dec, a, b) && SwapKey(dec.swaps[b]) in inflight
  }

  lemma SwapsFit(plan: Plan, d: Desk, held: nat, cap: int, n: nat)
    requires plan.Valid() && n <= |plan.decision.swaps| && CapGate(plan, held, cap)
    ensures Fits(AfterSwaps(plan, Untouched(d), n).inflight, held, cap)
  {
    forall i: nat, p: Progress | i < |plan.decision.swaps| && Fits(p.inflight, held, cap)
      ensures Fits(SwapStep(plan, i, p).inflight, held, cap)
    {
      SwapStepFits(plan, i, p, held, cap);
    }
    KeptBySwaps(plan, Untouched(d), n, (p: Progress) => Fits(p.inflight, held, cap));
  }

  lemma SwapStepFits(plan: Plan, slot: nat, p: Progress, held: nat, cap: int)
    requires plan.Valid() && slot < |plan.decision.swaps| && CapGate(plan, held, cap) && Fits(p.inflight, held, cap)
    ensures Fits(SwapStep(plan, slot, p).inflight, held, cap)
  {
    var s := plan.decision.swaps[slot];
    if !plan.refusesSwap(slot, p.inflight) && s.IsOpening() {
      FitsOneMore(p.inflight, SwapKey(s), held, cap);
    }
  }

  /** If the empty key is in flight after n swaps, one of them opened under it. */
  ghost predicate OpenedEmpty(dec: Decision, inflight: set<string>, n: nat) {
    "" in inflight ==> exists a: nat :: a < n && OpeningAt(dec, a, "")
  }

  lemma OpenedEmptyStep(plan: Plan, p: Progress, slot: nat)
    requires plan.Valid() && slot < |plan.decision.swaps| && OpenedEmpty(plan.decision, p.inflight, slot)
    ensures OpenedEmpty(plan.decision, SwapStep(plan, slot, p).inflight, slot + 1)
  {
    if "" in p.inflight {
      var a: nat :| a < slot && OpeningAt(plan.decision, a, "");
      assert a < slot + 1;
    } else if "" in SwapStep(plan, slot, p).inflight {
      assert OpeningAt(plan.decision, slot, "");
    }
  }

  ghost predicate FilledSoFar(dec: Decision, p: Progress, held: nat, cap: int, n: nat) {
    FilledAfterEmpty(dec, p.inflight, held, cap) && OpenedEmpty(dec, p.inflight, n)
  }

  lemma SwapStepFills(plan: Plan, slot: nat, p: Progress, held: nat, cap: int)
    requires plan.Valid() && slot < |plan.decision.swaps| && CapGate(plan, held, cap)
    requires FilledSoFar(plan.decision, p, held, cap, slot)
    ensures FilledSoFar(plan.decision, SwapStep(plan, slot, p), held, cap, slot + 1)
  {
    var q, k := SwapStep(plan, slot, p), SwapKey(plan.decision.swaps[slot]);
    OpenedEmptyStep(plan, p, slot);
    if q.inflight != p.inflight {
      if k == "" {
        assert Named(q.inflight) == Named(p.inflight);
      } else if "" in p.inflight {
        var a: nat :| a < slot && OpeningAt(plan.decision, a, "");
        assert EmptyThenSwap(plan.decision, a, slot) && k in q.inflight;
      }
    }
  }

  lemma SwapsFill(plan: Plan, d: Desk, held: nat, cap: int)
    requires plan.Valid() && CapGate(plan, held, cap)
    ensures FilledAfterEmpty(plan.decision, AfterSwaps(plan, Untouched(d), |plan.decision.swaps|).inflight, held, cap)
  {
    var keeps := (n: nat, p: Progress) => FilledSoFar(plan.decision, p, held, cap, n);
    forall n: nat, p: Progress | n < |plan.decision.swaps| && keeps(n, p) ensures keeps(n + 1, SwapStep(plan, n, p)) {
      SwapStepFills(plan, n, p, held, cap);
    }
    KeptBySwapsInTurn(plan, Untouched(d), |plan.decision.swaps|, keeps);
  }

  /** Open positions and named phantoms never exceed the cap while anything is in flight. */
  lemma OrdersFit(plan: Plan, d: Desk, held: nat, cap: int, n: nat)
    requires plan.Valid() && n <= |plan.decision.orders| && CapGate(plan, held, cap)
    ensures Fits(AfterOrders(plan, Untouched(d), n).inflight, held, cap)
  {
    SwapsFit(plan, d, held, cap, |plan.decision.swaps|);
    forall j: nat, p: Progress | j < |plan.decision.orders| && Fits(p.inflight, held, cap)
      ensures Fits(OrderStep(plan, j, p).inflight, held, cap)
    {
      OrderStepFits(plan, j, p, held, cap);
    }
    KeptByOrders(plan, Untouched(d), n, (p: Progress) => Fits(p.inflight, held, cap));
  }

  lemma OrderStepFits(plan: Plan, slot: nat, p: Progress, held: nat, cap: int)
    requires plan.Valid() && slot < |plan.decision.orders| && CapGate(plan, held, cap) && Fits(p.inflight, held, cap)
    ensures Fits(OrderStep(plan, slot, p).inflight, held, cap)
  {
    var o := plan.decision.orders[slot];
    if !plan.refusesOrder(slot, p.inflight) && o.IsHedge() {
      FitsOneMore(p.inflight, OrderKey(o), held, cap);
    }
  }

  lemma SubsetSize<T>(a: set<T>, b: set<T>)
    requires a <= b
    ensures |a| <= |b|
  {
    assert b == (b - a) + a;
  }

  lemma UnionSize<T>(a: set<T>, b: set<T>)
    ensures |a + b| <= |a| + |b|
  {
    assert a + b == a + (b - a);
    SubsetSize(b - a, b);
  }

  /** An order whose key was swapped and is not unwound passed the gate below the cap. */
  lemma OrderFoundRoom(plan: Plan, d: Desk, held: nat, cap: int, k: string)
    requires plan.Valid() && CapGate(plan, held, cap) && !HasReduceOnly(plan.decision, k)
    requires k in Executed(plan, Untouched(d)).swapOk && k in Executed(plan, Untouched(d)).orderOk
    ensures var priced := AfterSwaps(plan, Untouched(d), |plan.decision.swaps|).inflight;
            (k in priced ==> "" in priced) ==> held + |Named(priced)| < cap
  {
    var dec, p, s := plan.decision, Executed(plan, Untouched(d)), AfterSwaps(plan, Untouched(d), |plan.decision.swaps|);
    OrdersMatch(plan, d, |dec.orders|);
    var j :| j in p.ordersDone && OrderKey(dec.orders[j]) == k;
    OrdersShow(plan, d, |dec.orders|, j);
    OrdersKeepSwaps(plan, d, |dec.orders|);
    OrdersKeepSwaps(plan, d, j);
    var inflight := AfterOrders(plan, Untouched(d), j).inflight;
    assert !dec.orders[j].reduceOnly by { assert !ReduceOnlyAt(dec, j, k); }
    if k in s.inflight ==> "" in s.inflight {
      CountedWithout(s.inflight, inflight, k, Exclusion(dec.orders[j], inflight));
    }
  }

  /** Leaving out the empty key, or one's own while the empty one counts, leaves as many as the named keys. */
  lemma CountedWithout(priced: set<string>, inflight: set<string>, k: string, excluded: string)
    requires priced <= inflight && (excluded == "" || (excluded == k && k in priced && "" in priced))
    ensures |Named(priced)| <= |inflight - {excluded}|
  {
    if excluded == "" {
      SubsetSize(Named(priced), inflight - {excluded});
    } else {
      assert Named(priced) == (priced - {"", k}) + {k};
      assert priced - {k} == (priced - {"", k}) + {""};
      SubsetSize(priced - {k}, inflight - {k});
    }
  }

  /** A key that opens although no opening swap of it succeeded is vouched for by another swap. */
  lemma UnpricedIsMixed(plan: Plan, d: Desk, k: string)
    requires plan.Valid() && Pairable(plan.decision, k) && k in Executed(plan, Untouched(d)).swapOk
    requires k !in AfterSwaps(plan, Untouched(d), |plan.decision.swaps|).inflight
    ensures Mixed(plan.decision, k)
  {
    var dec, p := plan.decision, Executed(plan, Untouched(d));
    OrdersMatch(plan, d, |dec.orders|);
    OrdersKeepSwaps(plan, d, |dec.orders|);
    var i :| i in p.swapsDone && SwapKey(dec.swaps[i]) == k;
    SwapsShow(plan, d, |dec.swaps|, i);
    assert OtherSwapAt(dec, i, k);
  }

  /** What the keys that a tick opens have in common. */
  ghost predicate Gained(plan: Plan, d: Desk, gained: set<string>)
    requires plan.Valid()
  {
    forall k <- gained :: Pairable(plan.decision, k)
      && k in Executed(plan, Untouched(d)).swapOk && k in Executed(plan, Untouched(d)).orderOk
  }

  /** One key opened without its opening swap: it took its slot at its order, and it is the only uncounted one. */
  lemma OneUnpriced(plan: Plan, d: Desk, held: nat, cap: int, gained: set<string>, k: string)
    requires plan.Valid() && CapGate(plan, held, cap) && OverbookProof(plan.decision) && Gained(plan, d, gained)
    requires k in gained && k !in AfterSwaps(plan, Untouched(d), |plan.decision.swaps|).inflight
    ensures held + |gained| <= cap
  {
    var priced := AfterSwaps(plan, Untouched(d), |plan.decision.swaps|).inflight;
    UnpricedIsMixed(plan, d, k);
    OrderFoundRoom(plan, d, held, cap, k);
    forall m | m in gained ensures m in Named(priced) + {k} {
      if m !in priced {
        UnpricedIsMixed(plan, d, m);
      }
      assert m !in Named(priced) ==> Uncounted(plan.decision, m);
      assert Uncounted(plan.decision, k);
    }
    SubsetSize(gained, Named(priced) + {k});
  }

  /** Under a full cap with the empty key in flight, whatever opens is unwound in the same decision. */
  lemma FullMeansUnwound(plan: Plan, d: Desk, held: nat, cap: int, gained: set<string>)
    requires plan.Valid() && CapGate(plan, held, cap) && Gained(plan, d, gained)
    requires var priced := AfterSwaps(plan, Untouched(d), |plan.decision.swaps|).inflight;
             "" in priced && held + |Named(priced)| >= cap
    ensures forall k <- gained :: Unwound(plan.decision, k)
  {
    forall k | k in gained ensures Unwound(plan.decision, k) {
      if !HasReduceOnly(plan.decision, k) {
        OrderFoundRoom(plan, d, held, cap, k);
      }
    }
  }

  lemma AllButOneFits(gained: set<string>, priced: set<string>, x: string)
    requires gained <= priced && x in Named(priced) && x !in gained
    ensures |gained| <= |Named(priced)|
  {
    assert Named(priced) == (Named(priced) - {x}) + {x};
    SubsetSize(gained, (Named(priced) - {x}) + {""});
  }

  /** All keys opened by their own swaps: the empty one is one too many only if a swap after it filled the cap. */
  lemma AllPriced(plan: Plan, d: Desk, held: nat, cap: int, gained: set<string>)
    requires plan.Valid() && CapGate(plan, held, cap) && OverbookProof(plan.decision) && Gained(plan, d, gained)
    requires gained != {} && gained <= AfterSwaps(plan, Untouched(d), |plan.decision.swaps|).inflight
    ensures held + |gained| <= cap
  {
    var dec, priced := plan.decision, AfterSwaps(plan, Untouched(d), |plan.decision.swaps|).inflight;
    SwapsFit(plan, d, held, cap, |dec.swaps|);
    if "" !in gained {
      SubsetSize(gained, Named(priced));
    } else if held + |Named(priced)| < cap {
      SubsetSize(gained, Named(priced) + {""});
    } else {
      SwapsFill(plan, d, held, cap);
      var a: nat, b: nat :| EmptyThenSwap(dec, a, b) && SwapKey(dec.swaps[b]) in priced;
      FullMeansUnwound(plan, d, held, cap, gained);
      AllButOneFits(gained, priced, SwapKey(dec.swaps[b]));
    }
  }

  lemma GainedFits(plan: Plan, d: Desk, held: nat, cap: int, gained: set<string>)
    requires plan.Valid() && CapGate(plan, held, cap) && OverbookProof(plan.decision) && Gained(plan, d, gained)
             && gained != {}
    ensures held + |gained| <= cap
  {
    if k :| k in gained && k !in AfterSwaps(plan, Untouched(d), |plan.decision.swaps|).inflight {
      OneUnpriced(plan, d, held, cap, gained, k);
    } else {
      AllPriced(plan, d, held, cap, gained);
    }
  }

  lemma TickGains(cfg: Config, d: Desk, inp: TickInput)
    requires inp.Valid()
    ensures Gained(PlanOf(cfg, d.open, inp), d, Tick(cfg, d, inp).open.Keys - d.open.Keys)
  {
    forall k | k in Tick(cfg, d, inp).open.Keys - d.open.Keys
      ensures Pairable(inp.decision, k) && k in Legs(cfg, d, inp).swapOk && k in Legs(cfg, d, inp).orderOk
    {
      OpenSetAfterTick(cfg, d, inp, k);
    }
  }

  /** The cap holds after a tick for every decision of the right shape, whatever the venues answer. */
  lemma CapKept(cfg: Config, l: Limits, d: Desk, inp: TickInput)
    requires inp.Valid() && Capped(cfg, l) && OverbookProof(inp.decision)
    ensures |Tick(cfg, d, inp).open| <= Max(l.maxConcurrentPositions, |d.open|)
  {
    var plan := PlanOf(cfg, d.open, inp);
    var after := Tick(cfg, d, inp).open.Keys;
    var gained := after - d.open.Keys;
    PolicyGate(cfg, l, d.open, inp);
    TickGains(cfg, d, inp);
    assert after <= d.open.Keys + gained;
    if gained == {} {
      assert d.open.Keys + gained == d.open.Keys;
      SubsetSize(after, d.open.Keys);
    } else {
      GainedFits(plan, d, |d.open|, l.maxConcurrentPositions, gained);
      UnionSize(d.open.Keys, gained);
      SubsetSize(after, d.open.Keys + gained);
    }
  }

  lemma {:induction false} CapKeptOverRuns(cfg: Config, l: Limits, d: Desk, inputs: seq<TickInput>)
    requires Capped(cfg, l) && ValidRun(inputs)
    requires forall i | 0 <= i < |inputs| :: OverbookProof(inputs[i].decision)
    ensures |Run(cfg, d, inputs).open| <= Max(l.maxConcurrentPositions, |d.open|)
  {
    if inputs != [] {
      var n := |inputs| - 1;
      CapKeptOverRuns(cfg, l, d, inputs[..n]);
      CapKept(cfg, l, Run(cfg, d, inputs[..n]), inputs[n]);
    }
  }

  /** One swap per key is enough, if no key is empty or there is also one order per key. */
  lemma DistinctKeysAreOverbookProof(dec: Decision)
    requires DistinctSwapKeys(dec) && (NonEmptyKeys(dec) || DistinctOrderKeys(dec))
    ensures OverbookProof(dec)
  {
    forall k, i: nat, j: nat ensures !(OpeningAt(dec, i, k) && OtherSwapAt(dec, j, k)) {
    }
    forall i: nat | NonEmptyKeys(dec) ensures !OpeningAt(dec, i, "") {
      assert i < |dec.swaps| ==> dec.swaps[i] in dec.swaps;
    }
    forall k, i: nat, j: nat | DistinctOrderKeys(dec) ensures !(HedgeAt(dec, i, k) && ReduceOnlyAt(dec, j, k)) {
    }
  }

  /* ----- exactly which decisions can exceed the cap ----- */

  /** No limits, agent, desk or venue answers make a tick with this decision end above the cap. */
  ghost predicate NeverOverbooks(dec: Decision) {
    forall cfg: Config, l: Limits, d: Desk, inp: TickInput | Capped(cfg, l) && inp.Valid() && inp.decision == dec ::
      |Tick(cfg, d, inp).open| <= Max(l.maxConcurrentPositions, |d.open|)
  }

  /** The policy whose only limit is a position cap. */
  function CapLimits(cap: int): Limits {
    Limits(0.0, 0.0, 0, cap)
  }

  function CapEngine(cap: int): RiskEngine {
    (intent, snap) => PreTrade(CapLimits(cap), intent, snap)
  }

  function CapConfig(dec: Decision, cap: int): Config {
    LiveConfig(dec, Some(CapEngine(cap)))
  }

  /** A paper agent that may hold one position. */
  function OneSlotConfig(): Config {
    PaperConfig().(risk := Some(CapEngine(1)))
  }

  /**
   The chosen swaps put nothing but the empty key in flight, and that only on an empty book; the chosen
   orders carry the key of a chosen swap, and reduce or meet an empty book.
   */
  ghost predicate Stageable(dec: Decision, open: OpenBasis, confirmed: set<nat>, acked: set<nat>) {
    && (forall i <- confirmed :: i < |dec.swaps|
          && (dec.swaps[i].IsOpening() ==> SwapKey(dec.swaps[i]) == "" && open == map[]))
    && (forall j <- acked :: j < |dec.orders| && (dec.orders[j].reduceOnly || open == map[])
          && exists i :: i in confirmed && SwapKey(dec.swaps[i]) == OrderKey(dec.orders[j]))
  }

  lemma CapOnePasses(dec: Decision, open: OpenBasis, inp: TickInput, inflight: set<string>)
    requires inp.decision == dec && Quiet(inflight)
    ensures forall i: nat | i < |dec.swaps| && (dec.swaps[i].IsOpening() ==> open == map[]) ::
              !SwapRefused(CapConfig(dec, 1), open, inp, i, inflight)
    ensures forall j: nat | j < |dec.orders| && (dec.orders[j].reduceOnly || open == map[]) ::
              !OrderRefused(CapConfig(dec, 1), open, inp, j, inflight)
  {
    SnapshotSize(open, inflight, "");
    assert inflight - {""} == {};
  }

  lemma StagedPassesQuietly(dec: Decision, open: OpenBasis, confirmed: set<nat>, acked: set<nat>)
    requires Stageable(dec, open, confirmed, acked)
    ensures PassesQuietly(PlanOf(CapConfig(dec, 1), open, StagedInput(dec, confirmed, acked)), confirmed, acked)
  {
    StagedPlan(dec, Some(CapEngine(1)), open, confirmed, acked);
    CapOnePasses(dec, open, StagedInput(dec, confirmed, acked), {});
    CapOnePasses(dec, open, StagedInput(dec, confirmed, acked), {""});
  }

  ghost function StagedOpen(dec: Decision, open: OpenBasis, confirmed: set<nat>, acked: set<nat>): OpenBasis {
    Tick(CapConfig(dec, 1), EmptyDesk(open), StagedInput(dec, confirmed, acked)).open
  }

  lemma StagedKeyOpens(dec: Decision, open: OpenBasis, confirmed: set<nat>, acked: set<nat>, k: string)
    requires Pairable(dec, k)
    requires var p := Legs(CapConfig(dec, 1), EmptyDesk(open), StagedInput(dec, confirmed, acked));
             k in p.swapOk && k in p.orderOk
    ensures k in StagedOpen(dec, open, confirmed, acked)
  {
    OpenSetAfterTick(CapConfig(dec, 1), EmptyDesk(open), StagedInput(dec, confirmed, acked), k);
  }

  lemma StagedOpens(dec: Decision, open: OpenBasis, confirmed: set<nat>, acked: set<nat>, i: nat, j: nat, k: string)
    requires Stageable(dec, open, confirmed, acked) && Pairable(dec, k)
    requires i in confirmed && SwapKey(dec.swaps[i]) == k && j in acked && OrderKey(dec.orders[j]) == k
    ensures k in StagedOpen(dec, open, confirmed, acked)
  {
    var d, inp := EmptyDesk(open), StagedInput(dec, confirmed, acked);
    StagedPassesQuietly(dec, open, confirmed, acked);
    QuietOrders(PlanOf(CapConfig(dec, 1), open, inp), d, confirmed, acked, |dec.orders|);
    StagedKeyOpens(dec, open, confirmed, acked, k);
  }

  /** A staged tick that ends with two positions refutes the cap of one. */
  lemma TwoOpenRefute(dec: Decision, open: OpenBasis, confirmed: set<nat>, acked: set<nat>, k: string, m: string)
    requires k != m && |open| <= 1
    requires k in StagedOpen(dec, open, confirmed, acked) && m in StagedOpen(dec, open, confirmed, acked)
    ensures !NeverOverbooks(dec)
  {
    assert Capped(CapConfig(dec, 1), CapLimits(1));
    SubsetSize({k, m}, StagedOpen(dec, open, confirmed, acked).Keys);
  }

  /** A swap of an uncounted pair that takes no counted slot. */
  lemma UncountedSwap(dec: Decision, k: string) returns (i: nat)
    requires Uncounted(dec, k)
    ensures i < |dec.swaps| && SwapKey(dec.swaps[i]) == k && (dec.swaps[i].IsOpening() ==> k == "")
  {
    if h: nat :| OtherSwapAt(dec, h, k) {
      i := h;
    } else {
      i :| OpeningAt(dec, i, k);
    }
  }

  lemma TwoUncountedKeysOverbook(dec: Decision, k: string, m: string)
    requires Uncounted(dec, k) && Uncounted(dec, m) && k != m
    ensures !NeverOverbooks(dec)
  {
    var h := UncountedSwap(dec, k);
    var i := UncountedSwap(dec, m);
    var a: nat :| HedgeAt(dec, a, k);
    var b: nat :| HedgeAt(dec, b, m);
    assert h in {h, i} && i in {h, i} && a in {a, b} && b in {a, b};
    StagedOpens(dec, map[], {h, i}, {a, b}, h, a, k);
    StagedOpens(dec, map[], {h, i}, {a, b}, i, b, m);
    TwoOpenRefute(dec, map[], {h, i}, {a, b}, k, m);
  }

  lemma TwoMixedKeysOverbook(dec: Decision, k: string, m: string)
    requires Mixed(dec, k) && Mixed(dec, m) && k != m
    ensures !NeverOverbooks(dec)
  {
    assert Uncounted(dec, k) && Uncounted(dec, m);
    TwoUncountedKeysOverbook(dec, k, m);
  }

  lemma OtherSwapIsStageable(dec: Decision, open: OpenBasis, i: nat, j: nat, k: string)
    requires OtherSwapAt(dec, i, k) && ReduceOnlyAt(dec, j, k)
    ensures Stageable(dec, open, {i}, {j})
  {
    assert i in {i};
  }

  lemma ReopensBesideAnother(dec: Decision, open: OpenBasis, i: nat, j: nat, k: string, other: string)
    requires Mixed(dec, k) && OtherSwapAt(dec, i, k) && ReduceOnlyAt(dec, j, k) && other in open && other != k
    ensures k in StagedOpen(dec, open, {i}, {j}) && other in StagedOpen(dec, open, {i}, {j})
  {
    OtherSwapIsStageable(dec, open, i, j, k);
    StagedOpens(dec, open, {i}, {j}, i, j, k);
    UnackedStaysOpen(dec, open, {i}, {j}, other);
  }

  lemma MixedKeyWithReduceOnlyOverbooks(dec: Decision, k: string)
    requires Mixed(dec, k) && HasReduceOnly(dec, k)
    ensures !NeverOverbooks(dec)
  {
    var other := k + "'";
    var i: nat :| OtherSwapAt(dec, i, k);
    var j: nat :| ReduceOnlyAt(dec, j, k);
    ReopensBesideAnother(dec, map[other := Phantom(other)], i, j, k, other);
    TwoOpenRefute(dec, map[other := Phantom(other)], {i}, {j}, k, other);
  }

  /** A position no acknowledged order names is still there after the staged tick. */
  lemma UnackedStaysOpen(dec: Decision, open: OpenBasis, confirmed: set<nat>, acked: set<nat>, k: string)
    requires k in open && Stageable(dec, open, confirmed, acked)
    requires forall j <- acked :: OrderKey(dec.orders[j]) != k
    ensures k in StagedOpen(dec, open, confirmed, acked)
  {
    var cfg, d, inp := CapConfig(dec, 1), EmptyDesk(open), StagedInput(dec, confirmed, acked);
    var plan := PlanOf(cfg, open, inp);
    StagedPassesQuietly(dec, open, confirmed, acked);
    OrdersMatch(plan, d, |dec.orders|);
    if k in Legs(cfg, d, inp).orderOk {
      var j :| j in Legs(cfg, d, inp).ordersDone && OrderKey(dec.orders[j]) == k;
      OrdersShow(plan, d, |dec.orders|, j);
    }
    OpenSetAfterTick(cfg, d, inp, k);
  }

  /** The empty key, then another one: under a cap of one both swaps pass. */
  lemma {:induction false} EmptyThenSwapPass(dec: Decision, plan: Plan, d: Desk, a: nat, b: nat, acked: set<nat>,
                                             n: nat)
    requires EmptyThenSwap(dec, a, b) && plan.decision == dec && FollowsScript(plan, {a, b}, acked) && n <= |dec.swaps|
    requires !plan.refusesSwap(a, {}) && !plan.refusesSwap(b, {""})
    ensures var p, x := AfterSwaps(plan, Untouched(d), n), SwapKey(dec.swaps[b]);
            && p.inflight == (if n <= a then {} else if n <= b then {""} else {"", x})
            && (n > a ==> "" in p.swapOk) && (n > b ==> x in p.swapOk)
  {
    if n > 0 {
      EmptyThenSwapPass(dec, plan, d, a, b, acked, n - 1);
      assert n - 1 != a && n - 1 != b ==> n - 1 !in {a, b};
    }
  }

  /** Orders that unwind pass whatever is in flight. */
  lemma UnwindingPasses(dec: Decision, inp: TickInput, j: nat, inflight: set<string>)
    requires inp.decision == dec && j < |dec.orders| && dec.orders[j].reduceOnly
    ensures !OrderRefused(CapConfig(dec, 1), map[], inp, j, inflight)
  {
  }

  lemma UnwoundSwapsSucceed(dec: Decision, a: nat, b: nat, acked: set<nat>)
    requires EmptyThenSwap(dec, a, b)
    ensures var p := Legs(CapConfig(dec, 1), EmptyDesk(map[]), StagedInput(dec, {a, b}, acked));
            "" in p.swapOk && SwapKey(dec.swaps[b]) in p.swapOk
  {
    var inp, d := StagedInput(dec, {a, b}, acked), EmptyDesk(map[]);
    var plan := PlanOf(CapConfig(dec, 1), map[], inp);
    StagedPlan(dec, Some(CapEngine(1)), map[], {a, b}, acked);
    CapOnePasses(dec, map[], inp, {});
    CapOnePasses(dec, map[], inp, {""});
    EmptyThenSwapPass(dec, plan, d, a, b, acked, |dec.swaps|);
    OrdersKeepSwaps(plan, d, |dec.orders|);
  }

  lemma UnwindingOrdersSucceed(dec: Decision, confirmed: set<nat>, acked: set<nat>)
    requires forall j <- acked :: j < |dec.orders| && dec.orders[j].reduceOnly
    ensures forall j <- acked ::
              OrderKey(dec.orders[j]) in Legs(CapConfig(dec, 1), EmptyDesk(map[]),
                                              StagedInput(dec, confirmed, acked)).orderOk
  {
    var inp := StagedInput(dec, confirmed, acked);
    var plan := PlanOf(CapConfig(dec, 1), map[], inp);
    StagedPlan(dec, Some(CapEngine(1)), map[], confirmed, acked);
    forall j, inflight | j in acked ensures !plan.refusesOrder(j, inflight) {
      UnwindingPasses(dec, inp, j, inflight);
    }
    UnblockableOrders(plan, EmptyDesk(map[]), confirmed, acked, |dec.orders|);
  }

  lemma UnwoundPairOpens(dec: Decision, a: nat, b: nat, acked: set<nat>, j: nat, k: string)
    requires EmptyThenSwap(dec, a, b) && (k == "" || k == SwapKey(dec.swaps[b])) && Unwound(dec, k)
    requires (forall h <- acked :: h < |dec.orders| && dec.orders[h].reduceOnly) && j in acked
             && OrderKey(dec.orders[j]) == k
    ensures k in StagedOpen(dec, map[], {a, b}, acked)
  {
    UnwoundSwapsSucceed(dec, a, b, acked);
    UnwindingOrdersSucceed(dec, {a, b}, acked);
    StagedKeyOpens(dec, map[], {a, b}, acked, k);
  }

  /** If both keys are also unwound, the unwinding orders vouch for the hedges, and both pairs end up open. */
  lemma UnwoundAfterEmptyOverbooks(dec: Decision, a: nat, b: nat)
    requires EmptyThenSwap(dec, a, b) && Unwound(dec, "") && Unwound(dec, SwapKey(dec.swaps[b]))
    ensures !NeverOverbooks(dec)
  {
    var x := SwapKey(dec.swaps[b]);
    var acked := set j: nat | j < |dec.orders| && dec.orders[j].reduceOnly;
    var r: nat :| ReduceOnlyAt(dec, r, "");
    var q: nat :| ReduceOnlyAt(dec, q, x);
    UnwoundPairOpens(dec, a, b, acked, r, "");
    UnwoundPairOpens(dec, a, b, acked, q, x);
    TwoOpenRefute(dec, map[], {a, b}, acked, "", x);
  }

  /** The cap is safe from a decision exactly when the decision has the overbook-proof shape. */
  lemma CapExact(dec: Decision)
    ensures NeverOverbooks(dec) <==> OverbookProof(dec)
  {
    if OverbookProof(dec) {
      forall cfg: Config, l: Limits, d: Desk, inp: TickInput | Capped(cfg, l) && inp.Valid() && inp.decision == dec
        ensures |Tick(cfg, d, inp).open| <= Max(l.maxConcurrentPositions, |d.open|)
      {
        CapKept(cfg, l, d, inp);
      }
    } else if k :| Mixed(dec, k) && HasReduceOnly(dec, k) {
      MixedKeyWithReduceOnlyOverbooks(dec, k);
    } else if a: nat, b: nat :| EmptyThenSwap(dec, a, b) && Unwound(dec, "") && Unwound(dec, SwapKey(dec.swaps[b])) {
      UnwoundAfterEmptyOverbooks(dec, a, b);
    } else {
      var k, m :| Uncounted(dec, k) && Uncounted(dec, m) && k != m;
      TwoUncountedKeysOverbook(dec, k, m);
    }
  }

  /* ----- decisions of the bad shapes ----- */

  /** Two pairs, each with a sale of its token under the same key: with a cap of one both can end up open. */
  lemma TwoVouchedPairsOverbook()
    ensures !NeverOverbooks(Decision(
      [SampleSwap("USDC", "WIF", "WIF"), SampleSwap("WIF", "USDC", "WIF"), SampleSwap("USDC", "BONK", "BONK"),
       SampleSwap("BONK", "USDC", "BONK")],
      [SampleOrder("WIF", Sell, false), SampleOrder("BONK", Sell, false)], []))
  {
    var dec := Decision(
      [SampleSwap("USDC", "WIF", "WIF"), SampleSwap("WIF", "USDC", "WIF"), SampleSwap("USDC", "BONK", "BONK"),
       SampleSwap("BONK", "USDC", "BONK")],
      [SampleOrder("WIF", Sell, false), SampleOrder("BONK", Sell, false)], []);
    var k, m := SwapKey(dec.swaps[0]), SwapKey(dec.swaps[2]);
    assert OpeningAt(dec, 0, k) && OtherSwapAt(dec, 1, k) && HedgeAt(dec, 0, k);
    assert OpeningAt(dec, 2, m) && OtherSwapAt(dec, 3, m) && HedgeAt(dec, 1, m);
    assert |k| == 3 && |m| == 4;
    TwoMixedKeysOverbook(dec, k, m);
  }

  /** One such pair that is also unwound in the same decision: at the cap, the unwinding order vouches for the hedge. */
  lemma UnwoundPairOverbooks()
    ensures !NeverOverbooks(Decision(
      [SampleSwap("USDC", "WIF", "WIF"), SampleSwap("WIF", "USDC", "WIF")],
      [SampleOrder("WIF", Side.Buy, true), SampleOrder("WIF", Sell, false)], []))
  {
    var dec := Decision(
      [SampleSwap("USDC", "WIF", "WIF"), SampleSwap("WIF", "USDC", "WIF")],
      [SampleOrder("WIF", Side.Buy, true), SampleOrder("WIF", Sell, false)], []);
    var k := SwapKey(dec.swaps[0]);
    assert OpeningAt(dec, 0, k) && OtherSwapAt(dec, 1, k) && HedgeAt(dec, 1, k) && ReduceOnlyAt(dec, 0, k);
    MixedKeyWithReduceOnlyOverbooks(dec, k);
  }

  /**
   A token without a symbol and another one, both bought, hedged and unwound: both can end up open under
   a cap of one.
   */
  lemma EmptyKeyOverbooks()
    ensures !NeverOverbooks(Decision(
      [SampleSwap("USDC", "", ""), SampleSwap("USDC", "WIF", "")],
      [SampleOrder("", Side.Buy, true), SampleOrder("WIF", Side.Buy, true), SampleOrder("", Sell, false),
       SampleOrder("WIF", Sell, false)], []))
  {
    var dec := Decision(
      [SampleSwap("USDC", "", ""), SampleSwap("USDC", "WIF", "")],
      [SampleOrder("", Side.Buy, true), SampleOrder("WIF", Side.Buy, true), SampleOrder("", Sell, false),
       SampleOrder("WIF", Sell, false)], []);
    var k := SwapKey(dec.swaps[1]);
    assert |k| == 3 && OpeningAt(dec, 0, "") && OpeningAt(dec, 1, k) && EmptyThenSwap(dec, 0, 1);
    assert ReduceOnlyAt(dec, 0, "") && HedgeAt(dec, 2, "") && ReduceOnlyAt(dec, 1, k) && HedgeAt(dec, 3, k);
    UnwoundAfterEmptyOverbooks(dec, 0, 1);
  }
}
