/** Adversarial venues: ticks in which chosen slots succeed and every other live call fails. */
module Staging {
  import opened Wrappers
  import opened Types
  import opened RiskPolicy
  import opened TickSpec
  import opened TickFacts

  /** Legs to build example decisions from. */
  function SampleSwap(from: string, to: string, key: string): SwapIntent {
    SwapIntent("solana", Asset(from, "solana", from), Asset(to, "solana", to), 100.0, 0, "", key)
  }

  function SampleOrder(symbol: string, side: Side, reduceOnly: bool): OrderIntent {
    OrderIntent("hyperliquid", symbol, side, 1.0, 100.0, reduceOnly, "", "")
  }

  /** A paper agent without a risk engine, whose digest is the identity. */
  function PaperConfig(): Config {
    Config("agent", true, map[], false, None, text => text, size => "")
  }

  /** A tick all of whose writes reach the database. */
  function RecordedInput(dec: Decision): (inp: TickInput)
    ensures inp.decision == dec && inp.Valid()
  {
    TickInput(0, 0, "decision", dec, seq(|dec.swaps|, i => SwapAnswer(QuoteFailed, true)),
              seq(|dec.orders|, j => OrderAnswer(PlaceFailed, true, true, true)))
  }

  /** Where nothing is refused and every venue accepts, every leg succeeds. */
  lemma AcceptedLegsSucceed(plan: Plan, d: Desk)
    requires plan.Valid()
    requires (forall i, inflight :: !plan.refusesSwap(i, inflight)) && (forall e <- plan.swapEffects :: e.accepted)
    requires (forall j, inflight :: !plan.refusesOrder(j, inflight)) && (forall e <- plan.orderEffects :: e.accepted)
    ensures forall s <- plan.decision.swaps :: SwapKey(s) in Executed(plan, Untouched(d)).swapOk
    ensures forall o <- plan.decision.orders :: OrderKey(o) in Executed(plan, Untouched(d)).orderOk
  {
    var swaps := set i: nat | i < |plan.swapEffects| && plan.swapEffects[i].accepted;
    var orders := set j: nat | j < |plan.orderEffects| && plan.orderEffects[j].accepted;
    UngatedSwaps(plan, d, swaps, orders, |plan.decision.swaps|);
    UngatedOrders(plan, d, swaps, orders, |plan.decision.orders|);
    OrdersKeepSwaps(plan, d, |plan.decision.orders|);
    OrdersMatch(plan, d, |plan.decision.orders|);
    forall s | s in plan.decision.swaps ensures SwapKey(s) in Executed(plan, Untouched(d)).swapOk {
      var i: nat :| i < |plan.decision.swaps| && plan.decision.swaps[i] == s;
      assert plan.swapEffects[i] in plan.swapEffects;
    }
    forall o | o in plan.decision.orders ensures OrderKey(o) in Executed(plan, Untouched(d)).orderOk {
      var j: nat :| j < |plan.decision.orders| && plan.decision.orders[j] == o;
      assert plan.orderEffects[j] in plan.orderEffects;
    }
  }

  /** So it is on paper and without a risk engine. */
  lemma PaperLegsSucceed(d: Desk, dec: Decision)
    ensures var p := Executed(PlanOf(PaperConfig(), d.open, RecordedInput(dec)), Untouched(d));
            && (forall s <- dec.swaps :: SwapKey(s) in p.swapOk)
            && (forall o <- dec.orders :: OrderKey(o) in p.orderOk)
  {
    AcceptedLegsSucceed(PlanOf(PaperConfig(), d.open, RecordedInput(dec)), d);
  }

  /** The book after a tick with one order: that order closes, then it opens. */
  lemma OneOrderBook(cfg: Config, inp: TickInput, swapOk: set<string>, orderOk: set<string>, b: Book)
    requires inp.Valid() && |inp.decision.orders| == 1
    ensures var o, answer := inp.decision.orders[0], inp.orderAnswers[0];
            Reconciled(cfg, inp, swapOk, orderOk, b) ==
              OpenStep(cfg, inp, o, answer.openWritten, swapOk, orderOk,
                       CloseStep(cfg, inp, o, answer.closeWritten, orderOk, b))
  {
    assert AfterCloses(cfg, inp, orderOk, b, 0) == b;
    var closed := AfterCloses(cfg, inp, orderOk, b, 1);
    assert AfterOpens(cfg, inp, swapOk, orderOk, closed, 0) == closed;
  }

  /** A tick in which exactly the chosen swaps confirm and exactly the chosen orders are acknowledged. */
  function StagedInput(dec: Decision, confirmed: set<nat>, acked: set<nat>): (inp: TickInput)
    ensures inp.Valid() && inp.decision == dec
    ensures forall i | 0 <= i < |dec.swaps| ::
              inp.swapAnswers[i].outcome == if i in confirmed then Settled("tx", "tx", SwapConfirmed, 0.0, 0.0)
                  else QuoteFailed
    ensures forall j | 0 <= j < |dec.orders| ::
              inp.orderAnswers[j].outcome == if j in acked then Acked("id", OrderOpen) else PlaceFailed
  {
    TickInput(0, 0, "decision", dec,
      seq(|dec.swaps|, i requires 0 <= i < |dec.swaps| =>
        SwapAnswer(if i in confirmed then Settled("tx", "tx", SwapConfirmed, 0.0, 0.0) else QuoteFailed, true)),
      seq(|dec.orders|, j requires 0 <= j < |dec.orders| =>
        OrderAnswer(if j in acked then Acked("id", OrderOpen) else PlaceFailed, true, true, true)))
  }

  /** A live agent with a perp venue and a swap venue for every chain the decision trades on. */
  function LiveConfig(dec: Decision, risk: Option<RiskEngine>): Config {
    Config("agent", false, map s <- dec.swaps :: s.chain := "dex", true, risk, text => text, size => "")
  }

  function EmptyDesk(open: OpenBasis): Desk {
    Desk(open, map[], [], [], [])
  }

  /** A plan whose legs succeed exactly at the chosen slots. */
  ghost predicate FollowsScript(plan: Plan, confirmed: set<nat>, acked: set<nat>) {
    && plan.Valid()
    && (forall i: nat | i < |plan.swapEffects| :: plan.swapEffects[i].accepted <==> i in confirmed)
    && (forall j: nat | j < |plan.orderEffects| :: plan.orderEffects[j].accepted <==> j in acked)
  }

  lemma StagedPlan(dec: Decision, risk: Option<RiskEngine>, open: OpenBasis, confirmed: set<nat>, acked: set<nat>)
    ensures FollowsScript(PlanOf(LiveConfig(dec, risk), open, StagedInput(dec, confirmed, acked)), confirmed, acked)
  {
    var cfg, inp := LiveConfig(dec, risk), StagedInput(dec, confirmed, acked);
    forall i: nat | i < |dec.swaps|
      ensures PlanOf(cfg, open, inp).swapEffects[i].accepted <==> i in confirmed
    {
      assert dec.swaps[i] in dec.swaps;
    }
  }

  /**
   The chosen slots pass the gate while at most the empty key is in flight, and the chosen swaps put no
   other key there.
   */
  ghost predicate PassesQuietly(plan: Plan, confirmed: set<nat>, acked: set<nat>) {
    && FollowsScript(plan, confirmed, acked)
    && (forall i <- confirmed | i < |plan.decision.swaps| ::
          !plan.refusesSwap(i, {}) && !plan.refusesSwap(i, {""})
          && (plan.decision.swaps[i].IsOpening() ==> SwapKey(plan.decision.swaps[i]) == ""))
    && (forall j <- acked | j < |plan.decision.orders| :: !plan.refusesOrder(j, {}) && !plan.refusesOrder(j, {""}))
    && (forall j <- acked | j < |plan.decision.orders| && plan.decision.orders[j].IsHedge() ::
          exists i :: i in confirmed && i < |plan.decision.swaps|
            && SwapKey(plan.decision.swaps[i]) == OrderKey(plan.decision.orders[j]))
  }

  /** Only the empty key, if any. */
  predicate Quiet(inflight: set<string>) {
    inflight == {} || inflight == {""}
  }

  lemma {:induction false} QuietSwaps(plan: Plan, d: Desk, confirmed: set<nat>, acked: set<nat>, n: nat)
    requires PassesQuietly(plan, confirmed, acked) && n <= |plan.decision.swaps|
    ensures var p := AfterSwaps(plan, Untouched(d), n);
            Quiet(p.inflight) && forall i <- confirmed | i < n :: SwapKey(plan.decision.swaps[i]) in p.swapOk
  {
    if n > 0 { QuietSwaps(plan, d, confirmed, acked, n - 1); }
  }

  lemma {:induction false} QuietOrders(plan: Plan, d: Desk, confirmed: set<nat>, acked: set<nat>, n: nat)
    requires PassesQuietly(plan, confirmed, acked) && n <= |plan.decision.orders|
    ensures var p := AfterOrders(plan, Untouched(d), n);
            && Quiet(p.inflight)
            && (forall i <- confirmed | i < |plan.decision.swaps| :: SwapKey(plan.decision.swaps[i]) in p.swapOk)
            && (forall j <- acked | j < n :: OrderKey(plan.decision.orders[j]) in p.orderOk)
  {
    if n == 0 {
      QuietSwaps(plan, d, confirmed, acked, |plan.decision.swaps|);
    } else {
      QuietOrders(plan, d, confirmed, acked, n - 1);
    }
  }

  /** Orders that no set of keys in flight can block succeed as the script says. */
  lemma {:induction false} UnblockableOrders(plan: Plan, d: Desk, confirmed: set<nat>, acked: set<nat>, n: nat)
    requires FollowsScript(plan, confirmed, acked) && n <= |plan.decision.orders|
    requires forall j <- acked, inflight :: !plan.refusesOrder(j, inflight)
    ensures forall j <- acked | j < n :: OrderKey(plan.decision.orders[j]) in AfterOrders(plan, Untouched(d), n).orderOk
  {
    if n > 0 {
      UnblockableOrders(plan, d, confirmed, acked, n - 1);
    }
  }

  /** Without a risk engine the script is followed to the letter. */
  lemma {:induction false} UngatedSwaps(plan: Plan, d: Desk, confirmed: set<nat>, acked: set<nat>, n: nat)
    requires FollowsScript(plan, confirmed, acked) && n <= |plan.decision.swaps|
    requires forall i, inflight :: !plan.refusesSwap(i, inflight)
    ensures forall i :: i in AfterSwaps(plan, Untouched(d), n).swapsDone <==> i < n && i in confirmed
  {
    if n > 0 { UngatedSwaps(plan, d, confirmed, acked, n - 1); }
  }

  lemma {:induction false} UngatedOrders(plan: Plan, d: Desk, confirmed: set<nat>, acked: set<nat>, n: nat)
    requires FollowsScript(plan, confirmed, acked) && n <= |plan.decision.orders|
    requires forall j, inflight :: !plan.refusesOrder(j, inflight)
    ensures forall j :: j in AfterOrders(plan, Untouched(d), n).ordersDone <==> j < n && j in acked
  {
    if n == 0 {
      SwapsMatch(plan, d, |plan.decision.swaps|);
    } else {
      UngatedOrders(plan, d, confirmed, acked, n - 1);
    }
  }
}
