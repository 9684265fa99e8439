/** Whether the position cap can refuse the hedge of a spot leg that it has just let through. */
module Starvation {
  import opened Wrappers
  import opened Types
  import opened RiskPolicy
  import opened TickSpec
  import opened TickFacts
  import opened Staging
  import opened TickSafety

  /** Hedge j meets the cap although opening swap i, with the same key, was accepted earlier in the tick. */
  ghost predicate Starved(cfg: Config, l: Limits, d: Desk, inp: TickInput, i: nat, j: nat)
    requires inp.Valid()
  {
    && i in Legs(cfg, d, inp).swapsDone && i < |inp.decision.swaps| && inp.decision.swaps[i].IsOpening()
    && HedgeAt(inp.decision, j, SwapKey(inp.decision.swaps[i]))
    && var inflight := AfterOrders(PlanOf(cfg, d.open, inp), Untouched(d), j).inflight;
       var o := StampedOrder(cfg, inp, j);
       PreTrade(l, Intent.Order(o), RiskSnapshot(d.open, inflight, Exclusion(o, inflight)))
           == Block(MaxConcurrentPositions)
  }

  /** No limits, agent, desk or venue answers starve a hedge of this decision. */
  ghost predicate NeverStarves(dec: Decision) {
    forall cfg: Config, l: Limits, d: Desk, inp: TickInput, i: nat, j: nat |
      UsesPolicy(cfg, l) && inp.Valid() && inp.decision == dec :: !Starved(cfg, l, d, inp, i, j)
  }

  /** A hedge before order j that carries neither the empty key nor that of order j. */
  ghost predicate StrangerAt(dec: Decision, h: nat, j: nat, k: string) {
    h < j && h < |dec.orders| && dec.orders[h].IsHedge() && OrderKey(dec.orders[h]) != ""
        && OrderKey(dec.orders[h]) != k
  }

  ghost predicate EmptySwapThenStranger(dec: Decision, a: nat, h: nat, j: nat, k: string) {
    OpeningAt(dec, a, "") && StrangerAt(dec, h, j, k)
  }

  ghost predicate EmptyHedgeThenStranger(dec: Decision, g: nat, h: nat, j: nat, k: string) {
    g < h && HedgeAt(dec, g, "") && StrangerAt(dec, h, j, k)
  }

  /** An empty key is put in flight, and a key other than that is put in flight after it, before hedge j runs. */
  ghost predicate EmptyKeyFirst(dec: Decision, j: nat, k: string) {
    || (exists a: nat, b: nat :: EmptyThenSwap(dec, a, b))
    || (exists a: nat, h: nat :: EmptySwapThenStranger(dec, a, h, j, k))
    || (exists g: nat, h: nat :: EmptyHedgeThenStranger(dec, g, h, j, k))
  }

  /** Hedge j belongs to a pair, and an empty key comes first. */
  ghost predicate StarvableAt(dec: Decision, j: nat, k: string) {
    HedgeAt(dec, j, k) && HasOpening(dec, k) && EmptyKeyFirst(dec, j, k)
  }

  /* ----- decisions that cannot starve a hedge ----- */

  /**
   Open and in flight stay within the cap, and strictly below it once the empty key, which nobody
   counts, is in flight.
   */
  ghost predicate Roomy(inflight: set<string>, held: nat, cap: int) {
    && (inflight != {} ==> held + |inflight - {""}| <= cap)
    && ("" in inflight ==> held + |inflight - {""}| < cap)
  }

  lemma RoomyWithKey(inflight: set<string>, k: string, held: nat, cap: int)
    requires Roomy(inflight, held, cap)
    requires k !in inflight ==> held + |inflight - {""}| < cap
    requires k != "" && k !in inflight ==> "" !in inflight
    ensures Roomy(inflight + {k}, held, cap)
  {
    if k in inflight {
      assert inflight + {k} == inflight;
    } else if k == "" {
      assert (inflight + {k}) - {""} == inflight - {""};
    } else {
      assert (inflight + {k}) - {""} == (inflight - {""}) + {k};
    }
  }

  /** Leaving out one's own key, what remains counted is below the cap. */
  lemma RoomWithoutOwnKey(inflight: set<string>, k: string, held: nat, cap: int)
    requires Roomy(inflight, held, cap) && k in inflight
    ensures held + |inflight - {k}| < cap
  {
    if k != "" {
      assert inflight - {""} == (inflight - {"", k}) + {k};
      if "" in inflight {
        assert inflight - {k} == (inflight - {"", k}) + {""};
      } else {
        assert inflight - {k} == inflight - {"", k};
      }
    }
  }

  ghost predicate NoEmptyThenSwap(dec: Decision) {
    forall a: nat, b: nat :: !EmptyThenSwap(dec, a, b)
  }

  /** After n swaps there is room, and an opening swap among them put the empty key in flight, if it is. */
  ghost predicate RoomyAfterSwaps(dec: Decision, p: Progress, held: nat, cap: int, n: nat) {
    Roomy(p.inflight, held, cap) && OpenedEmpty(dec, p.inflight, n)
  }

  lemma SwapStepRoomy(plan: Plan, p: Progress, slot: nat, held: nat, cap: int)
    requires plan.Valid() && slot < |plan.decision.swaps| && CapGate(plan, held, cap) && NoEmptyThenSwap(plan.decision)
    requires RoomyAfterSwaps(plan.decision, p, held, cap, slot)
    ensures RoomyAfterSwaps(plan.decision, SwapStep(plan, slot, p), held, cap, slot + 1)
  {
    var s := plan.decision.swaps[slot];
    OpenedEmptyStep(plan, p, slot);
    if !plan.refusesSwap(slot, p.inflight) && s.IsOpening() {
      if "" in p.inflight && SwapKey(s) != "" {
        var a: nat :| a < slot && OpeningAt(plan.decision, a, "");
        assert EmptyThenSwap(plan.decision, a, slot);
      }
      RoomyWithKey(p.inflight, SwapKey(s), held, cap);
    }
  }

  lemma SwapsRoomy(plan: Plan, d: Desk, held: nat, cap: int)
    requires plan.Valid() && CapGate(plan, held, cap) && NoEmptyThenSwap(plan.decision)
    ensures RoomyAfterSwaps(plan.decision, AfterSwaps(plan, Untouched(d), |plan.decision.swaps|), held, cap,
                            |plan.decision.swaps|)
  {
    var keeps := (n: nat, p: Progress) => RoomyAfterSwaps(plan.decision, p, held, cap, n);
    forall n: nat, p: Progress | n < |plan.decision.swaps| && keeps(n, p) ensures keeps(n + 1, SwapStep(plan, n, p)) {
      SwapStepRoomy(plan, p, n, held, cap);
    }
    KeptBySwapsInTurn(plan, Untouched(d), |plan.decision.swaps|, keeps);
  }

  /** If the empty key is in flight after n orders, an opening swap or one of those orders put it there. */
  ghost predicate EmptyExplained(dec: Decision, inflight: set<string>, n: nat) {
    "" in inflight ==> (exists a: nat :: OpeningAt(dec, a, "")) || (exists g: nat :: g < n && HedgeAt(dec, g, ""))
  }

  /** What the orders before j keep true when k, the key of hedge j, has its swap succeeded. */
  ghost predicate RoomyAt(dec: Decision, p: Progress, held: nat, cap: int, n: nat, k: string) {
    Roomy(p.inflight, held, cap) && EmptyExplained(dec, p.inflight, n) && k in p.swapOk
  }

  lemma OrderStepRoomy(plan: Plan, p: Progress, n: nat, held: nat, cap: int, j: nat, k: string)
    requires plan.Valid() && n < |plan.decision.orders| && n < j && CapGate(plan, held, cap)
    requires !EmptyKeyFirst(plan.decision, j, k) && RoomyAt(plan.decision, p, held, cap, n, k)
    ensures RoomyAt(plan.decision, OrderStep(plan, n, p), held, cap, n + 1, k)
  {
    var o := plan.decision.orders[n];
    var x := OrderKey(o);
    if !plan.refusesOrder(n, p.inflight) && o.IsHedge() && x !in p.swapOk {
      if "" in p.inflight && x != "" {
        NoStrangerAfterEmpty(plan.decision, n, j, k);
      }
      RoomyWithKey(p.inflight, x, held, cap);
      if x == "" {
        assert HedgeAt(plan.decision, n, "");
      }
    }
  }

  lemma NoStrangerAfterEmpty(dec: Decision, n: nat, j: nat, k: string)
    requires n < |dec.orders| && n < j && dec.orders[n].IsHedge() && OrderKey(dec.orders[n]) != ""
             && OrderKey(dec.orders[n]) != k
    requires (exists a: nat :: OpeningAt(dec, a, "")) || (exists g: nat :: g < n && HedgeAt(dec, g, ""))
    ensures EmptyKeyFirst(dec, j, k)
  {
    assert StrangerAt(dec, n, j, k);
    if a: nat :| OpeningAt(dec, a, "") {
      assert EmptySwapThenStranger(dec, a, n, j, k);
    } else {
      var g: nat :| g < n && HedgeAt(dec, g, "");
      assert EmptyHedgeThenStranger(dec, g, n, j, k);
    }
  }

  lemma OrdersRoomy(plan: Plan, start: Progress, held: nat, cap: int, j: nat, k: string)
    requires plan.Valid() && j <= |plan.decision.orders| && CapGate(plan, held, cap)
    requires !EmptyKeyFirst(plan.decision, j, k) && RoomyAt(plan.decision, AfterOrders(plan, start, 0), held, cap, 0, k)
    ensures RoomyAt(plan.decision, AfterOrders(plan, start, j), held, cap, j, k)
  {
    var keeps := (n: nat, p: Progress) => RoomyAt(plan.decision, p, held, cap, n, k);
    forall n: nat, p: Progress | n < |plan.decision.orders| && n < j && keeps(n, p)
      ensures keeps(n + 1, OrderStep(plan, n, p))
    {
      OrderStepRoomy(plan, p, n, held, cap, j, k);
    }
    KeptByOrdersInTurn(plan, start, j, j, keeps);
  }

  lemma SwapsLeaveRoom(plan: Plan, d: Desk, held: nat, cap: int, j: nat, k: string)
    requires plan.Valid() && CapGate(plan, held, cap) && !EmptyKeyFirst(plan.decision, j, k)
    requires k in AfterSwaps(plan, Untouched(d), |plan.decision.swaps|).swapOk
    ensures RoomyAt(plan.decision, AfterSwaps(plan, Untouched(d), |plan.decision.swaps|), held, cap, 0, k)
  {
    SwapsRoomy(plan, d, held, cap);
  }

  /** The key of an accepted opening swap stays in flight while the orders run. */
  lemma AcceptedStaysInFlight(plan: Plan, d: Desk, i: nat, j: nat)
    requires plan.Valid() && i < |plan.decision.swaps| && plan.decision.swaps[i].IsOpening()
             && j <= |plan.decision.orders|
    requires i in Executed(plan, Untouched(d)).swapsDone
    ensures SwapKey(plan.decision.swaps[i]) in AfterOrders(plan, Untouched(d), j).inflight
    ensures SwapKey(plan.decision.swaps[i]) in AfterSwaps(plan, Untouched(d), |plan.decision.swaps|).swapOk
  {
    OrdersKeepSwaps(plan, d, |plan.decision.orders|);
    OrdersKeepSwaps(plan, d, j);
    SwapsShow(plan, d, |plan.decision.swaps|, i);
    SwapsMatch(plan, d, |plan.decision.swaps|);
  }

  lemma RoomMeansNoBlock(l: Limits, open: OpenBasis, inflight: set<string>, o: OrderIntent)
    requires o.IsHedge() && OrderKey(o) in inflight
    requires l.maxConcurrentPositions > 0 ==> |open| + |inflight - {OrderKey(o)}| < l.maxConcurrentPositions
    ensures PreTrade(l, Intent.Order(o), RiskSnapshot(open, inflight, Exclusion(o, inflight)))
              != Block(MaxConcurrentPositions)
  {
    SnapshotSize(open, inflight, OrderKey(o));
  }

  lemma RoomAtHedge(cfg: Config, l: Limits, d: Desk, inp: TickInput, i: nat, j: nat, k: string)
    requires inp.Valid() && Capped(cfg, l) && !EmptyKeyFirst(inp.decision, j, k) && j <= |inp.decision.orders|
    requires i in Legs(cfg, d, inp).swapsDone && OpeningAt(inp.decision, i, k)
    ensures var inflight := AfterOrders(PlanOf(cfg, d.open, inp), Untouched(d), j).inflight;
            |d.open| + |inflight - {k}| < l.maxConcurrentPositions
  {
    var plan := PlanOf(cfg, d.open, inp);
    AcceptedStaysInFlight(plan, d, i, j);
    PolicyGate(cfg, l, d.open, inp);
    SwapsLeaveRoom(plan, d, |d.open|, l.maxConcurrentPositions, j, k);
    OrdersRoomy(plan, Untouched(d), |d.open|, l.maxConcurrentPositions, j, k);
    RoomWithoutOwnKey(AfterOrders(plan, Untouched(d), j).inflight, k, |d.open|, l.maxConcurrentPositions);
  }

  /** Unless an empty key comes first, a hedge whose swap was accepted is never refused for the position count. */
  lemma HedgeHasRoom(cfg: Config, l: Limits, d: Desk, inp: TickInput, i: nat, j: nat)
    requires inp.Valid() && UsesPolicy(cfg, l) && (forall k :: !StarvableAt(inp.decision, j, k))
    ensures !Starved(cfg, l, d, inp, i, j)
  {
    if i in Legs(cfg, d, inp).swapsDone && i < |inp.decision.swaps| && inp.decision.swaps[i].IsOpening()
       && HedgeAt(inp.decision, j, SwapKey(inp.decision.swaps[i])) {
      var plan, k := PlanOf(cfg, d.open, inp), SwapKey(inp.decision.swaps[i]);
      assert OpeningAt(inp.decision, i, k) && !StarvableAt(inp.decision, j, k);
      AcceptedStaysInFlight(plan, d, i, j);
      if l.maxConcurrentPositions > 0 {
        RoomAtHedge(cfg, l, d, inp, i, j, k);
      }
      RoomMeansNoBlock(l, d.open, AfterOrders(plan, Untouched(d), j).inflight, StampedOrder(cfg, inp, j));
    }
  }

  /* ----- decisions that can ----- */

  ghost function SwapKeysBefore(dec: Decision, confirmed: set<nat>, n: nat): set<string>
    requires forall c <- confirmed :: c < |dec.swaps|
  {
    set c <- confirmed | c < n :: SwapKey(dec.swaps[c])
  }

  ghost function OrderKeysBefore(dec: Decision, acked: set<nat>, n: nat): set<string>
    requires forall a <- acked :: a < |dec.orders|
  {
    set a <- acked | a < n :: OrderKey(dec.orders[a])
  }

  /** The keys in flight when order n runs, if just the chosen legs succeed. */
  ghost function KeysBefore(dec: Decision, confirmed: set<nat>, acked: set<nat>, n: nat): set<string>
    requires (forall c <- confirmed :: c < |dec.swaps|) && (forall a <- acked :: a < |dec.orders|)
  {
    SwapKeysBefore(dec, confirmed, |dec.swaps|) + OrderKeysBefore(dec, acked, n)
  }

  /**
   The chosen swaps open; the chosen orders hedge, under keys of their own; and all of them pass the
   gate at their turn.
   */
  ghost predicate Scripted(plan: Plan, confirmed: set<nat>, acked: set<nat>) {
    var dec := plan.decision;
    && FollowsScript(plan, confirmed, acked)
    && (forall c <- confirmed :: c < |dec.swaps| && dec.swaps[c].IsOpening())
    && (forall a <- acked :: a < |dec.orders| && dec.orders[a].IsHedge()
          && OrderKey(dec.orders[a]) !in SwapKeysBefore(dec, confirmed, |dec.swaps|))
    && (forall c <- confirmed :: !plan.refusesSwap(c, SwapKeysBefore(dec, confirmed, c)))
    && (forall a <- acked :: !plan.refusesOrder(a, KeysBefore(dec, confirmed, acked, a)))
  }

  lemma SwapKeysGrow(dec: Decision, confirmed: set<nat>, n: nat)
    requires (forall c <- confirmed :: c < |dec.swaps|) && n < |dec.swaps|
    ensures SwapKeysBefore(dec, confirmed, n + 1)
         == SwapKeysBefore(dec, confirmed, n) + if n in confirmed then {SwapKey(dec.swaps[n])} else {}
  {
  }

  lemma OrderKeysGrow(dec: Decision, acked: set<nat>, n: nat)
    requires (forall a <- acked :: a < |dec.orders|) && n < |dec.orders|
    ensures OrderKeysBefore(dec, acked, n + 1)
         == OrderKeysBefore(dec, acked, n) + if n in acked then {OrderKey(dec.orders[n])} else {}
  {
  }

  lemma ScriptedSwapStep(plan: Plan, confirmed: set<nat>, acked: set<nat>, n: nat, p: Progress)
    requires Scripted(plan, confirmed, acked) && n < |plan.decision.swaps|
    requires p.inflight == SwapKeysBefore(plan.decision, confirmed, n) && p.swapOk == p.inflight
    ensures var q := SwapStep(plan, n, p);
            && q.inflight == SwapKeysBefore(plan.decision, confirmed, n + 1) && q.swapOk == q.inflight
            && p.swapsDone <= q.swapsDone && (n in confirmed ==> n in q.swapsDone)
  {
    SwapKeysGrow(plan.decision, confirmed, n);
  }

  lemma {:induction false} ScriptedSwaps(plan: Plan, d: Desk, confirmed: set<nat>, acked: set<nat>, n: nat)
    requires Scripted(plan, confirmed, acked) && n <= |plan.decision.swaps|
    ensures var p := AfterSwaps(plan, Untouched(d), n);
            && p.inflight == SwapKeysBefore(plan.decision, confirmed, n) && p.swapOk == p.inflight
            && forall c <- confirmed | c < n :: c in p.swapsDone
  {
    if n > 0 {
      ScriptedSwaps(plan, d, confirmed, acked, n - 1);
      ScriptedSwapStep(plan, confirmed, acked, n - 1, AfterSwaps(plan, Untouched(d), n - 1));
    }
  }

  /** What the script leaves in flight and in the success map when order n runs. */
  ghost predicate OnScript(dec: Decision, confirmed: set<nat>, acked: set<nat>, n: nat, p: Progress)
    requires (forall c <- confirmed :: c < |dec.swaps|) && (forall a <- acked :: a < |dec.orders|)
  {
    p.inflight == KeysBefore(dec, confirmed, acked, n) && p.swapOk == SwapKeysBefore(dec, confirmed, |dec.swaps|)
  }

  lemma ScriptedOrderStep(plan: Plan, confirmed: set<nat>, acked: set<nat>, n: nat, p: Progress)
    requires Scripted(plan, confirmed, acked) && n < |plan.decision.orders|
             && OnScript(plan.decision, confirmed, acked, n, p)
    ensures OnScript(plan.decision, confirmed, acked, n + 1, OrderStep(plan, n, p))
  {
    OrderKeysGrow(plan.decision, acked, n);
  }

  lemma {:induction false} ScriptedOrders(plan: Plan, d: Desk, confirmed: set<nat>, acked: set<nat>, n: nat)
    requires Scripted(plan, confirmed, acked) && n <= |plan.decision.orders|
    ensures OnScript(plan.decision, confirmed, acked, n, AfterOrders(plan, Untouched(d), n))
  {
    if n > 0 {
      ScriptedOrders(plan, d, confirmed, acked, n - 1);
      ScriptedOrderStep(plan, confirmed, acked, n - 1, AfterOrders(plan, Untouched(d), n - 1));
    } else {
      ScriptedSwaps(plan, d, confirmed, acked, |plan.decision.swaps|);
    }
  }

  /* ----- choosing the script ----- */

  /** The keys the cap will count: that of the hedge, and that of the stranger. */
  ghost function Counted(k: string, x: string): set<string> {
    {k, x} - {""}
  }

  /** While some counted key is not in flight, the snapshot stays below the cap. */
  lemma CountBelow(k: string, x: string, keys: set<string>, w: string)
    requires keys <= {"", k, x} && w in Counted(k, x) && w !in keys
    ensures |RiskSnapshot(map[], keys, "")| < |Counted(k, x)|
  {
    SnapshotSize(map[], keys, "");
    assert keys - {""} <= Counted(k, x) - {w};
    SubsetSize(keys - {""}, Counted(k, x) - {w});
  }

  /** A tick with this cap and no open position then lets an opening swap through... */
  lemma CapLetsSwapThrough(dec: Decision, inp: TickInput, k: string, x: string, keys: set<string>, w: string, c: nat)
    requires inp.decision == dec && keys <= {"", k, x} && w in Counted(k, x) && w !in keys
    ensures !SwapRefused(CapConfig(dec, |Counted(k, x)|), map[], inp, c, keys)
  {
    CountBelow(k, x, keys, w);
  }

  /** ...and an order whose own key is not in flight. */
  lemma CapLetsOrderThrough(dec: Decision, inp: TickInput, k: string, x: string, keys: set<string>, w: string, a: nat)
    requires inp.decision == dec && keys <= {"", k, x} && w in Counted(k, x) && w !in keys
    requires a < |dec.orders| && OrderKey(dec.orders[a]) !in keys
    ensures !OrderRefused(CapConfig(dec, |Counted(k, x)|), map[], inp, a, keys)
  {
    CountBelow(k, x, keys, w);
    assert Exclusion(StampedOrder(CapConfig(dec, |Counted(k, x)|), inp, a), keys) == "";
  }

  lemma CountedLeft(k: string, x: string)
    requires x != ""
    ensures |{"", k, x} - {k}| == |Counted(k, x)|
  {
    if k == "" {
      assert {"", k, x} - {k} == {x} == Counted(k, x);
    } else if k == x {
      assert {"", k, x} - {k} == {""} && Counted(k, x) == {k};
    } else {
      assert {"", k, x} - {k} == {"", x} && Counted(k, x) == {k, x};
    }
  }

  /** With the empty key, its own and the stranger's in flight, the hedge finds the cap reached. */
  lemma CapReached(dec: Decision, inp: TickInput, j: nat, k: string, x: string)
    requires inp.Valid() && inp.decision == dec && HedgeAt(dec, j, k) && x != ""
    ensures var o := StampedOrder(CapConfig(dec, |Counted(k, x)|), inp, j);
            PreTrade(CapLimits(|Counted(k, x)|), Intent.Order(o),
                     RiskSnapshot(map[], {"", k, x}, Exclusion(o, {"", k, x})))
              == Block(MaxConcurrentPositions)
  {
    SnapshotSize(map[], {"", k, x}, k);
    CountedLeft(k, x);
    assert x in Counted(k, x);
  }

  ghost predicate SomeMissing(k: string, x: string, keys: set<string>) {
    exists w :: w in Counted(k, x) && w !in keys
  }

  /** The chosen legs carry just these three keys, each leg at a turn when some counted key is missing. */
  ghost predicate Casts(dec: Decision, confirmed: set<nat>, acked: set<nat>, i: nat, j: nat, k: string, x: string) {
    && (forall c <- confirmed :: c < |dec.swaps| && dec.swaps[c].IsOpening() && SwapKey(dec.swaps[c]) in {"", k, x})
    && (forall a <- acked :: a < j && a < |dec.orders| && dec.orders[a].IsHedge() && OrderKey(dec.orders[a]) in {"", x}
          && OrderKey(dec.orders[a]) !in SwapKeysBefore(dec, confirmed, |dec.swaps|))
    && (forall c <- confirmed :: SomeMissing(k, x, SwapKeysBefore(dec, confirmed, c)))
    && (forall a <- acked :: OrderKey(dec.orders[a]) !in OrderKeysBefore(dec, acked, a))
    && (forall a <- acked :: SomeMissing(k, x, KeysBefore(dec, confirmed, acked, a)))
    && i in confirmed && SwapKey(dec.swaps[i]) == k && HedgeAt(dec, j, k) && x != ""
    && KeysBefore(dec, confirmed, acked, j) == {"", k, x}
  }

  lemma CastIsScripted(dec: Decision, confirmed: set<nat>, acked: set<nat>, i: nat, j: nat, k: string, x: string)
    requires Casts(dec, confirmed, acked, i, j, k, x)
    ensures Scripted(PlanOf(CapConfig(dec, |Counted(k, x)|), map[], StagedInput(dec, confirmed, acked)), confirmed,
                     acked)
  {
    var cap, inp := |Counted(k, x)|, StagedInput(dec, confirmed, acked);
    StagedPlan(dec, Some(CapEngine(cap)), map[], confirmed, acked);
    forall c | c in confirmed
      ensures !SwapRefused(CapConfig(dec, cap), map[], inp, c, SwapKeysBefore(dec, confirmed, c))
    {
      var w :| w in Counted(k, x) && w !in SwapKeysBefore(dec, confirmed, c);
      CapLetsSwapThrough(dec, inp, k, x, SwapKeysBefore(dec, confirmed, c), w, c);
    }
    forall a | a in acked
      ensures !OrderRefused(CapConfig(dec, cap), map[], inp, a, KeysBefore(dec, confirmed, acked, a))
    {
      var w :| w in Counted(k, x) && w !in KeysBefore(dec, confirmed, acked, a);
      CapLetsOrderThrough(dec, inp, k, x, KeysBefore(dec, confirmed, acked, a), w, a);
    }
  }

  lemma CastStarves(dec: Decision, confirmed: set<nat>, acked: set<nat>, i: nat, j: nat, k: string, x: string)
    requires Casts(dec, confirmed, acked, i, j, k, x)
    ensures !NeverStarves(dec)
  {
    var cap, inp, d := |Counted(k, x)|, StagedInput(dec, confirmed, acked), EmptyDesk(map[]);
    var cfg := CapConfig(dec, cap);
    var plan := PlanOf(cfg, map[], inp);
    CastIsScripted(dec, confirmed, acked, i, j, k, x);
    ScriptedSwaps(plan, d, confirmed, acked, |dec.swaps|);
    ScriptedOrders(plan, d, confirmed, acked, j);
    OrdersKeepSwaps(plan, d, |dec.orders|);
    CapReached(dec, inp, j, k, x);
    assert Starved(cfg, CapLimits(cap), d, inp, i, j);
  }

  /** Some opening swap under key k: the given one if it has that key. */
  lemma ChooseOpening(dec: Decision, k: string, preferred: nat) returns (i: nat)
    requires HasOpening(dec, k)
    ensures OpeningAt(dec, i, k)
    ensures OpeningAt(dec, preferred, k) ==> i == preferred
  {
    if OpeningAt(dec, preferred, k) {
      i := preferred;
    } else {
      i :| OpeningAt(dec, i, k);
    }
  }

  /** A counted key that none of the chosen swaps before c carries. */
  lemma MissingBefore(dec: Decision, confirmed: set<nat>, c: nat, k: string, x: string, w: string)
    requires (forall h <- confirmed :: h < |dec.swaps|) && w in Counted(k, x)
    requires forall h <- confirmed | h < c :: SwapKey(dec.swaps[h]) != w
    ensures SomeMissing(k, x, SwapKeysBefore(dec, confirmed, c))
  {
    assert w !in SwapKeysBefore(dec, confirmed, c);
  }

  /** The empty key, then the other one; the pair's own swap at any point. */
  lemma SwapsMissOne(dec: Decision, a: nat, b: nat, i: nat, c: nat, k: string, x: string)
    requires EmptyThenSwap(dec, a, b) && x == SwapKey(dec.swaps[b]) && OpeningAt(dec, i, k)
    requires (x == k ==> i == b) && (k == "" ==> i == a) && c in {a, b, i}
    ensures SomeMissing(k, x, SwapKeysBefore(dec, {a, b, i}, c))
  {
    MissingBefore(dec, {a, b, i}, c, k, x, if c == a || c == b then x else k);
  }

  lemma EmptyThenSwapStarves(dec: Decision, a: nat, b: nat, j: nat, k: string)
    requires HedgeAt(dec, j, k) && HasOpening(dec, k) && EmptyThenSwap(dec, a, b)
    ensures !NeverStarves(dec)
  {
    var x := SwapKey(dec.swaps[b]);
    var i := ChooseOpening(dec, k, if x == k then b else a);
    forall c | c in {a, b, i} ensures SomeMissing(k, x, SwapKeysBefore(dec, {a, b, i}, c)) {
      SwapsMissOne(dec, a, b, i, c, k, x);
    }
    assert SwapKeysBefore(dec, {a, b, i}, |dec.swaps|) == {"", k, x} by {
      assert a in {a, b, i} && b in {a, b, i} && i in {a, b, i};
    }
    assert KeysBefore(dec, {a, b, i}, {}, j) == {"", k, x};
    assert Casts(dec, {a, b, i}, {}, i, j, k, x);
    CastStarves(dec, {a, b, i}, {}, i, j, k, x);
  }

  lemma EmptySwapThenStrangerStarves(dec: Decision, a: nat, h: nat, j: nat, k: string)
    requires HedgeAt(dec, j, k) && HasOpening(dec, k) && EmptySwapThenStranger(dec, a, h, j, k)
    ensures !NeverStarves(dec)
  {
    var x := OrderKey(dec.orders[h]);
    var i := ChooseOpening(dec, k, a);
    var confirmed := {a, i};
    assert a in confirmed && i in confirmed;
    assert SwapKeysBefore(dec, confirmed, |dec.swaps|) == {"", k};
    forall c | c in confirmed ensures SomeMissing(k, x, SwapKeysBefore(dec, confirmed, c)) {
      MissingBefore(dec, confirmed, c, k, x, x);
    }
    assert OrderKeysBefore(dec, {h}, j) == {x} by { assert h in {h}; }
    assert OrderKeysBefore(dec, {h}, h) == {};
    assert x in Counted(k, x);
    assert Casts(dec, confirmed, {h}, i, j, k, x);
    CastStarves(dec, confirmed, {h}, i, j, k, x);
  }

  lemma EmptyHedgeThenStrangerStarves(dec: Decision, g: nat, h: nat, j: nat, k: string)
    requires HedgeAt(dec, j, k) && HasOpening(dec, k) && EmptyHedgeThenStranger(dec, g, h, j, k) && k != ""
    ensures !NeverStarves(dec)
  {
    var x := OrderKey(dec.orders[h]);
    var i: nat :| OpeningAt(dec, i, k);
    assert SwapKeysBefore(dec, {i}, |dec.swaps|) == {k} by { assert i in {i}; }
    forall c | c in {i} ensures SomeMissing(k, x, SwapKeysBefore(dec, {i}, c)) {
      MissingBefore(dec, {i}, c, k, x, x);
    }
    assert OrderKeysBefore(dec, {g, h}, j) == {"", x} by { assert g in {g, h} && h in {g, h}; }
    assert OrderKeysBefore(dec, {g, h}, g) == {};
    assert OrderKeysBefore(dec, {g, h}, h) == {""} by { assert g in {g, h}; }
    assert x in Counted(k, x);
    assert Casts(dec, {i}, {g, h}, i, j, k, x);
    CastStarves(dec, {i}, {g, h}, i, j, k, x);
  }

  /** A hedge of this decision can be starved exactly when an empty key comes before the hedge of some pair. */
  lemma StarvationExact(dec: Decision)
    ensures NeverStarves(dec) <==> forall j: nat, k :: !StarvableAt(dec, j, k)
  {
    if j: nat, k :| StarvableAt(dec, j, k) {
      StarvableStarves(dec, j, k);
    } else {
      forall cfg: Config, l: Limits, d: Desk, inp: TickInput, i: nat, j: nat |
        UsesPolicy(cfg, l) && inp.Valid() && inp.decision == dec
        ensures !Starved(cfg, l, d, inp, i, j)
      {
        HedgeHasRoom(cfg, l, d, inp, i, j);
      }
    }
  }

  lemma StarvableStarves(dec: Decision, j: nat, k: string)
    requires StarvableAt(dec, j, k)
    ensures !NeverStarves(dec)
  {
    if a: nat, b: nat :| EmptyThenSwap(dec, a, b) {
      EmptyThenSwapStarves(dec, a, b, j, k);
    } else if a: nat, h: nat :| EmptySwapThenStranger(dec, a, h, j, k) {
      EmptySwapThenStrangerStarves(dec, a, h, j, k);
    } else {
      var g: nat, h: nat :| EmptyHedgeThenStranger(dec, g, h, j, k);
      if k == "" {
        var a: nat :| OpeningAt(dec, a, k);
        assert EmptySwapThenStranger(dec, a, h, j, k);
        assert false;
      }
      EmptyHedgeThenStrangerStarves(dec, g, h, j, k);
    }
  }

  /** In particular no hedge of a decision without empty keys is ever starved. */
  lemma NonEmptyKeysNeverStarve(dec: Decision)
    requires NonEmptyKeys(dec)
    ensures NeverStarves(dec)
  {
    forall j: nat, k ensures !StarvableAt(dec, j, k) {
      forall i: nat ensures !OpeningAt(dec, i, "") && !HedgeAt(dec, i, "") {
        assert i < |dec.swaps| ==> dec.swaps[i] in dec.swaps;
        assert i < |dec.orders| ==> dec.orders[i] in dec.orders;
      }
    }
    StarvationExact(dec);
  }

  /** Spelled out: a hedge whose swap was accepted in the tick is never blocked for the position count. */
  lemma HedgeNeverStarved(cfg: Config, l: Limits, d: Desk, inp: TickInput, i: nat, j: nat)
    requires inp.Valid() && UsesPolicy(cfg, l) && NonEmptyKeys(inp.decision)
    requires i in Legs(cfg, d, inp).swapsDone && i < |inp.decision.swaps| && inp.decision.swaps[i].IsOpening()
    requires j < |inp.decision.orders| && inp.decision.orders[j].IsHedge()
    requires OrderKey(inp.decision.orders[j]) == SwapKey(inp.decision.swaps[i])
    ensures var inflight := AfterOrders(PlanOf(cfg, d.open, inp), Untouched(d), j).inflight;
            var o := StampedOrder(cfg, inp, j);
            PreTrade(l, Intent.Order(o), RiskSnapshot(d.open, inflight, Exclusion(o, inflight)))
              != Block(MaxConcurrentPositions)
  {
    NonEmptyKeysNeverStarve(inp.decision);
    assert !Starved(cfg, l, d, inp, i, j);
  }

  /** A token without a symbol, then a pair: the hedge of the pair can be refused although its swap was accepted. */
  lemma EmptyKeyStarvesHedge()
    ensures !NeverStarves(Decision([SampleSwap("USDC", "", ""), SampleSwap("USDC", "WIF", "")],
                                   [SampleOrder("WIF", Sell, false)], []))
  {
    var dec := Decision([SampleSwap("USDC", "", ""), SampleSwap("USDC", "WIF", "")], [SampleOrder("WIF", Sell, false)],
                        []);
    var k := SwapKey(dec.swaps[1]);
    assert |k| == 3 && OpeningAt(dec, 1, k) && HedgeAt(dec, 0, k);
    assert OpeningAt(dec, 0, "") && EmptyThenSwap(dec, 0, 1);
    EmptyThenSwapStarves(dec, 0, 1, 0, k);
  }
}
