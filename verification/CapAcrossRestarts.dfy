/** The position cap across restarts: what is bounded, and what an unreadable table does to it. */
module CapAcrossRestarts {
  import opened Texts
  import opened RiskPolicy
  import opened Tables
  import opened TickSpec
  import opened TickFacts
  import opened Staging
  import opened TickSafety
  import opened Restart
  import opened RestartRuns

  /** Only decisions that keep the cap. */
  ghost predicate KeepsCap(ticks: seq<TickInput>) {
    forall i | 0 <= i < |ticks| :: OverbookProof(ticks[i].decision)
  }

  /** No restart loads more than `bound` entries. */
  ghost predicate LoadsAtMost(events: seq<Event>, bound: nat) {
    forall i | 0 <= i < |events| && events[i].Restarted? :: |events[i].loaded| <= bound
  }

  ghost predicate KeepsCapBetween(events: seq<Event>) {
    forall i | 0 <= i < |events| && events[i].Ticked? :: OverbookProof(events[i].inp.decision)
  }

  /**
   Whatever restarts load and whatever writes are lost, the open set in memory is bounded by the cap and
   what was loaded.
   */
  lemma {:induction false} CapKeptInMemory(cfg: Config, l: Limits, d: Desk, events: seq<Event>, bound: nat)
    requires Capped(cfg, l) && ValidEvents(events) && KeepsCapBetween(events)
    requires LoadsAtMost(events, bound) && |d.open| <= bound
    ensures |Replay(cfg, d, events).open| <= Max(l.maxConcurrentPositions, bound)
  {
    if events != [] {
      var n := |events| - 1;
      CapKeptInMemory(cfg, l, d, events[..n], bound);
      if events[n].Ticked? {
        CapKept(cfg, l, Replay(cfg, d, events[..n]), events[n].inp);
      }
    }
  }

  /** While memory and table are in step, the agent's live rows are as many as its open positions. */
  lemma LiveRowsAreOpen(cfg: Config, d: Desk)
    requires InStep(cfg, d)
    ensures |LiveIds(d.positions, cfg.agentId)| == |d.open|
  {
    EntriesHaveRows(cfg.agentId, d.open, d.positions, d.open.Keys);
    var ids := set k | k in d.open.Keys :: d.open[k].id;
    forall id | id in ids ensures id in LiveIds(d.positions, cfg.agentId) {
    }
    forall id | id in LiveIds(d.positions, cfg.agentId) ensures id in ids {
      assert Backed(d.open, id);
    }
    assert ids == LiveIds(d.positions, cfg.agentId);
  }

  lemma {:induction false} EntriesHaveRows(agent: string, open: OpenBasis, t: Positions, keys: set<string>)
    requires OwnEntries(agent, open) && AllStored(open, t) && keys <= open.Keys
    ensures |set k | k in keys :: open[k].id| == |keys|
  {
    if keys != {} {
      var x :| x in keys;
      var ids, rest := set k | k in keys :: open[k].id, set k | k in keys - {x} :: open[k].id;
      EntriesHaveRows(agent, open, t, keys - {x});
      assert open[x].id !in rest;
      assert ids == rest + {open[x].id};
    }
  }

  /** Restarts that can read the table keep the cap: open positions and live rows stay equally many, within it. */
  lemma CapKeptAcrossRestarts(cfg: Config, l: Limits, d: Desk, events: seq<Event>)
    requires Capped(cfg, l) && SoundHistory(cfg, d, events) && InStep(cfg, d) && KeepsCap(TicksOf(events))
    ensures var after := Replay(cfg, d, events);
            && |after.open| <= Max(l.maxConcurrentPositions, |d.open|)
            && |LiveIds(after.positions, cfg.agentId)| == |after.open|
  {
    var ran := Run(cfg, d, TicksOf(events));
    RestartsAreInvisible(cfg, d, events);
    CapKeptOverRuns(cfg, l, d, TicksOf(events));
    RunStaysInStep(cfg, d, TicksOf(events));
    LiveRowsAreOpen(cfg, ran);
    assert |Replay(cfg, d, events).open| == |Replay(cfg, d, events).open.Keys| == |ran.open.Keys| == |ran.open|;
  }

  /* ----- a restart that cannot read the table ----- */

  lemma OneSlotLetsThrough(open: OpenBasis, token: string)
    requires open == map[] && token != "USDC"
    ensures !SwapRefused(OneSlotConfig(), open, OpenToken(token), 0, {})
    ensures !OrderRefused(OneSlotConfig(), open, OpenToken(token), 0, {ToUpper(token)})
  {
    SnapshotSize(open, {}, "");
    SnapshotSize(open, {ToUpper(token)}, ToUpper(token));
    assert {ToUpper(token)} - {ToUpper(token)} == {};
  }

  /** The legs of a decision with one swap and one order, both let through and accepted. */
  lemma BothLegsSucceed(plan: Plan, start: Progress, k: string)
    requires plan.Valid() && |plan.decision.swaps| == 1 && |plan.decision.orders| == 1
    requires var s, o := plan.decision.swaps[0], plan.decision.orders[0];
             s.IsOpening() && SwapKey(s) == k == OrderKey(o)
    requires plan.swapEffects[0].accepted && plan.orderEffects[0].accepted && start.inflight == {}
    requires !plan.refusesSwap(0, {}) && !plan.refusesOrder(0, {k})
    ensures k in Executed(plan, start).swapOk && k in Executed(plan, start).orderOk
  {
    assert AfterSwaps(plan, start, 0) == start;
    assert AfterSwaps(plan, start, 1) == SwapStep(plan, 0, start);
    assert {} + {k} == {k};
    assert AfterOrders(plan, start, 0) == SwapStep(plan, 0, start);
    assert AfterOrders(plan, start, 1) == OrderStep(plan, 0, SwapStep(plan, 0, start));
  }

  lemma OneSlotLegs(d: Desk, token: string)
    requires d.open == map[] && token != "USDC"
    ensures var p := Legs(OneSlotConfig(), d, OpenToken(token));
            ToUpper(token) in p.swapOk && ToUpper(token) in p.orderOk
  {
    OneSlotLetsThrough(d.open, token);
    BothLegsSucceed(PlanOf(OneSlotConfig(), d.open, OpenToken(token)), Untouched(d), ToUpper(token));
  }

  lemma OneSlotTick(d: Desk, token: string)
    requires d.open == map[] && token != "USDC"
    ensures var after, bp := Tick(OneSlotConfig(), d, OpenToken(token)), TokenPosition(token);
            && after.open == map[ToUpper(token) := bp]
            && after.positions == Written(d.positions, true, UpsertOpenBasis(d.positions, bp))
  {
    OneSlotLegs(d, token);
    OpenTokenTick(OneSlotConfig(), token, d);
  }

  /**
   The runtime starts empty when it cannot read the table; the rows it does not know of no longer count
   against the cap.
   */
  lemma BlindRestartOverbooks()
    ensures var events := [Ticked(OpenToken("WIF")), Restarted(map[]), Ticked(OpenToken("BONK"))];
            var after := Replay(OneSlotConfig(), EmptyDesk(map[]), events);
            && Capped(OneSlotConfig(), CapLimits(1)) && CapLimits(1).maxConcurrentPositions == 1
            && |after.open| == 1 && |LiveIds(after.positions, "agent")| == 2
  {
    var cfg, d := OneSlotConfig(), EmptyDesk(map[]);
    var first := Tick(cfg, d, OpenToken("WIF"));
    var blind := first.(open := map[]);
    OneSlotTick(d, "WIF");
    OneSlotTick(blind, "BONK");
    BlindReplay(cfg, d, OpenToken("WIF"), OpenToken("BONK"));
    TwoRows(first.positions);
  }

  lemma TwoRows(t: Positions)
    requires t == Written(map[], true, UpsertOpenBasis(map[], TokenPosition("WIF")))
    ensures |LiveIds(Written(t, true, UpsertOpenBasis(t, TokenPosition("BONK"))), "agent")| == 2
  {
    var wif, bonk := TokenPosition("WIF"), TokenPosition("BONK");
    if wif.id == bonk.id {
      BasisIdInjective("agent", ToUpper("WIF"), ToUpper("BONK"), ShortId("decision"));
    }
    assert t == map[wif.id := Stamped(wif)];
    assert LiveIds(t[bonk.id := Stamped(bonk)], "agent") == {wif.id, bonk.id};
  }

  lemma BlindReplay(cfg: Config, d: Desk, a: TickInput, b: TickInput)
    requires a.Valid() && b.Valid()
    ensures Replay(cfg, d, [Ticked(a), Restarted(map[]), Ticked(b)]) == Tick(cfg, Tick(cfg, d, a).(open := map[]), b)
  {
    var events := [Ticked(a), Restarted(map[]), Ticked(b)];
    assert events[..2][..1] == [Ticked(a)] && events[..2][..1][..0] == [];
    assert Replay(cfg, d, events[..2][..1]) == Tick(cfg, d, a);
    assert Replay(cfg, d, events[..2]) == Tick(cfg, d, a).(open := map[]);
  }
}
