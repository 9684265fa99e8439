/** Restart equivalence over whole runs: the table always rebuilds the open set, and restarts change nothing. */
module RestartRuns {
  import opened Collections
  import opened Wrappers
  import opened Texts
  import opened Types
  import opened RiskPolicy
  import opened Tables
  import opened TickSpec
  import opened TickFacts
  import opened Staging
  import opened PaperMode
  import opened Restart

  /* ----- position ids that never repeat ----- */

  /** No two ticks of a run could give one id to a position: they can open no common key, or mint differently. */
  ghost predicate MintApart(cfg: Config, a: TickInput, b: TickInput) {
    forall k, m | Pairable(a.decision, k) && Pairable(b.decision, m) :: MintedId(cfg, a, k) != MintedId(cfg, b, m)
  }

  /** The ids a run can mint are new to the table and never the same in two ticks. */
  ghost predicate FreshDecisions(cfg: Config, t: Positions, inputs: seq<TickInput>) {
    && (forall i | 0 <= i < |inputs| :: FreshIds(cfg, t, inputs[i]))
    && (forall i, j | 0 <= i < j < |inputs| :: MintApart(cfg, inputs[i], inputs[j]))
  }

  /**
   With full-length decision ids it is enough that ticks which can open a common key differ in the first
   eight characters.
   */
  lemma PrefixesMintApart(cfg: Config, a: TickInput, b: TickInput)
    requires |a.decisionId| >= 8 && |b.decisionId| >= 8
    requires (exists k :: Pairable(a.decision, k) && Pairable(b.decision, k)) ==>
               ShortId(a.decisionId) != ShortId(b.decisionId)
    ensures MintApart(cfg, a, b)
  {
    forall k, m | Pairable(a.decision, k) && Pairable(b.decision, m)
      ensures MintedId(cfg, a, k) != MintedId(cfg, b, m)
    {
      if ShortId(a.decisionId) == ShortId(b.decisionId) {
        if MintedId(cfg, a, k) == MintedId(cfg, b, m) {
          BasisIdInjective(cfg.agentId, k, m, ShortId(a.decisionId));
        }
      } else {
        SuffixesMintApart(cfg.agentId, k, m, ShortId(a.decisionId), ShortId(b.decisionId));
      }
    }
  }

  lemma SuffixesMintApart(agent: string, k: string, m: string, s: string, t: string)
    requires |s| == |t| && s != t
    ensures BasisId(agent, k, s) != BasisId(agent, m, t)
  {
    var a, b := BasisId(agent, k, s), BasisId(agent, m, t);
    assert a[|a| - |s|..] == s && b[|b| - |t|..] == t;
  }

  lemma {:induction false} ClosesAddNoId(cfg: Config, inp: TickInput, orderOk: set<string>, b: Book, n: nat)
    requires inp.Valid() && n <= |inp.decision.orders|
    ensures AfterCloses(cfg, inp, orderOk, b, n).positions.Keys == b.positions.Keys
  {
    if n > 0 { ClosesAddNoId(cfg, inp, orderOk, b, n - 1); }
  }

  ghost predicate MintedBy(cfg: Config, inp: TickInput, id: string) {
    exists k :: Pairable(inp.decision, k) && id == MintedId(cfg, inp, k)
  }

  lemma {:induction false} OpensOnlyMint(cfg: Config, inp: TickInput, swapOk: set<string>, orderOk: set<string>,
                                         b: Book, n: nat, id: string)
    requires inp.Valid() && n <= |inp.decision.orders|
    requires id in AfterOpens(cfg, inp, swapOk, orderOk, b, n).positions
    ensures id in b.positions || MintedBy(cfg, inp, id)
  {
    if n > 0 {
      var before, o := AfterOpens(cfg, inp, swapOk, orderOk, b, n - 1), inp.decision.orders[n - 1];
      if id in before.positions {
        OpensOnlyMint(cfg, inp, swapOk, orderOk, b, n - 1, id);
      } else {
        OpensOnlyPairs(inp, o, swapOk, orderOk, before.open);
        assert id == MintedId(cfg, inp, OrderKey(o));
      }
    }
  }

  lemma TickOnlyMints(cfg: Config, d: Desk, inp: TickInput, id: string)
    requires inp.Valid() && id in Tick(cfg, d, inp).positions
    ensures id in d.positions || MintedBy(cfg, inp, id)
  {
    var p, b, n := Legs(cfg, d, inp), Book(d.open, d.positions), |inp.decision.orders|;
    ClosesAddNoId(cfg, inp, p.orderOk, b, n);
    OpensOnlyMint(cfg, inp, p.swapOk, p.orderOk, AfterCloses(cfg, inp, p.orderOk, b, n), n, id);
  }

  lemma TickKeepsOthersFresh(cfg: Config, d: Desk, inp: TickInput, later: TickInput)
    requires inp.Valid() && FreshIds(cfg, d.positions, later) && MintApart(cfg, inp, later)
    ensures FreshIds(cfg, Tick(cfg, d, inp).positions, later)
  {
    forall m | Pairable(later.decision, m) ensures MintedId(cfg, later, m) !in Tick(cfg, d, inp).positions {
      var id := MintedId(cfg, later, m);
      if id in Tick(cfg, d, inp).positions {
        TickOnlyMints(cfg, d, inp, id);
      }
    }
  }

  lemma {:induction false} RunKeepsFresh(cfg: Config, d: Desk, inputs: seq<TickInput>, later: TickInput)
    requires ValidRun(inputs) && FreshIds(cfg, d.positions, later)
    requires forall i | 0 <= i < |inputs| :: MintApart(cfg, inputs[i], later)
    ensures FreshIds(cfg, Run(cfg, d, inputs).positions, later)
  {
    if inputs != [] {
      var n := |inputs| - 1;
      RunKeepsFresh(cfg, d, inputs[..n], later);
      TickKeepsOthersFresh(cfg, Run(cfg, d, inputs[..n]), inputs[n], later);
    }
  }

  /* ----- every tick boundary ----- */

  /** No position write of the run is lost. */
  ghost predicate StoreReachable(inputs: seq<TickInput>) {
    forall i, j | 0 <= i < |inputs| && 0 <= j < |inputs[i].orderAnswers| ::
      inputs[i].orderAnswers[j].closeWritten && inputs[i].orderAnswers[j].openWritten
  }

  lemma ReachableWritesLand(cfg: Config, d: Desk, inp: TickInput)
    requires inp.Valid()
    requires forall j | 0 <= j < |inp.orderAnswers| ::
               inp.orderAnswers[j].closeWritten && inp.orderAnswers[j].openWritten
    ensures AllWritesLand(cfg, d, inp)
  {
  }

  ghost predicate InStep(cfg: Config, d: Desk) {
    OwnEntries(cfg.agentId, d.open) && RowsMatch(cfg.agentId, Book(d.open, d.positions))
  }

  lemma {:induction false} RunStaysInStep(cfg: Config, d: Desk, inputs: seq<TickInput>)
    requires ValidRun(inputs) && InStep(cfg, d) && FreshDecisions(cfg, d.positions, inputs) && StoreReachable(inputs)
    ensures InStep(cfg, Run(cfg, d, inputs))
  {
    if inputs != [] {
      var n := |inputs| - 1;
      var before := Run(cfg, d, inputs[..n]);
      RunStaysInStep(cfg, d, inputs[..n]);
      RunKeepsFresh(cfg, d, inputs[..n], inputs[n]);
      ReachableWritesLand(cfg, before, inputs[n]);
      TickKeepsOwn(cfg, before, inputs[n]);
      TickKeepsRowsExactly(cfg, before, inputs[n]);
    }
  }

  /** At the end of any run a fresh runtime would hydrate exactly the running open set. */
  lemma RestartRebuildsOpenSet(cfg: Config, d: Desk, inputs: seq<TickInput>, loaded: OpenBasis)
    requires ValidRun(inputs) && InStep(cfg, d) && FreshDecisions(cfg, d.positions, inputs) && StoreReachable(inputs)
    requires IsHydration(loaded, Run(cfg, d, inputs).positions, cfg.agentId)
    ensures loaded == StampedAll(Run(cfg, d, inputs).open)
  {
    RunStaysInStep(cfg, d, inputs);
    HydrationIsExact(cfg.agentId, Book(Run(cfg, d, inputs).open, Run(cfg, d, inputs).positions), loaded);
  }

  /* ----- desks that differ only in the precision of opening times ----- */

  ghost predicate AlikeOpen(a: OpenBasis, b: OpenBasis) {
    a.Keys == b.Keys && forall k <- a :: Stamped(a[k]) == Stamped(b[k])
  }

  ghost predicate Alike(d: Desk, e: Desk) {
    && AlikeOpen(d.open, e.open)
    && d.positions == e.positions && d.swapLedger == e.swapLedger && d.orderLedger == e.orderLedger
         && d.calls == e.calls
  }

  lemma {:induction false} EntriesAlike(a: OpenBasis, b: OpenBasis, keys: set<string>)
    requires AlikeOpen(a, b)
    ensures |Entries(a, keys)| == |Entries(b, keys)|
    ensures TotalBasisExposure(Entries(a, keys)) == TotalBasisExposure(Entries(b, keys))
  {
    if keys != {} {
      var k := First(keys);
      EntriesAlike(a, b, keys - {k});
      if k in a {
        assert a[k].legs == Stamped(a[k]).legs == b[k].legs;
        ExposureOfConcat([a[k]], Entries(a, keys - {k}));
        ExposureOfConcat([b[k]], Entries(b, keys - {k}));
      } else {
        assert [] + Entries(a, keys - {k}) == Entries(a, keys - {k});
        assert [] + Entries(b, keys - {k}) == Entries(b, keys - {k});
      }
    }
  }

  lemma PolicyIgnoresOpeningTimes(l: Limits, intent: Intent, a: OpenBasis, b: OpenBasis, inflight: set<string>,
                                  exclude: string)
    requires AlikeOpen(a, b)
    ensures PreTrade(l, intent, RiskSnapshot(a, inflight, exclude))
            == PreTrade(l, intent, RiskSnapshot(b, inflight, exclude))
  {
    EntriesAlike(a, b, a.Keys);
    ExposureOfConcat(Entries(a, a.Keys), Phantoms(inflight, exclude));
    ExposureOfConcat(Entries(b, b.Keys), Phantoms(inflight, exclude));
  }

  ghost predicate PolicyOrNone(cfg: Config) {
    cfg.risk.Some? ==> exists l :: UsesPolicy(cfg, l)
  }

  lemma AlikePlansAgree(cfg: Config, a: OpenBasis, b: OpenBasis, inp: TickInput)
    requires inp.Valid() && AlikeOpen(a, b) && PolicyOrNone(cfg)
    ensures AgreeOnSuccess(PlanOf(cfg, a, inp), PlanOf(cfg, b, inp))
  {
    if cfg.risk.Some? {
      var l :| UsesPolicy(cfg, l);
      forall intent, inflight, exclude
        ensures Refused(cfg.risk, intent, RiskSnapshot(a, inflight, exclude))
                == Refused(cfg.risk, intent, RiskSnapshot(b, inflight, exclude))
      {
        PolicyIgnoresOpeningTimes(l, intent, a, b, inflight, exclude);
      }
    }
  }

  ghost predicate AlikeBook(b: Book, c: Book) {
    AlikeOpen(b.open, c.open) && b.positions == c.positions
  }

  lemma {:induction false} ClosesAlike(cfg: Config, inp: TickInput, orderOk: set<string>, b: Book, c: Book, n: nat)
    requires inp.Valid() && n <= |inp.decision.orders| && AlikeBook(b, c)
    ensures AlikeBook(AfterCloses(cfg, inp, orderOk, b, n), AfterCloses(cfg, inp, orderOk, c, n))
  {
    if n > 0 {
      ClosesAlike(cfg, inp, orderOk, b, c, n - 1);
      CloseStepAlike(cfg, inp, inp.decision.orders[n - 1], inp.orderAnswers[n - 1].closeWritten, orderOk,
                     AfterCloses(cfg, inp, orderOk, b, n - 1), AfterCloses(cfg, inp, orderOk, c, n - 1));
    }
  }

  lemma CloseStepAlike(cfg: Config, inp: TickInput, o: OrderIntent, written: bool, orderOk: set<string>, b: Book,
                       c: Book)
    requires AlikeBook(b, c)
    ensures AlikeBook(CloseStep(cfg, inp, o, written, orderOk, b), CloseStep(cfg, inp, o, written, orderOk, c))
  {
    var k := OrderKey(o);
    if k in b.open { assert b.open[k].underlying == Stamped(b.open[k]).underlying == c.open[k].underlying; }
  }

  lemma {:induction false} OpensAlike(cfg: Config, inp: TickInput, swapOk: set<string>, orderOk: set<string>, b: Book,
                                      c: Book, n: nat)
    requires inp.Valid() && n <= |inp.decision.orders| && AlikeBook(b, c)
    ensures AlikeBook(AfterOpens(cfg, inp, swapOk, orderOk, b, n), AfterOpens(cfg, inp, swapOk, orderOk, c, n))
  {
    if n > 0 { OpensAlike(cfg, inp, swapOk, orderOk, b, c, n - 1); }
  }

  lemma TickKeepsAlike(cfg: Config, d: Desk, e: Desk, inp: TickInput)
    requires inp.Valid() && Alike(d, e) && PolicyOrNone(cfg)
    ensures Alike(Tick(cfg, d, inp), Tick(cfg, e, inp))
  {
    var n, p := |inp.decision.orders|, Legs(cfg, d, inp);
    var b, c := Book(d.open, d.positions), Book(e.open, e.positions);
    AlikePlansAgree(cfg, d.open, e.open, inp);
    OrdersCoincide(PlanOf(cfg, d.open, inp), PlanOf(cfg, e.open, inp), Untouched(d), n);
    ClosesAlike(cfg, inp, p.orderOk, b, c, n);
    OpensAlike(cfg, inp, p.swapOk, p.orderOk, AfterCloses(cfg, inp, p.orderOk, b, n),
               AfterCloses(cfg, inp, p.orderOk, c, n), n);
  }

  /* ----- restarts in the middle of a run ----- */

  /** A restart replaces the open set by what the new runtime loaded. */
  datatype Event = Ticked(inp: TickInput) | Restarted(loaded: OpenBasis)

  ghost predicate ValidEvents(events: seq<Event>) {
    forall i | 0 <= i < |events| && events[i].Ticked? :: events[i].inp.Valid()
  }

  ghost function Replay(cfg: Config, d: Desk, events: seq<Event>): Desk
    requires ValidEvents(events)
  {
    if events == [] then d else
      var before := Replay(cfg, d, events[..|events| - 1]);
      match events[|events| - 1]
      case Ticked(inp) => Tick(cfg, before, inp)
      case Restarted(loaded) => before.(open := loaded)
  }

  ghost function TicksOf(events: seq<Event>): seq<TickInput> {
    if events == [] then [] else
      var before := TicksOf(events[..|events| - 1]);
      match events[|events| - 1]
      case Ticked(inp) => before + [inp]
      case Restarted(_) => before
  }

  /** Every restart loads a hydration of the table as it stands at that moment. */
  ghost predicate LoadsFromTable(cfg: Config, d: Desk, events: seq<Event>)
    requires ValidEvents(events)
  {
    forall n | 0 <= n < |events| && events[n].Restarted? ::
      IsHydration(events[n].loaded, Replay(cfg, d, events[..n]).positions, cfg.agentId)
  }

  /** What the theorem below asks of a history of ticks and restarts. */
  ghost predicate SoundHistory(cfg: Config, d: Desk, events: seq<Event>) {
    && ValidEvents(events) && LoadsFromTable(cfg, d, events) && ValidRun(TicksOf(events))
    && FreshDecisions(cfg, d.positions, TicksOf(events)) && StoreReachable(TicksOf(events))
  }

  lemma TicksOfInit(events: seq<Event>)
    requires events != []
    ensures var init, last := TicksOf(events[..|events| - 1]), events[|events| - 1];
            TicksOf(events) == if last.Ticked? then init + [last.inp] else init
  {
  }

  lemma EarlierTicksSound(cfg: Config, t: Positions, fewer: seq<TickInput>, ticks: seq<TickInput>)
    requires fewer <= ticks && ValidRun(ticks) && FreshDecisions(cfg, t, ticks) && StoreReachable(ticks)
    ensures ValidRun(fewer) && FreshDecisions(cfg, t, fewer) && StoreReachable(fewer)
  {
  }

  lemma EarlierLoadsFromTable(cfg: Config, d: Desk, events: seq<Event>)
    requires events != [] && ValidEvents(events) && LoadsFromTable(cfg, d, events)
    ensures ValidEvents(events[..|events| - 1]) && LoadsFromTable(cfg, d, events[..|events| - 1])
  {
    var init := events[..|events| - 1];
    assert ValidEvents(init);
    assert forall i | 0 <= i < |init| :: init[..i] == events[..i];
  }

  lemma SoundInit(cfg: Config, d: Desk, events: seq<Event>)
    requires events != [] && SoundHistory(cfg, d, events)
    ensures SoundHistory(cfg, d, events[..|events| - 1])
  {
    TicksOfInit(events);
    EarlierTicksSound(cfg, d.positions, TicksOf(events[..|events| - 1]), TicksOf(events));
    EarlierLoadsFromTable(cfg, d, events);
  }

  lemma TickedAlike(cfg: Config, d: Desk, replayed: Desk, ticks: seq<TickInput>, inp: TickInput)
    requires ValidRun(ticks + [inp]) && inp.Valid() && PolicyOrNone(cfg)
    requires ValidRun(ticks) && Alike(replayed, Run(cfg, d, ticks))
    ensures Alike(Tick(cfg, replayed, inp), Run(cfg, d, ticks + [inp]))
  {
    assert (ticks + [inp])[..|ticks|] == ticks;
    TickKeepsAlike(cfg, replayed, Run(cfg, d, ticks), inp);
  }

  lemma RestartedAlike(cfg: Config, d: Desk, replayed: Desk, ticks: seq<TickInput>, loaded: OpenBasis)
    requires ValidRun(ticks) && InStep(cfg, d) && FreshDecisions(cfg, d.positions, ticks) && StoreReachable(ticks)
    requires Alike(replayed, Run(cfg, d, ticks)) && IsHydration(loaded, replayed.positions, cfg.agentId)
    ensures Alike(replayed.(open := loaded), Run(cfg, d, ticks))
  {
    RestartRebuildsOpenSet(cfg, d, ticks, loaded);
    LoadedIsAlike(replayed, Run(cfg, d, ticks), loaded);
  }

  lemma LoadedIsAlike(replayed: Desk, ran: Desk, loaded: OpenBasis)
    requires Alike(replayed, ran) && loaded == StampedAll(ran.open)
    ensures Alike(replayed.(open := loaded), ran)
  {
  }

  /**
   Restarting anywhere, any number of times, is invisible: the same open set up to the precision of
   opening times, the same tables and ledgers, and the same venue calls as the run without restarts.
   */
  lemma {:induction false} RestartsAreInvisible(cfg: Config, d: Desk, events: seq<Event>)
    requires SoundHistory(cfg, d, events) && PolicyOrNone(cfg) && InStep(cfg, d)
    ensures Alike(Replay(cfg, d, events), Run(cfg, d, TicksOf(events)))
  {
    if events != [] {
      var n := |events| - 1;
      var init := events[..n];
      SoundInit(cfg, d, events);
      RestartsAreInvisible(cfg, d, init);
      TicksOfInit(events);
      match events[n]
      case Ticked(inp) => TickedAlike(cfg, d, Replay(cfg, d, init), TicksOf(init), inp);
      case Restarted(loaded) => RestartedAlike(cfg, d, Replay(cfg, d, init), TicksOf(init), loaded);
    }
  }

  /* ----- why ids must not repeat ----- */

  function OpenToken(token: string): TickInput {
    RecordedInput(Decision([SampleSwap("USDC", token, "")], [SampleOrder(token, Sell, false)], []))
  }

  function CloseWif(): TickInput {
    RecordedInput(Decision([], [SampleOrder("WIF", Side.Buy, true)], []))
  }

  /** The position such a tick opens. */
  function TokenPosition(token: string): BasisPosition {
    var inp := OpenToken(token);
    NewBasis(PaperConfig(), inp, inp.decision.swaps[0], inp.decision.orders[0])
  }

  lemma OpenTokenStep(cfg: Config, token: string, swapOk: set<string>, orderOk: set<string>, t: Positions)
    requires cfg.agentId == "agent" && token != "USDC" && ToUpper(token) in swapOk && ToUpper(token) in orderOk
    ensures var inp, bp := OpenToken(token), TokenPosition(token);
            OpenStep(cfg, inp, inp.decision.orders[0], true, swapOk, orderOk, Book(map[], t))
              == Book(map[ToUpper(token) := bp], Written(t, true, UpsertOpenBasis(t, bp)))
  {
    var swaps := OpenToken(token).decision.swaps;
    assert swaps[..0] == [];
    assert OpeningSwaps(swaps) == map[ToUpper(token) := swaps[0]];
  }

  lemma WifLegs(d: Desk)
    ensures var p := Legs(PaperConfig(), d, OpenToken("WIF")); ToUpper("WIF") in p.swapOk && ToUpper("WIF") in p.orderOk
    ensures ToUpper("WIF") in Legs(PaperConfig(), d, CloseWif()).orderOk
  {
    PaperLegsSucceed(d, OpenToken("WIF").decision);
    PaperLegsSucceed(d, CloseWif().decision);
    assert OpenToken("WIF").decision.swaps[0] in OpenToken("WIF").decision.swaps;
    assert OpenToken("WIF").decision.orders[0] in OpenToken("WIF").decision.orders;
    assert CloseWif().decision.orders[0] in CloseWif().decision.orders;
  }

  lemma OpenTokenBook(cfg: Config, token: string, swapOk: set<string>, orderOk: set<string>, t: Positions)
    requires cfg.agentId == "agent" && token != "USDC" && ToUpper(token) in swapOk && ToUpper(token) in orderOk
    ensures Reconciled(cfg, OpenToken(token), swapOk, orderOk, Book(map[], t))
         == Book(map[ToUpper(token) := TokenPosition(token)],
                 Written(t, true, UpsertOpenBasis(t, TokenPosition(token))))
  {
    OneOrderBook(cfg, OpenToken(token), swapOk, orderOk, Book(map[], t));
    OpenTokenStep(cfg, token, swapOk, orderOk, t);
  }

  lemma OpenTokenTick(cfg: Config, token: string, d: Desk)
    requires cfg.agentId == "agent" && token != "USDC" && d.open == map[]
    requires var p := Legs(cfg, d, OpenToken(token)); ToUpper(token) in p.swapOk && ToUpper(token) in p.orderOk
    ensures var after, bp := Tick(cfg, d, OpenToken(token)), TokenPosition(token);
            && after.open == map[ToUpper(token) := bp]
            && after.positions == Written(d.positions, true, UpsertOpenBasis(d.positions, bp))
  {
    var p := Legs(cfg, d, OpenToken(token));
    TickBook(cfg, d, OpenToken(token));
    OpenTokenBook(cfg, token, p.swapOk, p.orderOk, d.positions);
  }

  lemma CloseWifBook(swapOk: set<string>, orderOk: set<string>, t: Positions)
    requires ToUpper("WIF") in orderOk
    ensures Reconciled(PaperConfig(), CloseWif(), swapOk, orderOk, Book(map[ToUpper("WIF") := TokenPosition("WIF")], t))
         == Book(map[], CloseBasis(t, "agent", "WIF", 0))
  {
    OneOrderBook(PaperConfig(), CloseWif(), swapOk, orderOk, Book(map[ToUpper("WIF") := TokenPosition("WIF")], t));
    assert (map[ToUpper("WIF") := TokenPosition("WIF")] - {ToUpper("WIF")}).Keys == {};
  }

  lemma CloseWifTick(d: Desk)
    requires d.open == map[ToUpper("WIF") := TokenPosition("WIF")]
    ensures var after := Tick(PaperConfig(), d, CloseWif());
            after.open == map[] && after.positions == CloseBasis(d.positions, "agent", "WIF", 0)
  {
    var p := Legs(PaperConfig(), d, CloseWif());
    WifLegs(d);
    TickBook(PaperConfig(), d, CloseWif());
    CloseWifBook(p.swapOk, p.orderOk, d.positions);
  }

  /** The rows of the three ticks: the position stored, closed, and half refreshed. */
  lemma ReopenedRow(t: Positions)
    requires t == map[TokenPosition("WIF").id := Stamped(TokenPosition("WIF"))]
    ensures var closed := CloseBasis(t, "agent", "WIF", 0);
            var reopened := Written(closed, true, UpsertOpenBasis(closed, TokenPosition("WIF")));
            TokenPosition("WIF").id in reopened && reopened[TokenPosition("WIF").id] != Stamped(TokenPosition("WIF"))
  {
    var closed := CloseBasis(t, "agent", "WIF", 0);
    assert closed[TokenPosition("WIF").id].closedAt == Some(0);
  }

  /**
   Opened, closed, and opened again under one decision id: the row keeps its closing time, and no longer
   is the entry.
   */
  lemma RepeatedIdBreaksMatch()
    ensures var after := Run(PaperConfig(), EmptyDesk(map[]), [OpenToken("WIF"), CloseWif(), OpenToken("WIF")]);
            !RowsMatch("agent", Book(after.open, after.positions))
  {
    var cfg, d, bp := PaperConfig(), EmptyDesk(map[]), TokenPosition("WIF");
    var first := Tick(cfg, d, OpenToken("WIF"));
    var second := Tick(cfg, first, CloseWif());
    WifLegs(d);
    OpenTokenTick(cfg, "WIF", d);
    CloseWifTick(first);
    WifLegs(second);
    OpenTokenTick(cfg, "WIF", second);
    ThreeTicks(cfg, d, OpenToken("WIF"), CloseWif(), OpenToken("WIF"));
    assert first.positions == map[bp.id := Stamped(bp)];
    ReopenedRow(first.positions);
    var after := Tick(cfg, second, OpenToken("WIF"));
    assert ToUpper("WIF") in after.open && after.open[ToUpper("WIF")] == bp;
  }

  lemma ThreeTicks(cfg: Config, d: Desk, a: TickInput, b: TickInput, c: TickInput)
    requires a.Valid() && b.Valid() && c.Valid()
    ensures Run(cfg, d, [a, b, c]) == Tick(cfg, Tick(cfg, Tick(cfg, d, a), b), c)
  {
    RunOneMore(cfg, d, [], a);
    RunOneMore(cfg, d, [a], b);
    RunOneMore(cfg, d, [a, b], c);
    assert [] + [a] == [a] && [a] + [b] == [a, b] && [a, b] + [c] == [a, b, c];
  }
}
