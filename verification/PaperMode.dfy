/** Two agents side by side: plans that agree run alike, so paper trading predicts an ideal live venue. */
module PaperMode {
  import opened Types
  import opened TickSpec
  import opened TickFacts

  /** The risk gate answers alike in both plans and the same slots succeed. */
  ghost predicate AgreeOnSuccess(a: Plan, b: Plan) {
    && a.Valid() && b.Valid() && a.decision == b.decision
    && (forall i: nat, inflight: set<string> :: a.refusesSwap(i, inflight) == b.refusesSwap(i, inflight))
    && (forall j: nat, inflight: set<string> :: a.refusesOrder(j, inflight) == b.refusesOrder(j, inflight))
    && (forall i | 0 <= i < |a.swapEffects| :: a.swapEffects[i].accepted == b.swapEffects[i].accepted)
    && (forall j | 0 <= j < |a.orderEffects| :: a.orderEffects[j].accepted == b.orderEffects[j].accepted)
  }

  ghost predicate SameSets(p: Progress, q: Progress) {
    p.swapOk == q.swapOk && p.orderOk == q.orderOk && p.inflight == q.inflight
  }

  lemma {:induction false} SwapsAgree(a: Plan, b: Plan, p: Progress, q: Progress, n: nat)
    requires AgreeOnSuccess(a, b) && SameSets(p, q) && n <= |a.decision.swaps|
    ensures SameSets(AfterSwaps(a, p, n), AfterSwaps(b, q, n))
  {
    if n > 0 { SwapsAgree(a, b, p, q, n - 1); }
  }

  lemma {:induction false} OrdersAgree(a: Plan, b: Plan, p: Progress, q: Progress, n: nat)
    requires AgreeOnSuccess(a, b) && SameSets(p, q) && n <= |a.decision.orders|
    ensures SameSets(AfterOrders(a, p, n), AfterOrders(b, q, n))
  {
    if n == 0 {
      SwapsAgree(a, b, p, q, |a.decision.swaps|);
    } else {
      OrdersAgree(a, b, p, q, n - 1);
    }
  }

  /** If moreover every slot does the same thing, the two executions are one. */
  lemma {:induction false} SwapsCoincide(a: Plan, b: Plan, p: Progress, n: nat)
    requires AgreeOnSuccess(a, b) && a.swapEffects == b.swapEffects && n <= |a.decision.swaps|
    ensures AfterSwaps(a, p, n) == AfterSwaps(b, p, n)
  {
    if n > 0 { SwapsCoincide(a, b, p, n - 1); }
  }

  lemma {:induction false} OrdersCoincide(a: Plan, b: Plan, p: Progress, n: nat)
    requires AgreeOnSuccess(a, b) && a.swapEffects == b.swapEffects && a.orderEffects == b.orderEffects
    requires n <= |a.decision.orders|
    ensures AfterOrders(a, p, n) == AfterOrders(b, p, n)
  {
    if n == 0 {
      SwapsCoincide(a, b, p, |a.decision.swaps|);
    } else {
      OrdersCoincide(a, b, p, n - 1);
    }
  }

  /* ----- paper against live ----- */

  /** The same agent, once on paper and once live. */
  ghost predicate PaperTwin(paper: Config, live: Config) {
    && paper.paper && paper.agentId == live.agentId && paper.risk == live.risk
    && paper.digest == live.digest && paper.sizeText == live.sizeText
  }

  /** The same decision at the same time; what the venues and the database do is up to each side. */
  ghost predicate SameTick(a: TickInput, b: TickInput) {
    a.Valid() && b.Valid() && a.now == b.now && a.decisionId == b.decisionId && a.decision == b.decision
  }

  /** The database does the same on both sides, at the same time of its clock. */
  ghost predicate SameWrites(a: TickInput, b: TickInput) {
    && a.wall == b.wall && |a.orderAnswers| == |b.orderAnswers|
    && forall j | 0 <= j < |a.orderAnswers| :: a.orderAnswers[j].closeWritten == b.orderAnswers[j].closeWritten
                                            && a.orderAnswers[j].openWritten == b.orderAnswers[j].openWritten
  }

  /** Every swap confirms and no order is rejected. */
  ghost predicate IdealVenues(inp: TickInput) {
    && (forall a <- inp.swapAnswers :: a.outcome.Settled? && a.outcome.status == SwapConfirmed)
    && (forall a <- inp.orderAnswers :: a.outcome.Acked? && a.outcome.status != OrderRejected)
  }

  lemma PaperSwapAgrees(paper: Config, live: Config, open: OpenBasis, onPaper: TickInput, onVenue: TickInput, i: nat)
    requires PaperTwin(paper, live) && SameTick(onPaper, onVenue) && IdealVenues(onVenue)
             && i < |onVenue.decision.swaps|
    ensures PlanOf(paper, open, onPaper).swapEffects[i].accepted && PlanOf(live, open, onVenue).swapEffects[i].accepted
  {
    assert onVenue.swapAnswers[i] in onVenue.swapAnswers;
  }

  lemma PaperOrderAgrees(paper: Config, live: Config, open: OpenBasis, onPaper: TickInput, onVenue: TickInput, j: nat)
    requires PaperTwin(paper, live) && SameTick(onPaper, onVenue) && IdealVenues(onVenue)
             && j < |onVenue.decision.orders|
    ensures PlanOf(paper, open, onPaper).orderEffects[j].accepted
            && PlanOf(live, open, onVenue).orderEffects[j].accepted
  {
    assert onVenue.orderAnswers[j] in onVenue.orderAnswers;
  }

  lemma PaperPlanAgrees(paper: Config, live: Config, open: OpenBasis, onPaper: TickInput, onVenue: TickInput)
    requires PaperTwin(paper, live) && SameTick(onPaper, onVenue) && IdealVenues(onVenue)
    ensures AgreeOnSuccess(PlanOf(paper, open, onPaper), PlanOf(live, open, onVenue))
  {
    forall i: nat | i < |onVenue.decision.swaps|
      ensures PlanOf(paper, open, onPaper).swapEffects[i].accepted
              == PlanOf(live, open, onVenue).swapEffects[i].accepted
    {
      PaperSwapAgrees(paper, live, open, onPaper, onVenue, i);
    }
    forall j: nat | j < |onVenue.decision.orders|
      ensures PlanOf(paper, open, onPaper).orderEffects[j].accepted
              == PlanOf(live, open, onVenue).orderEffects[j].accepted
    {
      PaperOrderAgrees(paper, live, open, onPaper, onVenue, j);
    }
  }

  /** Which keys close depends on the open set and the successes alone. */
  lemma {:induction false} ClosesAgree(ca: Config, cb: Config, a: TickInput, b: TickInput, orderOk: set<string>,
                                      x: Book, y: Book, n: nat)
    requires SameTick(a, b) && x.open == y.open && n <= |a.decision.orders|
    ensures AfterCloses(ca, a, orderOk, x, n).open == AfterCloses(cb, b, orderOk, y, n).open
  {
    if n > 0 {
      ClosesAgree(ca, cb, a, b, orderOk, x, y, n - 1);
    }
  }

  /** And so does what opens, with the agent, the decision and its time. */
  lemma {:induction false} OpensAgree(ca: Config, cb: Config, a: TickInput, b: TickInput,
                                      swapOk: set<string>, orderOk: set<string>, x: Book, y: Book, n: nat)
    requires ca.agentId == cb.agentId && SameTick(a, b) && x.open == y.open && n <= |a.decision.orders|
    ensures AfterOpens(ca, a, swapOk, orderOk, x, n).open == AfterOpens(cb, b, swapOk, orderOk, y, n).open
  {
    if n > 0 {
      OpensAgree(ca, cb, a, b, swapOk, orderOk, x, y, n - 1);
    }
  }

  lemma {:induction false} CloseWritesAgree(ca: Config, cb: Config, a: TickInput, b: TickInput, orderOk: set<string>,
                                           book: Book, n: nat)
    requires ca.agentId == cb.agentId && SameTick(a, b) && SameWrites(a, b) && n <= |a.decision.orders|
    ensures AfterCloses(ca, a, orderOk, book, n) == AfterCloses(cb, b, orderOk, book, n)
  {
    if n > 0 {
      CloseWritesAgree(ca, cb, a, b, orderOk, book, n - 1);
    }
  }

  lemma {:induction false} OpenWritesAgree(ca: Config, cb: Config, a: TickInput, b: TickInput,
                                           swapOk: set<string>, orderOk: set<string>, book: Book, n: nat)
    requires ca.agentId == cb.agentId && SameTick(a, b) && SameWrites(a, b) && n <= |a.decision.orders|
    ensures AfterOpens(ca, a, swapOk, orderOk, book, n) == AfterOpens(cb, b, swapOk, orderOk, book, n)
  {
    if n > 0 {
      OpenWritesAgree(ca, cb, a, b, swapOk, orderOk, book, n - 1);
    }
  }

  lemma {:induction false} PaperCallsNothing(plan: Plan, start: Progress, n: nat)
    requires plan.Valid() && n <= |plan.decision.orders|
    requires forall e <- plan.swapEffects :: e.calls == []
    requires forall e <- plan.orderEffects :: e.calls == []
    ensures AfterOrders(plan, start, n).calls == start.calls
  {
    KeptBySwaps(plan, start, |plan.decision.swaps|, (p: Progress) => p.calls == start.calls);
    KeptByOrders(plan, start, n, (p: Progress) => p.calls == start.calls);
  }

  lemma SameLegs(paper: Config, live: Config, dp: Desk, dl: Desk, onPaper: TickInput, onVenue: TickInput)
    requires PaperTwin(paper, live) && SameTick(onPaper, onVenue) && IdealVenues(onVenue) && dp.open == dl.open
    ensures SameSets(Legs(paper, dp, onPaper), Legs(live, dl, onVenue))
  {
    PaperPlanAgrees(paper, live, dp.open, onPaper, onVenue);
    OrdersAgree(PlanOf(paper, dp.open, onPaper), PlanOf(live, dl.open, onVenue), Untouched(dp), Untouched(dl),
                |onPaper.decision.orders|);
  }

  /** Whatever the tables hold and whichever writes are lost on either side. */
  lemma PaperTickMatchesIdealLive(paper: Config, live: Config, dp: Desk, dl: Desk, onPaper: TickInput,
                                  onVenue: TickInput)
    requires PaperTwin(paper, live) && SameTick(onPaper, onVenue) && IdealVenues(onVenue) && dp.open == dl.open
    ensures Tick(paper, dp, onPaper).open == Tick(live, dl, onVenue).open
  {
    var n, p := |onPaper.decision.orders|, Legs(paper, dp, onPaper);
    var x, y := Book(dp.open, dp.positions), Book(dl.open, dl.positions);
    SameLegs(paper, live, dp, dl, onPaper, onVenue);
    ClosesAgree(paper, live, onPaper, onVenue, p.orderOk, x, y, n);
    OpensAgree(paper, live, onPaper, onVenue, p.swapOk, p.orderOk,
               AfterCloses(paper, onPaper, p.orderOk, x, n), AfterCloses(live, onVenue, p.orderOk, y, n), n);
  }

  /** With equal tables and a database that does the same on both sides, the tables stay equal too. */
  lemma PaperTickWritesIdealLive(paper: Config, live: Config, dp: Desk, dl: Desk, onPaper: TickInput,
                                 onVenue: TickInput)
    requires PaperTwin(paper, live) && SameTick(onPaper, onVenue) && IdealVenues(onVenue)
             && SameWrites(onPaper, onVenue)
    requires dp.open == dl.open && dp.positions == dl.positions
    ensures Tick(paper, dp, onPaper).positions == Tick(live, dl, onVenue).positions
  {
    var n, book, p := |onPaper.decision.orders|, Book(dp.open, dp.positions), Legs(paper, dp, onPaper);
    SameLegs(paper, live, dp, dl, onPaper, onVenue);
    CloseWritesAgree(paper, live, onPaper, onVenue, p.orderOk, book, n);
    OpenWritesAgree(paper, live, onPaper, onVenue, p.swapOk, p.orderOk, AfterCloses(paper, onPaper, p.orderOk, book, n),
                    n);
  }

  lemma PaperTickIsSilent(paper: Config, d: Desk, inp: TickInput)
    requires paper.paper && inp.Valid()
    ensures Tick(paper, d, inp).calls == d.calls
  {
    PaperCallsNothing(PlanOf(paper, d.open, inp), Untouched(d), |inp.decision.orders|);
  }

  /** The same decisions at the same times, on ideal venues on the live side. */
  ghost predicate TwinRuns(onPaper: seq<TickInput>, onVenue: seq<TickInput>) {
    && ValidRun(onPaper) && ValidRun(onVenue) && |onPaper| == |onVenue|
    && forall i | 0 <= i < |onPaper| :: SameTick(onPaper[i], onVenue[i]) && IdealVenues(onVenue[i])
  }

  /** Over any run, paper passes through the open sets of an ideal live run and calls no venue. */
  lemma {:induction false} PaperRunMatchesIdealLive(paper: Config, live: Config, dp: Desk, dl: Desk,
                                                    onPaper: seq<TickInput>, onVenue: seq<TickInput>)
    requires PaperTwin(paper, live) && TwinRuns(onPaper, onVenue) && dp.open == dl.open
    ensures Run(paper, dp, onPaper).open == Run(live, dl, onVenue).open
    ensures Run(paper, dp, onPaper).calls == dp.calls
  {
    if onPaper != [] {
      var n := |onPaper| - 1;
      PaperRunMatchesIdealLive(paper, live, dp, dl, onPaper[..n], onVenue[..n]);
      var p, l := Run(paper, dp, onPaper[..n]), Run(live, dl, onVenue[..n]);
      PaperTickMatchesIdealLive(paper, live, p, l, onPaper[n], onVenue[n]);
      PaperTickIsSilent(paper, p, onPaper[n]);
    }
  }

  /** And through the same tables, if they start equal and the database does the same on both sides. */
  lemma {:induction false} PaperRunWritesIdealLive(paper: Config, live: Config, dp: Desk, dl: Desk,
                                                   onPaper: seq<TickInput>, onVenue: seq<TickInput>)
    requires PaperTwin(paper, live) && TwinRuns(onPaper, onVenue) && dp.open == dl.open && dp.positions == dl.positions
    requires forall i | 0 <= i < |onPaper| :: SameWrites(onPaper[i], onVenue[i])
    ensures Run(paper, dp, onPaper).positions == Run(live, dl, onVenue).positions
  {
    if onPaper != [] {
      var n := |onPaper| - 1;
      PaperRunMatchesIdealLive(paper, live, dp, dl, onPaper[..n], onVenue[..n]);
      PaperRunWritesIdealLive(paper, live, dp, dl, onPaper[..n], onVenue[..n]);
      PaperTickWritesIdealLive(paper, live, Run(paper, dp, onPaper[..n]), Run(live, dl, onVenue[..n]), onPaper[n],
                               onVenue[n]);
    }
  }
}
