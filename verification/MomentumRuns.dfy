/** The momentum strategy over whole runs: its windows, its held set, and the shape of its intents. */
module MomentumRuns {
  import opened Decimals
  import opened Momentum

  datatype State = State(history: History, held: Held)

  /** A run: a market per tick, the state before the first and after each tick, and what each tick said. */
  datatype Run = Run(markets: seq<Market>, states: seq<State>, intents: seq<seq<Intent>>)

  ghost predicate Happened(cfg: Config, run: Run) {
    && |run.states| == |run.markets| + 1 && |run.intents| == |run.markets|
    && run.states[0] == State(map[], map[])
    && forall i | 0 <= i < |run.markets| ::
         Decided(cfg, run.states[i].history, run.states[i].held, run.markets[i],
                 run.states[i + 1].history, run.states[i + 1].held, run.intents[i])
  }

  /* ----- windows ----- */

  /** The usable prices quoted for a subnet, oldest first. */
  function Seen(markets: seq<Market>, n: Netuid): seq<real> {
    if markets == [] then [] else
      var before, last := Seen(markets[..|markets| - 1], n), markets[|markets| - 1];
      if Quoted(last, n) then before + [last[n].Mid()] else before
  }

  lemma WindowSlides(s: seq<real>, x: real, w: int)
    requires w >= 0
    ensures LastN(LastN(s, w) + [x], w) == LastN(s + [x], w)
  {
  }

  /** After any number of ticks a window holds exactly the latest prices seen, as many as fit. */
  lemma {:induction false} WindowsHoldLatestPrices(cfg: Config, run: Run, k: nat, n: Netuid)
    requires Happened(cfg, run) && Distinct(cfg.universe) && k <= |run.markets| && cfg.windowTicks >= 0
    ensures Prices(run.states[k].history, n) ==
              if n in cfg.universe then LastN(Seen(run.markets[..k], n), cfg.windowTicks) else []
  {
    if k > 0 {
      WindowsHoldLatestPrices(cfg, run, k - 1, n);
      assert run.markets[..k][..k - 1] == run.markets[..k - 1];
      var h, market := run.states[k - 1].history, run.markets[k - 1];
      assert Decided(cfg, h, run.states[k - 1].held, market, run.states[k].history, run.states[k].held,
                     run.intents[k - 1]);
      RecordedOnce(cfg, market, h, cfg.universe, n);
      if Quoted(market, n) {
        WindowSlides(Seen(run.markets[..k - 1], n), market[n].Mid(), cfg.windowTicks);
      }
    }
  }

  /** After every tick the held subnets are a top set of the current scores. */
  lemma HeldIsTopSet(cfg: Config, run: Run, k: nat)
    requires Happened(cfg, run) && Distinct(cfg.universe) && 0 < k <= |run.markets|
    ensures IsTopSet(cfg, run.states[k].history, run.states[k].held.Keys)
  {
    assert Decided(cfg, run.states[k - 1].history, run.states[k - 1].held, run.markets[k - 1],
                   run.states[k].history, run.states[k].held, run.intents[k - 1]);
  }

  /* ----- what one tick says about one subnet ----- */

  lemma {:induction false} OfConcat(a: seq<Intent>, b: seq<Intent>, n: Netuid)
    ensures Of(a + b, n) == Of(a, n) + Of(b, n)
  {
    if b == [] {
      assert a + b == a;
    } else {
      assert (a + b)[..|a + b| - 1] == a + b[..|b| - 1];
      OfConcat(a, b[..|b| - 1], n);
    }
  }

  ghost predicate NoRepeat(names: seq<Netuid>) {
    forall i, j | 0 <= i < j < |names| :: names[i] != names[j]
  }

  function Members(names: seq<Netuid>): set<Netuid> {
    set n | n in names
  }

  lemma MembersGrow(names: seq<Netuid>)
    requires names != []
    ensures Members(names) == Members(names[..|names| - 1]) + {names[|names| - 1]}
  {
    var init, last := names[..|names| - 1], names[|names| - 1];
    assert names == init + [last];
    forall n ensures n in Members(names) <==> n in Members(init) + {last} {
      assert n in names <==> n in init || n == last;
    }
  }

  lemma {:induction false} MembersCount(names: seq<Netuid>)
    ensures |Members(names)| <= |names|
    ensures |Members(names)| == |names| ==> NoRepeat(names)
  {
    if names != [] {
      var init, last := names[..|names| - 1], names[|names| - 1];
      MembersCount(init);
      MembersGrow(names);
      if |Members(names)| == |names| {
        assert last !in Members(init);
        forall i, j | 0 <= i < j < |names| ensures names[i] != names[j] {
          assert names[i] == init[i] && init[i] in init;
          assert init[i] in Members(init);
        }
      }
    }
  }

  lemma ListingHasNoRepeat(names: seq<Netuid>, members: set<Netuid>)
    requires Lists(names, members)
    ensures NoRepeat(names)
  {
    assert members == Members(names);
    MembersCount(names);
  }

  lemma {:induction false} OfExitList(was: Held, names: seq<Netuid>, n: Netuid)
    requires (forall m <- names :: m in was) && NoRepeat(names)
    ensures Of(ExitList(was, names), n) == if n in names then [Exit(n, was[n].alphaHeld)] else []
  {
    if names != [] {
      var init := names[..|names| - 1];
      assert ExitList(was, names)[..|names| - 1] == ExitList(was, init);
      OfExitList(was, init, n);
    }
  }

  lemma {:induction false} OfEnterList(cfg: Config, names: seq<Netuid>, n: Netuid)
    requires NoRepeat(names)
    ensures Of(EnterList(cfg, names), n) == if n in names then [Enter(n, cfg.taoPerPosition)] else []
  {
    if names != [] {
      var init := names[..|names| - 1];
      assert EnterList(cfg, names)[..|names| - 1] == EnterList(cfg, init);
      OfEnterList(cfg, init, n);
    }
  }

  /** Each tick says at most one thing about a subnet: sell what is held, or buy what joined. */
  lemma OneIntentPerSubnet(cfg: Config, was: Held, target: set<Netuid>, sold: seq<Netuid>, bought: seq<Netuid>,
                           intents: seq<Intent>, n: Netuid)
    requires SellsThenBuys(cfg, was, target, sold, bought, intents)
    ensures Of(intents, n) == IntentsFor(cfg, was, target, n)
  {
    ListingHasNoRepeat(sold, Sold(was, target));
    ListingHasNoRepeat(bought, target - was.Keys);
    OfExitList(was, sold, n);
    OfEnterList(cfg, bought, n);
    OfConcat(ExitList(was, sold), EnterList(cfg, bought), n);
  }

  /* ----- the intents of one subnet over a run ----- */

  datatype Logged = Logged(at: nat, intent: Intent)

  ghost function Marked(intents: seq<Intent>, at: nat): seq<Logged> {
    seq(|intents|, i requires 0 <= i < |intents| => Logged(at, intents[i]))
  }

  /** Everything said about a subnet in the first k ticks, with the tick it was said in. */
  ghost function LogOf(run: Run, n: Netuid, k: nat): seq<Logged>
    requires k <= |run.intents|
  {
    if k == 0 then [] else LogOf(run, n, k - 1) + Marked(Of(run.intents[k - 1], n), k - 1)
  }

  /** The size booked by an entry in tick i: the stake divided by the latest price of that tick. */
  ghost function Booked(cfg: Config, run: Run, n: Netuid): nat -> real {
    (i: nat) => if i + 1 < |run.states| then SizeAt(cfg, LastPrice(run.states[i + 1].history, n)) else 0.0
  }

  /**
   An entry is followed by a sale of exactly what it booked, or, if it booked nothing, by another entry;
   a sale by an entry.
   */
  ghost predicate Follows(booked: nat -> real, a: Logged, b: Logged) {
    if a.intent.Exit? || booked(a.at) == 0.0 then b.intent.Enter?
    else b.intent.Exit? && b.intent.amount == booked(a.at)
  }

  ghost predicate Chained(booked: nat -> real, log: seq<Logged>) {
    && (log != [] ==> log[0].intent.Enter?)
    && forall r | 0 <= r < |log| - 1 :: Follows(booked, log[r], log[r + 1])
  }

  /**
   How the last intent agrees with what is held: a booked entry is still there, anything else is gone or
   was nothing.
   */
  ghost predicate TailMatches(booked: nat -> real, log: seq<Logged>, n: Netuid, held: Held) {
    if n in held then
      log != [] && log[|log| - 1].intent.Enter? && held[n].alphaHeld == booked(log[|log| - 1].at)
    else
      log == [] || log[|log| - 1].intent.Exit? || booked(log[|log| - 1].at) == 0.0
  }

  lemma ChainGrows(booked: nat -> real, log: seq<Logged>, x: Logged)
    requires Chained(booked, log)
    requires if log == [] then x.intent.Enter? else Follows(booked, log[|log| - 1], x)
    ensures Chained(booked, log + [x])
  {
  }

  /** One tick, seen from one subnet. */
  lemma TickExtendsChain(cfg: Config, booked: nat -> real, log: seq<Logged>, n: Netuid, was: Held, held: Held, k: nat)
    requires Chained(booked, log) && TailMatches(booked, log, n, was)
    requires n in held ==> held[n].alphaHeld == if n in was then was[n].alphaHeld else booked(k)
    ensures var more := log + Marked(IntentsFor(cfg, was, held.Keys, n), k);
            Chained(booked, more) && TailMatches(booked, more, n, held)
  {
    var said := IntentsFor(cfg, was, held.Keys, n);
    if said == [] {
      assert log + Marked(said, k) == log;
    } else {
      assert Marked(said, k) == [Logged(k, said[0])];
      ChainGrows(booked, log, Logged(k, said[0]));
    }
  }

  lemma TickSaysAndHolds(cfg: Config, run: Run, n: Netuid, k: nat)
    requires Happened(cfg, run) && k < |run.markets|
    ensures var was, held := run.states[k].held, run.states[k + 1].held;
            && Of(run.intents[k], n) == IntentsFor(cfg, was, held.Keys, n)
            && (n in held ==> held[n].alphaHeld == if n in was then was[n].alphaHeld else Booked(cfg, run, n)(k))
  {
    var was, held := run.states[k].held, run.states[k + 1].held;
    assert Decided(cfg, run.states[k].history, was, run.markets[k], run.states[k + 1].history, held, run.intents[k]);
    var sold, bought :| SellsThenBuys(cfg, was, held.Keys, sold, bought, run.intents[k]);
    OneIntentPerSubnet(cfg, was, held.Keys, sold, bought, run.intents[k], n);
  }

  /** Every tick of the run says and holds, of one subnet, what the rotation prescribes. */
  ghost predicate TicksFollow(cfg: Config, booked: nat -> real, run: Run, n: Netuid) {
    && |run.states| == |run.intents| + 1 && run.states[0].held == map[]
    && forall k: nat | k < |run.intents| :: TickFollows(cfg, booked, run, n, k)
  }

  ghost predicate TickFollows(cfg: Config, booked: nat -> real, run: Run, n: Netuid, k: nat)
    requires k < |run.intents| < |run.states|
  {
    var was, held := run.states[k].held, run.states[k + 1].held;
    && Of(run.intents[k], n) == IntentsFor(cfg, was, held.Keys, n)
    && (n in held ==> held[n].alphaHeld == if n in was then was[n].alphaHeld else booked(k))
  }

  lemma {:induction false} FollowingFormsChain(cfg: Config, booked: nat -> real, run: Run, n: Netuid, k: nat)
    requires TicksFollow(cfg, booked, run, n) && k <= |run.intents|
    ensures Chained(booked, LogOf(run, n, k)) && TailMatches(booked, LogOf(run, n, k), n, run.states[k].held)
  {
    if k > 0 {
      FollowingFormsChain(cfg, booked, run, n, k - 1);
      assert TickFollows(cfg, booked, run, n, k - 1);
      TickExtendsChain(cfg, booked, LogOf(run, n, k - 1), n, run.states[k - 1].held, run.states[k].held, k - 1);
    }
  }

  /**
   In every run the intents of a subnet form a chain: it is entered first, each entry that booked
   something is followed by a sale of exactly that amount, and only an entry that booked nothing can
   be followed by another entry.
   */
  lemma IntentsFormChain(cfg: Config, run: Run, n: Netuid, k: nat)
    requires Happened(cfg, run) && k <= |run.markets|
    ensures Chained(Booked(cfg, run, n), LogOf(run, n, k))
    ensures TailMatches(Booked(cfg, run, n), LogOf(run, n, k), n, run.states[k].held)
  {
    forall i: nat | i < |run.intents| ensures TickFollows(cfg, Booked(cfg, run, n), run, n, i) {
      TickSaysAndHolds(cfg, run, n, i);
    }
    FollowingFormsChain(cfg, Booked(cfg, run, n), run, n, k);
  }

  ghost predicate Alternates(log: seq<Logged>) {
    && (log != [] ==> log[0].intent.Enter?)
    && forall r | 0 <= r < |log| - 1 :: log[r].intent.Enter? <==> log[r + 1].intent.Exit?
  }

  lemma ChainAlternatesExactly(booked: nat -> real, log: seq<Logged>)
    requires Chained(booked, log)
    ensures Alternates(log) <==>
              forall r | 0 <= r < |log| - 1 && log[r].intent.Enter? :: booked(log[r].at) != 0.0
  {
    if Alternates(log) {
      forall r | 0 <= r < |log| - 1 && log[r].intent.Enter? ensures booked(log[r].at) != 0.0 {
        assert Follows(booked, log[r], log[r + 1]);
      }
    }
    if forall r | 0 <= r < |log| - 1 && log[r].intent.Enter? :: booked(log[r].at) != 0.0 {
      forall r | 0 <= r < |log| - 1 ensures log[r].intent.Enter? <==> log[r + 1].intent.Exit? {
        assert Follows(booked, log[r], log[r + 1]);
      }
    }
  }

  /** A price at which the stake buys less than half of the last decimal place kept. */
  predicate TooDear(cfg: Config, price: real) {
    price == 0.0 || Abs(cfg.taoPerPosition) < HALF_ULP * Abs(price)
  }

  lemma RoundsToZeroExactly(x: real)
    ensures Round16(x) == 0.0 <==> Abs(x) < HALF_ULP
  {
    var scaled := x * SCALE;
    assert Round16(x) == 0.0 <==> RoundHalfAway(scaled) == 0;
    assert RoundHalfAway(scaled) == 0 <==> -0.5 < scaled < 0.5;
  }

  lemma ProductAbs(q: real, b: real)
    requires b != 0.0
    ensures Abs(q) < HALF_ULP <==> Abs(q * b) < HALF_ULP * Abs(b)
  {
    AbsOfProduct(q, b);
    ScaledOrder(Abs(q), HALF_ULP, Abs(b));
  }

  lemma QuotientAbs(a: real, b: real)
    requires b != 0.0
    ensures Abs(a / b) < HALF_ULP <==> Abs(a) < HALF_ULP * Abs(b)
  {
    var q := a / b;
    ProductAbs(q, b);
    assert q * b == a;
  }

  lemma AbsOfProduct(x: real, y: real)
    ensures Abs(x * y) == Abs(x) * Abs(y)
  {
    if x >= 0.0 && y >= 0.0 { assert x * y >= 0.0; }
    else if x >= 0.0 { assert x * -y >= 0.0; }
    else if y >= 0.0 { assert -x * y >= 0.0; }
    else { assert -x * -y > 0.0; }
  }

  lemma SizeIsZeroExactly(cfg: Config, price: real)
    ensures SizeAt(cfg, price) == 0.0 <==> TooDear(cfg, price)
  {
    if price != 0.0 {
      RoundsToZeroExactly(cfg.taoPerPosition / price);
      QuotientAbs(cfg.taoPerPosition, price);
    }
  }

  /** The price a subnet is booked at when it is entered in tick i. */
  ghost function EntryPrice(run: Run, n: Netuid, i: nat): real
    requires i + 1 < |run.states|
  {
    LastPrice(run.states[i + 1].history, n)
  }

  lemma {:induction false} LoggedInTick(run: Run, n: Netuid, k: nat, r: nat)
    requires k <= |run.intents| && r < |LogOf(run, n, k)|
    ensures var x := LogOf(run, n, k)[r]; x.at < k && x.intent in Of(run.intents[x.at], n)
  {
    if k > 0 {
      if r < |LogOf(run, n, k - 1)| {
        LoggedInTick(run, n, k - 1, r);
      } else {
        var said := Of(run.intents[k - 1], n);
        assert LogOf(run, n, k)[r] == Marked(said, k - 1)[r - |LogOf(run, n, k - 1)|];
      }
    }
  }

  /**
   Intents alternate strictly, entry first, exactly when no entry but the last was made at a price too
   dear for the stake.
   */
  lemma AlternationExact(cfg: Config, run: Run, n: Netuid, k: nat)
    requires Happened(cfg, run) && k <= |run.markets|
    ensures Alternates(LogOf(run, n, k)) <==>
              forall r | 0 <= r < |LogOf(run, n, k)| - 1 && LogOf(run, n, k)[r].intent.Enter? ::
                LogOf(run, n, k)[r].at + 1 < |run.states| && !TooDear(cfg, EntryPrice(run, n, LogOf(run, n, k)[r].at))
  {
    var log := LogOf(run, n, k);
    IntentsFormChain(cfg, run, n, k);
    ChainAlternatesExactly(Booked(cfg, run, n), log);
    forall r | 0 <= r < |log| - 1 && log[r].intent.Enter?
      ensures log[r].at + 1 < |run.states|
              && (Booked(cfg, run, n)(log[r].at) == 0.0 <==> TooDear(cfg, EntryPrice(run, n, log[r].at)))
    {
      LoggedInTick(run, n, k, r);
      SizeIsZeroExactly(cfg, EntryPrice(run, n, log[r].at));
    }
  }

  /** No usable quote of the subnet is too dear. */
  ghost predicate Affordable(cfg: Config, markets: seq<Market>, n: Netuid) {
    forall market: Market <- markets :: Quoted(market, n) ==> !TooDear(cfg, market[n].Mid())
  }

  ghost predicate AllFine(cfg: Config, prices: seq<real>) {
    forall price <- prices :: !TooDear(cfg, price)
  }

  lemma LastNKeepsFine(cfg: Config, prices: seq<real>, price: real, w: nat)
    requires AllFine(cfg, prices) && !TooDear(cfg, price)
    ensures AllFine(cfg, LastN(prices + [price], w))
  {
    forall x | x in LastN(prices + [price], w) ensures !TooDear(cfg, x) {
      assert x in prices + [price];
    }
  }

  lemma {:induction false} RecordedStaysFine(cfg: Config, market: Market, h: History, universe: seq<Netuid>, n: Netuid)
    requires cfg.windowTicks >= 0 && AllFine(cfg, Prices(h, n))
             && (Quoted(market, n) ==> !TooDear(cfg, market[n].Mid()))
    ensures AllFine(cfg, Prices(Recorded(cfg, market, h, universe), n))
  {
    if universe != [] {
      var init, last := universe[..|universe| - 1], universe[|universe| - 1];
      RecordedStaysFine(cfg, market, h, init, n);
      if last == n && Quoted(market, n) {
        LastNKeepsFine(cfg, Prices(Recorded(cfg, market, h, init), n), market[n].Mid(), cfg.windowTicks);
      }
    }
  }

  lemma {:induction false} WindowsStayFine(cfg: Config, run: Run, n: Netuid, k: nat)
    requires Happened(cfg, run) && k <= |run.markets| && Affordable(cfg, run.markets, n)
    ensures AllFine(cfg, Prices(run.states[k].history, n))
  {
    if k > 0 {
      WindowsStayFine(cfg, run, n, k - 1);
      var h, market := run.states[k - 1].history, run.markets[k - 1];
      assert Decided(cfg, h, run.states[k - 1].held, market, run.states[k].history, run.states[k].held,
                     run.intents[k - 1]);
      assert market in run.markets;
      RecordedStaysFine(cfg, market, h, cfg.universe, n);
    }
  }

  lemma HeldIsScored(cfg: Config, run: Run, n: Netuid, i: nat)
    requires Happened(cfg, run) && i < |run.markets| && n in run.states[i + 1].held
    ensures Scorable(Prices(run.states[i + 1].history, n))
  {
    assert Decided(cfg, run.states[i].history, run.states[i].held, run.markets[i],
                   run.states[i + 1].history, run.states[i + 1].held, run.intents[i]);
    assert n in run.states[i + 1].held.Keys;
    assert IsScored(cfg, run.states[i + 1].history, n);
  }

  /** The price of a subnet that is held after a tick comes from its window. */
  lemma HeldAtWindowPrice(cfg: Config, run: Run, n: Netuid, i: nat)
    requires Happened(cfg, run) && i < |run.markets| && n in run.states[i + 1].held
    ensures EntryPrice(run, n, i) in Prices(run.states[i + 1].history, n)
  {
    HeldIsScored(cfg, run, n, i);
    var prices := Prices(run.states[i + 1].history, n);
    assert EntryPrice(run, n, i) == prices[|prices| - 1];
  }

  lemma EnteredIsHeld(cfg: Config, run: Run, n: Netuid, i: nat)
    requires Happened(cfg, run) && i < |run.markets| && exists x :: x in Of(run.intents[i], n) && x.Enter?
    ensures n in run.states[i + 1].held
  {
    TickSaysAndHolds(cfg, run, n, i);
  }

  lemma EnteredAtFinePrice(cfg: Config, run: Run, n: Netuid, i: nat)
    requires Happened(cfg, run) && i < |run.markets| && Affordable(cfg, run.markets, n)
    requires exists x :: x in Of(run.intents[i], n) && x.Enter?
    ensures !TooDear(cfg, EntryPrice(run, n, i))
  {
    EnteredIsHeld(cfg, run, n, i);
    HeldAtWindowPrice(cfg, run, n, i);
    WindowsStayFine(cfg, run, n, i + 1);
  }

  lemma LoggedAtFinePrice(cfg: Config, run: Run, n: Netuid, k: nat, r: nat)
    requires Happened(cfg, run) && k <= |run.markets| && Affordable(cfg, run.markets, n)
    requires r < |LogOf(run, n, k)| && LogOf(run, n, k)[r].intent.Enter?
    ensures var at := LogOf(run, n, k)[r].at; at + 1 < |run.states| && !TooDear(cfg, EntryPrice(run, n, at))
  {
    LoggedInTick(run, n, k, r);
    EnteredAtFinePrice(cfg, run, n, LogOf(run, n, k)[r].at);
  }

  /** So in every run whose quotes the stake can afford, the intents of a subnet alternate. */
  lemma AffordableAlternates(cfg: Config, run: Run, n: Netuid, k: nat)
    requires Happened(cfg, run) && k <= |run.markets| && Affordable(cfg, run.markets, n)
    ensures Alternates(LogOf(run, n, k))
  {
    var log := LogOf(run, n, k);
    AlternationExact(cfg, run, n, k);
    forall r | 0 <= r < |log| - 1 && log[r].intent.Enter?
      ensures log[r].at + 1 < |run.states| && !TooDear(cfg, EntryPrice(run, n, log[r].at))
    {
      LoggedAtFinePrice(cfg, run, n, k, r);
    }
  }

  /* ----- capital at work ----- */

  function EntriesSoFar(intents: seq<seq<Intent>>): nat {
    if intents == [] then 0 else EntriesSoFar(intents[..|intents| - 1]) + Entries(intents[|intents| - 1])
  }

  function ExitsSoFar(intents: seq<seq<Intent>>): nat {
    if intents == [] then 0 else ExitsSoFar(intents[..|intents| - 1]) + Exits(intents[|intents| - 1])
  }

  lemma {:induction false} CountConcat(a: seq<Intent>, b: seq<Intent>)
    ensures Entries(a + b) == Entries(a) + Entries(b) && Exits(a + b) == Exits(a) + Exits(b)
  {
    if b == [] {
      assert a + b == a;
    } else {
      assert (a + b)[..|a + b| - 1] == a + b[..|b| - 1];
      CountConcat(a, b[..|b| - 1]);
    }
  }

  lemma {:induction false} CountExitList(was: Held, names: seq<Netuid>)
    requires forall m <- names :: m in was
    ensures Entries(ExitList(was, names)) == 0 && Exits(ExitList(was, names)) == |names|
  {
    if names != [] {
      assert ExitList(was, names)[..|names| - 1] == ExitList(was, names[..|names| - 1]);
      CountExitList(was, names[..|names| - 1]);
    }
  }

  lemma {:induction false} CountEnterList(cfg: Config, names: seq<Netuid>)
    ensures Entries(EnterList(cfg, names)) == |names| && Exits(EnterList(cfg, names)) == 0
  {
    if names != [] {
      assert EnterList(cfg, names)[..|names| - 1] == EnterList(cfg, names[..|names| - 1]);
      CountEnterList(cfg, names[..|names| - 1]);
    }
  }

  /** Positions that leave the held set without a word, because the size they booked was zero. */
  ghost function Dropped(was: Held, target: set<Netuid>): set<Netuid> {
    set n | n in was && n !in target && was[n].alphaHeld == 0.0
  }

  ghost function DropsSoFar(run: Run, k: nat): nat
    requires k < |run.states|
  {
    if k == 0 then 0
    else DropsSoFar(run, k - 1) + |Dropped(run.states[k - 1].held, run.states[k].held.Keys)|
  }

  lemma IntentsCounted(cfg: Config, was: Held, sold: seq<Netuid>, bought: seq<Netuid>)
    requires forall m <- sold :: m in was
    ensures Entries(ExitList(was, sold) + EnterList(cfg, bought)) == |bought|
    ensures Exits(ExitList(was, sold) + EnterList(cfg, bought)) == |sold|
  {
    CountExitList(was, sold);
    CountEnterList(cfg, bought);
    CountConcat(ExitList(was, sold), EnterList(cfg, bought));
  }

  lemma LeaversSplit(was: Held, target: set<Netuid>)
    ensures |was.Keys - target| == |Sold(was, target)| + |Dropped(was, target)|
  {
    assert was.Keys - target == Sold(was, target) + Dropped(was, target);
  }

  lemma ExchangeCounts(before: set<Netuid>, after: set<Netuid>)
    ensures |before| + |after - before| == |after| + |before - after|
  {
    assert before == (before - after) + (before * after);
    assert after == (after - before) + (before * after);
  }

  lemma TickBalances(cfg: Config, was: Held, target: set<Netuid>, intents: seq<Intent>, sold: seq<Netuid>,
                     bought: seq<Netuid>)
    requires SellsThenBuys(cfg, was, target, sold, bought, intents)
    ensures |was.Keys| + Entries(intents) == |target| + Exits(intents) + |Dropped(was, target)|
  {
    IntentsCounted(cfg, was, sold, bought);
    LeaversSplit(was, target);
    ExchangeCounts(was.Keys, target);
  }

  lemma RunTickBalances(cfg: Config, run: Run, k: nat)
    requires Happened(cfg, run) && k < |run.markets|
    ensures var was, held := run.states[k].held, run.states[k + 1].held;
            |was.Keys| + Entries(run.intents[k]) == |held.Keys| + Exits(run.intents[k]) + |Dropped(was, held.Keys)|
  {
    var was, held := run.states[k].held, run.states[k + 1].held;
    assert Decided(cfg, run.states[k].history, was, run.markets[k], run.states[k + 1].history, held, run.intents[k]);
    var sold, bought :| SellsThenBuys(cfg, was, held.Keys, sold, bought, run.intents[k]);
    TickBalances(cfg, was, held.Keys, run.intents[k], sold, bought);
  }

  lemma CountsGrow(intents: seq<seq<Intent>>, k: nat)
    requires k < |intents|
    ensures EntriesSoFar(intents[..k + 1]) == EntriesSoFar(intents[..k]) + Entries(intents[k])
    ensures ExitsSoFar(intents[..k + 1]) == ExitsSoFar(intents[..k]) + Exits(intents[k])
  {
    assert intents[..k + 1][..k] == intents[..k];
  }

  ghost predicate TickBalanced(run: Run, k: nat)
    requires k < |run.intents| < |run.states|
  {
    |run.states[k].held.Keys| + Entries(run.intents[k])
      == |run.states[k + 1].held.Keys| + Exits(run.intents[k])
          + |Dropped(run.states[k].held, run.states[k + 1].held.Keys)|
  }

  lemma {:induction false} BalancedSoFar(run: Run, k: nat)
    requires |run.states| == |run.intents| + 1 && k <= |run.intents| && run.states[0].held == map[]
    requires forall i: nat | i < |run.intents| :: TickBalanced(run, i)
    ensures EntriesSoFar(run.intents[..k]) - ExitsSoFar(run.intents[..k])
            == |run.states[k].held.Keys| + DropsSoFar(run, k)
  {
    if k > 0 {
      BalancedSoFar(run, k - 1);
      CountsGrow(run.intents, k - 1);
      assert TickBalanced(run, k - 1);
    }
  }

  /** In every run, entries less exits count the held positions and the ones dropped without a sale. */
  lemma EntriesBalance(cfg: Config, run: Run, k: nat)
    requires Happened(cfg, run) && k <= |run.markets|
    ensures EntriesSoFar(run.intents[..k]) - ExitsSoFar(run.intents[..k])
            == |run.states[k].held.Keys| + DropsSoFar(run, k)
  {
    forall i: nat | i < |run.intents| ensures TickBalanced(run, i) {
      RunTickBalances(cfg, run, i);
    }
    BalancedSoFar(run, k);
  }

  /** After any tick no more than TopK positions are held. */
  lemma HeldIsCapped(cfg: Config, run: Run, k: nat)
    requires Happened(cfg, run) && k <= |run.markets|
    ensures |run.states[k].held.Keys| <= Cap(cfg)
  {
    if k > 0 {
      assert Decided(cfg, run.states[k - 1].history, run.states[k - 1].held, run.markets[k - 1],
                     run.states[k].history, run.states[k].held, run.intents[k - 1]);
    }
  }

  ghost predicate AllBooked(held: Held) {
    forall n <- held :: held[n].alphaHeld != 0.0
  }

  /** Every position booked something. */
  ghost predicate NothingRoundsToZero(run: Run) {
    forall state <- run.states :: AllBooked(state.held)
  }

  lemma {:induction false} NothingDropped(run: Run, k: nat)
    requires NothingRoundsToZero(run) && k < |run.states|
    ensures DropsSoFar(run, k) == 0
  {
    if k > 0 {
      NothingDropped(run, k - 1);
      assert AllBooked(run.states[k - 1].held);
      assert Dropped(run.states[k - 1].held, run.states[k].held.Keys) == {};
    }
  }

  lemma Stakes(atWork: int, cap: nat, stake: real)
    requires 0 <= atWork <= cap && stake >= 0.0
    ensures 0.0 <= atWork as real * stake <= cap as real * stake
  {
    assert (cap - atWork) as real * stake >= 0.0;
  }

  function AtWork(intents: seq<seq<Intent>>): int {
    EntriesSoFar(intents) - ExitsSoFar(intents)
  }

  lemma AtWorkIsCapped(cfg: Config, run: Run, k: nat)
    requires Happened(cfg, run) && NothingRoundsToZero(run) && k <= |run.markets|
    ensures 0 <= AtWork(run.intents[..k]) <= Cap(cfg)
  {
    EntriesBalance(cfg, run, k);
    HeldIsCapped(cfg, run, k);
    NothingDropped(run, k);
  }

  /** While no size rounds to zero, the stake at work never exceeds TopK stakes. */
  lemma StakeIsBounded(cfg: Config, run: Run, k: nat)
    requires Happened(cfg, run) && NothingRoundsToZero(run) && k <= |run.markets| && cfg.taoPerPosition >= 0.0
    ensures 0.0 <= AtWork(run.intents[..k]) as real * cfg.taoPerPosition <= Cap(cfg) as real * cfg.taoPerPosition
  {
    AtWorkIsCapped(cfg, run, k);
    Stakes(AtWork(run.intents[..k]), Cap(cfg), cfg.taoPerPosition);
  }

  /* ----- a condition on the quotes alone ----- */

  /** No usable quote of any subnet is too dear. */
  ghost predicate AllAffordable(cfg: Config, markets: seq<Market>) {
    forall n :: Affordable(cfg, markets, n)
  }

  lemma NewlyBooked(cfg: Config, run: Run, n: Netuid, i: nat)
    requires Happened(cfg, run) && i < |run.markets| && Affordable(cfg, run.markets, n)
    requires n in run.states[i + 1].held && n !in run.states[i].held
    ensures run.states[i + 1].held[n].alphaHeld != 0.0
  {
    TickSaysAndHolds(cfg, run, n, i);
    HeldAtWindowPrice(cfg, run, n, i);
    WindowsStayFine(cfg, run, n, i + 1);
    SizeIsZeroExactly(cfg, EntryPrice(run, n, i));
  }

  lemma StaysBooked(cfg: Config, run: Run, n: Netuid, i: nat)
    requires Happened(cfg, run) && i < |run.markets| && n in run.states[i].held && n in run.states[i + 1].held
    ensures run.states[i + 1].held[n].alphaHeld == run.states[i].held[n].alphaHeld
  {
    TickSaysAndHolds(cfg, run, n, i);
  }

  lemma BookedAfter(cfg: Config, run: Run, n: Netuid, i: nat)
    requires Happened(cfg, run) && i < |run.markets| && AllAffordable(cfg, run.markets) && AllBooked(run.states[i].held)
    requires n in run.states[i + 1].held
    ensures run.states[i + 1].held[n].alphaHeld != 0.0
  {
    if n in run.states[i].held {
      StaysBooked(cfg, run, n, i);
    } else {
      assert Affordable(cfg, run.markets, n);
      NewlyBooked(cfg, run, n, i);
    }
  }

  lemma {:induction false} AffordableBooks(cfg: Config, run: Run, k: nat)
    requires Happened(cfg, run) && AllAffordable(cfg, run.markets) && k < |run.states|
    ensures AllBooked(run.states[k].held)
  {
    if k > 0 {
      AffordableBooks(cfg, run, k - 1);
      forall n | n in run.states[k].held ensures run.states[k].held[n].alphaHeld != 0.0 {
        BookedAfter(cfg, run, n, k - 1);
      }
    }
  }

  /** In every run whose quotes the stake can afford, the stake at work never exceeds TopK stakes. */
  lemma AffordableStakeIsBounded(cfg: Config, run: Run, k: nat)
    requires Happened(cfg, run) && AllAffordable(cfg, run.markets) && k <= |run.markets| && cfg.taoPerPosition >= 0.0
    ensures 0.0 <= AtWork(run.intents[..k]) as real * cfg.taoPerPosition <= Cap(cfg) as real * cfg.taoPerPosition
  {
    forall state | state in run.states ensures AllBooked(state.held) {
      var i: nat :| i < |run.states| && run.states[i] == state;
      AffordableBooks(cfg, run, i);
    }
    StakeIsBounded(cfg, run, k);
  }
}
