/** The momentum rotation: a sliding window of prices per subnet and a held set that follows the top scores. */
module Momentum {
  import opened Decimals

  type Netuid = nat

  /** `toFloat` stands for the conversion of a decimal score to a 64-bit float. */
  datatype Config = Config(
    universe: seq<Netuid>, windowTicks: int, topK: int, exitThreshold: real,
    taoPerPosition: real, toFloat: real -> real)

  /** The top of the book for one subnet. */
  datatype Tick = Tick(bid: real, ask: real, last: real) {
    function Mid(): real {
      if bid != 0.0 && ask != 0.0 then Div(bid + ask, 2.0) else last
    }
  }

  type Market = map<Netuid, Tick>

  datatype Position = Position(alphaHeld: real, entryPrice: real)

  datatype Intent = Enter(netuid: Netuid, amount: real) | Exit(netuid: Netuid, amount: real)

  type History = map<Netuid, seq<real>>
  type Held = map<Netuid, Position>

  /* ----- the price window ----- */

  /** The last w values. */
  function LastN(s: seq<real>, w: int): seq<real>
    requires w >= 0
  {
    if |s| > w then s[|s| - w..] else s
  }

  function Prices(h: History, n: Netuid): seq<real> {
    if n in h then h[n] else []
  }

  /** A usable price is quoted for the subnet. */
  predicate Quoted(market: Market, n: Netuid) {
    n in market && market[n].Mid() != 0.0
  }

  function Recorded(cfg: Config, market: Market, h: History, universe: seq<Netuid>): History
    requires cfg.windowTicks >= 0
  {
    if universe == [] then h else
      var before, n := Recorded(cfg, market, h, universe[..|universe| - 1]), universe[|universe| - 1];
      if !Quoted(market, n) then before
      else before[n := LastN(Prices(before, n) + [market[n].Mid()], cfg.windowTicks)]
  }

  ghost predicate Distinct(universe: seq<Netuid>) {
    forall i, j | 0 <= i < j < |universe| :: universe[i] != universe[j]
  }

  /** With a distinct universe each quoted subnet's window moves on by exactly one price. */
  lemma {:induction false} RecordedOnce(cfg: Config, market: Market, h: History, universe: seq<Netuid>, n: Netuid)
    requires cfg.windowTicks >= 0 && Distinct(universe)
    ensures Prices(Recorded(cfg, market, h, universe), n) ==
              if n in universe && Quoted(market, n) then LastN(Prices(h, n) + [market[n].Mid()], cfg.windowTicks)
              else Prices(h, n)
  {
    if universe != [] {
      var init, last := universe[..|universe| - 1], universe[|universe| - 1];
      assert universe == init + [last];
      RecordedOnce(cfg, market, h, init, n);
    }
  }

  /* ----- scores ----- */

  predicate Scorable(prices: seq<real>) {
    |prices| >= 2 && prices[0] != 0.0
  }

  /** The relative change over the window. */
  function Score(cfg: Config, prices: seq<real>): real
    requires Scorable(prices)
  {
    cfg.toFloat(Div(prices[|prices| - 1] - prices[0], prices[0]))
  }

  datatype Scored = Scored(netuid: Netuid, momentum: real)

  ghost predicate IsScored(cfg: Config, h: History, n: Netuid) {
    n in cfg.universe && Scorable(Prices(h, n))
  }

  /* ----- the target ----- */

  function Cap(cfg: Config): nat {
    if cfg.topK < 0 then 0 else cfg.topK
  }

  /** At most TopK scored subnets, all above the threshold. */
  ghost predicate WithinTarget(cfg: Config, h: History, target: set<Netuid>) {
    |target| <= Cap(cfg) && forall n <- target :: IsScored(cfg, h, n) && Score(cfg, Prices(h, n)) > cfg.exitThreshold
  }

  /** A scored subnet is left out only at or below the threshold, or for a full target of scores no worse. */
  ghost predicate NothingBetterOutside(cfg: Config, h: History, target: set<Netuid>) {
    forall m | IsScored(cfg, h, m) && m !in target ::
      Score(cfg, Prices(h, m)) <= cfg.exitThreshold ||
      (|target| == Cap(cfg) && forall n <- target | IsScored(cfg, h, n) ::
         Score(cfg, Prices(h, m)) <= Score(cfg, Prices(h, n)))
  }

  ghost predicate IsTopSet(cfg: Config, h: History, target: set<Netuid>) {
    WithinTarget(cfg, h, target) && NothingBetterOutside(cfg, h, target)
  }

  /* ----- one decision ----- */

  /** The intents of one subnet, in order. */
  function Of(intents: seq<Intent>, n: Netuid): seq<Intent> {
    if intents == [] then [] else
      var rest, last := Of(intents[..|intents| - 1], n), intents[|intents| - 1];
      if last.netuid == n then rest + [last] else rest
  }

  function Entries(intents: seq<Intent>): nat {
    if intents == [] then 0 else Entries(intents[..|intents| - 1]) + (if intents[|intents| - 1].Enter? then 1 else 0)
  }

  function Exits(intents: seq<Intent>): nat {
    if intents == [] then 0 else Exits(intents[..|intents| - 1]) + (if intents[|intents| - 1].Exit? then 1 else 0)
  }

  /** The size an entry at the subnet's latest price is booked with. */
  function SizeAt(cfg: Config, price: real): real {
    if price == 0.0 then 0.0 else Div(cfg.taoPerPosition, price)
  }

  function LastPrice(h: History, n: Netuid): real {
    var p := Prices(h, n);
    if p == [] then 0.0 else p[|p| - 1]
  }

  function NewPosition(cfg: Config, h: History, n: Netuid): Position {
    Position(SizeAt(cfg, LastPrice(h, n)), LastPrice(h, n))
  }

  /** Held positions that leave the target with something to sell. */
  ghost function Sold(was: Held, target: set<Netuid>): set<Netuid> {
    set n | n in was && n !in target && was[n].alphaHeld != 0.0
  }

  /** What one decision says about one subnet: at most one intent, and which. */
  function IntentsFor(cfg: Config, was: Held, target: set<Netuid>, n: Netuid): seq<Intent> {
    if n in was && n !in target && was[n].alphaHeld != 0.0 then [Exit(n, was[n].alphaHeld)]
    else if n !in was && n in target then [Enter(n, cfg.taoPerPosition)]
    else []
  }

  ghost function Rotated(cfg: Config, h: History, was: Held, target: set<Netuid>): Held {
    map n <- target :: if n in was then was[n] else NewPosition(cfg, h, n)
  }

  /** The sequence lists the set, each member once. */
  ghost predicate Lists(listing: seq<Netuid>, members: set<Netuid>) {
    |listing| == |members| && forall n :: n in listing <==> n in members
  }

  function ExitList(was: Held, names: seq<Netuid>): seq<Intent>
    requires forall n <- names :: n in was
  {
    seq(|names|, i requires 0 <= i < |names| => assert names[i] in names; Exit(names[i], was[names[i]].alphaHeld))
  }

  function EnterList(cfg: Config, names: seq<Netuid>): seq<Intent> {
    seq(|names|, i requires 0 <= i < |names| => Enter(names[i], cfg.taoPerPosition))
  }

  /** First every sale, then every purchase, each subnet once. */
  ghost predicate SellsThenBuys(cfg: Config, was: Held, target: set<Netuid>, sold: seq<Netuid>, bought: seq<Netuid>,
                                intents: seq<Intent>) {
    && Lists(sold, Sold(was, target)) && Lists(bought, target - was.Keys)
    && intents == ExitList(was, sold) + EnterList(cfg, bought)
  }

  /** Everything a decision is allowed to do. */
  ghost predicate Decided(cfg: Config, h: History, was: Held, market: Market, h': History, held: Held,
                          intents: seq<Intent>) {
    && cfg.windowTicks >= 0
    && h' == Recorded(cfg, market, h, cfg.universe)
    && WithinTarget(cfg, h', held.Keys)
    && (Distinct(cfg.universe) ==> NothingBetterOutside(cfg, h', held.Keys))
    && held == Rotated(cfg, h', was, held.Keys)
    && exists sold, bought :: SellsThenBuys(cfg, was, held.Keys, sold, bought, intents)
  }

  /* ----- the strategy object ----- */

  ghost predicate Descending(scores: seq<Scored>) {
    forall i, j | 0 <= i < j < |scores| :: scores[i].momentum >= scores[j].momentum
  }

  ghost predicate NamesDiffer(scores: seq<Scored>) {
    forall i, j | 0 <= i < j < |scores| :: scores[i].netuid != scores[j].netuid
  }

  /** The scores list every scored subnet with its score, and nothing else. */
  ghost predicate ListsScores(cfg: Config, h: History, scores: seq<Scored>) {
    && (forall s <- scores :: IsScored(cfg, h, s.netuid) && s.momentum == Score(cfg, Prices(h, s.netuid)))
    && (forall n | IsScored(cfg, h, n) :: exists i :: 0 <= i < |scores| && scores[i].netuid == n)
  }

  function Names(scores: seq<Scored>): set<Netuid> {
    set s <- scores :: s.netuid
  }

  /** The first m scores are the target: as many as the cap, the list and the threshold allow. */
  ghost predicate TakesTop(cfg: Config, scores: seq<Scored>, m: nat, target: set<Netuid>) {
    && m <= |scores| && m <= Cap(cfg) && target == Names(scores[..m])
    && (forall i | 0 <= i < m :: scores[i].momentum > cfg.exitThreshold)
    && (m == |scores| || m == Cap(cfg) || scores[m].momentum <= cfg.exitThreshold)
  }

  lemma {:induction false} NamesSize(scores: seq<Scored>)
    ensures |Names(scores)| <= |scores|
    ensures NamesDiffer(scores) ==> |Names(scores)| == |scores|
  {
    if scores != [] {
      var init, last := scores[..|scores| - 1], scores[|scores| - 1];
      NamesSize(init);
      assert scores == init + [last];
      assert Names(scores) == Names(init) + {last.netuid};
    }
  }

  /** A score outside the target sits behind the first m. */
  lemma OutsideIsBehind(cfg: Config, h: History, scores: seq<Scored>, m: nat, target: set<Netuid>, x: Netuid)
    returns (j: nat)
    requires ListsScores(cfg, h, scores) && TakesTop(cfg, scores, m, target)
    requires IsScored(cfg, h, x) && x !in target
    ensures m <= j < |scores| && scores[j].momentum == Score(cfg, Prices(h, x))
  {
    j :| 0 <= j < |scores| && scores[j].netuid == x;
    assert scores[j] in scores;
    assert forall i | 0 <= i < m :: scores[..m][i] in scores[..m] && scores[..m][i] == scores[i];
  }

  lemma InsideIsAhead(cfg: Config, h: History, scores: seq<Scored>, m: nat, target: set<Netuid>, n: Netuid)
    returns (i: nat)
    requires ListsScores(cfg, h, scores) && TakesTop(cfg, scores, m, target) && n in target
    ensures i < m && IsScored(cfg, h, n) && scores[i].momentum == Score(cfg, Prices(h, n))
  {
    i :| 0 <= i < m && scores[i].netuid == n;
    assert scores[i] in scores;
  }

  lemma TopIsWithinTarget(cfg: Config, h: History, scores: seq<Scored>, m: nat, target: set<Netuid>)
    requires ListsScores(cfg, h, scores) && TakesTop(cfg, scores, m, target)
    ensures WithinTarget(cfg, h, target)
  {
    NamesSize(scores[..m]);
    forall n | n in target ensures IsScored(cfg, h, n) && Score(cfg, Prices(h, n)) > cfg.exitThreshold {
      var i := InsideIsAhead(cfg, h, scores, m, target, n);
    }
  }

  lemma TopLeavesNothingBetter(cfg: Config, h: History, scores: seq<Scored>, m: nat, target: set<Netuid>)
    requires ListsScores(cfg, h, scores) && TakesTop(cfg, scores, m, target) && Descending(scores)
             && NamesDiffer(scores)
    ensures NothingBetterOutside(cfg, h, target)
  {
    NamesSize(scores[..m]);
    forall x | IsScored(cfg, h, x) && x !in target && Score(cfg, Prices(h, x)) > cfg.exitThreshold
      ensures |target| == Cap(cfg)
      ensures forall n <- target | IsScored(cfg, h, n) :: Score(cfg, Prices(h, x)) <= Score(cfg, Prices(h, n))
    {
      var j := OutsideIsBehind(cfg, h, scores, m, target, x);
      forall n | n in target ensures Score(cfg, Prices(h, x)) <= Score(cfg, Prices(h, n)) {
        var i := InsideIsAhead(cfg, h, scores, m, target, n);
      }
    }
  }

  /** Inserts behind every score that is not smaller. */
  method InsertScore(sorted: seq<Scored>, s: Scored) returns (longer: seq<Scored>, ghost at: nat)
    requires Descending(sorted)
    ensures at <= |sorted| && longer == sorted[..at] + [s] + sorted[at..]
    ensures Descending(longer)
  {
    var j := |sorted|;
    while j > 0 && sorted[j - 1].momentum < s.momentum
      invariant 0 <= j <= |sorted|
      invariant forall k | j <= k < |sorted| :: sorted[k].momentum < s.momentum
    {
      j := j - 1;
    }
    at := j;
    longer := sorted[..j] + [s] + sorted[j..];
    InsertedIsDescending(sorted, j, s);
  }

  lemma InsertedIsDescending(sorted: seq<Scored>, j: nat, s: Scored)
    requires Descending(sorted) && j <= |sorted|
    requires j > 0 ==> sorted[j - 1].momentum >= s.momentum
    requires forall k | j <= k < |sorted| :: sorted[k].momentum < s.momentum
    ensures Descending(sorted[..j] + [s] + sorted[j..])
  {
    var longer := sorted[..j] + [s] + sorted[j..];
    forall k | 0 <= k < |longer|
      ensures longer[k] == if k < j then sorted[k] else if k == j then s else sorted[k - 1]
    {
    }
  }

  /** Some descending order of the scores; equal scores may come out in any order. */
  method SortScores(scores: seq<Scored>) returns (sorted: seq<Scored>)
    ensures Descending(sorted) && multiset(sorted) == multiset(scores)
  {
    sorted := [];
    for i := 0 to |scores|
      invariant Descending(sorted) && multiset(sorted) == multiset(scores[..i])
    {
      ghost var was := sorted;
      ghost var at;
      assert scores[..i + 1] == scores[..i] + [scores[i]];
      sorted, at := InsertScore(sorted, scores[i]);
      assert was == was[..at] + was[at..];
    }
    assert scores[..|scores|] == scores;
  }

  lemma SortingKeepsListing(cfg: Config, h: History, a: seq<Scored>, b: seq<Scored>)
    requires multiset(a) == multiset(b) && ListsScores(cfg, h, a)
    ensures ListsScores(cfg, h, b)
  {
    forall s | s in b ensures s in a { assert s in multiset(b); }
    forall n | IsScored(cfg, h, n) ensures exists i :: 0 <= i < |b| && b[i].netuid == n {
      var i :| 0 <= i < |a| && a[i].netuid == n;
      assert a[i] in multiset(b);
      assert a[i] in b;
    }
  }

  lemma SortingKeepsNamesApart(a: seq<Scored>, b: seq<Scored>)
    requires multiset(a) == multiset(b) && NamesDiffer(a)
    ensures NamesDiffer(b)
  {
    forall i, j | 0 <= i < j < |b| ensures b[i].netuid != b[j].netuid {
      assert b[i] in multiset(a) && b[j] in multiset(a);
      if b[i] == b[j] {
        assert multiset(b)[b[i]] >= 2 by {
          assert b == b[..i] + [b[i]] + b[i + 1..j] + [b[j]] + b[j + 1..];
        }
        NoRepeats(a, b[i]);
      }
    }
  }

  lemma {:induction false} NoRepeats(a: seq<Scored>, s: Scored)
    requires NamesDiffer(a)
    ensures multiset(a)[s] <= 1
  {
    if a != [] {
      var init, last := a[..|a| - 1], a[|a| - 1];
      assert a == init + [last];
      NoRepeats(init, s);
      if s == last { assert s !in init; }
    }
  }

  class Strategy {
    const cfg: Config
    var history: History
    var held: Held

    constructor (cfg: Config)
      ensures this.cfg == cfg && history == map[] && held == map[]
    {
      this.cfg := cfg;
      history, held := map[], map[];
    }

    /** Appends each quoted price to its window. */
    method RecordPrices(market: Market)
      requires cfg.windowTicks >= 0
      modifies this`history
      ensures history == Recorded(cfg, market, old(history), cfg.universe)
    {
      for i := 0 to |cfg.universe|
        invariant history == Recorded(cfg, market, old(history), cfg.universe[..i])
      {
        assert cfg.universe[..i + 1][..i] == cfg.universe[..i];
        var n := cfg.universe[i];
        if n !in market { continue; }
        var price := market[n].Mid();
        if price == 0.0 { continue; }
        var hist := if n in history then history[n] else [];
        hist := hist + [price];
        if |hist| > cfg.windowTicks { hist := hist[|hist| - cfg.windowTicks..]; }
        history := history[n := hist];
      }
      assert cfg.universe[..|cfg.universe|] == cfg.universe;
    }

    method ComputeScores() returns (scores: seq<Scored>)
      ensures ListsScores(cfg, history, scores)
      ensures Distinct(cfg.universe) ==> NamesDiffer(scores)
    {
      scores := [];
      for i := 0 to |cfg.universe|
        invariant forall s <- scores ::
                    IsScored(cfg, history, s.netuid) && s.momentum == Score(cfg, Prices(history, s.netuid))
        invariant forall j | 0 <= j < i && IsScored(cfg, history, cfg.universe[j]) ::
                    exists r :: 0 <= r < |scores| && scores[r].netuid == cfg.universe[j]
        invariant forall s <- scores :: s.netuid in cfg.universe[..i]
        invariant Distinct(cfg.universe) ==> NamesDiffer(scores)
      {
        var n := cfg.universe[i];
        var hist := if n in history then history[n] else [];
        ghost var was := scores;
        if |hist| >= 2 && hist[0] != 0.0 {
          scores := scores + [Scored(n, cfg.toFloat(Div(hist[|hist| - 1] - hist[0], hist[0])))];
          assert scores[|was|].netuid == n;
          forall j | 0 <= j < i && IsScored(cfg, history, cfg.universe[j])
            ensures exists r :: 0 <= r < |scores| && scores[r].netuid == cfg.universe[j]
          {
            var r :| 0 <= r < |was| && was[r].netuid == cfg.universe[j];
            assert scores[r] == was[r];
          }
        }
      }
    }

    method BuildTarget(scores: seq<Scored>) returns (target: set<Netuid>, ghost m: nat)
      ensures TakesTop(cfg, scores, m, target)
    {
      target, m := {}, 0;
      var i := 0;
      while i < cfg.topK && i < |scores|
        invariant 0 <= i <= |scores| && i <= Cap(cfg) && m == i
        invariant target == Names(scores[..i])
        invariant forall j | 0 <= j < i :: scores[j].momentum > cfg.exitThreshold
      {
        if scores[i].momentum <= cfg.exitThreshold { break; }
        assert scores[..i + 1] == scores[..i] + [scores[i]];
        target := target + {scores[i].netuid};
        i := i + 1;
        m := i;
      }
    }

    /** Drops one held subnet, selling it if there is anything to sell. */
    method ExitOne(n: Netuid, intents: seq<Intent>) returns (more: seq<Intent>)
      requires n in held
      modifies this`held
      ensures held == old(held) - {n}
      ensures more == if old(held)[n].alphaHeld == 0.0 then intents else intents + [Exit(n, old(held)[n].alphaHeld)]
    {
      var pos := held[n];
      held := held - {n};
      if pos.alphaHeld == 0.0 { return intents; }
      more := intents + [Exit(n, pos.alphaHeld)];
    }

    /** Sells every held subnet that left the target, in whatever order the map yields them. */
    method ExitOthers(target: set<Netuid>) returns (intents: seq<Intent>, ghost sold: seq<Netuid>)
      modifies this`held
      ensures held == Kept(old(held), target)
      ensures Lists(sold, Sold(old(held), target)) && intents == ExitList(old(held), sold)
    {
      intents, sold := [], [];
      var rest := held.Keys;
      while rest != {}
        invariant rest <= old(held).Keys
        invariant held == Kept(old(held), target + rest)
        invariant Lists(sold, Sold(old(held), target + rest)) && intents == ExitList(old(held), sold)
        decreases rest
      {
        var n :| n in rest;
        KeepOneLess(old(held), target, rest, n, sold);
        rest := rest - {n};
        if n in target { continue; }
        if old(held)[n].alphaHeld != 0.0 { sold := sold + [n]; }
        intents := ExitOne(n, intents);
      }
      assert target + rest == target;
    }

    /** Buys every target subnet that is not held, best score first. */
    method EnterTarget(scores: seq<Scored>, target: set<Netuid>) returns (intents: seq<Intent>)
      modifies this`held
      ensures held == Entered(cfg, history, old(held), target, scores).held
      ensures intents == Entered(cfg, history, old(held), target, scores).intents
    {
      intents := [];
      for i := 0 to |scores|
        invariant Purchase(held, intents) == Entered(cfg, history, old(held), target, scores[..i])
      {
        assert scores[..i + 1][..i] == scores[..i];
        var n := scores[i].netuid;
        if n !in target { continue; }
        if n in held { continue; }
        var hist := if n in history then history[n] else [];
        var entryPrice := if |hist| > 0 then hist[|hist| - 1] else 0.0;
        var estimatedAlpha := if entryPrice == 0.0 then 0.0 else Div(cfg.taoPerPosition, entryPrice);
        intents := intents + [Enter(n, cfg.taoPerPosition)];
        held := held[n := Position(estimatedAlpha, entryPrice)];
      }
      assert scores[..|scores|] == scores;
    }

    /** Scores the universe, sorts, and takes the top. */
    method PickTarget() returns (scores: seq<Scored>, target: set<Netuid>)
      ensures WithinTarget(cfg, history, target) && target <= Names(scores)
      ensures Distinct(cfg.universe) ==> NothingBetterOutside(cfg, history, target)
    {
      var unsorted := ComputeScores();
      scores := SortScores(unsorted);
      SortingKeepsListing(cfg, history, unsorted, scores);
      ghost var m;
      target, m := BuildTarget(scores);
      TopIsWithinTarget(cfg, history, scores, m, target);
      if Distinct(cfg.universe) {
        SortingKeepsNamesApart(unsorted, scores);
        TopLeavesNothingBetter(cfg, history, scores, m, target);
      }
    }

    /** Sells what left the target, then buys what joined it. */
    method Trade(scores: seq<Scored>, target: set<Netuid>)
      returns (intents: seq<Intent>, ghost sold: seq<Netuid>, ghost bought: seq<Netuid>)
      requires target <= Names(scores)
      modifies this`held
      ensures held == Rotated(cfg, history, old(held), target)
      ensures SellsThenBuys(cfg, old(held), target, sold, bought, intents)
    {
      var exits;
      exits, sold := ExitOthers(target);
      bought := EnteredIsRotated(cfg, history, old(held), target, scores);
      CoverTarget(target, old(held).Keys, scores);
      var entries := EnterTarget(scores, target);
      intents := exits + entries;
    }

    /** Record, score, sort, pick the target, sell what left it, buy what joined it. */
    method Decide(market: Market) returns (intents: seq<Intent>)
      requires cfg.windowTicks >= 0
      modifies this
      ensures Decided(cfg, old(history), old(held), market, history, held, intents)
    {
      RecordPrices(market);
      var scores, target := PickTarget();
      ghost var sold, bought;
      intents, sold, bought := Trade(scores, target);
      assert held.Keys == target;
    }
  }

  /** What remains held of the given keys. */
  function Kept(was: Held, keys: set<Netuid>): Held {
    map n <- was | n in keys :: was[n]
  }

  lemma ListsOneMore(listing: seq<Netuid>, members: set<Netuid>, n: Netuid)
    requires Lists(listing, members) && n !in members
    ensures Lists(listing + [n], members + {n})
  {
  }

  lemma KeepOneLess(was: Held, target: set<Netuid>, rest: set<Netuid>, n: Netuid, sold: seq<Netuid>)
    requires n in rest && n in was && Lists(sold, Sold(was, target + rest))
    ensures var keys := target + (rest - {n});
            && Kept(was, keys) == (if n in target then Kept(was, target + rest) else Kept(was, target + rest) - {n})
            && Lists(if n in target || was[n].alphaHeld == 0.0 then sold else sold + [n], Sold(was, keys))
  {
    var keys := target + (rest - {n});
    if n in target {
      assert keys == target + rest;
    } else {
      assert keys == (target + rest) - {n};
      SoldGrows(was, target + rest, n);
      if was[n].alphaHeld != 0.0 { ListsOneMore(sold, Sold(was, target + rest), n); }
    }
  }

  lemma SoldGrows(was: Held, keys: set<Netuid>, n: Netuid)
    requires n in was && n in keys
    ensures Sold(was, keys - {n}) == if was[n].alphaHeld == 0.0 then Sold(was, keys) else Sold(was, keys) + {n}
  {
  }

  lemma RotatedGrows(cfg: Config, h: History, was: Held, done: set<Netuid>, n: Netuid)
    requires n !in was
    ensures Rotated(cfg, h, was, done)[n := NewPosition(cfg, h, n)] == Rotated(cfg, h, was, done + {n})
  {
  }

  /** A target subnet not yet dealt with was not held before the tick. */
  lemma NewcomerWasNotHeld(was: Held, target: set<Netuid>, done: set<Netuid>, n: Netuid)
    requires target * was.Keys <= done && n in target && n !in done
    ensures n !in was && (done + {n}) - was.Keys == (done - was.Keys) + {n}
  {
    assert n in was ==> n in target * was.Keys;
  }

  /** Dealing with one more score: what EnterOne does keeps the list of purchases and the held map in step. */
  lemma BuyOneMore(cfg: Config, h: History, was: Held, target: set<Netuid>, done: set<Netuid>, bought: seq<Netuid>,
                   n: Netuid)
    requires target * was.Keys <= done && Lists(bought, done - was.Keys)
    ensures var held := Rotated(cfg, h, was, done);
            var more := if n in target then done + {n} else done;
            && (if n in target && n !in held then held[n := NewPosition(cfg, h, n)] else held)
                 == Rotated(cfg, h, was, more)
            && Lists(if n in target && n !in done then bought + [n] else bought, more - was.Keys)
  {
    if n in target && n !in done {
      NewcomerWasNotHeld(was, target, done, n);
      RotatedGrows(cfg, h, was, done, n);
      ListsOneMore(bought, done - was.Keys, n);
    } else if n in target {
      assert done + {n} == done;
    }
  }

  lemma EnterListGrows(cfg: Config, bought: seq<Netuid>, n: Netuid)
    ensures EnterList(cfg, bought + [n]) == EnterList(cfg, bought) + [Enter(n, cfg.taoPerPosition)]
  {
  }

  lemma KeptIsRotated(cfg: Config, h: History, was: Held, target: set<Netuid>)
    ensures Kept(was, target) == Rotated(cfg, h, was, target * was.Keys)
  {
  }

  lemma CoverTarget(target: set<Netuid>, keys: set<Netuid>, scores: seq<Scored>)
    requires target <= Names(scores)
    ensures target * (keys + Names(scores)) == target
  {
  }

  /** The held map and the purchases after walking the scores. */
  datatype Purchase = Purchase(held: Held, intents: seq<Intent>)

  function BuyNext(cfg: Config, h: History, target: set<Netuid>, p: Purchase, n: Netuid): Purchase {
    if n !in target || n in p.held then p
    else Purchase(p.held[n := NewPosition(cfg, h, n)], p.intents + [Enter(n, cfg.taoPerPosition)])
  }

  function Entered(cfg: Config, h: History, held: Held, target: set<Netuid>, scores: seq<Scored>): Purchase {
    if scores == [] then Purchase(held, [])
    else BuyNext(cfg, h, target, Entered(cfg, h, held, target, scores[..|scores| - 1]), scores[|scores| - 1].netuid)
  }

  /** The subnets in `done` are held as they should be, and `bought` lists those bought for it. */
  ghost predicate BoughtSoFar(cfg: Config, h: History, was: Held, done: set<Netuid>, p: Purchase, bought: seq<Netuid>) {
    p.held == Rotated(cfg, h, was, done) && Lists(bought, done - was.Keys) && p.intents == EnterList(cfg, bought)
  }

  lemma BuyNextKeeps(cfg: Config, h: History, was: Held, target: set<Netuid>, done: set<Netuid>, p: Purchase,
                     bought: seq<Netuid>, n: Netuid)
    requires target * was.Keys <= done && BoughtSoFar(cfg, h, was, done, p, bought)
    ensures BoughtSoFar(cfg, h, was, if n in target then done + {n} else done, BuyNext(cfg, h, target, p, n),
                        if n in target && n !in done then bought + [n] else bought)
  {
    BuyOneMore(cfg, h, was, target, done, bought, n);
    EnterListGrows(cfg, bought, n);
  }

  lemma CoverageGrows(target: set<Netuid>, keys: set<Netuid>, scores: seq<Scored>)
    requires scores != []
    ensures var i := |scores| - 1; var n, done := scores[i].netuid, target * (keys + Names(scores[..i]));
            target * (keys + Names(scores)) == (if n in target then done + {n} else done) && target * keys <= done
  {
    NamesGrow(scores, |scores| - 1);
    assert scores[..|scores|] == scores;
  }

  lemma NothingBoughtYet(cfg: Config, h: History, was: Held, target: set<Netuid>)
    ensures BoughtSoFar(cfg, h, was, target * (was.Keys + Names([])), Entered(cfg, h, Kept(was, target), target, []),
                        [])
  {
    KeptIsRotated(cfg, h, was, target);
    assert target * (was.Keys + Names([])) == target * was.Keys;
    assert target * was.Keys - was.Keys == {};
  }

  /** Walking the scores buys exactly the target subnets among them that were not held. */
  lemma {:induction false} EnteredIsRotated(cfg: Config, h: History, was: Held, target: set<Netuid>,
                                            scores: seq<Scored>)
    returns (bought: seq<Netuid>)
    ensures BoughtSoFar(cfg, h, was, target * (was.Keys + Names(scores)),
                        Entered(cfg, h, Kept(was, target), target, scores), bought)
  {
    if scores == [] {
      bought := [];
      NothingBoughtYet(cfg, h, was, target);
    } else {
      var i := |scores| - 1;
      var before := EnteredIsRotated(cfg, h, was, target, scores[..i]);
      var n, done := scores[i].netuid, target * (was.Keys + Names(scores[..i]));
      CoverageGrows(target, was.Keys, scores);
      BuyNextKeeps(cfg, h, was, target, done, Entered(cfg, h, Kept(was, target), target, scores[..i]), before, n);
      bought := if n in target && n !in done then before + [n] else before;
    }
  }

  lemma NamesGrow(scores: seq<Scored>, i: nat)
    requires i < |scores|
    ensures Names(scores[..i + 1]) == Names(scores[..i]) + {scores[i].netuid}
  {
    assert scores[..i + 1] == scores[..i] + [scores[i]];
  }
}
