/** The dollar-cost-averaging strategy: at most one purchase per cooldown. */
module DcaBuy {
  import opened Wrappers
  import opened Integers
  import opened Types
  import opened Texts

  const SECOND: int := 1_000_000_000

  /** Instants are nanoseconds since the zero time, so the zero time is 0. */
  const ZERO_TIME: Time := 0

  /** A difference of two instants sticks to the ends of the 64-bit range. */
  function Since(now: Time, last: Time): Int64 {
    var d := now - last;
    if d < MIN_INT64 then MIN_INT64 else if d > MAX_INT64 then MAX_INT64 else d
  }

  datatype Config = Config(asset: string, chain: string, usdcPerTick: real, intervalSecs: Int64, slippageBps: int) {
    function Defaulted(): Config {
      Config(
        if asset == "" then "SOL" else asset,
        if chain == "" then "solana" else chain,
        if usdcPerTick == 0.0 then 50.0 else usdcPerTick,
        if intervalSecs == 0 then 4 * 60 * 60 else intervalSecs,
        if slippageBps == 0 then 50 else slippageBps)
    }

    predicate Valid() {
      usdcPerTick > 0.0 && 0 <= intervalSecs && 0 <= slippageBps <= 1000
    }

    function Cooldown(): Int64 {
      Wrap64(intervalSecs * SECOND)
    }

    function Purchase(usdc: Asset): SwapIntent {
      SwapIntent(chain, usdc, Asset(ToUpper(asset), chain, ""), usdcPerTick, slippageBps, "", "dca:" + ToUpper(asset))
    }
  }

  /** The dollar token of the chains the registry knows. */
  function UsdcAsset(chain: string): Option<Asset> {
    if chain == "solana" then Some(Asset("USDC", chain, "EPjFWdd5AufqSSqeM2qN1xzybapC8G4wEGGkZwyTDt1v"))
    else if chain == "ethereum" then Some(Asset("USDC", chain, "0xA0b86991c6218b36c1d19D4a2e9Eb0cE3606eB48"))
    else if chain == "base" then Some(Asset("USDC", chain, "0x833589fCD6eDb6E08f4c7C32D4f71b54bdA02913"))
    else if chain == "avalanche" then Some(Asset("USDC", chain, "0xB97EF9Ef8734C71904D8002F8b6Bc66Dd9c48a6E"))
    else if chain == "bsc" then Some(Asset("USDC", chain, "0x8AC76a51cc950d9822D68b83fE1Ad97B32Cd580d"))
    else None
  }

  predicate Cooling(cfg: Config, last: Time, now: Time) {
    last != ZERO_TIME && Since(now, last) < cfg.Cooldown()
  }

  /** What a tick buys. */
  function Bought(cfg: Config, last: Time, now: Time): Option<SwapIntent> {
    var usdc := UsdcAsset(cfg.chain);
    if Cooling(cfg, last, now) || usdc.None? then None else Some(cfg.Purchase(usdc.value))
  }

  function LastBuy(cfg: Config, last: Time, now: Time): Time {
    if Bought(cfg, last, now).Some? then now else last
  }

  class Strategy {
    const cfg: Config
    var lastBuyAt: Time

    constructor (cfg: Config)
      ensures this.cfg == cfg && lastBuyAt == ZERO_TIME
    {
      this.cfg := cfg;
      lastBuyAt := ZERO_TIME;
    }

    method Decide(now: Time) returns (swaps: seq<SwapIntent>)
      modifies `lastBuyAt
      ensures match Bought(cfg, old(lastBuyAt), now)
              case None => swaps == []
              case Some(swap) => swaps == [swap]
      ensures lastBuyAt == LastBuy(cfg, old(lastBuyAt), now)
    {
      if lastBuyAt != ZERO_TIME && Since(now, lastBuyAt) < cfg.Cooldown() {
        return [];
      }
      var usdc := UsdcAsset(cfg.chain);
      if usdc.None? {
        return [];
      }
      swaps := [cfg.Purchase(usdc.value)];
      lastBuyAt := now;
    }
  }

  /** A configuration is completed and checked before a strategy exists. */
  method NewFromTypedConfig(c: Config) returns (r: Option<Strategy>)
    ensures r.Some? <==> c.Defaulted().Valid()
    ensures r.Some? ==> fresh(r.value) && r.value.cfg == c.Defaulted() && r.value.lastBuyAt == ZERO_TIME
  {
    if c.Defaulted().Valid() {
      var s := new Strategy(c.Defaulted());
      r := Some(s);
    } else {
      r := None;
    }
  }

  /**
   Completing a configuration keeps what is set, and makes the blank one a valid purchase of fifty
   dollars of SOL every four hours.
   */
  lemma DefaultsFillBlanks(c: Config)
    ensures var d := c.Defaulted();
            && (c.asset != "" ==> d.asset == c.asset) && (c.chain != "" ==> d.chain == c.chain)
            && (c.usdcPerTick != 0.0 ==> d.usdcPerTick == c.usdcPerTick)
            && (c.intervalSecs != 0 ==> d.intervalSecs == c.intervalSecs)
            && (c.slippageBps != 0 ==> d.slippageBps == c.slippageBps)
            && d.Defaulted() == d
    ensures var blank := Config("", "", 0.0, 0, 0).Defaulted();
            && blank.Valid() && blank == Config("SOL", "solana", 50.0, 14400, 50)
            && UsdcAsset(blank.chain).Some?
  {
  }

  /** A configuration is valid exactly when its purchases sell something and slip by ten per cent at most. */
  lemma ValidExactly(cfg: Config, usdc: Asset)
    ensures cfg.Valid() <==>
              && cfg.Purchase(usdc).inAmount > 0.0
              && 0 <= cfg.Purchase(usdc).slippageBps * 100 <= 10 * 10000 && cfg.intervalSecs >= 0
  {
  }

  /* ----- whole runs ----- */

  /** The cooldown state after a run of clock readings. */
  function LastAfter(cfg: Config, clock: seq<Time>): Time {
    if clock == [] then ZERO_TIME else
      var before := clock[..|clock| - 1];
      LastBuy(cfg, LastAfter(cfg, before), clock[|clock| - 1])
  }

  /** The readings at which a run bought, in order. */
  function Buys(cfg: Config, clock: seq<Time>): seq<Time> {
    if clock == [] then [] else
      var before, now := clock[..|clock| - 1], clock[|clock| - 1];
      if Bought(cfg, LastAfter(cfg, before), now).Some?
      then Buys(cfg, before) + [now] else Buys(cfg, before)
  }

  /** Clock readings may jump either way but never read the zero time. */
  predicate Readable(clock: seq<Time>) {
    ZERO_TIME !in clock
  }

  predicate Spaced(times: seq<Time>, gap: int) {
    forall i | 0 <= i < |times| - 1 :: times[i + 1] - times[i] >= gap
  }

  lemma SpacedGrows(times: seq<Time>, gap: int, t: Time)
    requires Spaced(times, gap)
    requires times != [] ==> t - times[|times| - 1] >= gap
    ensures Spaced(times + [t], gap)
  {
  }

  lemma CooledDown(cfg: Config, last: Time, now: Time)
    requires cfg.Cooldown() >= 0 && last != ZERO_TIME && Bought(cfg, last, now).Some?
    ensures now - last >= cfg.Cooldown()
  {
  }

  /** The state of the throttle is the time of the last purchase. */
  ghost predicate Remembers(buys: seq<Time>, last: Time) {
    last == (if buys == [] then ZERO_TIME else buys[|buys| - 1]) && ZERO_TIME !in buys
  }

  lemma {:induction false} BuysKeepCooldown(cfg: Config, clock: seq<Time>)
    requires cfg.Cooldown() >= 0 && Readable(clock)
    ensures Spaced(Buys(cfg, clock), cfg.Cooldown())
    ensures Remembers(Buys(cfg, clock), LastAfter(cfg, clock))
  {
    if clock != [] {
      var before, now := clock[..|clock| - 1], clock[|clock| - 1];
      assert now in clock && forall t <- before :: t in clock;
      BuysKeepCooldown(cfg, before);
      var last := LastAfter(cfg, before);
      if Bought(cfg, last, now).Some? {
        if last != ZERO_TIME {
          CooledDown(cfg, last, now);
        }
        SpacedGrows(Buys(cfg, before), cfg.Cooldown(), now);
      }
    }
  }

  /** Purchases respect the configured interval, in every run, from any clock. */
  ghost predicate KeepsInterval(cfg: Config) {
    forall clock: seq<Time> | Readable(clock) :: Spaced(Buys(cfg, clock), cfg.intervalSecs * SECOND)
  }

  /** The longest interval whose nanoseconds fit a 64-bit duration. */
  const LONGEST_INTERVAL_SECS: int := MAX_INT64 / SECOND

  /**
   The throttle is exact: a tick buys if and only if the chain has a dollar token and either nothing was
   bought yet or a cooldown has passed, however long ago that was.
   */
  lemma BuysExactly(cfg: Config, last: Time, now: Time)
    requires cfg.Cooldown() >= 0
    ensures Bought(cfg, last, now).Some? <==>
              UsdcAsset(cfg.chain).Some? && (last == ZERO_TIME || now - last >= cfg.Cooldown())
    ensures LastBuy(cfg, last, now) == if Bought(cfg, last, now).Some? then now else last
  {
  }

  /** A clock that reads twice, the second time just as the cooldown ends. */
  lemma TwoReadings(cfg: Config, gap: int)
    requires UsdcAsset(cfg.chain).Some? && cfg.Cooldown() <= gap && 0 <= gap <= MAX_INT64
    ensures Buys(cfg, [1, 1 + gap]) == [1, 1 + gap]
  {
    var clock := [1, 1 + gap];
    assert clock[..1] == [1] && clock[..1][..0] == [];
    assert Buys(cfg, [1]) == [] + [1];
    assert LastAfter(cfg, [1]) == 1;
  }

  /** The interval is kept over every run exactly when it fits a 64-bit duration. */
  lemma IntervalKeptExactly(cfg: Config)
    requires cfg.Valid() && UsdcAsset(cfg.chain).Some?
    ensures KeepsInterval(cfg) <==> cfg.intervalSecs <= LONGEST_INTERVAL_SECS
  {
    if cfg.intervalSecs <= LONGEST_INTERVAL_SECS {
      forall clock: seq<Time> | Readable(clock) ensures Spaced(Buys(cfg, clock), cfg.intervalSecs * SECOND) {
        BuysKeepCooldown(cfg, clock);
      }
    } else {
      var gap := if cfg.Cooldown() > 0 then cfg.Cooldown() else 0;
      TwoReadings(cfg, gap);
      assert gap < cfg.intervalSecs * SECOND;
      var buys := Buys(cfg, [1, 1 + gap]);
      assert Readable([1, 1 + gap]);
      assert buys[0 + 1] - buys[0] == gap;
      assert !Spaced(buys, cfg.intervalSecs * SECOND);
    }
  }

  /** A reading of the zero time leaves no trace, and the next tick buys again at once. */
  lemma ZeroReadingDefeatsCooldown(cfg: Config)
    requires 0 < cfg.intervalSecs <= LONGEST_INTERVAL_SECS && UsdcAsset(cfg.chain).Some?
    ensures Buys(cfg, [ZERO_TIME, ZERO_TIME]) == [ZERO_TIME, ZERO_TIME]
    ensures !Spaced(Buys(cfg, [ZERO_TIME, ZERO_TIME]), cfg.Cooldown())
  {
    var clock := [ZERO_TIME, ZERO_TIME];
    assert clock[..1] == [ZERO_TIME] && clock[..1][..0] == [];
    assert Buys(cfg, [ZERO_TIME]) == [] + [ZERO_TIME];
    var buys := Buys(cfg, clock);
    assert buys[0 + 1] - buys[0] == 0;
  }

  /** From a clock with these readings, in whatever order, purchases are always a cooldown apart. */
  ghost predicate SafeReadings(cfg: Config, readings: iset<Time>) {
    forall clock: seq<Time> | (forall t <- clock :: t in readings) :: Spaced(Buys(cfg, clock), cfg.Cooldown())
  }

  /** A set of readings is safe exactly when the zero time is not among them. */
  lemma SafeReadingsExactly(cfg: Config, readings: iset<Time>)
    requires 0 < cfg.intervalSecs <= LONGEST_INTERVAL_SECS && UsdcAsset(cfg.chain).Some?
    ensures SafeReadings(cfg, readings) <==> ZERO_TIME !in readings
  {
    if ZERO_TIME in readings {
      ZeroReadingDefeatsCooldown(cfg);
      assert forall t <- [ZERO_TIME, ZERO_TIME] :: t in readings;
    } else {
      forall clock: seq<Time> | (forall t <- clock :: t in readings) ensures Spaced(Buys(cfg, clock), cfg.Cooldown()) {
        BuysKeepCooldown(cfg, clock);
      }
    }
  }

  /** A run buys anything at all exactly when it ticks and the chain has a dollar token. */
  lemma {:induction false} BuysSomethingExactly(cfg: Config, clock: seq<Time>)
    ensures Buys(cfg, clock) != [] <==> clock != [] && UsdcAsset(cfg.chain).Some?
    ensures Buys(cfg, clock) == [] ==> LastAfter(cfg, clock) == ZERO_TIME
  {
    if clock != [] {
      BuysSomethingExactly(cfg, clock[..|clock| - 1]);
    }
  }

  /** How many of the times fall between two instants, ends included. */
  function Within(times: seq<Time>, from: Time, to: Time): nat {
    if times == [] then 0 else
      Within(times[..|times| - 1], from, to) + if from <= times[|times| - 1] <= to then 1 else 0
  }

  lemma NextGap(n: int, gap: nat)
    ensures n * gap == (n - 1) * gap + gap
  {
  }

  lemma {:induction false} SpacedTimesThin(times: seq<Time>, gap: nat, from: Time, to: Time)
    requires Spaced(times, gap)
    ensures var n := Within(times, from, to);
            n > 0 ==> from + (n - 1) * gap <= to && from + (n - 1) * gap <= times[|times| - 1]
  {
    if times != [] {
      var init := times[..|times| - 1];
      assert Spaced(init, gap);
      SpacedTimesThin(init, gap, from, to);
      NextGap(Within(init, from, to), gap);
      if init != [] {
        assert times[|times| - 2 + 1] - times[|times| - 2] >= gap;
        assert init[|init| - 1] == times[|times| - 2];
      }
    }
  }

  lemma ProductsGrow(a: int, b: int, gap: nat)
    ensures a <= b ==> a * gap <= b * gap
  {
    assert a <= b ==> (b - a) * gap >= 0;
  }

  lemma GapsFit(n: nat, gap: nat, length: nat)
    requires gap > 0 && n * gap <= length
    ensures n <= length / gap
  {
    var q := length / gap;
    ProductsGrow(q + 1, n, gap);
    assert (q + 1) * gap == q * gap + gap;
    assert length < q * gap + gap;
  }

  /** The swaps a run returns, with the times at which it returns them. */
  function Returned(cfg: Config, clock: seq<Time>): seq<(Time, SwapIntent)> {
    if clock == [] then [] else
      var before, now := clock[..|clock| - 1], clock[|clock| - 1];
      match Bought(cfg, LastAfter(cfg, before), now)
      case None => Returned(cfg, before)
      case Some(swap) => Returned(cfg, before) + [(now, swap)]
  }

  /** The swap sells the configured amount of the chain's dollar token for the configured asset, on that chain. */
  predicate SellsDollars(cfg: Config, s: SwapIntent) {
    && s.chain == s.inToken.chain == s.outToken.chain == cfg.chain
    && UsdcAsset(cfg.chain) == Some(s.inToken) && s.inToken.symbol == "USDC" && s.inToken.mint != ""
    && s.outToken.symbol == ToUpper(cfg.asset)
    && s.inAmount == cfg.usdcPerTick && s.slippageBps == cfg.slippageBps && s.basisKey == "dca:" + s.outToken.symbol
  }

  /** A run returns one swap at each of its purchases, and each is such a sale of dollars. */
  lemma {:induction false} ReturnedArePurchases(cfg: Config, clock: seq<Time>)
    ensures var returned, buys := Returned(cfg, clock), Buys(cfg, clock);
            && |returned| == |buys|
            && forall i | 0 <= i < |returned| :: returned[i].0 == buys[i] && SellsDollars(cfg, returned[i].1)
  {
    if clock != [] {
      ReturnedArePurchases(cfg, clock[..|clock| - 1]);
      BoughtSellsDollars(cfg, LastAfter(cfg, clock[..|clock| - 1]), clock[|clock| - 1]);
    }
  }

  lemma BoughtSellsDollars(cfg: Config, last: Time, now: Time)
    ensures Bought(cfg, last, now).Some? ==> SellsDollars(cfg, Bought(cfg, last, now).value)
  {
  }

  /** What swaps sell between two instants, ends included. */
  function SoldWithin(returned: seq<(Time, SwapIntent)>, from: Time, to: Time): real {
    if returned == [] then 0.0 else
      var last := returned[|returned| - 1];
      SoldWithin(returned[..|returned| - 1], from, to) + if from <= last.0 <= to then last.1.inAmount else 0.0
  }

  /** What the swaps a run returns between two instants sell. */
  function Spent(cfg: Config, clock: seq<Time>, from: Time, to: Time): real {
    SoldWithin(Returned(cfg, clock), from, to)
  }

  /** One swap of this amount at each of the times. */
  ghost predicate OneEach(returned: seq<(Time, SwapIntent)>, times: seq<Time>, amount: real) {
    && |returned| == |times|
    && forall i | 0 <= i < |returned| :: returned[i].0 == times[i] && returned[i].1.inAmount == amount
  }

  lemma ReturnedOneEach(cfg: Config, clock: seq<Time>)
    ensures OneEach(Returned(cfg, clock), Buys(cfg, clock), cfg.usdcPerTick)
  {
    ReturnedArePurchases(cfg, clock);
    var returned, buys := Returned(cfg, clock), Buys(cfg, clock);
    forall i | 0 <= i < |returned| ensures returned[i].0 == buys[i] && returned[i].1.inAmount == cfg.usdcPerTick {
      assert SellsDollars(cfg, returned[i].1);
    }
  }

  lemma {:induction false} SoldIsCounted(returned: seq<(Time, SwapIntent)>, times: seq<Time>, amount: real, from: Time,
                                         to: Time)
    requires OneEach(returned, times, amount)
    ensures SoldWithin(returned, from, to) == Within(times, from, to) as real * amount
  {
    if returned != [] {
      var n := |returned| - 1;
      SoldIsCounted(returned[..n], times[..n], amount, from, to);
      OneMoreOf(Within(times[..n], from, to), amount);
    }
  }

  lemma OneMoreOf(n: nat, amount: real)
    ensures (n + 1) as real * amount == n as real * amount + amount
  {
  }

  lemma BuysAreBounded(times: seq<Time>, gap: nat, from: Time, length: nat)
    requires gap > 0 && Spaced(times, gap)
    ensures Within(times, from, from + length) <= length / gap + 1
  {
    var n := Within(times, from, from + length);
    SpacedTimesThin(times, gap, from, from + length);
    if n > 0 {
      GapsFit(n - 1, gap, length);
    }
  }

  /** In every run a window of any length L sees at most L / interval + 1 purchases. */
  lemma WindowIsThrottled(cfg: Config, clock: seq<Time>, from: Time, length: nat)
    requires cfg.Valid() && 0 < cfg.intervalSecs <= LONGEST_INTERVAL_SECS && Readable(clock)
    ensures Within(Buys(cfg, clock), from, from + length) <= length / (cfg.intervalSecs * SECOND) + 1
  {
    assert cfg.Cooldown() == cfg.intervalSecs * SECOND;
    BuysKeepCooldown(cfg, clock);
    BuysAreBounded(Buys(cfg, clock), cfg.Cooldown(), from, length);
  }

  lemma Purchases(spent: real, n: nat, most: nat, amount: real)
    requires n <= most && amount > 0.0 && spent == n as real * amount
    ensures spent <= most as real * amount
  {
    assert (most - n) as real * amount >= 0.0;
  }

  lemma SoldIsBounded(returned: seq<(Time, SwapIntent)>, times: seq<Time>, amount: real, from: Time, to: Time,
                      most: nat)
    requires OneEach(returned, times, amount) && amount > 0.0 && Within(times, from, to) <= most
    ensures SoldWithin(returned, from, to) <= most as real * amount
  {
    SoldIsCounted(returned, times, amount, from, to);
    Purchases(SoldWithin(returned, from, to), Within(times, from, to), most, amount);
  }

  /** So the swaps returned in a window of that length sell no more than that many times the configured amount. */
  lemma SpendIsBounded(cfg: Config, clock: seq<Time>, from: Time, length: nat)
    requires cfg.Valid() && 0 < cfg.intervalSecs <= LONGEST_INTERVAL_SECS && Readable(clock)
    ensures Spent(cfg, clock, from, from + length)
         <= (length / (cfg.intervalSecs * SECOND) + 1) as real * cfg.usdcPerTick
  {
    WindowIsThrottled(cfg, clock, from, length);
    ReturnedOneEach(cfg, clock);
    SoldIsBounded(Returned(cfg, clock), Buys(cfg, clock), cfg.usdcPerTick, from, from + length,
                  length / (cfg.intervalSecs * SECOND) + 1);
  }
}
