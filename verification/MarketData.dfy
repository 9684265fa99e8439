/** The input series of a backtest and the market view a strategy gets at one instant. */
module MarketData {
  import opened Types

  datatype FundingTick = FundingTick(time: Time, symbol: string, rate: real, interval: int, markPrice: real)

  /** What the snapshot shows of a tick: a missing mark price is replaced by 1. */
  datatype Quote = Quote(time: Time, symbol: string, rate: real, interval: int, markPrice: real)

  function QuoteOf(tk: FundingTick): Quote {
    Quote(tk.time, tk.symbol, tk.rate, tk.interval, if tk.markPrice == 0.0 then 1.0 else tk.markPrice)
  }

  /** What is shown of a tick is the tick, with a mark that can be divided by. */
  lemma ShownMarkIsUsable(tk: FundingTick)
    ensures var q := QuoteOf(tk);
            && q.time == tk.time && q.symbol == tk.symbol && q.rate == tk.rate && q.interval == tk.interval
            && q.markPrice != 0.0 && (q.markPrice == tk.markPrice || (tk.markPrice == 0.0 && q.markPrice == 1.0))
  {
  }

  type Snapshot = map<string, Quote>

  /**
   Tick i is the one shown for its symbol at time t: visible, and no visible tick of the symbol is newer
   or a later equal.
   */
  ghost predicate Latest(ticks: seq<FundingTick>, t: Time, i: nat) {
    && i < |ticks| && ticks[i].time <= t
    && forall j | 0 <= j < |ticks| && ticks[j].symbol == ticks[i].symbol && ticks[j].time <= t ::
         ticks[j].time < ticks[i].time || (ticks[j].time == ticks[i].time && j <= i)
  }

  /** A snapshot shows the latest visible tick of each symbol, and only symbols that have one. */
  ghost predicate IsSnapshot(snap: Snapshot, t: Time, ticks: seq<FundingTick>) {
    && (forall i | 0 <= i < |ticks| && ticks[i].time <= t :: ticks[i].symbol in snap)
    && (forall sym <- snap :: exists i: nat ::
          Latest(ticks, t, i) && ticks[i].symbol == sym && snap[sym] == QuoteOf(ticks[i]))
  }

  lemma SnapshotIsUnique(a: Snapshot, b: Snapshot, t: Time, ticks: seq<FundingTick>)
    requires IsSnapshot(a, t, ticks) && IsSnapshot(b, t, ticks)
    ensures a == b
  {
    forall sym | sym in a ensures sym in b && a[sym] == b[sym] { SnapshotAgrees(a, b, t, ticks, sym); }
    forall sym | sym in b ensures sym in a { SnapshotAgrees(b, a, t, ticks, sym); }
  }

  lemma SnapshotAgrees(a: Snapshot, b: Snapshot, t: Time, ticks: seq<FundingTick>, sym: string)
    requires IsSnapshot(a, t, ticks) && IsSnapshot(b, t, ticks) && sym in a
    ensures sym in b && a[sym] == b[sym]
  {
    var i: nat :| Latest(ticks, t, i) && ticks[i].symbol == sym && a[sym] == QuoteOf(ticks[i]);
    assert ticks[i].symbol in b;
    var j: nat :| Latest(ticks, t, j) && ticks[j].symbol == sym && b[sym] == QuoteOf(ticks[j]);
    LatestIsUnique(ticks, t, i, j);
  }

  lemma LatestIsUnique(ticks: seq<FundingTick>, t: Time, i: nat, j: nat)
    requires Latest(ticks, t, i) && Latest(ticks, t, j) && ticks[i].symbol == ticks[j].symbol
    ensures i == j
  {
  }

  /** Folding in one more tick. */
  function Shown(snap: Snapshot, t: Time, tk: FundingTick): Snapshot {
    if tk.time > t || (tk.symbol in snap && tk.time < snap[tk.symbol].time) then snap
    else snap[tk.symbol := QuoteOf(tk)]
  }

  function SnapshotAt(t: Time, ticks: seq<FundingTick>): Snapshot {
    if ticks == [] then map[] else Shown(SnapshotAt(t, ticks[..|ticks| - 1]), t, ticks[|ticks| - 1])
  }

  lemma LatestWithOneMore(t: Time, init: seq<FundingTick>, tk: FundingTick, i: nat)
    requires Latest(init, t, i)
    requires tk.symbol != init[i].symbol || tk.time > t || tk.time < init[i].time
    ensures Latest(init + [tk], t, i)
  {
  }

  lemma ShownIsSnapshot(before: Snapshot, t: Time, init: seq<FundingTick>, tk: FundingTick)
    requires IsSnapshot(before, t, init)
    ensures IsSnapshot(Shown(before, t, tk), t, init + [tk])
  {
    var ticks, after := init + [tk], Shown(before, t, tk);
    assert ticks[|init|] == tk;
    forall sym | sym in after
      ensures exists i: nat :: Latest(ticks, t, i) && ticks[i].symbol == sym && after[sym] == QuoteOf(ticks[i])
    {
      if sym in before && (sym != tk.symbol || tk.time > t || tk.time < before[sym].time) {
        var i: nat :| Latest(init, t, i) && init[i].symbol == sym && before[sym] == QuoteOf(init[i]);
        LatestWithOneMore(t, init, tk, i);
        assert ticks[i] == init[i];
      } else {
        NewestIsLatest(before, t, init, tk);
      }
    }
  }

  lemma NewestIsLatest(before: Snapshot, t: Time, init: seq<FundingTick>, tk: FundingTick)
    requires IsSnapshot(before, t, init) && tk.time <= t
    requires tk.symbol in before ==> before[tk.symbol].time <= tk.time
    ensures Latest(init + [tk], t, |init|)
  {
    forall j | 0 <= j < |init| && init[j].symbol == tk.symbol && init[j].time <= t
      ensures init[j].time <= tk.time
    {
      var i: nat :| Latest(init, t, i) && init[i].symbol == tk.symbol && before[tk.symbol] == QuoteOf(init[i]);
    }
  }

  lemma {:induction false} SnapshotAtIsSnapshot(t: Time, ticks: seq<FundingTick>)
    ensures IsSnapshot(SnapshotAt(t, ticks), t, ticks)
  {
    if ticks != [] {
      var n := |ticks| - 1;
      SnapshotAtIsSnapshot(t, ticks[..n]);
      ShownIsSnapshot(SnapshotAt(t, ticks[..n]), t, ticks[..n], ticks[n]);
      assert ticks[..n] + [ticks[n]] == ticks;
    }
  }

  /** The loop over the ticks shows each symbol's latest visible tick. */
  method MarketSnapshotAt(t: Time, ticks: seq<FundingTick>) returns (snap: Snapshot)
    ensures IsSnapshot(snap, t, ticks)
    ensures snap == SnapshotAt(t, ticks)
  {
    snap := map[];
    for i := 0 to |ticks|
      invariant snap == SnapshotAt(t, ticks[..i])
    {
      assert ticks[..i + 1][..i] == ticks[..i];
      var tk := ticks[i];
      if tk.time > t { continue; }
      if tk.symbol in snap && tk.time < snap[tk.symbol].time { continue; }
      var mark := tk.markPrice;
      if mark == 0.0 { mark := 1.0; }
      snap := snap[tk.symbol := Quote(tk.time, tk.symbol, tk.rate, tk.interval, mark)];
    }
    assert ticks[..|ticks|] == ticks;
    SnapshotAtIsSnapshot(t, ticks);
  }

  /** Ticks from after t do not show at t. */
  lemma {:induction false} FutureIsInvisible(t: Time, past: seq<FundingTick>, future: seq<FundingTick>)
    requires forall tk <- future :: tk.time > t
    ensures SnapshotAt(t, past + future) == SnapshotAt(t, past)
  {
    if future == [] {
      assert past + future == past;
    } else {
      var n := |future| - 1;
      assert (past + future)[..|past + future| - 1] == past + future[..n];
      FutureIsInvisible(t, past, future[..n]);
    }
  }
}
