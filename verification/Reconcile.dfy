/** Comparing the booked basis positions with what the venues report. */
module Reconcile {
  import opened Wrappers
  import opened Decimals
  import opened Integers
  import opened Types

  datatype Severity = Info | Warning | Critical

  datatype LegName = BothLegs | PerpLeg | SpotLeg

  datatype Field = Exists | Side | Qty

  datatype Drift = Drift(underlying: string, leg: LegName, field: Field, severity: Severity, expected: real,
                         actual: real, diff: real)

  datatype VenuePosition = VenuePosition(symbol: string, qty: real)

  /** A swap venue answers a balance query or fails. */
  type Wallet = Asset -> Option<real>

  /** The perp venue may be missing, or fail to list its positions; either reads as None. */
  datatype Engine = Engine(perp: Option<seq<VenuePosition>>, swaps: map<string, Wallet>, toleranceBps: int)

  datatype Report = Report(openBasis: nat, ok: nat, drifts: seq<Drift>)

  predicate HasIssue(drifts: seq<Drift>) {
    exists d :: d in drifts && d.severity != Info
  }

  /* ----- arithmetic ----- */

  /** The drift in basis points of the expected size, as a 64-bit integer. */
  function RelativeBps(diff: real, expected: real): int {
    if expected == 0.0 then 0
    else Wrap64(RoundHalfAway(Div(diff * 10000.0, Abs(expected))))
  }

  function SeverityForRel(rel: int): Severity {
    if rel > 100 then Critical else Warning
  }

  predicate IsOppositeSide(expected: real, actual: real) {
    expected != 0.0 && actual != 0.0 && (expected > 0.0) != (actual > 0.0)
  }

  /* ----- one position ----- */

  /** The last leg of a kind, when there are several. */
  function LastOf(legs: seq<Leg>, kind: LegKind): Option<Leg> {
    if legs == [] then None
    else if legs[|legs| - 1].kind == kind then Some(legs[|legs| - 1])
    else LastOf(legs[..|legs| - 1], kind)
  }

  method SplitLegs(legs: seq<Leg>) returns (spot: Option<Leg>, perp: Option<Leg>)
    ensures spot == LastOf(legs, Spot) && perp == LastOf(legs, Perp)
  {
    spot, perp := None, None;
    for i := 0 to |legs|
      invariant spot == LastOf(legs[..i], Spot) && perp == LastOf(legs[..i], Perp)
    {
      assert legs[..i + 1][..i] == legs[..i];
      match legs[i].kind {
        case Spot => spot := Some(legs[i]);
        case Perp => perp := Some(legs[i]);
      }
    }
    assert legs[..|legs|] == legs;
  }

  /** The last position a venue lists for a symbol. */
  function QtyOf(positions: seq<VenuePosition>, symbol: string): Option<real> {
    if positions == [] then None
    else if positions[|positions| - 1].symbol == symbol then Some(positions[|positions| - 1].qty)
    else QtyOf(positions[..|positions| - 1], symbol)
  }

  method BySymbol(positions: seq<VenuePosition>) returns (qty: map<string, real>)
    ensures forall s :: QtyOf(positions, s) == if s in qty then Some(qty[s]) else None
  {
    qty := map[];
    for i := 0 to |positions|
      invariant forall s :: QtyOf(positions[..i], s) == if s in qty then Some(qty[s]) else None
    {
      assert positions[..i + 1][..i] == positions[..i];
      qty := qty[positions[i].symbol := positions[i].qty];
    }
    assert positions[..|positions|] == positions;
  }

  /** What the short's booked size says against the venue's listing. */
  function PerpDrifts(e: Engine, underlying: string, leg: Leg): seq<Drift> {
    if e.perp.None? then [Drift(underlying, PerpLeg, Exists, Info, 0.0, 0.0, 0.0)] else
      match QtyOf(e.perp.value, leg.symbol)
      case None => [Drift(underlying, PerpLeg, Exists, Critical, -leg.qty, 0.0, 0.0)]
      case Some(actual) =>
        var diff := Abs(actual - -leg.qty);
        var rel := RelativeBps(diff, Abs(-leg.qty));
        if IsOppositeSide(-leg.qty, actual) then [Drift(underlying, PerpLeg, Side, Critical, -leg.qty, actual, diff)]
        else if e.toleranceBps > 0 && rel > e.toleranceBps
          then [Drift(underlying, PerpLeg, Qty, SeverityForRel(rel), -leg.qty, actual, diff)]
        else []
  }

  /** The spot leg is expected to hold as many tokens as the short is large. */
  function SpotDrifts(e: Engine, underlying: string, asset: Asset, expected: real): seq<Drift> {
    if asset.chain !in e.swaps then [Drift(underlying, SpotLeg, Exists, Info, 0.0, 0.0, 0.0)] else
      match e.swaps[asset.chain](asset)
      case None => [Drift(underlying, SpotLeg, Exists, Warning, 0.0, 0.0, 0.0)]
      case Some(bal) =>
        var diff := Abs(bal - expected);
        var rel := RelativeBps(diff, expected);
        if bal == 0.0 && expected > 0.0 then [Drift(underlying, SpotLeg, Exists, Critical, expected, bal, 0.0)]
        else if bal < expected && e.toleranceBps > 0 && rel > e.toleranceBps
          then [Drift(underlying, SpotLeg, Qty, SeverityForRel(rel), expected, bal, diff)]
        else []
  }

  function DriftsOf(e: Engine, p: BasisPosition): seq<Drift> {
    var spot, perp := LastOf(p.legs, Spot), LastOf(p.legs, Perp);
    if spot.None? || perp.None? then [Drift(p.underlying, BothLegs, Exists, Critical, 0.0, 0.0, 0.0)]
    else PerpDrifts(e, p.underlying, perp.value) + SpotDrifts(e, p.underlying, spot.value.asset, perp.value.qty)
  }

  method ReconcileOne(e: Engine, p: BasisPosition, perpBySymbol: map<string, real>, perpAvailable: bool)
    returns (drifts: seq<Drift>)
    requires perpAvailable == e.perp.Some?
    requires perpAvailable ==>
               forall s :: QtyOf(e.perp.value, s) == if s in perpBySymbol then Some(perpBySymbol[s]) else None
    ensures drifts == DriftsOf(e, p)
  {
    var spotLeg, perpLeg := SplitLegs(p.legs);
    if spotLeg.None? || perpLeg.None? {
      return [Drift(p.underlying, BothLegs, Exists, Critical, 0.0, 0.0, 0.0)];
    }
    var qty := perpLeg.value.qty;
    drifts := [];
    if !perpAvailable {
      drifts := drifts + [Drift(p.underlying, PerpLeg, Exists, Info, 0.0, 0.0, 0.0)];
    } else if perpLeg.value.symbol !in perpBySymbol {
      drifts := drifts + [Drift(p.underlying, PerpLeg, Exists, Critical, -qty, 0.0, 0.0)];
    } else {
      var actual := perpBySymbol[perpLeg.value.symbol];
      var diff := Abs(actual - -qty);
      var rel := RelativeBps(diff, Abs(-qty));
      if IsOppositeSide(-qty, actual) {
        drifts := drifts + [Drift(p.underlying, PerpLeg, Side, Critical, -qty, actual, diff)];
      } else if e.toleranceBps > 0 && rel > e.toleranceBps {
        drifts := drifts + [Drift(p.underlying, PerpLeg, Qty, SeverityForRel(rel), -qty, actual, diff)];
      }
    }
    var spot := CheckSpot(e, p.underlying, spotLeg.value.asset, qty);
    drifts := drifts + spot;
  }

  method CheckSpot(e: Engine, underlying: string, asset: Asset, expected: real) returns (drifts: seq<Drift>)
    ensures drifts == SpotDrifts(e, underlying, asset, expected)
  {
    if asset.chain !in e.swaps {
      return [Drift(underlying, SpotLeg, Exists, Info, 0.0, 0.0, 0.0)];
    }
    var answer := e.swaps[asset.chain](asset);
    if answer.None? {
      return [Drift(underlying, SpotLeg, Exists, Warning, 0.0, 0.0, 0.0)];
    }
    var bal := answer.value;
    drifts := [];
    if bal == 0.0 && expected > 0.0 {
      drifts := [Drift(underlying, SpotLeg, Exists, Critical, expected, bal, 0.0)];
    } else {
      var diff := Abs(bal - expected);
      var rel := RelativeBps(diff, expected);
      if bal < expected && e.toleranceBps > 0 && rel > e.toleranceBps {
        drifts := [Drift(underlying, SpotLeg, Qty, SeverityForRel(rel), expected, bal, diff)];
      }
    }
  }

  /* ----- a whole pass ----- */

  function Checked(e: Engine, positions: seq<BasisPosition>): Report {
    if positions == [] then Report(0, 0, []) else
      var before := Checked(e, positions[..|positions| - 1]);
      var drifts := DriftsOf(e, positions[|positions| - 1]);
      Report(before.openBasis + 1, before.ok + if HasIssue(drifts) then 0 else 1, before.drifts + drifts)
  }

  method Reconcile(e: Engine, positions: seq<BasisPosition>) returns (r: Report)
    ensures r == Checked(e, positions)
  {
    var perpBySymbol: map<string, real> := map[];
    var perpAvailable := false;
    if e.perp.Some? {
      perpAvailable := true;
      perpBySymbol := BySymbol(e.perp.value);
    }
    r := Report(|positions|, 0, []);
    for i := 0 to |positions|
      invariant r == Checked(e, positions[..i]).(openBasis := |positions|)
      invariant Checked(e, positions[..i]).openBasis == i
    {
      assert positions[..i + 1][..i] == positions[..i];
      var drifts := ReconcileOne(e, positions[i], perpBySymbol, perpAvailable);
      if !HasIssue(drifts) {
        r := r.(ok := r.ok + 1);
      }
      r := r.(drifts := r.drifts + drifts);
    }
    assert positions[..|positions|] == positions;
  }

  /* ----- what a report means ----- */

  lemma IssuesOfConcat(a: seq<Drift>, b: seq<Drift>)
    ensures HasIssue(a + b) <==> HasIssue(a) || HasIssue(b)
  {
    if HasIssue(a) {
      var d :| d in a && d.severity != Info;
      assert d in a + b;
    }
    if HasIssue(b) {
      var d :| d in b && d.severity != Info;
      assert d in a + b;
    }
  }

  /** A report has issues exactly when not every position was counted as fine. */
  lemma {:induction false} IssuesIffNotAllOk(e: Engine, positions: seq<BasisPosition>)
    ensures var r := Checked(e, positions);
            r.openBasis == |positions| && r.ok <= r.openBasis && (HasIssue(r.drifts) <==> r.ok < r.openBasis)
  {
    if positions != [] {
      var init := positions[..|positions| - 1];
      IssuesIffNotAllOk(e, init);
      IssuesOfConcat(Checked(e, init).drifts, DriftsOf(e, positions[|positions| - 1]));
    }
  }

  /** Whole basis points, before they are cut to 64 bits. */
  function Bps(diff: real, expected: real): int
    requires expected > 0.0
  {
    RoundHalfAway(Div(diff * 10000.0, expected))
  }

  /** The drift of a size from the expected one, before it is cut to 64 bits, is within range. */
  predicate Measurable(diff: real, expected: real)
    requires expected > 0.0
  {
    Bps(diff, expected) <= MAX_INT64
  }

  /** Strictly within a tolerance of whole basis points, half a point and half a last place included. */
  predicate InBand(diff: real, expected: real, toleranceBps: nat) {
    diff * 10000.0 < (toleranceBps as real + 0.5 - HALF_ULP) * expected
  }

  lemma RelativeIsUncut(diff: real, expected: real)
    requires diff >= 0.0 && expected > 0.0 && Measurable(diff, expected)
    ensures RelativeBps(diff, expected) == Bps(diff, expected)
  {
    DivNonNegative(diff * 10000.0, expected);
    RoundsDown(Div(diff * 10000.0, expected), 0);
  }

  lemma HalfPoint(n: nat)
    ensures (n as real + 0.5) * SCALE == (n * 10000000000000000 + 5000000000000000) as real
  {
  }

  lemma QuotientInBand(a: real, b: real, n: nat)
    requires a >= 0.0 && b > 0.0
    ensures Div(a, b) < n as real + 0.5 <==> a < (n as real + 0.5 - HALF_ULP) * b
  {
    HalfPoint(n);
    QuotientNonNegative(a, b);
    Round16Below(a / b, n as real + 0.5, n * 10000000000000000 + 5000000000000000);
    QuotientBelow(a, b, n as real + 0.5 - HALF_ULP);
  }

  /** Rounding twice, to sixteen places and then to whole basis points, amounts to one strict bound. */
  lemma TwoRoundings(diff: real, expected: real, toleranceBps: nat)
    requires diff >= 0.0 && expected > 0.0
    ensures Bps(diff, expected) <= toleranceBps <==> InBand(diff, expected, toleranceBps)
  {
    var q := Div(diff * 10000.0, expected);
    assert q >= 0.0 by { DivNonNegative(diff * 10000.0, expected); }
    assert q < toleranceBps as real + 0.5 <==> InBand(diff, expected, toleranceBps) by {
      QuotientInBand(diff * 10000.0, expected, toleranceBps);
    }
    RoundsDown(q, toleranceBps);
  }

  lemma BandExact(diff: real, expected: real, toleranceBps: nat)
    requires diff >= 0.0 && expected > 0.0 && Measurable(diff, expected)
    ensures RelativeBps(diff, expected) <= toleranceBps <==> InBand(diff, expected, toleranceBps)
  {
    RelativeIsUncut(diff, expected);
    TwoRoundings(diff, expected, toleranceBps);
  }

  lemma RoundsDown(x: real, n: nat)
    requires x >= 0.0
    ensures 0 <= RoundHalfAway(x)
    ensures RoundHalfAway(x) <= n <==> x < n as real + 0.5
  {
  }

  lemma QuotientBelow(a: real, b: real, bound: real)
    requires b > 0.0
    ensures a / b < bound <==> a < bound * b
  {
    var q := a / b;
    ScaledOrder(q, bound, b);
    assert q * b == a;
  }

  /** Within the tolerance, if one is set. */
  predicate Tolerated(diff: real, expected: real, toleranceBps: int) {
    toleranceBps <= 0 || InBand(diff, expected, toleranceBps)
  }

  /** The short: counted fine exactly when it is not long and is short by the booked size but for the tolerance. */
  lemma PerpExact(e: Engine, underlying: string, leg: Leg, actual: real)
    requires e.perp.Some? && QtyOf(e.perp.value, leg.symbol) == Some(actual)
    requires leg.qty > 0.0 && Measurable(Abs(actual + leg.qty), leg.qty)
    ensures !HasIssue(PerpDrifts(e, underlying, leg)) <==>
              actual <= 0.0 && Tolerated(Abs(actual + leg.qty), leg.qty, e.toleranceBps)
  {
    var diff := Abs(actual + leg.qty);
    assert actual - -leg.qty == actual + leg.qty && Abs(-leg.qty) == leg.qty;
    if e.toleranceBps > 0 {
      BandExact(diff, leg.qty, e.toleranceBps);
    }
    var drifts := PerpDrifts(e, underlying, leg);
    assert drifts != [] ==> drifts[0].severity != Info;
    assert HasIssue(drifts) <==> drifts != [];
  }

  lemma ZeroIsOut(expected: real, toleranceBps: nat)
    requires expected > 0.0 && toleranceBps < 10000
    ensures !InBand(expected, expected, toleranceBps)
  {
    ScaledOrder(toleranceBps as real + 0.5 - HALF_ULP, 10000.0, expected);
  }

  lemma SurplusIsIn(short: real, expected: real, toleranceBps: nat)
    requires expected > 0.0 && short <= 0.0
    ensures InBand(short, expected, toleranceBps)
  {
    ScaledOrder(0.0, toleranceBps as real + 0.5 - HALF_ULP, expected);
  }

  /** The wallet: counted fine exactly when it is not empty and lacks less than the tolerance; any surplus is fine. */
  lemma SpotExact(e: Engine, underlying: string, asset: Asset, expected: real, bal: real)
    requires asset.chain in e.swaps && e.swaps[asset.chain](asset) == Some(bal)
    requires expected > 0.0 && Measurable(Abs(bal - expected), expected)
    ensures !HasIssue(SpotDrifts(e, underlying, asset, expected)) <==>
              bal != 0.0 && Tolerated(expected - bal, expected, e.toleranceBps)
  {
    var drifts := SpotDrifts(e, underlying, asset, expected);
    assert drifts != [] ==> drifts[0].severity != Info;
    assert HasIssue(drifts) <==> drifts != [];
    if e.toleranceBps > 0 {
      BandExact(Abs(bal - expected), expected, e.toleranceBps);
      if bal >= expected {
        SurplusIsIn(expected - bal, expected, e.toleranceBps);
      }
    }
  }

  /** The legs of a position, and what the two venues say about them. */
  ghost predicate Readable(e: Engine, p: BasisPosition, spot: Leg, perp: Leg, actual: real, bal: real) {
    && LastOf(p.legs, Spot) == Some(spot) && LastOf(p.legs, Perp) == Some(perp)
    && e.perp.Some? && QtyOf(e.perp.value, perp.symbol) == Some(actual)
    && spot.asset.chain in e.swaps && e.swaps[spot.asset.chain](spot.asset) == Some(bal)
  }

  /**
   With both venues readable, a position is counted fine exactly when the venue is not long, the wallet
   is not empty, and the short and the wallet have the booked size, each to within the tolerance.
   */
  lemma OkExact(e: Engine, p: BasisPosition, spot: Leg, perp: Leg, actual: real, bal: real)
    requires Readable(e, p, spot, perp, actual, bal) && perp.qty > 0.0
    requires Measurable(Abs(actual + perp.qty), perp.qty) && Measurable(Abs(bal - perp.qty), perp.qty)
    ensures !HasIssue(DriftsOf(e, p)) <==>
              && actual <= 0.0 && Tolerated(Abs(actual + perp.qty), perp.qty, e.toleranceBps)
              && bal != 0.0 && Tolerated(perp.qty - bal, perp.qty, e.toleranceBps)
  {
    PerpExact(e, p.underlying, perp, actual);
    SpotExact(e, p.underlying, spot.asset, perp.qty, bal);
    IssuesOfConcat(PerpDrifts(e, p.underlying, perp), SpotDrifts(e, p.underlying, spot.asset, perp.qty));
  }

  /** Under any tolerance below the whole size, fine positions really are short and really are held. */
  lemma OkInBand(e: Engine, p: BasisPosition, spot: Leg, perp: Leg, actual: real, bal: real)
    requires Readable(e, p, spot, perp, actual, bal) && perp.qty > 0.0 && 0 < e.toleranceBps < 10000
    requires Measurable(Abs(actual + perp.qty), perp.qty) && Measurable(Abs(bal - perp.qty), perp.qty)
    ensures !HasIssue(DriftsOf(e, p)) <==>
              && actual < 0.0
              && InBand(Abs(actual + perp.qty), perp.qty, e.toleranceBps)
              && InBand(perp.qty - bal, perp.qty, e.toleranceBps)
  {
    OkExact(e, p, spot, perp, actual, bal);
    ZeroIsOut(perp.qty, e.toleranceBps);
  }

  predicate HasCritical(drifts: seq<Drift>) {
    exists d :: d in drifts && d.severity == Critical
  }

  /** One per cent, or the tolerance if that is wider. */
  function CriticalBps(toleranceBps: int): int {
    if toleranceBps <= 0 then toleranceBps else if toleranceBps < 100 then 100 else toleranceBps
  }

  /** The short leg is critical exactly when it is long or, with a tolerance set, beyond the critical line... */
  lemma PerpCriticalExact(e: Engine, underlying: string, leg: Leg, actual: real)
    requires e.perp.Some? && QtyOf(e.perp.value, leg.symbol) == Some(actual)
    requires leg.qty > 0.0 && Measurable(Abs(actual + leg.qty), leg.qty)
    ensures HasCritical(PerpDrifts(e, underlying, leg)) <==>
              !(actual <= 0.0 && Tolerated(Abs(actual + leg.qty), leg.qty, CriticalBps(e.toleranceBps)))
  {
    var diff := Abs(actual + leg.qty);
    assert actual - -leg.qty == actual + leg.qty && Abs(-leg.qty) == leg.qty;
    if e.toleranceBps > 0 {
      BandExact(diff, leg.qty, CriticalBps(e.toleranceBps));
    }
    var drifts := PerpDrifts(e, underlying, leg);
    assert drifts == [] || drifts == [drifts[0]];
    assert HasCritical(drifts) <==> drifts != [] && drifts[0].severity == Critical;
  }

  /** ...and the wallet exactly when it is empty or short by more than that. */
  lemma SpotCriticalExact(e: Engine, underlying: string, asset: Asset, expected: real, bal: real)
    requires asset.chain in e.swaps && e.swaps[asset.chain](asset) == Some(bal)
    requires expected > 0.0 && Measurable(Abs(bal - expected), expected)
    ensures HasCritical(SpotDrifts(e, underlying, asset, expected)) <==>
              !(bal != 0.0 && Tolerated(expected - bal, expected, CriticalBps(e.toleranceBps)))
  {
    var drifts := SpotDrifts(e, underlying, asset, expected);
    assert drifts == [] || drifts == [drifts[0]];
    assert HasCritical(drifts) <==> drifts != [] && drifts[0].severity == Critical;
    if e.toleranceBps > 0 {
      BandExact(Abs(bal - expected), expected, CriticalBps(e.toleranceBps));
      if bal >= expected {
        SurplusIsIn(expected - bal, expected, CriticalBps(e.toleranceBps));
      }
    }
  }

  /** The measured drift is reported as it is exactly when it is in range. */
  lemma CutExactly(diff: real, expected: real)
    requires diff >= 0.0 && expected > 0.0
    ensures RelativeBps(diff, expected) == Bps(diff, expected) <==> Measurable(diff, expected)
  {
    if Measurable(diff, expected) {
      RelativeIsUncut(diff, expected);
    }
  }

  /** Without the range condition it fails: a drift of 2^64 basis points reads as none at all. */
  lemma HugeDriftReadsAsNone()
    ensures RelativeBps(0x1_0000_0000_0000_0000 as real / 10000.0, 1.0) == 0
  {
    var n: int := 0x1_0000_0000_0000_0000;
    Round16Exact(n as real, n * 10000000000000000);
    assert RoundHalfAway(n as real) == n;
  }
}
