/** What reconciling finds in every case: which positions are fine, which are critical, and the figures reported. */
module ReconcileCases {
  import opened Wrappers
  import opened Collections
  import opened Decimals
  import opened Types
  import opened Reconcile

  /* ----- what a venue says ----- */

  /** The venue lists nothing under the symbol. */
  ghost predicate Unlisted(positions: seq<VenuePosition>, symbol: string) {
    forall v <- positions :: v.symbol != symbol
  }

  /** Entry i is the last one listed under the symbol. */
  ghost predicate ListedLast(positions: seq<VenuePosition>, symbol: string, i: nat) {
    && i < |positions| && positions[i].symbol == symbol
    && forall j | i < j < |positions| :: positions[j].symbol != symbol
  }

  lemma {:induction false} ListingRead(positions: seq<VenuePosition>, symbol: string)
    ensures QtyOf(positions, symbol).None? <==> Unlisted(positions, symbol)
    ensures QtyOf(positions, symbol).Some? ==>
              exists i: nat :: ListedLast(positions, symbol, i) && QtyOf(positions, symbol) == Some(positions[i].qty)
  {
    if positions != [] {
      var init, last := positions[..|positions| - 1], positions[|positions| - 1];
      ListingRead(init, symbol);
      assert positions == init + [last];
      if last.symbol == symbol {
        assert ListedLast(positions, symbol, |positions| - 1);
      } else if QtyOf(init, symbol).Some? {
        var i: nat :| ListedLast(init, symbol, i) && QtyOf(init, symbol) == Some(init[i].qty);
        assert ListedLast(positions, symbol, i);
      }
    }
  }

  ghost predicate LegAt(legs: seq<Leg>, kind: LegKind, i: nat) {
    i < |legs| && legs[i].kind == kind && forall j | i < j < |legs| :: legs[j].kind != kind
  }

  ghost predicate Lacks(legs: seq<Leg>, kind: LegKind) {
    forall leg <- legs :: leg.kind != kind
  }

  lemma {:induction false} LegsRead(legs: seq<Leg>, kind: LegKind)
    ensures LastOf(legs, kind).None? <==> Lacks(legs, kind)
    ensures LastOf(legs, kind).Some? ==> exists i: nat :: LegAt(legs, kind, i) && LastOf(legs, kind) == Some(legs[i])
  {
    if legs != [] {
      var init, last := legs[..|legs| - 1], legs[|legs| - 1];
      LegsRead(init, kind);
      assert legs == init + [last];
      if last.kind == kind {
        assert LegAt(legs, kind, |legs| - 1);
      } else if LastOf(init, kind).Some? {
        var i: nat :| LegAt(init, kind, i) && LastOf(init, kind) == Some(init[i]);
        assert LegAt(legs, kind, i);
      }
    }
  }

  /* ----- fine and critical, for any booked size ----- */

  /** Off by no more than the tolerance, which is about the booked size; a tolerance of zero or less asks nothing. */
  predicate Near(off: real, size: real, toleranceBps: int) {
    toleranceBps <= 0 || size == 0.0 || InBand(off, Abs(size), toleranceBps)
  }

  /** The venue is not on the wrong side of a short of this size, and as short as it to within the tolerance. */
  predicate ShortAgrees(size: real, actual: real, toleranceBps: int) {
    !(size > 0.0 && actual > 0.0) && !(size < 0.0 && actual < 0.0) && Near(Abs(actual + size), size, toleranceBps)
  }

  /** The wallet is not empty where something is booked, and holds the size or lacks no more than the tolerance. */
  predicate WalletAgrees(size: real, bal: real, toleranceBps: int) {
    !(size > 0.0 && bal == 0.0) && (bal >= size || Near(size - bal, size, toleranceBps))
  }

  /** The drifts of both legs are small enough for a 64-bit number of basis points. */
  ghost predicate Measured(off: real, size: real) {
    size != 0.0 ==> Measurable(off, Abs(size))
  }

  lemma NearExact(off: real, size: real, toleranceBps: int)
    requires off >= 0.0 && Measured(off, size)
    ensures Near(off, size, toleranceBps) <==> toleranceBps <= 0 || RelativeBps(off, Abs(size)) <= toleranceBps
    ensures RelativeBps(off, size) == RelativeBps(off, Abs(size))
  {
    if size != 0.0 && toleranceBps > 0 {
      BandExact(off, Abs(size), toleranceBps);
    }
  }

  /** What the perp venue answers about the leg: nothing at all, no such symbol, or a quantity. */
  ghost predicate PerpFine(e: Engine, leg: Leg, toleranceBps: int) {
    e.perp.Some? ==> exists i: nat :: ListedLast(e.perp.value, leg.symbol, i)
                              && ShortAgrees(leg.qty, e.perp.value[i].qty, toleranceBps)
  }

  /** What the wallet of the asset's chain answers: no wallet, no answer, or a balance. */
  ghost predicate SpotFine(e: Engine, asset: Asset, size: real, toleranceBps: int) {
    asset.chain in e.swaps ==>
      e.swaps[asset.chain](asset).Some? && WalletAgrees(size, e.swaps[asset.chain](asset).value, toleranceBps)
  }

  ghost predicate PerpMeasured(e: Engine, leg: Leg) {
    e.perp.Some? && QtyOf(e.perp.value, leg.symbol).Some? ==>
      Measured(Abs(QtyOf(e.perp.value, leg.symbol).value + leg.qty), leg.qty)
  }

  ghost predicate SpotMeasured(e: Engine, asset: Asset, size: real) {
    asset.chain in e.swaps && e.swaps[asset.chain](asset).Some? ==>
      Measured(Abs(e.swaps[asset.chain](asset).value - size), size)
  }

  /* ----- the perp leg ----- */

  lemma PerpRead(e: Engine, leg: Leg, toleranceBps: int)
    requires e.perp.Some?
    ensures PerpFine(e, leg, toleranceBps) <==>
              QtyOf(e.perp.value, leg.symbol).Some?
              && ShortAgrees(leg.qty, QtyOf(e.perp.value, leg.symbol).value, toleranceBps)
  {
    ListingRead(e.perp.value, leg.symbol);
    if PerpFine(e, leg, toleranceBps) {
      var i: nat :| ListedLast(e.perp.value, leg.symbol, i)
                    && ShortAgrees(leg.qty, e.perp.value[i].qty, toleranceBps);
      assert e.perp.value[i] in e.perp.value;
    }
  }

  lemma PerpListed(e: Engine, underlying: string, leg: Leg, actual: real)
    requires e.perp.Some? && QtyOf(e.perp.value, leg.symbol) == Some(actual) && Measured(Abs(actual + leg.qty), leg.qty)
    ensures var drifts := PerpDrifts(e, underlying, leg);
            && (HasIssue(drifts) <==> !ShortAgrees(leg.qty, actual, e.toleranceBps))
            && (HasCritical(drifts) <==> !ShortAgrees(leg.qty, actual, CriticalBps(e.toleranceBps)))
  {
    assert actual - -leg.qty == actual + leg.qty && Abs(-leg.qty) == Abs(leg.qty);
    NearExact(Abs(actual + leg.qty), leg.qty, e.toleranceBps);
    NearExact(Abs(actual + leg.qty), leg.qty, CriticalBps(e.toleranceBps));
    AtMostOne(PerpDrifts(e, underlying, leg));
  }

  lemma AtMostOne(drifts: seq<Drift>)
    requires |drifts| <= 1
    ensures HasIssue(drifts) <==> drifts != [] && drifts[0].severity != Info
    ensures HasCritical(drifts) <==> drifts != [] && drifts[0].severity == Critical
  {
    if drifts != [] { assert drifts == [drifts[0]]; }
  }

  /** The perp leg in every case: when it is an issue, and when a critical one. */
  lemma PerpExactly(e: Engine, underlying: string, leg: Leg)
    requires PerpMeasured(e, leg)
    ensures HasIssue(PerpDrifts(e, underlying, leg)) <==> !PerpFine(e, leg, e.toleranceBps)
    ensures HasCritical(PerpDrifts(e, underlying, leg)) <==> !PerpFine(e, leg, CriticalBps(e.toleranceBps))
  {
    AtMostOne(PerpDrifts(e, underlying, leg));
    if e.perp.Some? {
      PerpRead(e, leg, e.toleranceBps);
      PerpRead(e, leg, CriticalBps(e.toleranceBps));
      match QtyOf(e.perp.value, leg.symbol)
      case None =>
      case Some(actual) => PerpListed(e, underlying, leg, actual);
    }
  }

  /* ----- the spot leg ----- */

  /** The wallet in every case: a query that fails is an issue, but never a critical one. */
  lemma SpotExactly(e: Engine, underlying: string, asset: Asset, size: real)
    requires SpotMeasured(e, asset, size)
    ensures HasIssue(SpotDrifts(e, underlying, asset, size)) <==> !SpotFine(e, asset, size, e.toleranceBps)
    ensures HasCritical(SpotDrifts(e, underlying, asset, size)) <==>
              && asset.chain in e.swaps && e.swaps[asset.chain](asset).Some?
              && !WalletAgrees(size, e.swaps[asset.chain](asset).value, CriticalBps(e.toleranceBps))
  {
    AtMostOne(SpotDrifts(e, underlying, asset, size));
    if asset.chain in e.swaps && e.swaps[asset.chain](asset).Some? {
      var bal := e.swaps[asset.chain](asset).value;
      NearExact(Abs(bal - size), size, e.toleranceBps);
      NearExact(Abs(bal - size), size, CriticalBps(e.toleranceBps));
    }
  }

  /* ----- a position ----- */

  /** The legs of the position that count: the last of each kind. */
  ghost predicate HasLegs(p: BasisPosition, spot: Leg, perp: Leg) {
    && (exists i: nat :: LegAt(p.legs, Spot, i) && p.legs[i] == spot)
    && (exists i: nat :: LegAt(p.legs, Perp, i) && p.legs[i] == perp)
  }

  lemma LegsCount(p: BasisPosition, spot: Leg, perp: Leg)
    requires HasLegs(p, spot, perp)
    ensures LastOf(p.legs, Spot) == Some(spot) && LastOf(p.legs, Perp) == Some(perp)
  {
    LegsRead(p.legs, Spot);
    LegsRead(p.legs, Perp);
    var i: nat :| LegAt(p.legs, Spot, i) && p.legs[i] == spot;
    var j: nat :| LegAt(p.legs, Perp, j) && p.legs[j] == perp;
    assert p.legs[i] in p.legs && p.legs[j] in p.legs;
  }

  lemma CriticalsOfConcat(a: seq<Drift>, b: seq<Drift>)
    ensures HasCritical(a + b) <==> HasCritical(a) || HasCritical(b)
  {
    if HasCritical(a) {
      var d :| d in a && d.severity == Critical;
      assert d in a + b;
    }
    if HasCritical(b) {
      var d :| d in b && d.severity == Critical;
      assert d in a + b;
    }
  }

  /** A position without one of its legs is critical. */
  lemma LeglessIsCritical(e: Engine, p: BasisPosition)
    requires Lacks(p.legs, Spot) || Lacks(p.legs, Perp)
    ensures HasIssue(DriftsOf(e, p)) && HasCritical(DriftsOf(e, p))
  {
    LegsRead(p.legs, Spot);
    LegsRead(p.legs, Perp);
    AtMostOne(DriftsOf(e, p));
  }

  /**
   A position with both legs, whatever the venues answer: it is fine exactly when neither answer speaks
   against it, and critical exactly when one does by more than the critical line. A venue that is not
   there speaks against nothing; a perp venue that does not list the symbol always speaks against it.
   */
  lemma PositionExactly(e: Engine, p: BasisPosition, spot: Leg, perp: Leg)
    requires HasLegs(p, spot, perp) && PerpMeasured(e, perp) && SpotMeasured(e, spot.asset, perp.qty)
    ensures !HasIssue(DriftsOf(e, p)) <==>
              PerpFine(e, perp, e.toleranceBps) && SpotFine(e, spot.asset, perp.qty, e.toleranceBps)
    ensures !HasCritical(DriftsOf(e, p)) <==>
              && PerpFine(e, perp, CriticalBps(e.toleranceBps))
              && (spot.asset.chain in e.swaps && e.swaps[spot.asset.chain](spot.asset).Some? ==>
                    WalletAgrees(perp.qty, e.swaps[spot.asset.chain](spot.asset).value, CriticalBps(e.toleranceBps)))
  {
    LegsCount(p, spot, perp);
    PerpExactly(e, p.underlying, perp);
    SpotExactly(e, p.underlying, spot.asset, perp.qty);
    IssuesOfConcat(PerpDrifts(e, p.underlying, perp), SpotDrifts(e, p.underlying, spot.asset, perp.qty));
    CriticalsOfConcat(PerpDrifts(e, p.underlying, perp), SpotDrifts(e, p.underlying, spot.asset, perp.qty));
  }

  /** A short the venue does not list is reported as critical, with the booked size against nothing. */
  lemma MissingShortIsCritical(e: Engine, p: BasisPosition, spot: Leg, perp: Leg)
    requires HasLegs(p, spot, perp) && e.perp.Some? && Unlisted(e.perp.value, perp.symbol)
    ensures Drift(p.underlying, PerpLeg, Exists, Critical, -perp.qty, 0.0, 0.0) in DriftsOf(e, p)
    ensures HasIssue(DriftsOf(e, p)) && HasCritical(DriftsOf(e, p))
  {
    var d := Drift(p.underlying, PerpLeg, Exists, Critical, -perp.qty, 0.0, 0.0);
    LegsCount(p, spot, perp);
    ListingRead(e.perp.value, perp.symbol);
    assert DriftsOf(e, p)[0] == d;
    assert d in DriftsOf(e, p);
  }

  /** Without a perp venue and without the wallet, a position with both legs is only noted. */
  lemma NoVenuesNoIssue(e: Engine, p: BasisPosition, spot: Leg, perp: Leg)
    requires HasLegs(p, spot, perp) && e.perp.None? && spot.asset.chain !in e.swaps
    ensures !HasIssue(DriftsOf(e, p)) && |DriftsOf(e, p)| == 2
  {
    PositionExactly(e, p, spot, perp);
    LegsCount(p, spot, perp);
  }

  /* ----- the figures reported ----- */

  /** A drift of the perp leg sets the booked short against the venue's quantity, or against nothing. */
  ghost predicate PerpFigures(e: Engine, p: BasisPosition, perp: Leg, d: Drift) {
    && d.underlying == p.underlying
    && (d.field == Exists ==>
        d.actual == 0.0 && d.diff == 0.0 && d.expected == if d.severity == Critical then -perp.qty else 0.0)
    && (d.field != Exists ==>
          && d.expected == -perp.qty && d.diff == Abs(d.actual - d.expected)
          && e.perp.Some?
          && exists i: nat :: ListedLast(e.perp.value, perp.symbol, i) && d.actual == e.perp.value[i].qty)
    && (d.field == Side ==> d.severity == Critical && (d.expected > 0.0 <==> d.actual < 0.0))
  }

  /** A drift of the spot leg sets the booked size against the balance. */
  ghost predicate SpotFigures(e: Engine, p: BasisPosition, spot: Leg, perp: Leg, d: Drift) {
    && d.underlying == p.underlying && d.field != Side
    && (d.field == Qty || d.severity == Critical ==>
          && d.expected == perp.qty && spot.asset.chain in e.swaps
          && e.swaps[spot.asset.chain](spot.asset) == Some(d.actual) && d.actual < d.expected)
    && (d.field == Qty ==> d.diff == d.expected - d.actual)
  }

  lemma ReportedFigures(e: Engine, p: BasisPosition, spot: Leg, perp: Leg, d: Drift)
    requires HasLegs(p, spot, perp) && d in DriftsOf(e, p)
    ensures d.leg == PerpLeg || d.leg == SpotLeg
    ensures d.leg == PerpLeg ==> PerpFigures(e, p, perp, d)
    ensures d.leg == SpotLeg ==> SpotFigures(e, p, spot, perp, d)
  {
    LegsCount(p, spot, perp);
    if e.perp.Some? { ListingRead(e.perp.value, perp.symbol); }
    if d in PerpDrifts(e, p.underlying, perp) {
      assert d == PerpDrifts(e, p.underlying, perp)[0];
    } else {
      assert d == SpotDrifts(e, p.underlying, spot.asset, perp.qty)[0];
    }
  }

  /* ----- a whole pass ----- */

  /** A position counts as fine when none of its drifts is more than a note. */
  ghost function IsFine(e: Engine): BasisPosition -> bool {
    p => !HasIssue(DriftsOf(e, p))
  }

  /** The report counts exactly the positions that are fine. */
  lemma {:induction false} OkCountsFine(e: Engine, positions: seq<BasisPosition>)
    ensures Checked(e, positions).ok == |Places(positions, IsFine(e))|
  {
    if positions != [] {
      OkCountsFine(e, positions[..|positions| - 1]);
      PlacesOneMore(positions, IsFine(e));
    }
  }

  ghost function Shows(e: Engine, d: Drift): BasisPosition -> bool {
    p => d in DriftsOf(e, p)
  }

  /** It lists exactly the drifts of the positions. */
  lemma {:induction false} ReportListsDrifts(e: Engine, positions: seq<BasisPosition>, d: Drift)
    ensures d in Checked(e, positions).drifts <==> Any(positions, Shows(e, d))
  {
    if positions != [] {
      ReportListsDrifts(e, positions[..|positions| - 1], d);
      AnyOneMore(positions, Shows(e, d));
    }
  }
}
