/** The margin path of a short perpetual leg, and when it is liquidated. */
module Liquidation {
  import opened Wrappers
  import opened Extremes

  type Price = r: real | 0.0 < r witness 1.0

  datatype MarginPoint = MarginPoint(t: int, perpClose: Price, spotPrice: Price, funding: real)

  datatype Options = Options(marginRatio: real, maintenanceMarginRate: real, collateralTransfer: bool)

  /** `None` stands for NaN in the ratios and for null in the time. */
  datatype Risk = Risk(
    collateralTransfer: bool,
    liquidated: bool,
    firstLiquidationAt: Option<int>,
    minBufferRatio: Option<real>,
    requiredMarginRatio: Option<real>,
    worstAdverseMove: real,
    worstBasisMove: real)

  // ------------------------------------------------------------------ the path, point by point

  /** Funding received over the first n points. */
  function Funding(points: seq<MarginPoint>, n: nat): real
    requires n <= |points|
  {
    if n == 0 then 0.0 else Funding(points, n - 1) + points[n-1].funding
  }

  function PerpMove(points: seq<MarginPoint>, k: nat): real
    requires k < |points|
  {
    points[k].perpClose / points[0].perpClose - 1.0
  }

  function SpotGain(points: seq<MarginPoint>, k: nat): real
    requires k < |points|
  {
    points[k].spotPrice / points[0].spotPrice - 1.0
  }

  function Basis(p: MarginPoint): real {
    p.perpClose / p.spotPrice - 1.0
  }

  function Transferable(points: seq<MarginPoint>, o: Options, k: nat): real
    requires k < |points|
  {
    if o.collateralTransfer then Max(0.0, SpotGain(points, k)) else 0.0
  }

  /** The margin that would leave exactly the maintenance margin at point k. */
  function Demand(points: seq<MarginPoint>, o: Options, k: nat): real
    requires k < |points|
  {
    o.maintenanceMarginRate - Transferable(points, o, k) - Funding(points, k + 1) + PerpMove(points, k)
  }

  function Buffer(points: seq<MarginPoint>, o: Options, k: nat): real
    requires k < |points|
  {
    o.marginRatio - Demand(points, o, k)
  }

  function Buffers(points: seq<MarginPoint>, o: Options, n: nat): seq<real>
    requires n <= |points|
  {
    seq(n, k requires 0 <= k < n => Buffer(points, o, k))
  }

  function Demands(points: seq<MarginPoint>, o: Options, n: nat): seq<real>
    requires n <= |points|
  {
    seq(n, k requires 0 <= k < n => Demand(points, o, k))
  }

  function AdverseMoves(points: seq<MarginPoint>, n: nat): seq<real>
    requires n <= |points|
  {
    seq(n, k requires 0 <= k < n => PerpMove(points, k))
  }

  function BasisMoves(points: seq<MarginPoint>, n: nat): seq<real>
    requires n <= |points|
  {
    seq(n, k requires 0 <= k < n => Basis(points[k]) - Basis(points[0]))
  }

  /** The first point at which the buffer is negative; `|points|` if there is none. */
  ghost predicate FirstBreach(points: seq<MarginPoint>, o: Options, k: nat) {
    && k <= |points|
    && (forall j: nat :: j < k ==> Buffer(points, o, j) >= 0.0)
    && (k < |points| ==> Buffer(points, o, k) < 0.0)
  }

  /** The running figures after n points. */
  ghost predicate Tracks(
    points: seq<MarginPoint>, o: Options, n: nat, funding: real, minBuffer: Option<real>, required: real,
    worstAdverse: real, worstBasis: real)
    requires n <= |points|
  {
    && funding == Funding(points, n)
    && (if n == 0 then minBuffer == None else minBuffer.Some? && IsLeast(minBuffer.value, Buffers(points, o, n)))
    && IsGreatest(required, [o.marginRatio] + Demands(points, o, n))
    && IsGreatest(worstAdverse, [0.0] + AdverseMoves(points, n))
    && IsGreatest(worstBasis, [0.0] + BasisMoves(points, n))
  }

  /** The figures of a run that looks at every point up to the first breach and at none after it. */
  ghost predicate Assessed(points: seq<MarginPoint>, o: Options, r: Risk) {
    && r.collateralTransfer == o.collateralTransfer
    && if points == [] then
         r == Risk(o.collateralTransfer, false, None, None, None, 0.0, 0.0)
       else exists k: nat | FirstBreach(points, o, k) :: AssessedTo(points, o, k, r)
  }

  /** The figures when the first breach is at k. */
  ghost predicate AssessedTo(points: seq<MarginPoint>, o: Options, k: nat, r: Risk)
    requires k <= |points|
  {
    && r.liquidated == (k < |points|)
    && r.firstLiquidationAt == (if k < |points| then Some(points[k].t) else None)
    && r.requiredMarginRatio.Some?
    && Tracks(points, o, Examined(points, k), Funding(points, Examined(points, k)), r.minBufferRatio,
              r.requiredMarginRatio.value, r.worstAdverseMove, r.worstBasisMove)
  }

  function Examined(points: seq<MarginPoint>, k: nat): (n: nat)
    requires k <= |points|
    ensures n <= |points| && k <= n
  {
    if k < |points| then k + 1 else k
  }

  lemma Extended(points: seq<MarginPoint>, o: Options, n: nat)
    requires n < |points|
    ensures Buffers(points, o, n + 1) == Buffers(points, o, n) + [Buffer(points, o, n)]
    ensures Demands(points, o, n + 1) == Demands(points, o, n) + [Demand(points, o, n)]
  {
  }

  lemma MovesExtended(points: seq<MarginPoint>, n: nat)
    requires n < |points|
    ensures AdverseMoves(points, n + 1) == AdverseMoves(points, n) + [PerpMove(points, n)]
    ensures BasisMoves(points, n + 1) == BasisMoves(points, n) + [Basis(points[n]) - Basis(points[0])]
  {
  }

  lemma GreatestFrom(v: real, base: real, xs: seq<real>, x: real)
    requires IsGreatest(v, [base] + xs)
    ensures IsGreatest(Max(v, x), [base] + (xs + [x]))
  {
    GreatestExtended(v, [base] + xs, x);
    assert [base] + (xs + [x]) == [base] + xs + [x];
  }

  function MinBuffer(points: seq<MarginPoint>, o: Options, n: nat): Option<real>
    requires n <= |points|
  {
    if n == 0 then None
    else match MinBuffer(points, o, n - 1)
         case None => Some(Buffer(points, o, n - 1))
         case Some(v) => Some(Min(v, Buffer(points, o, n - 1)))
  }

  function Required(points: seq<MarginPoint>, o: Options, n: nat): real
    requires n <= |points|
  {
    if n == 0 then o.marginRatio else Max(Required(points, o, n - 1), Demand(points, o, n - 1))
  }

  function WorstAdverse(points: seq<MarginPoint>, n: nat): real
    requires n <= |points|
  {
    if n == 0 then 0.0 else Max(WorstAdverse(points, n - 1), PerpMove(points, n - 1))
  }

  function WorstBasis(points: seq<MarginPoint>, n: nat): real
    requires n <= |points|
  {
    if n == 0 then 0.0 else Max(WorstBasis(points, n - 1), Basis(points[n-1]) - Basis(points[0]))
  }

  lemma {:induction false} MinBufferIsLeast(points: seq<MarginPoint>, o: Options, n: nat)
    requires n <= |points|
    ensures var m := MinBuffer(points, o, n);
      if n == 0 then m == None else m.Some? && IsLeast(m.value, Buffers(points, o, n))
  {
    if n > 0 {
      MinBufferIsLeast(points, o, n - 1);
      Extended(points, o, n - 1);
      if n > 1 {
        LeastExtended(MinBuffer(points, o, n - 1).value, Buffers(points, o, n - 1), Buffer(points, o, n - 1));
      } else {
        assert Buffers(points, o, 1) == [Buffer(points, o, 0)];
      }
    }
  }

  lemma {:induction false} RequiredIsGreatest(points: seq<MarginPoint>, o: Options, n: nat)
    requires n <= |points|
    ensures IsGreatest(Required(points, o, n), [o.marginRatio] + Demands(points, o, n))
  {
    if n > 0 {
      RequiredIsGreatest(points, o, n - 1);
      Extended(points, o, n - 1);
      GreatestFrom(Required(points, o, n - 1), o.marginRatio, Demands(points, o, n - 1), Demand(points, o, n - 1));
    }
  }

  lemma {:induction false} WorstAdverseIsGreatest(points: seq<MarginPoint>, n: nat)
    requires n <= |points|
    ensures IsGreatest(WorstAdverse(points, n), [0.0] + AdverseMoves(points, n))
  {
    if n > 0 {
      WorstAdverseIsGreatest(points, n - 1);
      MovesExtended(points, n - 1);
      GreatestFrom(WorstAdverse(points, n - 1), 0.0, AdverseMoves(points, n - 1), PerpMove(points, n - 1));
    }
  }

  lemma {:induction false} WorstBasisIsGreatest(points: seq<MarginPoint>, n: nat)
    requires n <= |points|
    ensures IsGreatest(WorstBasis(points, n), [0.0] + BasisMoves(points, n))
  {
    if n > 0 {
      WorstBasisIsGreatest(points, n - 1);
      MovesExtended(points, n - 1);
      GreatestFrom(WorstBasis(points, n - 1), 0.0, BasisMoves(points, n - 1),
                   Basis(points[n-1]) - Basis(points[0]));
    }
  }

  lemma RunningTracks(points: seq<MarginPoint>, o: Options, n: nat)
    requires n <= |points|
    ensures Tracks(points, o, n, Funding(points, n), MinBuffer(points, o, n), Required(points, o, n),
                   WorstAdverse(points, n), WorstBasis(points, n))
  {
    MinBufferIsLeast(points, o, n);
    RequiredIsGreatest(points, o, n);
    WorstAdverseIsGreatest(points, n);
    WorstBasisIsGreatest(points, n);
  }

  function Figures(points: seq<MarginPoint>, o: Options, k: nat): Risk
    requires k <= |points|
  {
    var n := Examined(points, k);
    Risk(o.collateralTransfer, k < |points|, if k < |points| then Some(points[k].t) else None,
         MinBuffer(points, o, n), Some(Required(points, o, n)), WorstAdverse(points, n), WorstBasis(points, n))
  }

  lemma FiguresAssessed(points: seq<MarginPoint>, o: Options, k: nat)
    requires points != [] && FirstBreach(points, o, k)
    ensures Assessed(points, o, Figures(points, o, k))
  {
    RunningTracks(points, o, Examined(points, k));
    assert AssessedTo(points, o, k, Figures(points, o, k));
  }

  method AssessLiquidation(points: seq<MarginPoint>, o: Options) returns (r: Risk)
    ensures Assessed(points, o, r)
  {
    if |points| == 0 {
      return Risk(o.collateralTransfer, false, None, None, None, 0.0, 0.0);
    }
    var perp0: real := points[0].perpClose;
    var spot0: real := points[0].spotPrice;
    var basis0 := perp0 / spot0 - 1.0;

    var fundingCum := 0.0;
    var minBuffer: Option<real> := None;  // positive infinity
    var requiredMargin := o.marginRatio;
    var worstAdverse := 0.0;
    var worstBasis := 0.0;
    var liquidated := false;
    var firstAt: Option<int> := None;
    ghost var breach, examined: nat := |points|, 0;

    for i := 0 to |points|
      invariant !liquidated && firstAt == None && breach == |points| && examined == i
      invariant forall j: nat :: j < i ==> Buffer(points, o, j) >= 0.0
      invariant fundingCum == Funding(points, i)
      invariant minBuffer == MinBuffer(points, o, i) && requiredMargin == Required(points, o, i)
      invariant worstAdverse == WorstAdverse(points, i) && worstBasis == WorstBasis(points, i)
    {
      var p := points[i];
      fundingCum := fundingCum + p.funding;

      var perpMove := p.perpClose / perp0 - 1.0;
      var spotGain := p.spotPrice / spot0 - 1.0;
      var transferable := if o.collateralTransfer then Max(0.0, spotGain) else 0.0;

      var equity := o.marginRatio + transferable + fundingCum - perpMove;
      var buffer := equity - o.maintenanceMarginRate;
      assert buffer == Buffer(points, o, i);

      minBuffer := Some(if minBuffer.None? then buffer else Min(minBuffer.value, buffer));
      worstAdverse := Max(worstAdverse, perpMove);
      worstBasis := Max(worstBasis, p.perpClose / p.spotPrice - 1.0 - basis0);
      requiredMargin := Max(requiredMargin, o.maintenanceMarginRate - transferable - fundingCum + perpMove);
      examined := i + 1;

      if buffer < 0.0 {
        liquidated := true;
        firstAt := Some(p.t);
        breach := i;
        break;
      }
    }
    r := Risk(o.collateralTransfer, liquidated, firstAt, minBuffer, Some(requiredMargin), worstAdverse, worstBasis);
    assert r == Figures(points, o, breach);
    FiguresAssessed(points, o, breach);
  }

  // ------------------------------------------------------------------ what the figures mean

  /** The required margin is the margin plus any shortfall, and the three ways of seeing a liquidation agree. */
  lemma RequiredIsMarginAndShortfall(points: seq<MarginPoint>, o: Options, r: Risk)
    requires points != [] && Assessed(points, o, r)
    ensures r.minBufferRatio.Some? && r.requiredMarginRatio.Some?
    ensures r.requiredMarginRatio.value == Max(o.marginRatio, o.marginRatio - r.minBufferRatio.value)
    ensures r.liquidated <==> r.minBufferRatio.value < 0.0
    ensures r.liquidated <==> r.requiredMarginRatio.value > o.marginRatio
  {
    var k: nat :| FirstBreach(points, o, k) && AssessedTo(points, o, k, r);
    var n := Examined(points, k);
    var bs := Buffers(points, o, n);
    ShortfallOf(o.marginRatio, bs, Demands(points, o, n), r.minBufferRatio.value, r.requiredMarginRatio.value);
    assert k < |points| ==> bs[k] < 0.0;
  }

  lemma ShortfallOf(margin: real, buffers: seq<real>, demands: seq<real>, lo: real, hi: real)
    requires |buffers| == |demands| && forall i :: 0 <= i < |buffers| ==> buffers[i] == margin - demands[i]
    requires IsLeast(lo, buffers) && IsGreatest(hi, [margin] + demands)
    ensures hi == Max(margin, margin - lo)
  {
    var all := [margin] + demands;
    assert forall i :: 0 <= i < |demands| ==> all[i+1] == demands[i];
    var i :| 0 <= i < |buffers| && buffers[i] == lo;
    assert all[i+1] <= hi && all[0] <= hi;
    var j :| 0 <= j < |all| && all[j] == hi;
    assert j > 0 ==> lo <= buffers[j-1];
  }

  /** A liquidated run asks for exactly what the breaching point demands. */
  lemma RequiredIsBreachDemand(points: seq<MarginPoint>, o: Options, k: nat, r: Risk)
    requires FirstBreach(points, o, k) && k < |points| && AssessedTo(points, o, k, r)
    ensures r.requiredMarginRatio.value == Demand(points, o, k)
  {
    var all := [o.marginRatio] + Demands(points, o, k + 1);
    assert all[k+1] == Demand(points, o, k);
    var j :| 0 <= j < |all| && all[j] == r.requiredMarginRatio.value;
    assert forall i: nat :: i < k ==> Demand(points, o, i) == o.marginRatio - Buffer(points, o, i) <= o.marginRatio;
    assert forall i :: 0 < i < k + 1 ==> all[i] == Demand(points, o, i - 1);
  }

  lemma {:induction false} FundingOfPrefix(points: seq<MarginPoint>, n: nat, k: nat)
    requires k <= n <= |points|
    ensures Funding(points[..n], k) == Funding(points, k)
  {
    if k > 0 {
      FundingOfPrefix(points, n, k - 1);
    }
  }

  lemma BufferOfPrefix(points: seq<MarginPoint>, o: Options, n: nat, k: nat, margin: real)
    requires k < n <= |points|
    ensures Buffer(points[..n], o.(marginRatio := margin), k) == margin - Demand(points, o, k)
  {
    FundingOfPrefix(points, n, k + 1);
    assert points[..n][0] == points[0] && points[..n][k] == points[k];
  }

  lemma GreatestIsWithin(margin: real, base: real, demands: seq<real>, required: real)
    requires base <= margin && IsGreatest(required, [base] + demands)
    ensures required <= margin <==> forall i: nat :: i < |demands| ==> demands[i] <= margin
  {
    var all := [base] + demands;
    assert forall i :: 0 <= i < |demands| ==> all[i+1] == demands[i];
    var j :| 0 <= j < |all| && all[j] == required;
    assert j > 0 ==> demands[j-1] == required;
  }

  /** A rerun of the points looked at, with any margin at least as large, survives exactly when that margin
      is the required one or more. */
  lemma RerunSurvivesExactlyWhen(points: seq<MarginPoint>, o: Options, k: nat, r: Risk, margin: real, r': Risk)
    requires points != [] && FirstBreach(points, o, k) && AssessedTo(points, o, k, r) && o.marginRatio <= margin
    requires Assessed(points[..Examined(points, k)], o.(marginRatio := margin), r')
    ensures !r'.liquidated <==> r.requiredMarginRatio.value <= margin
  {
    var n := Examined(points, k);
    var o', ds := o.(marginRatio := margin), Demands(points, o, n);
    GreatestIsWithin(margin, o.marginRatio, ds, r.requiredMarginRatio.value);
    forall i: nat | i < n ensures Buffer(points[..n], o', i) == margin - ds[i] {
      BufferOfPrefix(points, o, n, i, margin);
    }
  }

  /** Over the whole path the required margin survives exactly when no later point demands more than the first
      breach did. */
  lemma RequiredMarginLastsExactlyWhen(points: seq<MarginPoint>, o: Options, k: nat, r: Risk, r': Risk)
    requires FirstBreach(points, o, k) && k < |points| && AssessedTo(points, o, k, r)
    requires Assessed(points, o.(marginRatio := r.requiredMarginRatio.value), r')
    ensures !r'.liquidated <==>
            forall j: nat :: k < j < |points| ==> Demand(points, o, j) <= Demand(points, o, k)
  {
    RequiredIsBreachDemand(points, o, k, r);
    var o' := o.(marginRatio := Demand(points, o, k));
    var k': nat :| FirstBreach(points, o', k') && AssessedTo(points, o', k', r');
    assert forall j: nat :: j < |points| ==> Buffer(points, o', j) == Demand(points, o, k) - Demand(points, o, j);
    assert forall j: nat :: j < k ==> Buffer(points, o, j) == o.marginRatio - Demand(points, o, j);
  }

  /** So the reported margin need not be enough to "never liquidate": a price that keeps rising after the first
      breach needs more. */
  lemma RequiredMarginMayNotLast() returns (points: seq<MarginPoint>, o: Options, k: nat, j: nat)
    ensures FirstBreach(points, o, k) && k < j < |points| && Demand(points, o, j) > Demand(points, o, k)
  {
    o := Options(0.5, 0.0, false);
    points := [MarginPoint(0, 1.0, 1.0, 0.0), MarginPoint(1, 2.0, 1.0, 0.0), MarginPoint(2, 3.0, 1.0, 0.0)];
    k, j := 1, 2;
    assert Funding(points, 1) == 0.0 && Funding(points, 2) == 0.0 && Funding(points, 3) == 0.0;
    assert PerpMove(points, 0) == 0.0 && PerpMove(points, 1) == 1.0 && PerpMove(points, 2) == 2.0;
  }

  // ------------------------------------------------------------------ comparing runs

  lemma LargerBufferBreachesLater(points: seq<MarginPoint>, o: Options, o': Options, k: nat, k': nat)
    requires FirstBreach(points, o, k) && FirstBreach(points, o', k')
    requires forall j: nat :: j < |points| ==> Buffer(points, o, j) <= Buffer(points, o', j)
    ensures k <= k'
  {
    assert k' < |points| ==> Buffer(points, o, k') <= Buffer(points, o', k');
  }

  /** Raising the margin never brings the first liquidation forward. */
  lemma MoreMarginNeverEarlier(points: seq<MarginPoint>, o: Options, margin: real, k: nat, k': nat)
    requires o.marginRatio <= margin
    requires FirstBreach(points, o, k) && FirstBreach(points, o.(marginRatio := margin), k')
    ensures k <= k'
  {
    var o' := o.(marginRatio := margin);
    assert forall j: nat :: j < |points| ==> Demand(points, o, j) == Demand(points, o', j);
    LargerBufferBreachesLater(points, o, o', k, k');
  }

  /** Where a cross-margin book is liquidated at k, an isolated one is liquidated at k or before. */
  lemma IsolatedNeverLater(points: seq<MarginPoint>, o: Options, k: nat, k': nat)
    requires FirstBreach(points, o.(collateralTransfer := true), k)
    requires FirstBreach(points, o.(collateralTransfer := false), k')
    ensures k' <= k
  {
    LargerBufferBreachesLater(points, o.(collateralTransfer := false), o.(collateralTransfer := true), k', k);
  }

  // ------------------------------------------------------------------ the basis

  /** What the basis costs a book at point k: the move of the short leg that the spot leg does not make. */
  function BasisLoss(points: seq<MarginPoint>, k: nat): real
    requires k < |points|
  {
    (points[k].spotPrice / points[0].spotPrice) * (Basis(points[k]) - Basis(points[0])) / (1.0 + Basis(points[0]))
  }

  lemma BasisIdentity(points: seq<MarginPoint>, k: nat)
    requires k < |points|
    ensures PerpMove(points, k) - SpotGain(points, k) == BasisLoss(points, k)
  {
  }

  /** A cross-margin book survives exactly when at every point what the basis costs, less any fall of the spot
      price, is covered by the margin above maintenance and the funding so far. */
  lemma CrossSurvivesExactlyWhen(points: seq<MarginPoint>, o: Options, r: Risk)
    requires o.collateralTransfer && Assessed(points, o, r)
    ensures !r.liquidated <==>
            forall k: nat :: k < |points| ==>
              BasisLoss(points, k) + Min(0.0, SpotGain(points, k))
              <= o.marginRatio - o.maintenanceMarginRate + Funding(points, k + 1)
  {
    if points != [] {
      var b: nat :| FirstBreach(points, o, b) && AssessedTo(points, o, b, r);
      forall k: nat | k < |points|
        ensures Buffer(points, o, k) == o.marginRatio - o.maintenanceMarginRate + Funding(points, k + 1)
                                      - (BasisLoss(points, k) + Min(0.0, SpotGain(points, k)))
      {
        BasisIdentity(points, k);
      }
    }
  }

  /** The rise of the basis, scaled by any rise of the spot price. */
  function BasisRise(points: seq<MarginPoint>, k: nat): real
    requires k < |points|
  {
    Max(1.0, points[k].spotPrice / points[0].spotPrice) * Max(0.0, Basis(points[k]) - Basis(points[0]))
    / (1.0 + Basis(points[0]))
  }

  lemma DividedLoss(a: real, b: real, d: real)
    requires a <= b && d > 0.0
    ensures a / d <= b / d
  {
  }

  lemma LossWithinRise(points: seq<MarginPoint>, k: nat)
    requires k < |points|
    ensures BasisLoss(points, k) <= BasisRise(points, k)
  {
    var g, x := points[k].spotPrice / points[0].spotPrice, Basis(points[k]) - Basis(points[0]);
    DividedLoss(g * x, Max(1.0, g) * Max(0.0, x), 1.0 + Basis(points[0]));
  }

  /** In particular it survives whenever the rise of the basis alone is covered. */
  lemma CrossSurvivesBasis(points: seq<MarginPoint>, o: Options, r: Risk)
    requires o.collateralTransfer && Assessed(points, o, r)
    requires forall k: nat :: k < |points| ==>
               BasisRise(points, k) <= o.marginRatio - o.maintenanceMarginRate + Funding(points, k + 1)
    ensures !r.liquidated
  {
    CrossSurvivesExactlyWhen(points, o, r);
    forall k: nat | k < |points| ensures BasisLoss(points, k) <= BasisRise(points, k) {
      LossWithinRise(points, k);
    }
  }
}
