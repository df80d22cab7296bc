/** The risk of a levered spot leg, and what keeping a cross-margin book alive costs. */
module Costs {
  import opened Wrappers
  import Drawdown
  import opened Extremes
  import opened Liquidation

  // ------------------------------------------------------------------ spot leg

  type Leverage = r: real | 0.0 < r witness 1.0

  /** A ratio that may not be a number, or may be the result of a division by zero. */
  datatype Figure = NaN | Infinite | Finite(value: real)

  datatype SpotLegRisk = SpotLegRisk(
    spotLeverage: Leverage,
    worstSpotDrop: Figure,
    liquidationDrop: real,
    liquidated: bool,
    maxSafeLeverage: Figure)

  /** The prices that count. */
  function ValidPrices(closes: seq<real>): seq<Price> {
    if closes == [] then []
    else (if closes[0] > 0.0 then [closes[0]] else []) + ValidPrices(closes[1..])
  }

  function Drop(from: Price, to: Price): real {
    to / from - 1.0
  }

  /** v is the worst fall from any price to any later one. */
  ghost predicate IsWorstDrop(v: real, prices: seq<Price>) {
    && (exists i: nat, j: nat :: i <= j < |prices| && v == Drop(prices[i], prices[j]))
    && (forall i: nat, j: nat :: i <= j < |prices| ==> v <= Drop(prices[i], prices[j]))
  }

  predicate IsPeak(peak: Price, prices: seq<Price>) {
    peak in prices && forall i :: 0 <= i < |prices| ==> prices[i] <= peak
  }

  ghost predicate SpotAssessed(closes: seq<real>, leverage: Leverage, mmr: real, r: SpotLegRisk) {
    var prices := ValidPrices(closes);
    && r.spotLeverage == leverage
    && r.liquidationDrop == 1.0 / leverage - mmr
    && if |prices| < 2 then
         r.worstSpotDrop == NaN && !r.liquidated && r.maxSafeLeverage == NaN
       else
         && r.worstSpotDrop.Finite?
         && IsWorstDrop(r.worstSpotDrop.value, prices)
         && r.liquidated == (Abs(r.worstSpotDrop.value) >= r.liquidationDrop)
         && r.maxSafeLeverage == SafeLeverage(Abs(r.worstSpotDrop.value) + mmr)
  }

  function SafeLeverage(need: real): Figure {
    if need >= 1.0 then Finite(1.0) else if need == 0.0 then Infinite else Finite(1.0 / need)
  }

  lemma DropBelow(from: Price, peak: Price, to: Price)
    requires from <= peak
    ensures Drop(peak, to) <= Drop(from, to)
  {
    var a: real, b: real := to / from, to / peak;
    assert a * from == to && b * peak == to;
    assert b > 0.0;
    assert b * from <= b * peak;
    if a < b {
      assert a * from < b * from;
    }
  }

  lemma WorstDropExtended(worst: real, prices: seq<Price>, peak: Price, c: Price)
    requires prices != [] && IsWorstDrop(worst, prices)
    requires IsPeak(peak, prices + [c])
    ensures IsWorstDrop(Min(worst, Drop(peak, c)), prices + [c])
  {
    var all := prices + [c];
    var n := |prices|;
    forall i: nat, j: nat | i <= j < |all| ensures Min(worst, Drop(peak, c)) <= Drop(all[i], all[j]) {
      if j < n {
        assert all[i] == prices[i] && all[j] == prices[j];
      } else {
        DropBelow(all[i], peak, c);
      }
    }
    if worst <= Drop(peak, c) {
      var i: nat, j: nat :| i <= j < n && worst == Drop(prices[i], prices[j]);
      assert all[i] == prices[i] && all[j] == prices[j];
    } else {
      var m :| 0 <= m < |all| && all[m] == peak;
      assert Drop(all[m], all[n]) == Drop(peak, c);
    }
  }

  /** The running peak after n prices. */
  function PeakTo(prices: seq<Price>, n: nat): Price
    requires n <= |prices| && prices != []
  {
    if n == 0 then prices[0]
    else if PeakTo(prices, n - 1) <= prices[n-1] then prices[n-1]
    else PeakTo(prices, n - 1)
  }

  /** The running worst fall from the peak after n prices. */
  function WorstTo(prices: seq<Price>, n: nat): real
    requires n <= |prices| && prices != []
  {
    if n == 0 then 0.0 else Min(WorstTo(prices, n - 1), Drop(PeakTo(prices, n), prices[n-1]))
  }

  lemma FirstDrop(c: Price)
    ensures IsPeak(c, [c]) && IsWorstDrop(0.0, [c]) && Drop(c, c) == 0.0
  {
    NoDrop(c);
    assert [c][0] == c;
  }

  lemma NoDrop(c: Price)
    ensures Drop(c, c) == 0.0
  {
  }

  lemma FirstPrice(prices: seq<Price>)
    requires prices != []
    ensures PeakTo(prices, 1) == prices[0] && WorstTo(prices, 1) == 0.0 && prices[..1] == [prices[0]]
  {
    assert PeakTo(prices, 0) == prices[0];
    NoDrop(prices[0]);
    assert WorstTo(prices, 0) == 0.0;
  }

  /** The worst fall from the running peak is the worst fall between any two prices. */
  lemma {:induction false} WorstFromPeakIsWorst(prices: seq<Price>, n: nat)
    requires 0 < n <= |prices|
    ensures IsPeak(PeakTo(prices, n), prices[..n]) && IsWorstDrop(WorstTo(prices, n), prices[..n])
  {
    if n == 1 {
      FirstDrop(prices[0]);
      FirstPrice(prices);
    } else {
      WorstFromPeakIsWorst(prices, n - 1);
      assert prices[..n] == prices[..n-1] + [prices[n-1]];
      WorstDropExtended(WorstTo(prices, n - 1), prices[..n-1], PeakTo(prices, n), prices[n-1]);
    }
  }

  method AssessSpotLeg(closes: seq<real>, leverage: Leverage, mmr: real) returns (r: SpotLegRisk)
    ensures SpotAssessed(closes, leverage, mmr, r)
  {
    var prices := ValidPrices(closes);
    var liquidationDrop: real := 1.0 / leverage - mmr;
    if |prices| < 2 {
      return SpotLegRisk(leverage, NaN, liquidationDrop, false, NaN);
    }
    var peak := prices[0];
    var worstDrop := 0.0;
    for i := 0 to |prices|
      invariant peak == PeakTo(prices, i) && worstDrop == WorstTo(prices, i)
    {
      var c := prices[i];
      peak := if peak <= c then c else peak;
      worstDrop := Min(worstDrop, Drop(peak, c));
    }
    WorstFromPeakIsWorst(prices, |prices|);
    assert prices[..|prices|] == prices;
    var depth := Abs(worstDrop);
    var maxSafeLeverage := SafeLeverage(depth + mmr);
    r := SpotLegRisk(leverage, Finite(worstDrop), liquidationDrop, depth >= liquidationDrop, maxSafeLeverage);
  }

  lemma WorstDropIsAFall(v: real, prices: seq<Price>)
    requires prices != [] && IsWorstDrop(v, prices)
    ensures -1.0 < v <= 0.0
  {
    NoDrop(prices[0]);
    var i: nat, j: nat :| i <= j < |prices| && v == Drop(prices[i], prices[j]);
    assert prices[j] / prices[i] > 0.0;
  }

  /** The leg is liquidated exactly when some later price is below some earlier one by the liquidation drop. */
  lemma SpotLiquidatedExactlyWhen(closes: seq<real>, leverage: Leverage, mmr: real, r: SpotLegRisk)
    requires |ValidPrices(closes)| >= 2 && SpotAssessed(closes, leverage, mmr, r)
    ensures r.liquidated <==>
            exists i: nat, j: nat :: i <= j < |ValidPrices(closes)|
              && Drop(ValidPrices(closes)[i], ValidPrices(closes)[j]) <= mmr - 1.0 / leverage
  {
    var prices, v := ValidPrices(closes), r.worstSpotDrop.value;
    WorstDropIsAFall(v, prices);
    if r.liquidated {
      var i: nat, j: nat :| i <= j < |prices| && v == Drop(prices[i], prices[j]);
    }
  }

  lemma LeverageAgainstNeed(leverage: Leverage, need: real)
    ensures need >= 1.0 / leverage <==> leverage * need >= 1.0
  {
    var q: real := 1.0 / leverage;
    assert leverage * q == 1.0;
    if need >= q {
      assert leverage * need >= leverage * q;
    } else {
      assert leverage * need < leverage * q;
    }
  }

  /** The leverage reported as the highest safe one is not safe: it is the lowest that is liquidated, whenever
      the fall and the maintenance margin leave a leverage above 1, and 1 itself is liquidated otherwise. */
  lemma MaxSafeIsLiquidated(closes: seq<real>, l0: Leverage, l: Leverage, mmr: real, r0: SpotLegRisk, r: SpotLegRisk)
    requires |ValidPrices(closes)| >= 2 && mmr >= 0.0
    requires SpotAssessed(closes, l0, mmr, r0) && SpotAssessed(closes, l, mmr, r)
    ensures r0.maxSafeLeverage == r.maxSafeLeverage
    ensures r0.maxSafeLeverage == Finite(l) ==> r.liquidated
    ensures Abs(r.worstSpotDrop.value) + mmr < 1.0 ==>
              (r.liquidated <==> r0.maxSafeLeverage.Finite? && r0.maxSafeLeverage.value <= l)
  {
    SameWorstDrop(r0.worstSpotDrop.value, r.worstSpotDrop.value, ValidPrices(closes));
    var need := Abs(r.worstSpotDrop.value) + mmr;
    LeverageAgainstNeed(l, need);
    if need > 0.0 {
      var safe: Leverage := 1.0 / need;
      assert safe * need == 1.0;
      assert safe <= l <==> l * need >= 1.0 by {
        if safe <= l {
          assert safe * need <= l * need;
        } else {
          assert l * need < safe * need;
        }
      }
    }
  }

  lemma SameWorstDrop(v: real, w: real, prices: seq<Price>)
    requires IsWorstDrop(v, prices) && IsWorstDrop(w, prices)
    ensures v == w
  {
    var i: nat, j: nat :| i <= j < |prices| && v == Drop(prices[i], prices[j]);
    var k: nat, l: nat :| k <= l < |prices| && w == Drop(prices[k], prices[l]);
  }

  // ------------------------------------------------------------------ collateral transfers

  /** A buffer this large ends the wait after a top-up. */
  predicate Resets(threshold: real, buffer: real) {
    buffer >= threshold && buffer > threshold * 1.5
  }

  /** After n points: some point fell below the threshold, and none since has ended the wait. */
  ghost predicate Waiting(buffers: seq<real>, threshold: real, n: nat)
    requires n <= |buffers|
  {
    exists i: nat :: i < n && buffers[i] < threshold &&
      forall j: nat :: i < j < n ==> !Resets(threshold, buffers[j])
  }

  /** A transfer is made at point k: it is below the threshold and no earlier top-up still stands. */
  ghost predicate TransferAt(buffers: seq<real>, threshold: real, k: nat)
    requires k < |buffers|
  {
    buffers[k] < threshold && !Waiting(buffers, threshold, k)
  }

  ghost function Transfers(buffers: seq<real>, threshold: real, n: nat): nat
    requires n <= |buffers|
  {
    if n == 0 then 0
    else Transfers(buffers, threshold, n - 1) + if TransferAt(buffers, threshold, n - 1) then 1 else 0
  }

  lemma WaitingNext(buffers: seq<real>, threshold: real, n: nat)
    requires n < |buffers|
    ensures Waiting(buffers, threshold, n + 1) <==>
            buffers[n] < threshold || (Waiting(buffers, threshold, n) && !Resets(threshold, buffers[n]))
  {
    if Waiting(buffers, threshold, n) && !Resets(threshold, buffers[n]) {
      var i: nat :| i < n && buffers[i] < threshold && forall j: nat :: i < j < n ==> !Resets(threshold, buffers[j]);
      assert forall j: nat :: i < j < n + 1 ==> !Resets(threshold, buffers[j]);
    }
    if Waiting(buffers, threshold, n + 1) && buffers[n] >= threshold {
      var i: nat :| i < n + 1 && buffers[i] < threshold
                    && forall j: nat :: i < j < n + 1 ==> !Resets(threshold, buffers[j]);
      assert i < n;
    }
  }

  /** Between two transfers the buffer has been above one and a half times the threshold. */
  lemma TransfersAreSeparated(buffers: seq<real>, threshold: real, k: nat, l: nat)
    requires k < l < |buffers| && TransferAt(buffers, threshold, k) && TransferAt(buffers, threshold, l)
    ensures exists j: nat :: k < j < l && buffers[j] > threshold * 1.5
  {
    var j: nat :| k < j < l && Resets(threshold, buffers[j]);
  }

  /** So no more than every second point can have one. */
  lemma {:induction false} TransfersAtMostEverySecondPoint(buffers: seq<real>, threshold: real, n: nat)
    requires n <= |buffers|
    ensures 2 * Transfers(buffers, threshold, n) <= n + (if Waiting(buffers, threshold, n) then 1 else 0)
  {
    if n > 0 {
      TransfersAtMostEverySecondPoint(buffers, threshold, n - 1);
      WaitingNext(buffers, threshold, n - 1);
    }
  }

  lemma {:induction false} NoTransfersExactlyWhen(buffers: seq<real>, threshold: real, n: nat)
    requires n <= |buffers|
    ensures Transfers(buffers, threshold, n) == 0 <==> forall k: nat :: k < n ==> buffers[k] >= threshold
  {
    if n > 0 {
      NoTransfersExactlyWhen(buffers, threshold, n - 1);
    }
  }

  // ------------------------------------------------------------------ hedge rebalancing

  function DriftAt(p: MarginPoint): real {
    Abs(p.perpClose / p.spotPrice - 1.0)
  }

  function Drifts(points: seq<MarginPoint>): seq<real> {
    seq(|points|, k requires 0 <= k < |points| => DriftAt(points[k]))
  }

  /** The drift the book was last hedged at, after n points. */
  function HedgedAt(drifts: seq<real>, band: real, n: nat): real
    requires n <= |drifts|
    decreases n, 0
  {
    if n == 0 then 0.0
    else if RebalanceAt(drifts, band, n - 1) then drifts[n-1]
    else HedgedAt(drifts, band, n - 1)
  }

  predicate RebalanceAt(drifts: seq<real>, band: real, k: nat)
    requires k < |drifts|
    decreases k, 1
  {
    Abs(drifts[k] - HedgedAt(drifts, band, k)) >= band
  }

  function Rebalances(drifts: seq<real>, band: real, n: nat): nat
    requires n <= |drifts|
  {
    if n == 0 then 0
    else Rebalances(drifts, band, n - 1) + if RebalanceAt(drifts, band, n - 1) then 1 else 0
  }

  /** The drift before point n; none before the first. */
  function Before(drifts: seq<real>, n: nat): real
    requires n <= |drifts|
  {
    if n == 0 then 0.0 else drifts[n-1]
  }

  /** The initial drift and every change of the drift after it. */
  function Variation(drifts: seq<real>, n: nat): real
    requires n <= |drifts|
  {
    if n == 0 then 0.0 else Variation(drifts, n - 1) + Abs(drifts[n-1] - Before(drifts, n - 1))
  }

  /** `count` bands' widths. */
  function Widths(count: nat, band: real): real {
    if count == 0 then 0.0 else Widths(count - 1, band) + band
  }

  lemma {:induction false} WidthsAre(count: nat, band: real)
    ensures Widths(count, band) == count as real * band
  {
    if count > 0 {
      WidthsAre(count - 1, band);
      assert (count - 1) as real * band == count as real * band - band;
    }
  }

  /** Each rebalance uses up a band's width of variation. */
  lemma {:induction false} RebalancesUseVariation(drifts: seq<real>, band: real, n: nat)
    requires n <= |drifts|
    ensures Widths(Rebalances(drifts, band, n), band) + Abs(Before(drifts, n) - HedgedAt(drifts, band, n))
         <= Variation(drifts, n)
  {
    if n > 0 {
      RebalancesUseVariation(drifts, band, n - 1);
    }
  }

  lemma RebalancesWithinVariation(drifts: seq<real>, band: real)
    ensures Rebalances(drifts, band, |drifts|) as real * band <= Variation(drifts, |drifts|)
  {
    RebalancesUseVariation(drifts, band, |drifts|);
    WidthsAre(Rebalances(drifts, band, |drifts|), band);
  }

  /** After every point the book is within the band of what it was last hedged at. */
  lemma HedgeStaysInBand(drifts: seq<real>, band: real, n: nat)
    requires 0 < n <= |drifts| && band > 0.0
    ensures Abs(drifts[n-1] - HedgedAt(drifts, band, n)) < band
  {
  }

  lemma {:induction false} NoRebalancesExactlyWhen(drifts: seq<real>, band: real, n: nat)
    requires n <= |drifts|
    ensures Rebalances(drifts, band, n) == 0 <==> forall k: nat :: k < n ==> Abs(drifts[k]) < band
    ensures Rebalances(drifts, band, n) == 0 ==> HedgedAt(drifts, band, n) == 0.0
  {
    if n > 0 {
      NoRebalancesExactlyWhen(drifts, band, n - 1);
    }
  }

  // ------------------------------------------------------------------ both costs

  datatype CostOptions = CostOptions(
    collateralTransferCostBps: real, topUpThreshold: real, rebalanceSlippageBps: real, driftBand: real)

  datatype CarryCosts = CarryCosts(
    collateralTransfers: nat,
    collateralTransferCost: real,
    rebalances: nat,
    rollSlippageCost: real,
    totalCost: real,
    annualisedDrag: real)

  const NOTHING := CarryCosts(0, 0.0, 0, 0.0, 0.0, 0.0)

  function CrossMargin(marginRatio: real, maintenanceMarginRate: real): Options {
    Options(marginRatio, maintenanceMarginRate, true)
  }

  function Years(windowDays: real): (years: real)
    ensures years >= 1.0 / 365.0 && years > 0.0
  {
    Max(windowDays / 365.0, 1.0 / 365.0)
  }

  /** What `count` times a cost in basis points comes to. */
  function Priced(count: nat, bps: real): real {
    count as real * (bps / 10000.0)
  }

  /** The annualised share of a cost over a window. */
  function Yearly(cost: real, windowDays: real): real {
    cost / Years(windowDays)
  }

  ghost predicate CostsAssessed(
    points: seq<MarginPoint>, cfg: CostOptions, margin: real, mmr: real, windowDays: real, r: CarryCosts)
  {
    var n := |points|;
    if n < 2 then r == NOTHING
    else
      && r.collateralTransfers == Transfers(Buffers(points, CrossMargin(margin, mmr), n), cfg.topUpThreshold, n)
      && r.rebalances == Rebalances(Drifts(points), cfg.driftBand, n)
      && r.collateralTransferCost == Priced(r.collateralTransfers, cfg.collateralTransferCostBps)
      && r.rollSlippageCost == Priced(r.rebalances, cfg.rebalanceSlippageBps)
      && r.totalCost == r.collateralTransferCost + r.rollSlippageCost
      && r.annualisedDrag == Yearly(r.totalCost, windowDays)
  }

  method CountTransfers(points: seq<MarginPoint>, threshold: real, margin: real, mmr: real) returns (transfers: nat)
    requires points != []
    ensures transfers == Transfers(Buffers(points, CrossMargin(margin, mmr), |points|), threshold, |points|)
  {
    var perp0: real := points[0].perpClose;
    var spot0: real := points[0].spotPrice;
    var fundingCum := 0.0;
    var inTopUp := false;
    transfers := 0;
    ghost var o := CrossMargin(margin, mmr);
    ghost var buffers := Buffers(points, o, |points|);
    for i := 0 to |points|
      invariant fundingCum == Funding(points, i)
      invariant inTopUp == Waiting(buffers, threshold, i) && transfers == Transfers(buffers, threshold, i)
    {
      var p := points[i];
      fundingCum := fundingCum + p.funding;
      var perpMove := p.perpClose / perp0 - 1.0;
      var spotGain := p.spotPrice / spot0 - 1.0;
      var equity := margin + Max(0.0, spotGain) + fundingCum - perpMove;
      var buffer := equity - mmr;
      assert buffer == buffers[i] by {
        assert buffer == Buffer(points, o, i);
      }
      WaitingNext(buffers, threshold, i);
      if buffer < threshold {
        if !inTopUp {
          transfers := transfers + 1;
          inTopUp := true;
        }
      } else if buffer > threshold * 1.5 {
        inTopUp := false;
      }
    }
  }

  method CountRebalances(points: seq<MarginPoint>, band: real) returns (rebalances: nat)
    ensures rebalances == Rebalances(Drifts(points), band, |points|)
  {
    rebalances := 0;
    var lastDrift := 0.0;
    for i := 0 to |points|
      invariant lastDrift == HedgedAt(Drifts(points), band, i) && rebalances == Rebalances(Drifts(points), band, i)
    {
      var drift := Abs(points[i].perpClose / points[i].spotPrice - 1.0);
      assert drift == Drifts(points)[i];
      if Abs(drift - lastDrift) >= band {
        rebalances := rebalances + 1;
        lastDrift := drift;
      }
    }
  }

  method AssessCarryCosts(points: seq<MarginPoint>, cfg: CostOptions, margin: real, mmr: real, windowDays: real)
    returns (r: CarryCosts)
    ensures CostsAssessed(points, cfg, margin, mmr, windowDays, r)
  {
    if |points| < 2 {
      return NOTHING;
    }
    var transfers := CountTransfers(points, cfg.topUpThreshold, margin, mmr);
    var rebalances := CountRebalances(points, cfg.driftBand);
    var collateralTransferCost := transfers as real * (cfg.collateralTransferCostBps / 10000.0);
    var rollSlippageCost := rebalances as real * (cfg.rebalanceSlippageBps / 10000.0);
    var totalCost := collateralTransferCost + rollSlippageCost;
    r := CarryCosts(transfers, collateralTransferCost, rebalances, rollSlippageCost, totalCost,
                    totalCost / Years(windowDays));
  }

  /** The transfer counter against the liquidation model on the same path: no transfer exactly when the smallest
      buffer stays at or above the threshold, and at least one on every path that is liquidated. */
  lemma TransfersAgainstLiquidation(
    points: seq<MarginPoint>, cfg: CostOptions, margin: real, mmr: real, windowDays: real, r: CarryCosts, risk: Risk)
    requires |points| >= 2 && cfg.topUpThreshold >= 0.0
    requires CostsAssessed(points, cfg, margin, mmr, windowDays, r) && Assessed(points, CrossMargin(margin, mmr), risk)
    ensures risk.minBufferRatio.Some?
    ensures r.collateralTransfers == 0 <==> risk.minBufferRatio.value >= cfg.topUpThreshold
    ensures risk.liquidated ==> r.collateralTransfers >= 1
  {
    var o, n, threshold := CrossMargin(margin, mmr), |points|, cfg.topUpThreshold;
    var buffers := Buffers(points, o, n);
    NoTransfersExactlyWhen(buffers, threshold, n);
    RequiredIsMarginAndShortfall(points, o, risk);
    var k: nat :| FirstBreach(points, o, k) && AssessedTo(points, o, k, risk);
    var seen := Buffers(points, o, Examined(points, k));
    assert forall i :: 0 <= i < |seen| ==> seen[i] == buffers[i];
    assert k < n ==> buffers[k] < 0.0;
    var i :| 0 <= i < |seen| && seen[i] == risk.minBufferRatio.value;
    assert buffers[i] == risk.minBufferRatio.value;
  }

  lemma DividedUp(a: real, b: real, c: real)
    requires a * c <= b && c > 0.0
    ensures a <= b / c
  {
    assert (a * c) / c == a;
    DividedLoss(a * c, b, c);
  }

  lemma CountsAre(
    points: seq<MarginPoint>, cfg: CostOptions, margin: real, mmr: real, windowDays: real, r: CarryCosts)
    requires CostsAssessed(points, cfg, margin, mmr, windowDays, r) && |points| >= 2
    ensures r.collateralTransfers
         == Transfers(Buffers(points, CrossMargin(margin, mmr), |points|), cfg.topUpThreshold, |points|)
    ensures r.rebalances == Rebalances(Drifts(points), cfg.driftBand, |points|)
  {
  }

  lemma TransfersAreBounded(points: seq<MarginPoint>, threshold: real, o: Options, transfers: nat)
    requires points != [] && transfers == Transfers(Buffers(points, o, |points|), threshold, |points|)
    ensures 2 * transfers <= |points| + 1
  {
    TransfersAtMostEverySecondPoint(Buffers(points, o, |points|), threshold, |points|);
  }

  /** Rebalances counted as the window counts them, and none for fewer than two points. */
  ghost predicate Rebalanced(points: seq<MarginPoint>, band: real, rebalances: nat) {
    rebalances == if |points| < 2 then 0 else Rebalances(Drifts(points), band, |points|)
  }

  lemma RebalancedWidth(points: seq<MarginPoint>, band: real, rebalances: nat)
    requires Rebalanced(points, band, rebalances)
    ensures Widths(rebalances, band) <= Variation(Drifts(points), |points|)
  {
    if |points| < 2 {
      VariationIsPositive(Drifts(points), |points|);
    } else {
      RebalancesUseVariation(Drifts(points), band, |points|);
    }
  }

  lemma RebalancedBands(points: seq<MarginPoint>, band: real, rebalances: nat)
    requires Rebalanced(points, band, rebalances)
    ensures rebalances as real * band <= Variation(Drifts(points), |points|)
  {
    RebalancedWidth(points, band, rebalances);
    WidthsAre(rebalances, band);
  }

  lemma CostsRebalanced(
    points: seq<MarginPoint>, cfg: CostOptions, margin: real, mmr: real, windowDays: real, r: CarryCosts)
    requires CostsAssessed(points, cfg, margin, mmr, windowDays, r)
    ensures Rebalanced(points, cfg.driftBand, r.rebalances)
  {
  }

  lemma TransferCount(
    points: seq<MarginPoint>, cfg: CostOptions, margin: real, mmr: real, windowDays: real, r: CarryCosts)
    requires CostsAssessed(points, cfg, margin, mmr, windowDays, r)
    ensures 2 * r.collateralTransfers <= |points| + 1
  {
    if |points| >= 2 {
      CountsAre(points, cfg, margin, mmr, windowDays, r);
      TransfersAreBounded(points, cfg.topUpThreshold, CrossMargin(margin, mmr), r.collateralTransfers);
    }
  }

  /** Bounds on how often a window can cost something, from its length and the variation of its drift alone. */
  lemma CountsAreBounded(
    points: seq<MarginPoint>, cfg: CostOptions, margin: real, mmr: real, windowDays: real, r: CarryCosts)
    requires CostsAssessed(points, cfg, margin, mmr, windowDays, r)
    ensures 2 * r.collateralTransfers <= |points| + 1
    ensures r.rebalances as real * cfg.driftBand <= Variation(Drifts(points), |points|)
  {
    TransferCount(points, cfg, margin, mmr, windowDays, r);
    CostsRebalanced(points, cfg, margin, mmr, windowDays, r);
    RebalancedBands(points, cfg.driftBand, r.rebalances);
  }

  lemma NoWidth(band: real)
    ensures 0 as real * band == 0.0
  {
  }

  lemma CostsFromCounts(
    points: seq<MarginPoint>, cfg: CostOptions, margin: real, mmr: real, windowDays: real, r: CarryCosts)
    requires CostsAssessed(points, cfg, margin, mmr, windowDays, r)
    ensures r.totalCost == r.collateralTransfers as real * (cfg.collateralTransferCostBps / 10000.0)
                         + r.rebalances as real * (cfg.rebalanceSlippageBps / 10000.0)
    ensures r.annualisedDrag * Years(windowDays) == r.totalCost
  {
    if |points| < 2 {
      NoWidth(cfg.collateralTransferCostBps / 10000.0);
      NoWidth(cfg.rebalanceSlippageBps / 10000.0);
    } else {
      Drawdown.DividedBack(r.totalCost, Years(windowDays));
    }
  }

  /** What the bound on the costs follows from. */
  ghost predicate Bounded(points: seq<MarginPoint>, cfg: CostOptions, windowDays: real, r: CarryCosts) {
    && 2 * r.collateralTransfers <= |points| + 1
    && r.rebalances as real * cfg.driftBand <= Variation(Drifts(points), |points|)
    && r.totalCost == r.collateralTransfers as real * (cfg.collateralTransferCostBps / 10000.0)
                    + r.rebalances as real * (cfg.rebalanceSlippageBps / 10000.0)
    && r.annualisedDrag * Years(windowDays) == r.totalCost
  }

  lemma CostsBounded(
    points: seq<MarginPoint>, cfg: CostOptions, margin: real, mmr: real, windowDays: real, r: CarryCosts)
    requires CostsAssessed(points, cfg, margin, mmr, windowDays, r)
    ensures Bounded(points, cfg, windowDays, r)
  {
    CountsAreBounded(points, cfg, margin, mmr, windowDays, r);
    CostsFromCounts(points, cfg, margin, mmr, windowDays, r);
  }

  lemma BoundedCosts(points: seq<MarginPoint>, cfg: CostOptions, windowDays: real, r: CarryCosts)
    requires Bounded(points, cfg, windowDays, r) && cfg.driftBand > 0.0
    requires cfg.collateralTransferCostBps >= 0.0 && cfg.rebalanceSlippageBps >= 0.0
    ensures r.annualisedDrag * Years(windowDays)
         <= ((|points| + 1) as real / 2.0) * (cfg.collateralTransferCostBps / 10000.0)
          + (Variation(Drifts(points), |points|) / cfg.driftBand) * (cfg.rebalanceSlippageBps / 10000.0)
  {
    TotalIsBounded(r.totalCost, r.collateralTransfers, |points|, cfg.collateralTransferCostBps / 10000.0, r.rebalances,
                   Variation(Drifts(points), |points|), cfg.driftBand, cfg.rebalanceSlippageBps / 10000.0);
  }

  /** So what a window can cost is bounded too. */
  lemma CostsAreBounded(
    points: seq<MarginPoint>, cfg: CostOptions, margin: real, mmr: real, windowDays: real, r: CarryCosts)
    requires CostsAssessed(points, cfg, margin, mmr, windowDays, r) && cfg.driftBand > 0.0
    requires cfg.collateralTransferCostBps >= 0.0 && cfg.rebalanceSlippageBps >= 0.0
    ensures r.annualisedDrag * Years(windowDays)
         <= ((|points| + 1) as real / 2.0) * (cfg.collateralTransferCostBps / 10000.0)
          + (Variation(Drifts(points), |points|) / cfg.driftBand) * (cfg.rebalanceSlippageBps / 10000.0)
  {
    CostsBounded(points, cfg, margin, mmr, windowDays, r);
    BoundedCosts(points, cfg, windowDays, r);
  }

  lemma TotalIsBounded(
    total: real, transfers: nat, points: nat, transferCost: real, rebalances: nat, variation: real, band: real,
    rebalanceCost: real)
    requires total == transfers as real * transferCost + rebalances as real * rebalanceCost
    requires 2 * transfers <= points + 1 && rebalances as real * band <= variation
    requires band > 0.0 && transferCost >= 0.0 && rebalanceCost >= 0.0
    ensures total <= ((points + 1) as real / 2.0) * transferCost + (variation / band) * rebalanceCost
  {
    SumIsBounded(transfers as real, (points + 1) as real / 2.0, transferCost, rebalances as real, variation, band,
                 rebalanceCost);
  }

  lemma SumIsBounded(a: real, aMax: real, aCost: real, b: real, variation: real, band: real, bCost: real)
    requires a <= aMax && b * band <= variation && band > 0.0 && aCost >= 0.0 && bCost >= 0.0
    ensures a * aCost + b * bCost <= aMax * aCost + (variation / band) * bCost
  {
    DividedUp(b, variation, band);
  }

  lemma {:induction false} VariationIsPositive(drifts: seq<real>, n: nat)
    requires n <= |drifts|
    ensures Variation(drifts, n) >= 0.0
  {
    if n > 0 {
      VariationIsPositive(drifts, n - 1);
    }
  }
}
