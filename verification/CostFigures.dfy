/** When the spot leg is liquidated, and when the book is topped up and hedged again, from the prices alone. */
module CostFigures {
  import opened Extremes
  import opened Liquidation
  import opened Costs

  // ------------------------------------------------------------------ the spot leg

  /** Some price falls to some later one by that much; prices that are not positive do not count. */
  ghost predicate Falls(closes: seq<real>, fall: real) {
    exists i: nat, j: nat :: FallsAt(closes, fall, i, j)
  }

  predicate FallsAt(closes: seq<real>, fall: real, i: nat, j: nat) {
    i <= j < |closes| && closes[i] > 0.0 && closes[j] > 0.0 && closes[j] / closes[i] - 1.0 <= fall
  }

  /** Some price is that much above a later price `to`. */
  ghost predicate FallsTo(closes: seq<real>, fall: real, from: real) {
    from > 0.0 && exists j: nat :: j < |closes| && closes[j] > 0.0 && closes[j] / from - 1.0 <= fall
  }

  lemma {:induction false} ValidFallsTo(closes: seq<real>, fall: real, from: real)
    ensures FallsTo(ValidPrices(closes), fall, from) <==> FallsTo(closes, fall, from)
  {
    if closes != [] {
      ValidFallsTo(closes[1..], fall, from);
      FallsToNext(closes, fall, from);
      if closes[0] > 0.0 {
        assert ValidPrices(closes)[1..] == ValidPrices(closes[1..]);
        FallsToNext(ValidPrices(closes), fall, from);
      } else {
        assert ValidPrices(closes) == ValidPrices(closes[1..]);
      }
    }
  }

  lemma FallsToNext(closes: seq<real>, fall: real, from: real)
    requires closes != []
    ensures FallsTo(closes, fall, from) <==>
              FallsTo(closes[1..], fall, from) || (from > 0.0 && closes[0] > 0.0 && closes[0] / from - 1.0 <= fall)
  {
    var rest := closes[1..];
    if FallsTo(rest, fall, from) {
      var j: nat :| j < |rest| && rest[j] > 0.0 && rest[j] / from - 1.0 <= fall;
      assert closes[j+1] == rest[j];
    }
    if FallsTo(closes, fall, from) {
      var j: nat :| j < |closes| && closes[j] > 0.0 && closes[j] / from - 1.0 <= fall;
      assert j > 0 ==> rest[j-1] == closes[j];
    }
  }

  lemma FallsNext(closes: seq<real>, fall: real)
    requires closes != []
    ensures Falls(closes, fall) <==> Falls(closes[1..], fall) || FallsTo(closes, fall, closes[0])
  {
    var rest := closes[1..];
    if Falls(rest, fall) {
      var i: nat, j: nat :| FallsAt(rest, fall, i, j);
      assert FallsAt(closes, fall, i + 1, j + 1);
    }
    if Falls(closes, fall) {
      var i: nat, j: nat :| FallsAt(closes, fall, i, j);
      assert i > 0 ==> FallsAt(rest, fall, i - 1, j - 1);
    }
    if FallsTo(closes, fall, closes[0]) {
      var j: nat :| j < |closes| && closes[j] > 0.0 && closes[j] / closes[0] - 1.0 <= fall;
      assert FallsAt(closes, fall, 0, j);
    }
  }

  lemma {:induction false} ValidFalls(closes: seq<real>, fall: real)
    ensures Falls(ValidPrices(closes), fall) <==> Falls(closes, fall)
  {
    if closes != [] {
      ValidFalls(closes[1..], fall);
      FallsNext(closes, fall);
      if closes[0] > 0.0 {
        var valid: seq<real> := ValidPrices(closes);
        assert valid[0] == closes[0] && valid[1..] == ValidPrices(closes[1..]);
        FallsNext(valid, fall);
        ValidFallsTo(closes, fall, closes[0]);
      } else {
        assert ValidPrices(closes) == ValidPrices(closes[1..]);
      }
    }
  }

  /** With two prices or more, the leg is liquidated exactly when some close falls to some later one by at least one
      over the leverage less the maintenance margin. */
  lemma LiquidatedOnCloses(closes: seq<real>, leverage: Leverage, mmr: real, r: SpotLegRisk)
    requires SpotAssessed(closes, leverage, mmr, r) && |ValidPrices(closes)| >= 2
    ensures r.liquidated <==> Falls(closes, mmr - 1.0 / leverage)
  {
    SpotLiquidatedExactlyWhen(closes, leverage, mmr, r);
    ValidFalls(closes, mmr - 1.0 / leverage);
    var prices, fall := ValidPrices(closes), mmr - 1.0 / leverage;
    forall i: nat, j: nat | i <= j < |prices|
      ensures FallsAt(prices, fall, i, j) <==> Drop(prices[i], prices[j]) <= fall
    {
    }
  }

  // ------------------------------------------------------------------ top-ups

  /** Between the two points the buffer has been at or above the threshold and above one and a half times it. */
  ghost predicate RelievedBetween(buffers: seq<real>, threshold: real, i: nat, k: nat)
    requires k <= |buffers|
  {
    exists j: nat :: i < j < k && buffers[j] >= threshold && buffers[j] > threshold * 1.5
  }

  /** A transfer is made exactly at a point below the threshold with such relief between it and every earlier point
      below the threshold. */
  lemma TransferExactlyWhen(buffers: seq<real>, threshold: real, k: nat)
    requires k < |buffers|
    ensures TransferAt(buffers, threshold, k) <==>
              && buffers[k] < threshold
              && forall i: nat :: i < k && buffers[i] < threshold ==> RelievedBetween(buffers, threshold, i, k)
  {
    forall i: nat | i < k
      ensures RelievedBetween(buffers, threshold, i, k) <==>
                !(forall j: nat :: i < j < k ==> !Resets(threshold, buffers[j]))
    {
      assert forall j: nat :: i < j < k ==>
        (Resets(threshold, buffers[j]) <==> buffers[j] >= threshold && buffers[j] > threshold * 1.5);
    }
  }

  /** The buffers that are counted are those of a book whose spot gains count as margin. */
  lemma CountedBuffersAreCross(points: seq<MarginPoint>, margin: real, mmr: real, k: nat)
    requires k < |points|
    ensures Buffers(points, CrossMargin(margin, mmr), |points|)[k] == Buffer(points, Options(margin, mmr, true), k)
  {
  }

  // ------------------------------------------------------------------ the hedge

  /** The drift of a point is the gap between its prices, as a share of the spot price. */
  lemma DriftIsGap(p: MarginPoint)
    ensures DriftAt(p) * p.spotPrice == Abs(p.perpClose - p.spotPrice)
  {
    var x := p.perpClose / p.spotPrice;
    assert x * p.spotPrice == p.perpClose;
    assert (x - 1.0) * p.spotPrice == p.perpClose - p.spotPrice;
  }

  lemma ShareBelow(share: real, band: real, price: Price, gap: real)
    requires share * price == gap
    ensures share < band <==> gap < band * price
  {
  }

  lemma DriftInBand(p: MarginPoint, band: real)
    ensures Abs(DriftAt(p)) < band <==> Abs(p.perpClose - p.spotPrice) < band * p.spotPrice
  {
    DriftIsGap(p);
    assert Abs(DriftAt(p)) == DriftAt(p);
    ShareBelow(DriftAt(p), band, p.spotPrice, Abs(p.perpClose - p.spotPrice));
  }

  /** The gap between the prices of the point is smaller than the band's share of the spot price. */
  predicate InBand(p: MarginPoint, band: real) {
    Abs(p.perpClose - p.spotPrice) < band * p.spotPrice
  }

  lemma DriftOf(points: seq<MarginPoint>, k: nat)
    requires k < |points|
    ensures Drifts(points)[k] == DriftAt(points[k])
  {
  }

  lemma HedgeOf(drifts: seq<real>, band: real, n: nat)
    requires n < |drifts| && HedgedAt(drifts, band, n) == 0.0
    ensures RebalanceAt(drifts, band, n) <==> !(Abs(drifts[n]) < band)
  {
  }

  lemma HedgeOfPoint(points: seq<MarginPoint>, band: real, n: nat)
    requires n < |points| && HedgedAt(Drifts(points), band, n) == 0.0
    ensures RebalanceAt(Drifts(points), band, n) <==> !InBand(points[n], band)
  {
    HedgeOf(Drifts(points), band, n);
    DriftOf(points, n);
    DriftInBand(points[n], band);
  }

  lemma NoneSoFar(drifts: seq<real>, band: real, n: nat)
    requires n < |drifts|
    ensures Rebalances(drifts, band, n) == 0 ==> HedgedAt(drifts, band, n) == 0.0
    ensures Rebalances(drifts, band, n + 1) == 0 <==>
              Rebalances(drifts, band, n) == 0 && !RebalanceAt(drifts, band, n)
  {
    NoRebalancesExactlyWhen(drifts, band, n);
  }

  /** The first n points are in the band. */
  predicate InBandTo(points: seq<MarginPoint>, band: real, n: nat)
    requires n <= |points|
  {
    n > 0 ==> InBandTo(points, band, n - 1) && InBand(points[n-1], band)
  }

  /** The book is never hedged again exactly when every point is in the band. */
  lemma {:induction false} NeverHedgedExactlyWhen(points: seq<MarginPoint>, band: real, n: nat)
    requires n <= |points|
    ensures Rebalances(Drifts(points), band, n) == 0 <==> InBandTo(points, band, n)
  {
    if n > 0 {
      NeverHedgedExactlyWhen(points, band, n - 1);
      NoneSoFar(Drifts(points), band, n - 1);
      if Rebalances(Drifts(points), band, n - 1) == 0 {
        HedgeOfPoint(points, band, n - 1);
      }
    }
  }

  // ------------------------------------------------------------------ the costs

  /** The leverage reported as the highest safe one is 1 when all of the price is needed, and otherwise takes what is
      needed up to exactly 1. */
  lemma SafeLeverageIs(need: real)
    ensures need >= 1.0 ==> SafeLeverage(need) == Finite(1.0)
    ensures need == 0.0 ==> SafeLeverage(need) == Infinite
    ensures need < 1.0 && need != 0.0 ==> SafeLeverage(need).Finite? && SafeLeverage(need).value * need == 1.0
  {
    if need < 1.0 && need != 0.0 {
      var v := 1.0 / need;
      assert v * need == 1.0;
    }
  }

  lemma PricedIs(count: nat, bps: real)
    ensures Priced(count, bps) * 10000.0 == count as real * bps
  {
    var share := bps / 10000.0;
    assert share * 10000.0 == bps;
  }

  lemma YearlyIs(cost: real, windowDays: real)
    ensures Yearly(cost, windowDays) * Max(windowDays, 1.0) == cost * 365.0
  {
    var years := Years(windowDays);
    assert years * 365.0 == Max(windowDays, 1.0);
    var drag := cost / years;
    assert drag * years == cost;
  }

  /** A window of two points or more costs so many basis points a transfer and so many a rebalance, and what it drags on
      a year is its cost by the days of the window, of which there is at least one. A shorter one costs nothing. */
  lemma CostsAre(points: seq<MarginPoint>, cfg: CostOptions, margin: real, mmr: real, windowDays: real, r: CarryCosts)
    requires CostsAssessed(points, cfg, margin, mmr, windowDays, r)
    ensures |points| < 2 ==> r == CarryCosts(0, 0.0, 0, 0.0, 0.0, 0.0)
    ensures |points| >= 2 ==>
              && r.collateralTransferCost * 10000.0 == r.collateralTransfers as real * cfg.collateralTransferCostBps
              && r.rollSlippageCost * 10000.0 == r.rebalances as real * cfg.rebalanceSlippageBps
              && r.totalCost == r.collateralTransferCost + r.rollSlippageCost
              && r.annualisedDrag * Max(windowDays, 1.0) == r.totalCost * 365.0
  {
    if |points| >= 2 {
      PricedIs(r.collateralTransfers, cfg.collateralTransferCostBps);
      PricedIs(r.rebalances, cfg.rebalanceSlippageBps);
      YearlyIs(r.totalCost, windowDays);
    }
  }
}
