/** The margin ratios of a short perpetual leg, as an account in money. */
module MarginMoney {
  import opened Wrappers
  import opened Extremes
  import opened Drawdown
  import opened Liquidation

  /** The funding of n points, from point `from` on. */
  function Received(points: seq<MarginPoint>, from: nat, n: nat): real
    requires from + n <= |points|
    decreases n
  {
    if n == 0 then 0.0 else points[from].funding + Received(points, from + 1, n - 1)
  }

  lemma {:induction false} ReceivedMore(points: seq<MarginPoint>, from: nat, n: nat)
    requires from + n < |points|
    ensures Received(points, from, n + 1) == Received(points, from, n) + points[from+n].funding
    decreases n
  {
    if n > 0 {
      ReceivedMore(points, from + 1, n - 1);
    }
  }

  lemma {:induction false} FundingIsReceived(points: seq<MarginPoint>, n: nat)
    requires n <= |points|
    ensures Funding(points, n) == Received(points, 0, n)
  {
    if n > 0 {
      FundingIsReceived(points, n - 1);
      ReceivedMore(points, 0, n - 1);
    }
  }

  lemma MoveInMoney(price: real, base: Price, quantity: real, notional: real)
    requires quantity * base == notional
    ensures notional * (price / base - 1.0) == quantity * (price - base)
  {
    var x := price / base;
    assert x * base == price;
    assert notional * x == quantity * (x * base);
  }

  lemma GainInMoney(x: real, notional: real)
    requires notional > 0.0
    ensures notional * Max(0.0, x) == Max(0.0, notional * x)
  {
  }

  lemma InMoney(
    n: real, margin: real, mmr: real, gain: real, funding: real, move: real, gained: real, lost: real)
    requires n * gain == gained && n * move == lost
    ensures n * (margin - (mmr - gain - funding + move)) == n * margin - n * mmr + gained + n * funding - lost
  {
  }

  /** What the long position has gained and may be moved across. */
  function MovedAcross(points: seq<MarginPoint>, o: Options, k: nat, long: real): real
    requires k < |points|
  {
    if o.collateralTransfer then Max(0.0, long * (points[k].spotPrice - points[0].spotPrice)) else 0.0
  }

  /** What the short position has lost. */
  function Lost(points: seq<MarginPoint>, k: nat, short: real): real
    requires k < |points|
  {
    short * (points[k].perpClose - points[0].perpClose)
  }

  lemma TransferInMoney(points: seq<MarginPoint>, o: Options, k: nat, notional: real, long: real)
    requires k < |points| && notional > 0.0 && long * points[0].spotPrice == notional
    ensures notional * Transferable(points, o, k) == MovedAcross(points, o, k, long)
  {
    MoveInMoney(points[k].spotPrice, points[0].spotPrice, long, notional);
    GainInMoney(SpotGain(points, k), notional);
  }

  /** The buffer of a notional in money, with one short position and one long position opened for it at the first
      point: the margin above maintenance and the funding on the notional, with what moves across and without what the
      short position has lost. */
  lemma BufferInMoney(
    points: seq<MarginPoint>, o: Options, k: nat, notional: real, short: real, long: real)
    requires k < |points| && notional > 0.0
    requires short * points[0].perpClose == notional && long * points[0].spotPrice == notional
    ensures notional * Buffer(points, o, k)
         == notional * o.marginRatio - notional * o.maintenanceMarginRate + MovedAcross(points, o, k, long)
          + notional * Received(points, 0, k + 1) - Lost(points, k, short)
  {
    FundingIsReceived(points, k + 1);
    MoveInMoney(points[k].perpClose, points[0].perpClose, short, notional);
    TransferInMoney(points, o, k, notional, long);
    InMoney(notional, o.marginRatio, o.maintenanceMarginRate, Transferable(points, o, k), Funding(points, k + 1),
            PerpMove(points, k), MovedAcross(points, o, k, long), Lost(points, k, short));
  }

  // ------------------------------------------------------------------ the first liquidation

  /** The time reported is that of the first point at which the buffer is negative; none is reported when there is no
      such point. */
  lemma FirstLiquidationIs(points: seq<MarginPoint>, o: Options, r: Risk)
    requires Assessed(points, o, r)
    ensures r.liquidated <==> exists k: nat :: k < |points| && Buffer(points, o, k) < 0.0
    ensures r.liquidated ==>
              exists k: nat :: k < |points| && r.firstLiquidationAt == Some(points[k].t) && Buffer(points, o, k) < 0.0
                               && forall j: nat :: j < k ==> Buffer(points, o, j) >= 0.0
    ensures !r.liquidated ==> r.firstLiquidationAt == None
  {
    if points != [] {
      var k: nat :| FirstBreach(points, o, k) && AssessedTo(points, o, k, r);
      assert k < |points| ==> Buffer(points, o, k) < 0.0;
    }
  }

  // ------------------------------------------------------------------ the worst moves

  lemma GreatestOf(v: real, xs: seq<real>)
    requires IsGreatest(v, [0.0] + xs)
    ensures v >= 0.0 && (v == 0.0 || v in xs) && forall i :: 0 <= i < |xs| ==> xs[i] <= v
  {
    var all := [0.0] + xs;
    assert all[0] == 0.0 && forall i :: 0 <= i < |xs| ==> all[i+1] == xs[i];
  }

  /** Of the points looked at, none has risen further than the worst adverse move, which is a rise or none, and one has
      risen that far if there is one; and so it is with the rise of the basis. */
  lemma WorstMovesAre(points: seq<MarginPoint>, o: Options, k: nat, r: Risk)
    requires k <= |points| && points != [] && AssessedTo(points, o, k, r)
    ensures var n, v := Examined(points, k), r.worstAdverseMove;
            && v >= 0.0 && (forall i: nat :: i < n ==> Rise(points, i) <= v)
            && (v == 0.0 || exists i: nat :: i < n && Rise(points, i) == v)
    ensures var n, v := Examined(points, k), r.worstBasisMove;
            && v >= 0.0 && (forall i: nat :: i < n ==> BasisRisen(points, i) <= v)
            && (v == 0.0 || exists i: nat :: i < n && BasisRisen(points, i) == v)
  {
    var n := Examined(points, k);
    var moves, basis := AdverseMoves(points, n), BasisMoves(points, n);
    GreatestOf(r.worstAdverseMove, moves);
    GreatestOf(r.worstBasisMove, basis);
    forall i: nat | i < n ensures moves[i] == Rise(points, i) && basis[i] == BasisRisen(points, i) {
      MovesAre(points, n, i);
    }
    if r.worstBasisMove in basis {
      var i :| 0 <= i < |basis| && basis[i] == r.worstBasisMove;
      assert BasisRisen(points, i) == r.worstBasisMove;
    }
  }

  /** The rise of the perpetual since the first point, as a share of its price then. */
  function Rise(points: seq<MarginPoint>, i: nat): real
    requires i < |points|
  {
    (points[i].perpClose - points[0].perpClose) / points[0].perpClose
  }

  /** What the perpetual is above the spot price, as a share of it, compared to the first point. */
  function BasisRisen(points: seq<MarginPoint>, i: nat): real
    requires i < |points|
  {
    (points[i].perpClose - points[i].spotPrice) / points[i].spotPrice
    - (points[0].perpClose - points[0].spotPrice) / points[0].spotPrice
  }

  lemma Share(a: real, b: Price)
    ensures (a - b) / b == a / b - 1.0
  {
    DividedBack(a - b, b);
    DividedBack(a, b);
    Distribute((a - b) / b, 1.0, b);
    SameFactor((a - b) / b + 1.0, a / b, b);
    SameFactor(a / b, (a - b) / b + 1.0, b);
  }

  lemma RiseIs(points: seq<MarginPoint>, i: nat)
    requires i < |points|
    ensures PerpMove(points, i) == Rise(points, i)
  {
    Share(points[i].perpClose, points[0].perpClose);
  }

  lemma BasisIs(p: MarginPoint)
    ensures Basis(p) == (p.perpClose - p.spotPrice) / p.spotPrice
  {
    Share(p.perpClose, p.spotPrice);
  }

  lemma MovesAt(points: seq<MarginPoint>, n: nat, i: nat)
    requires i < n <= |points|
    ensures AdverseMoves(points, n)[i] == PerpMove(points, i)
    ensures BasisMoves(points, n)[i] == Basis(points[i]) - Basis(points[0])
  {
  }

  lemma MovesAre(points: seq<MarginPoint>, n: nat, i: nat)
    requires i < n <= |points|
    ensures AdverseMoves(points, n)[i] == Rise(points, i) && BasisMoves(points, n)[i] == BasisRisen(points, i)
  {
    MovesAt(points, n, i);
    RiseIs(points, i);
    BasisIs(points[i]);
    BasisIs(points[0]);
  }
}
