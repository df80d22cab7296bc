/** When the trend loop opens and closes a position, and at what figures, from the candles alone. */
module TrendSignals {
  import opened Wrappers
  import opened Extremes
  import opened Drawdown
  import opened TrendLoop

  // ------------------------------------------------------------------ averages

  /** The sum of n closes, from bar `from` on. */
  function ClosesFrom(candles: seq<Candle>, from: nat, n: nat): real
    requires from + n <= |candles|
    decreases n
  {
    if n == 0 then 0.0 else candles[from].c + ClosesFrom(candles, from + 1, n - 1)
  }

  /** The sum of n true ranges, from bar `from` on. */
  function RangesFrom(candles: seq<Candle>, from: nat, n: nat): real
    requires 0 < from && from + n <= |candles|
    decreases n
  {
    if n == 0 then 0.0 else TrueRange(candles, from) + RangesFrom(candles, from + 1, n - 1)
  }

  lemma {:induction false} ClosesAdd(candles: seq<Candle>, from: nat, n: nat)
    requires from + n < |candles|
    ensures ClosesFrom(candles, from, n + 1) == ClosesFrom(candles, from, n) + candles[from+n].c
    decreases n
  {
    if n > 0 {
      ClosesAdd(candles, from + 1, n - 1);
    }
  }

  lemma {:induction false} RangesAdd(candles: seq<Candle>, from: nat, n: nat)
    requires 0 < from && from + n < |candles|
    ensures RangesFrom(candles, from, n + 1) == RangesFrom(candles, from, n) + TrueRange(candles, from + n)
    decreases n
  {
    if n > 0 {
      RangesAdd(candles, from + 1, n - 1);
    }
  }

  lemma {:induction false} SumOfClosesIs(candles: seq<Candle>, from: nat, n: nat)
    requires from + n <= |candles|
    ensures SumOfCloses(candles, from, from + n) == ClosesFrom(candles, from, n)
  {
    if n > 0 {
      SumOfClosesIs(candles, from, n - 1);
      ClosesAdd(candles, from, n - 1);
    }
  }

  lemma {:induction false} SumOfRangesIs(candles: seq<Candle>, from: nat, n: nat)
    requires 0 < from && from + n <= |candles|
    ensures SumOfRanges(candles, from, from + n) == RangesFrom(candles, from, n)
  {
    if n > 0 {
      SumOfRangesIs(candles, from, n - 1);
      RangesAdd(candles, from, n - 1);
    }
  }

  /** Whether there are enough closes up to bar i for an average of the last `period`. */
  predicate HasMean(period: nat, i: nat) {
    0 < period <= i + 1
  }

  /** The mean of the last `period` closes up to bar i. */
  function MeanClose(candles: seq<Candle>, period: nat, i: nat): real
    requires i < |candles| && HasMean(period, i)
  {
    ClosesFrom(candles, i + 1 - period, period) / period as real
  }

  function MeanIfAny(candles: seq<Candle>, period: nat, i: nat): Option<real>
    requires i < |candles|
  {
    if HasMean(period, i) then Some(MeanClose(candles, period, i)) else None
  }

  lemma SmaIsMean(candles: seq<Candle>, period: nat, i: nat)
    requires i < |candles|
    ensures Sma(candles, period, i) == MeanIfAny(candles, period, i)
  {
    if HasMean(period, i) {
      SumOfClosesIs(candles, i + 1 - period, period);
    }
  }

  /** The true range of a well-formed candle is the distance that high, low and the close before it span. */
  lemma TrueRangeIsSpan(candles: seq<Candle>, k: nat)
    requires 0 < k < |candles| && candles[k].l <= candles[k].h
    ensures TrueRange(candles, k) == Max(candles[k].h, candles[k-1].c) - Min(candles[k].l, candles[k-1].c)
  {
  }

  /** Whether there are enough bars before bar i for an average of `period` true ranges. */
  predicate HasRange(period: nat, i: nat) {
    0 < period <= i
  }

  /** The mean of the last `period` true ranges up to bar i. */
  function MeanRange(candles: seq<Candle>, period: nat, i: nat): real
    requires i < |candles| && HasRange(period, i)
  {
    RangesFrom(candles, i + 1 - period, period) / period as real
  }

  lemma AtrIsMean(candles: seq<Candle>, period: nat, i: nat)
    requires i < |candles|
    ensures Atr(candles, period, i) == if HasRange(period, i) then Some(MeanRange(candles, period, i)) else None
  {
    if HasRange(period, i) {
      SumOfRangesIs(candles, i + 1 - period, period);
    }
  }

  // ------------------------------------------------------------------ entries

  /** There are averages on the bar, and that of the fast closes is above that of the slow ones. */
  predicate Above(s: Setup, i: nat)
    requires i < |s.candles|
  {
    && HasMean(s.params.fast, i) && HasMean(s.params.slow, i)
    && MeanClose(s.candles, s.params.fast, i) > MeanClose(s.candles, s.params.slow, i)
  }

  /** There are averages on the bar, and that of the fast closes is not above that of the slow ones. */
  predicate NotAbove(s: Setup, i: nat)
    requires i < |s.candles|
  {
    && HasMean(s.params.fast, i) && HasMean(s.params.slow, i)
    && MeanClose(s.candles, s.params.fast, i) <= MeanClose(s.candles, s.params.slow, i)
  }

  /** The mean of the fast closes, which was not above that of the slow closes, now is, and the mean range is
      positive. */
  predicate Crosses(s: Setup, i: nat)
    requires 0 < i < |s.candles|
  {
    && Above(s, i) && NotAbove(s, i - 1)
    && HasRange(s.params.atrPeriod, i) && MeanRange(s.candles, s.params.atrPeriod, i) > 0.0
  }

  lemma AboveIs(s: Setup, i: nat)
    requires i < |s.candles|
    ensures Above(s, i) <==> Less(Sma(s.candles, s.params.slow, i), Sma(s.candles, s.params.fast, i))
    ensures NotAbove(s, i) <==> AtMost(Sma(s.candles, s.params.fast, i), Sma(s.candles, s.params.slow, i))
  {
    SmaIsMean(s.candles, s.params.fast, i);
    SmaIsMean(s.candles, s.params.slow, i);
  }

  /** The signs that make the size positive: a positive cap, and a risk budget of the sign of the stop multiple. */
  predicate AllowsSize(params: TrendParams, equity: real) {
    && equity * params.maxGrossExposure > 0.0
    && if params.stopAtrMultiple < 0.0 then equity * params.riskPerTrade < 0.0
       else equity * params.riskPerTrade > 0.0
  }

  lemma SignalIsCrossing(s: Setup, i: nat)
    requires 0 < i < |s.candles|
    ensures EntrySignal(s, i) <==> Crosses(s, i)
  {
    AboveIs(s, i);
    AboveIs(s, i - 1);
    AtrIsMean(s.candles, s.params.atrPeriod, i);
  }

  lemma QuotientSign(a: real, d: real)
    requires d != 0.0
    ensures a / d > 0.0 <==> if d < 0.0 then a < 0.0 else a > 0.0
  {
    var q := a / d;
    assert q * d == a;
  }

  lemma ProductSign(a: real, d: real)
    requires d > 0.0
    ensures (a * d > 0.0 <==> a > 0.0) && (a * d < 0.0 <==> a < 0.0)
  {
  }

  lemma SizeSign(s: Setup, equity: real, i: nat)
    requires 0 < i < |s.candles| && EntrySignal(s, i)
    ensures Quantity(s, equity, i) > 0.0 <==> AllowsSize(s.params, equity)
  {
    var d := StopDistance(s, i);
    ProductSign(s.params.stopAtrMultiple, Atr(s.candles, s.params.atrPeriod, i).value);
    QuotientSign(ExposureCap(s.params, equity), EntryPrice(s, i));
    if d != 0.0 {
      QuotientSign(RiskBudget(s.params, equity), d);
    }
  }

  /** A position is opened on a bar exactly when there is none, the fast closes have just crossed above the slow ones,
      and the size is positive. */
  lemma OpensExactlyWhen(s: Setup, i: nat)
    requires 0 < i < |s.candles| && BookAt(s, i).position.None?
    ensures BookAt(s, i + 1).position.Some? <==> Crosses(s, i) && AllowsSize(s.params, BookAt(s, i).equity)
    ensures BookAt(s, i + 1).position.None? ==> BookAt(s, i + 1) == BookAt(s, i)
  {
    SignalIsCrossing(s, i);
    if EntrySignal(s, i) {
      SizeSign(s, BookAt(s, i).equity, i);
    }
  }

  /** A position bought at the close and the slippage, with the stop a multiple of the mean range below, of as much as
      both caps allow. */
  predicate BoughtAs(s: Setup, equity: real, i: nat, p: Position)
    requires 0 < i < |s.candles| && HasRange(s.params.atrPeriod, i)
  {
    var distance := s.params.stopAtrMultiple * MeanRange(s.candles, s.params.atrPeriod, i);
    && p.symbol == s.symbol && p.entryTime == s.candles[i].t
    && p.entryPrice == s.candles[i].c * (1.0 + s.params.slippage) && p.stop == p.entryPrice - distance
    && TakesAll(s.params, equity, p.qty, p.entryPrice, distance)
  }

  /** The quantity keeps both caps and reaches one of them. */
  predicate TakesAll(params: TrendParams, equity: real, qty: real, price: real, distance: real) {
    && qty * price <= equity * params.maxGrossExposure
    && (distance > 0.0 ==> qty * distance <= equity * params.riskPerTrade)
    && (qty * price == equity * params.maxGrossExposure
        || (distance != 0.0 && qty * distance == equity * params.riskPerTrade))
  }

  lemma SizedTakesAll(params: TrendParams, equity: real, distance: real, price: real)
    requires price > 0.0 && Sized(params, equity, distance, price) > 0.0
    ensures TakesAll(params, equity, Sized(params, equity, distance, price), price, distance)
  {
    var cap, budget := ExposureCap(params, equity), RiskBudget(params, equity);
    var qty := Sized(params, equity, distance, price);
    DividedBack(cap, price);
    WithinBudget(qty, cap, price);
    if distance > 0.0 {
      WithinBudget(qty, budget, distance);
    }
    if distance != 0.0 {
      BudgetAllowed(budget, distance);
    }
  }

  lemma OpenedAs(s: Setup, equity: real, i: nat)
    requires 0 < i < |s.candles| && Opened(s, equity, i).Some?
    ensures HasRange(s.params.atrPeriod, i) && BoughtAs(s, equity, i, Opened(s, equity, i).value)
  {
    AtrIsMean(s.candles, s.params.atrPeriod, i);
    SizedTakesAll(s.params, equity, StopDistance(s, i), EntryPrice(s, i));
  }

  /** The position opened on bar i is bought at the figures of that bar, and the fee of the purchase is paid. */
  lemma OpenedFigures(s: Setup, i: nat)
    requires 0 < i < |s.candles| && BookAt(s, i).position.None? && BookAt(s, i + 1).position.Some?
    ensures var p := BookAt(s, i + 1).position.value;
            && HasRange(s.params.atrPeriod, i) && BoughtAs(s, BookAt(s, i).equity, i, p)
            && BookAt(s, i + 1).equity == BookAt(s, i).equity - Cost(s.params, p.entryPrice, p.qty)
            && BookAt(s, i + 1).trades == BookAt(s, i).trades
  {
    OpenedAs(s, BookAt(s, i).equity, i);
  }

  lemma BudgetAllowed(budget: real, distance: real)
    requires distance != 0.0
    ensures Worth(budget / distance, distance) == budget
  {
    var q := budget / distance;
    assert q * distance == budget;
  }

  // ------------------------------------------------------------------ exits

  /** The stop of a position on bar x: a multiple of the mean range below the close, or where it was. */
  function StopOn(s: Setup, carried: real, x: nat): real
    requires x < |s.candles|
  {
    if HasRange(s.params.atrPeriod, x)
    then Max(carried, s.candles[x].c - s.params.stopAtrMultiple * MeanRange(s.candles, s.params.atrPeriod, x))
    else carried
  }

  /** The mean of the fast closes is below that of the slow closes. */
  predicate Broken(s: Setup, x: nat)
    requires x < |s.candles|
  {
    && HasMean(s.params.fast, x) && HasMean(s.params.slow, x)
    && MeanClose(s.candles, s.params.fast, x) < MeanClose(s.candles, s.params.slow, x)
  }

  lemma TrailedIs(s: Setup, p: Position, lastStopUpdate: int, x: nat)
    requires 0 < x < |s.candles| && lastStopUpdate < x
    ensures Trailed(s, p, lastStopUpdate, x) == p.(stop := StopOn(s, p.stop, x))
  {
    AtrIsMean(s.candles, s.params.atrPeriod, x);
  }

  lemma BrokenIs(s: Setup, x: nat)
    requires x < |s.candles|
    ensures TrendBroken(s, x) <==> Broken(s, x)
  {
    SmaIsMean(s.candles, s.params.fast, x);
    SmaIsMean(s.candles, s.params.slow, x);
  }

  /** The position with the stop it has at the end of bar x. */
  function HeldOn(s: Setup, x: nat): Position
    requires 0 < x < |s.candles| && BookAt(s, x).position.Some?
  {
    var p := BookAt(s, x).position.value;
    p.(stop := StopOn(s, p.stop, x))
  }

  lemma HeldIsTrailed(s: Setup, x: nat)
    requires 0 < x < |s.candles| && BookAt(s, x).position.Some?
    ensures HeldOn(s, x) == Trailed(s, BookAt(s, x).position.value, BookAt(s, x).lastStopUpdate, x)
  {
    PositionIsHeld(s, x);
    TrailedIs(s, BookAt(s, x).position.value, BookAt(s, x).lastStopUpdate, x);
  }

  /** A position is closed on a bar exactly when the low reaches the stop or the fast closes are below the slow ones;
      otherwise it goes on with the stop of the bar. */
  lemma ClosesExactlyWhen(s: Setup, x: nat)
    requires 0 < x < |s.candles| && BookAt(s, x).position.Some?
    ensures BookAt(s, x + 1).position.None? <==> s.candles[x].l <= HeldOn(s, x).stop || Broken(s, x)
    ensures BookAt(s, x + 1).position.Some? ==>
              && BookAt(s, x + 1).position.value == HeldOn(s, x)
              && BookAt(s, x + 1).equity == BookAt(s, x).equity && BookAt(s, x + 1).trades == BookAt(s, x).trades
  {
    HeldIsTrailed(s, x);
    BrokenIs(s, x);
  }

  /** A trade that sells the position on bar x: on a reached stop at the stop, or at the open if that is lower, and
      otherwise at the close; the fee of the sale and the price of the purchase come off the proceeds. */
  predicate SoldAs(s: Setup, x: nat, p: Position, t: Trade)
    requires x < |s.candles|
  {
    var reached := s.candles[x].l <= p.stop;
    && t.symbol == s.symbol && t.entryTime == p.entryTime && t.exitTime == s.candles[x].t
    && t.entryPrice == p.entryPrice && t.qty == p.qty
    && t.reason == (if reached then Stop else TrendBreak)
    && t.exitPrice == (if reached then Min(p.stop, s.candles[x].o) else s.candles[x].c)
    && t.pnl == t.exitPrice * t.qty - t.exitPrice * t.qty * (s.params.takerFee + s.params.slippage)
                - t.entryPrice * t.qty
  }

  lemma ClosedAs(s: Setup, x: nat, p: Position)
    requires x < |s.candles|
    ensures SoldAs(s, x, p, Closed(s, p, x))
  {
  }

  /** The trade that a closed position leaves, and what it makes, are those of the bar. */
  lemma ClosedFigures(s: Setup, x: nat)
    requires 0 < x < |s.candles| && BookAt(s, x).position.Some? && BookAt(s, x + 1).position.None?
    ensures var trades := BookAt(s, x + 1).trades;
            && trades != [] && trades[..|trades|-1] == BookAt(s, x).trades
            && SoldAs(s, x, HeldOn(s, x), trades[|trades|-1])
            && BookAt(s, x + 1).equity == BookAt(s, x).equity + trades[|trades|-1].pnl
  {
    HeldIsTrailed(s, x);
    ClosedAs(s, x, HeldOn(s, x));
  }

  // ------------------------------------------------------------------ the figures of a run

  /** The equity path begins with the starting equity; on every later bar it is the account and, with a position, what
      the position has gained at the close. */
  lemma PathIs(s: Setup, i: nat)
    requires i < |s.candles|
    ensures EquityPath(s)[i]
         == if i == 0 then s.startingEquity
            else BookAt(s, i + 1).equity + PositionGain(BookAt(s, i + 1).position, s.candles[i].c)
  {
    if i > 0 {
      GainIs(BookAt(s, i + 1).position, s.candles[i].c);
    }
  }

  function PositionGain(position: Option<Position>, price: real): real {
    if position.Some? then price * position.value.qty - position.value.entryPrice * position.value.qty else 0.0
  }

  lemma GainIs(position: Option<Position>, price: real)
    ensures OpenMark(position, price) == PositionGain(position, price)
  {
  }

  /** The exposure of a bar is the worth of the position at the close in proportion to the account, and none without a
      position or when the account is not positive. */
  lemma ExposureIs(position: Option<Position>, close: real, marked: real)
    ensures if position.Some? && marked > 0.0
            then Exposure(position, close, marked) * marked == position.value.qty * close
            else Exposure(position, close, marked) == 0.0
  {
    if position.Some? && marked > 0.0 {
      DividedBack(position.value.qty * close, marked);
    }
  }

  /** The exposures of n bars, from bar `from` on. */
  function ExposuresFrom(s: Setup, from: nat, n: nat): real
    requires 0 < from && from + n <= |s.candles|
    decreases n
  {
    if n == 0 then 0.0 else ExposureAt(s, from) + ExposuresFrom(s, from + 1, n - 1)
  }

  lemma {:induction false} ExposuresAdd(s: Setup, from: nat, n: nat)
    requires 0 < from && from + n < |s.candles|
    ensures ExposuresFrom(s, from, n + 1) == ExposuresFrom(s, from, n) + ExposureAt(s, from + n)
    decreases n
  {
    if n > 0 {
      ExposuresAdd(s, from + 1, n - 1);
    }
  }

  lemma {:induction false} ExposureToIs(s: Setup, n: nat)
    requires 0 < n <= |s.candles|
    ensures ExposureTo(s, n) == ExposuresFrom(s, 1, n - 1)
  {
    if n > 1 {
      ExposureToIs(s, n - 1);
      ExposuresAdd(s, 1, n - 2);
    }
  }

  /** A run reports the mean exposure of its bars but the first. */
  lemma AverageExposure(s: Setup, r: Outcome)
    requires |s.candles| > 1 && Ran(s, r)
    ensures r.avgExposure == ExposuresFrom(s, 1, |s.candles| - 1) / (|s.candles| - 1) as real
  {
    ExposureToIs(s, |s.candles|);
  }

  /** And what the price alone has made. */
  lemma PriceReturn(s: Setup, r: Outcome)
    requires s.candles != [] && Ran(s, r)
    ensures (1.0 + r.buyHold) * s.candles[0].c == s.candles[|s.candles|-1].c
  {
    ReturnOf(s.candles[|s.candles|-1].c, s.candles[0].c, r.buyHold);
  }

  lemma ReturnOf(last: Price, first: Price, made: real)
    requires made == last / first - 1.0
    ensures (1.0 + made) * first == last
  {
    DividedBack(last, first);
  }

  /** The peak reported is the highest point of the equity path. */
  lemma PeakIsReported(s: Setup, r: Outcome)
    requires s.candles != [] && Ran(s, r)
    ensures exists i: nat :: HighestAt(EquityPath(s), i, |s.candles| - 1) && r.peak == EquityPath(s)[i]
  {
    var i := PeakIsHighest(EquityPath(s), |s.candles|);
  }

  /** The averages reported are those of the last bar. */
  lemma AveragesReported(s: Setup, r: Outcome)
    requires s.candles != [] && Ran(s, r)
    ensures var last := |s.candles| - 1;
            && r.fast == MeanIfAny(s.candles, s.params.fast, last)
            && r.slow == MeanIfAny(s.candles, s.params.slow, last)
  {
    SmaIsMean(s.candles, s.params.fast, |s.candles| - 1);
    SmaIsMean(s.candles, s.params.slow, |s.candles| - 1);
  }
}
