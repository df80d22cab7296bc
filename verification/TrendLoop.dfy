/** The trailing-stop position machine over daily candles, and what its ledger adds up to. */
module TrendLoop {
  import opened Wrappers
  import opened Extremes
  import opened Drawdown

  type Price = r: real | 0.0 < r witness 1.0

  datatype Candle = Candle(t: int, o: Price, h: Price, l: Price, c: Price)

  datatype Params = Params(
    fast: nat,
    slow: nat,
    atrPeriod: nat,
    stopAtrMultiple: real,
    riskPerTrade: real,
    takerFee: real,
    slippage: real,
    maxGrossExposure: real)

  /** An entry price that is a price. */
  type TrendParams = p: Params | p.slippage > -1.0
    witness Params(20, 60, 14, 2.0, 0.01, 0.0005, 0.0002, 1.0)

  datatype Reason = Stop | TrendBreak

  datatype Position = Position(symbol: string, entryPrice: real, qty: real, stop: real, entryTime: int)

  datatype Trade = Trade(
    symbol: string,
    entryTime: int,
    exitTime: int,
    entryPrice: real,
    exitPrice: real,
    qty: real,
    pnl: real,
    reason: Reason)

  // ------------------------------------------------------------------ indicators

  /** The sum of the closes from index `from` up to, not including, `to`. */
  function SumOfCloses(candles: seq<Candle>, from: nat, to: nat): real
    requires from <= to <= |candles|
  {
    if from == to then 0.0 else SumOfCloses(candles, from, to - 1) + candles[to-1].c
  }

  /** `None` stands for NaN. */
  function Sma(candles: seq<Candle>, period: nat, i: nat): Option<real>
    requires i < |candles|
  {
    if i + 1 < period || period == 0 then None
    else Some(SumOfCloses(candles, i + 1 - period, i + 1) / period as real)
  }

  method SmaAt(candles: seq<Candle>, period: nat, i: nat) returns (r: Option<real>)
    requires i < |candles|
    ensures r == Sma(candles, period, i)
  {
    if i + 1 < period || period == 0 {
      return None;
    }
    var sum := 0.0;
    for k := i + 1 - period to i + 1
      invariant sum == SumOfCloses(candles, i + 1 - period, k)
    {
      sum := sum + candles[k].c;
    }
    r := Some(sum / period as real);
  }

  function TrueRange(candles: seq<Candle>, k: nat): real
    requires 0 < k < |candles|
  {
    var prevClose, c := candles[k-1].c, candles[k];
    Max(c.h - c.l, Max(Abs(c.h - prevClose), Abs(c.l - prevClose)))
  }

  function SumOfRanges(candles: seq<Candle>, from: nat, to: nat): real
    requires 0 < from <= to <= |candles|
  {
    if from == to then 0.0 else SumOfRanges(candles, from, to - 1) + TrueRange(candles, to - 1)
  }

  function Atr(candles: seq<Candle>, period: nat, i: nat): Option<real>
    requires i < |candles|
  {
    if i < period || period == 0 then None
    else Some(SumOfRanges(candles, i + 1 - period, i + 1) / period as real)
  }

  method AtrAt(candles: seq<Candle>, period: nat, i: nat) returns (r: Option<real>)
    requires i < |candles|
    ensures r == Atr(candles, period, i)
  {
    if i < period || period == 0 {
      return None;
    }
    var sum := 0.0;
    for k := i + 1 - period to i + 1
      invariant sum == SumOfRanges(candles, i + 1 - period, k)
    {
      var prevClose := candles[k-1].c;
      var c := candles[k];
      sum := sum + Max(c.h - c.l, Max(Abs(c.h - prevClose), Abs(c.l - prevClose)));
    }
    r := Some(sum / period as real);
  }

  /** A comparison with NaN is false. */
  predicate Less(a: Option<real>, b: Option<real>) {
    a.Some? && b.Some? && a.value < b.value
  }

  predicate AtMost(a: Option<real>, b: Option<real>) {
    a.Some? && b.Some? && a.value <= b.value
  }

  // ------------------------------------------------------------------ one bar

  datatype Setup = Setup(symbol: string, candles: seq<Candle>, startingEquity: real, params: TrendParams)

  /** What a bar reads and changes of the account. */
  datatype Book = Book(equity: real, position: Option<Position>, lastStopUpdate: int, trades: seq<Trade>)

  function Cost(params: TrendParams, price: real, qty: real): real {
    price * qty * (params.takerFee + params.slippage)
  }

  /** The position with the stop it has at the end of bar i. */
  function Trailed(s: Setup, p: Position, lastStopUpdate: int, i: nat): Position
    requires i < |s.candles|
  {
    var a := Atr(s.candles, s.params.atrPeriod, i);
    if i != lastStopUpdate && a.Some? then
      p.(stop := Max(p.stop, s.candles[i].c - s.params.stopAtrMultiple * a.value))
    else p
  }

  predicate TrendBroken(s: Setup, i: nat)
    requires i < |s.candles|
  {
    Less(Sma(s.candles, s.params.fast, i), Sma(s.candles, s.params.slow, i))
  }

  predicate Stopped(s: Setup, p: Position, i: nat)
    requires i < |s.candles|
  {
    s.candles[i].l <= p.stop
  }

  function ExitPrice(s: Setup, p: Position, i: nat): real
    requires i < |s.candles|
  {
    if Stopped(s, p, i) then Min(p.stop, s.candles[i].o) else s.candles[i].c
  }

  /** What selling `qty` bought at `entryPrice` brings at `exitPrice`, after the fee of the sale. */
  function Pnl(params: TrendParams, entryPrice: real, exitPrice: real, qty: real): real {
    exitPrice * qty - Cost(params, exitPrice, qty) - entryPrice * qty
  }

  /** The trade that closes position p on bar i. */
  function Closed(s: Setup, p: Position, i: nat): Trade
    requires i < |s.candles|
  {
    var exitPrice := ExitPrice(s, p, i);
    Trade(s.symbol, p.entryTime, s.candles[i].t, p.entryPrice, exitPrice, p.qty,
          Pnl(s.params, p.entryPrice, exitPrice, p.qty),
          if Stopped(s, p, i) then Stop else TrendBreak)
  }

  function StopDistance(s: Setup, i: nat): real
    requires i < |s.candles| && Atr(s.candles, s.params.atrPeriod, i).Some?
  {
    s.params.stopAtrMultiple * Atr(s.candles, s.params.atrPeriod, i).value
  }

  /** The fast average has risen above the slow one on bar i. */
  predicate EntrySignal(s: Setup, i: nat)
    requires 0 < i < |s.candles|
  {
    var fast, slow := Sma(s.candles, s.params.fast, i), Sma(s.candles, s.params.slow, i);
    var a := Atr(s.candles, s.params.atrPeriod, i);
    && fast.Some? && slow.Some? && a.Some? && a.value > 0.0
    && fast.value > slow.value
    && AtMost(Sma(s.candles, s.params.fast, i - 1), Sma(s.candles, s.params.slow, i - 1))
  }

  lemma ProductIsPositive(x: real, y: real)
    requires x > 0.0 && y > 0.0
    ensures x * y > 0.0
  {
  }

  function EntryPrice(s: Setup, i: nat): (r: real)
    requires i < |s.candles|
    ensures r > 0.0
  {
    ProductIsPositive(s.candles[i].c, 1.0 + s.params.slippage);
    s.candles[i].c * (1.0 + s.params.slippage)
  }

  function RiskBudget(params: TrendParams, equity: real): real {
    equity * params.riskPerTrade
  }

  function ExposureCap(params: TrendParams, equity: real): real {
    equity * params.maxGrossExposure
  }

  /** As much as the risk budget allows at that distance, and no more than the exposure cap at that price. At no
      distance a positive budget allows any amount, and no other budget allows any. */
  function Sized(params: TrendParams, equity: real, stopDistance: real, entryPrice: real): real
    requires entryPrice > 0.0
  {
    var most := ExposureCap(params, equity) / entryPrice;
    if stopDistance != 0.0 then Min(RiskBudget(params, equity) / stopDistance, most)
    else if RiskBudget(params, equity) > 0.0 then most
    else 0.0
  }

  function Quantity(s: Setup, equity: real, i: nat): real
    requires 0 < i < |s.candles| && EntrySignal(s, i)
  {
    Sized(s.params, equity, StopDistance(s, i), EntryPrice(s, i))
  }

  /** The position opened on bar i, if one is. */
  function Opened(s: Setup, equity: real, i: nat): Option<Position>
    requires 0 < i < |s.candles|
  {
    if EntrySignal(s, i) && Quantity(s, equity, i) > 0.0 then
      Some(Position(s.symbol, EntryPrice(s, i), Quantity(s, equity, i), EntryPrice(s, i) - StopDistance(s, i),
                    s.candles[i].t))
    else None
  }

  function Next(s: Setup, b: Book, i: nat): Book
    requires 0 < i < |s.candles|
  {
    match b.position
    case Some(p) =>
      var trailed := Trailed(s, p, b.lastStopUpdate, i);
      var updated := if Atr(s.candles, s.params.atrPeriod, i).Some? then i else b.lastStopUpdate;
      if Stopped(s, trailed, i) || TrendBroken(s, i) then
        var trade := Closed(s, trailed, i);
        Book(b.equity + trade.pnl, None, updated, b.trades + [trade])
      else b.(position := Some(trailed), lastStopUpdate := updated)
    case None =>
      match Opened(s, b.equity, i)
      case None => b
      case Some(p) => Book(b.equity - Cost(s.params, p.entryPrice, p.qty), Some(p), i, b.trades)
  }

  /** The account before bar n. */
  function BookAt(s: Setup, n: nat): Book
    requires 0 < n <= |s.candles|
  {
    if n == 1 then Book(s.startingEquity, None, -1, []) else Next(s, BookAt(s, n - 1), n - 1)
  }

  function OpenMark(position: Option<Position>, close: real): real {
    match position
    case None => 0.0
    case Some(p) => p.qty * (close - p.entryPrice)
  }

  /** The account marked at the close of bar i. */
  function MarkAt(s: Setup, i: nat): real
    requires i < |s.candles|
  {
    if i == 0 then s.startingEquity
    else BookAt(s, i + 1).equity + OpenMark(BookAt(s, i + 1).position, s.candles[i].c)
  }

  /** The equity path: the starting equity, then the mark of every bar from the second one on. */
  function EquityPath(s: Setup): seq<real> {
    seq(|s.candles|, i requires 0 <= i < |s.candles| => MarkAt(s, i))
  }

  /** How much of an account marked at `marked` is in the market. */
  function Exposure(position: Option<Position>, close: real, marked: real): real {
    if marked > 0.0 && position.Some? then position.value.qty * close / marked else 0.0
  }

  function ExposureAt(s: Setup, i: nat): real
    requires 0 < i < |s.candles|
  {
    Exposure(BookAt(s, i + 1).position, s.candles[i].c, MarkAt(s, i))
  }

  function ExposureTo(s: Setup, n: nat): real
    requires 0 < n <= |s.candles|
  {
    if n == 1 then 0.0 else ExposureTo(s, n - 1) + ExposureAt(s, n - 1)
  }

  datatype Outcome = Outcome(
    symbol: string,
    equity: real,
    peak: real,
    maxDrawdown: real,
    trades: seq<Trade>,
    position: Option<Position>,
    lastCandle: Candle,
    firstCandle: Candle,
    bars: nat,
    fast: Option<real>,
    slow: Option<real>,
    buyHold: real,
    avgExposure: real)

  ghost predicate Ran(s: Setup, r: Outcome)
    requires s.candles != []
  {
    var n := |s.candles|;
    && r.symbol == s.symbol && r.bars == n && r.firstCandle == s.candles[0] && r.lastCandle == s.candles[n-1]
    && r.trades == BookAt(s, n).trades && r.position == BookAt(s, n).position
    && r.equity == BookAt(s, n).equity + OpenMark(BookAt(s, n).position, s.candles[n-1].c)
    && r.peak == PeakTo(EquityPath(s), n) && r.maxDrawdown == DrawdownTo(EquityPath(s), n)
    && r.fast == Sma(s.candles, s.params.fast, n - 1) && r.slow == Sma(s.candles, s.params.slow, n - 1)
    && r.buyHold == s.candles[n-1].c / s.candles[0].c - 1.0
    && r.avgExposure == if n > 1 then ExposureTo(s, n) / (n - 1) as real else 0.0
  }

  /** A bar with a position: move the stop, then leave on a stop or a broken trend. */
  method HoldOrExit(s: Setup, b: Book, i: nat) returns (r: Book)
    requires 0 < i < |s.candles| && b.position.Some?
    ensures r == Next(s, b, i)
  {
    var c := s.candles[i];
    var fast := SmaAt(s.candles, s.params.fast, i);
    var slow := SmaAt(s.candles, s.params.slow, i);
    var a := AtrAt(s.candles, s.params.atrPeriod, i);
    var p := b.position.value;
    var lastStopUpdate := b.lastStopUpdate;
    if i != lastStopUpdate && a.Some? {
      p := p.(stop := Max(p.stop, c.c - s.params.stopAtrMultiple * a.value));
      lastStopUpdate := i;
    }
    assert p == Trailed(s, b.position.value, b.lastStopUpdate, i);
    var stopped := c.l <= p.stop;
    var trendBroken := Less(fast, slow);
    assert stopped == Stopped(s, p, i) && trendBroken == TrendBroken(s, i);
    r := Book(b.equity, Some(p), lastStopUpdate, b.trades);
    if stopped || trendBroken {
      var exitPrice := if stopped then Min(p.stop, c.o) else c.c;
      assert exitPrice == ExitPrice(s, p, i);
      var pnl := Pnl(s.params, p.entryPrice, exitPrice, p.qty);
      var trade := Trade(s.symbol, p.entryTime, c.t, p.entryPrice, exitPrice, p.qty, pnl,
                         if stopped then Stop else TrendBreak);
      assert trade == Closed(s, p, i);
      r := Book(b.equity + pnl, None, lastStopUpdate, b.trades + [trade]);
    }
  }

  /** A bar without one: enter when the fast average has just crossed above the slow one. */
  method EnterOrWait(s: Setup, b: Book, i: nat) returns (r: Book)
    requires 0 < i < |s.candles| && b.position.None?
    ensures r == Next(s, b, i)
  {
    var c := s.candles[i];
    var fast := SmaAt(s.candles, s.params.fast, i);
    var slow := SmaAt(s.candles, s.params.slow, i);
    var a := AtrAt(s.candles, s.params.atrPeriod, i);
    r := b;
    if fast.Some? && slow.Some? && a.Some? && a.value > 0.0 {
      var uptrend := fast.value > slow.value;
      var fastBefore := SmaAt(s.candles, s.params.fast, i - 1);
      var slowBefore := SmaAt(s.candles, s.params.slow, i - 1);
      if uptrend && AtMost(fastBefore, slowBefore) {
        var entryPrice := EntryPrice(s, i);
        var stopDistance := s.params.stopAtrMultiple * a.value;
        assert stopDistance == StopDistance(s, i);
        var qty := Sized(s.params, b.equity, stopDistance, entryPrice);
        assert EntrySignal(s, i) && qty == Quantity(s, b.equity, i);
        if qty > 0.0 {
          r := Book(b.equity - Cost(s.params, entryPrice, qty),
                    Some(Position(s.symbol, entryPrice, qty, entryPrice - stopDistance, c.t)), i, b.trades);
        }
      }
    }
  }

  method RunSymbol(s: Setup) returns (r: Outcome)
    requires s.candles != []
    ensures Ran(s, r)
  {
    var candles := s.candles;
    var book := Book(s.startingEquity, None, -1, []);
    var peak := s.startingEquity;
    var maxDrawdown := 0.0;
    var exposureSum := 0.0;
    var exposureBars := 0;

    for i := 1 to |candles|
      invariant book == BookAt(s, i)
      invariant peak == PeakTo(EquityPath(s), i) && maxDrawdown == DrawdownTo(EquityPath(s), i)
      invariant exposureSum == ExposureTo(s, i) && exposureBars == i - 1
    {
      var c := candles[i];
      if book.position.Some? {
        book := HoldOrExit(s, book, i);
      } else {
        book := EnterOrWait(s, book, i);
      }
      var marked := book.equity + OpenMark(book.position, c.c);
      assert marked == EquityPath(s)[i];
      peak := Max(peak, marked);
      maxDrawdown := Max(maxDrawdown, Fall(peak, marked));

      exposureSum := exposureSum + Exposure(book.position, c.c, marked);
      exposureBars := exposureBars + 1;
    }
    var last := candles[|candles|-1];
    var fast := SmaAt(candles, s.params.fast, |candles| - 1);
    var slow := SmaAt(candles, s.params.slow, |candles| - 1);
    var ratio: real := last.c / candles[0].c;
    r := Outcome(
      s.symbol, book.equity + OpenMark(book.position, last.c), peak, maxDrawdown, book.trades, book.position,
      last, candles[0], |candles|, fast, slow, ratio - 1.0,
      if exposureBars > 0 then exposureSum / exposureBars as real else 0.0);
  }

  // ------------------------------------------------------------------ the ledger

  function Gain(t: Trade): real {
    t.qty * (t.exitPrice - t.entryPrice)
  }

  function EntryFee(params: TrendParams, t: Trade): real {
    Cost(params, t.entryPrice, t.qty)
  }

  function ExitFee(params: TrendParams, t: Trade): real {
    Cost(params, t.exitPrice, t.qty)
  }

  function TotalPnl(trades: seq<Trade>): real {
    if trades == [] then 0.0 else TotalPnl(trades[..|trades|-1]) + trades[|trades|-1].pnl
  }

  function TotalEntryFees(params: TrendParams, trades: seq<Trade>): real {
    if trades == [] then 0.0
    else TotalEntryFees(params, trades[..|trades|-1]) + EntryFee(params, trades[|trades|-1])
  }

  function OpenFee(params: TrendParams, position: Option<Position>): real {
    match position
    case None => 0.0
    case Some(p) => Cost(params, p.entryPrice, p.qty)
  }

  lemma TotalsOfOneMore(params: TrendParams, trades: seq<Trade>, t: Trade)
    ensures TotalPnl(trades + [t]) == TotalPnl(trades) + t.pnl
    ensures TotalEntryFees(params, trades + [t]) == TotalEntryFees(params, trades) + EntryFee(params, t)
  {
    assert (trades + [t])[..|trades|] == trades;
  }

  /** The account always holds the starting equity, what the closed trades made, and less every entry fee. */
  lemma {:induction false} BookBalances(s: Setup, n: nat)
    requires 0 < n <= |s.candles|
    ensures var b := BookAt(s, n);
      b.equity == s.startingEquity + TotalPnl(b.trades) - TotalEntryFees(s.params, b.trades)
                - OpenFee(s.params, b.position)
  {
    if n > 1 {
      BookBalances(s, n - 1);
      var b := BookAt(s, n - 1);
      if b.position.Some? {
        var trailed := Trailed(s, b.position.value, b.lastStopUpdate, n - 1);
        TotalsOfOneMore(s.params, b.trades, Closed(s, trailed, n - 1));
      }
    }
  }

  lemma PnlIsGainLessExitFee(s: Setup, p: Position, i: nat)
    requires i < |s.candles|
    ensures Closed(s, p, i).pnl == Gain(Closed(s, p, i)) - ExitFee(s.params, Closed(s, p, i))
  {
  }

  /** Nothing is created or lost: final equity is the starting equity plus the profit of every trade, less
      every entry fee, plus the open position's mark. */
  lemma LedgerBalances(s: Setup, r: Outcome)
    requires s.candles != [] && Ran(s, r)
    ensures r.equity == s.startingEquity + TotalPnl(r.trades) - TotalEntryFees(s.params, r.trades)
                      - OpenFee(s.params, r.position) + OpenMark(r.position, r.lastCandle.c)
  {
    BookBalances(s, |s.candles|);
  }

  /** The reported drawdown is the worst fall of the equity path from a peak. */
  lemma DrawdownIsReported(s: Setup, r: Outcome)
    requires s.candles != [] && Ran(s, r)
    ensures IsWorstFall(r.maxDrawdown, EquityPath(s))
  {
    DrawdownIsWorstFall(EquityPath(s));
  }

  // ------------------------------------------------------------------ holdings

  /** The bar on which the position held before bar n was opened. */
  ghost function Since(s: Setup, n: nat): nat
    requires 0 < n <= |s.candles|
  {
    if n == 1 then 0 else if BookAt(s, n - 1).position.None? then n - 1 else Since(s, n - 1)
  }

  /** Position p before bar n is the one opened on bar e, with a stop no lower than it had then. */
  ghost predicate HeldFrom(s: Setup, e: nat, n: nat, p: Position)
    requires n <= |s.candles|
  {
    && 0 < e < n
    && BookAt(s, e).position == None
    && Opened(s, BookAt(s, e).equity, e).Some?
    && var first := Opened(s, BookAt(s, e).equity, e).value;
       p == first.(stop := p.stop) && first.stop <= p.stop
  }

  /** What a bar does to a position it keeps, and what position it may open. */
  lemma NextPosition(s: Setup, n: nat)
    requires 1 < n <= |s.candles| && BookAt(s, n).position.Some?
    ensures var before, after := BookAt(s, n - 1), BookAt(s, n);
      if before.position.Some? then
        after.position.value == before.position.value.(stop := after.position.value.stop)
        && before.position.value.stop <= after.position.value.stop
        && after.lastStopUpdate <= Higher(before.lastStopUpdate, n - 1)
      else after.position == Opened(s, before.equity, n - 1) && after.lastStopUpdate == n - 1
  {
  }

  function Higher(a: int, b: int): int { if a < b then b else a }

  lemma {:induction false} PositionIsHeld(s: Setup, n: nat)
    requires 0 < n <= |s.candles| && BookAt(s, n).position.Some?
    ensures HeldFrom(s, Since(s, n), n, BookAt(s, n).position.value)
    ensures BookAt(s, n).lastStopUpdate < n
    ensures forall k: nat :: Since(s, n) < k <= n ==> BookAt(s, k).position.Some?
  {
    NextPosition(s, n);
    if BookAt(s, n - 1).position.Some? {
      PositionIsHeld(s, n - 1);
    }
  }

  /** Within a holding the stop never falls, and nothing else of the position changes. */
  lemma {:induction false} StopNeverFalls(s: Setup, j: nat, n: nat)
    requires 0 < j <= n <= |s.candles|
    requires forall k: nat :: j <= k <= n ==> BookAt(s, k).position.Some?
    ensures var p, q := BookAt(s, j).position.value, BookAt(s, n).position.value;
      q == p.(stop := q.stop) && p.stop <= q.stop
    decreases n
  {
    if j < n {
      StopNeverFalls(s, j, n - 1);
    }
  }

  /** Trade t is the whole of a holding: opened on bar e, held on every bar between, closed on bar x. */
  ghost predicate Holding(s: Setup, e: nat, x: nat, t: Trade) {
    && 0 < e < x < |s.candles|
    && BookAt(s, e).position == None
    && (forall k: nat :: e < k <= x ==> BookAt(s, k).position.Some?)
    && HeldFrom(s, e, x, BookAt(s, x).position.value)
    && BookAt(s, x + 1).position == None
    && t == TradeOn(s, x)
  }

  /** The holdings closed before bar n, as (opening bar, closing bar). */
  ghost function Holdings(s: Setup, n: nat): seq<(nat, nat)>
    requires 0 < n <= |s.candles|
  {
    if n == 1 then []
    else if ExitOn(s, n - 1) then
      Holdings(s, n - 1) + [(Since(s, n - 1), n - 1)]
    else Holdings(s, n - 1)
  }

  /** The holdings end before bar n, and before the open position's bar. */
  ghost predicate EndBefore(s: Setup, n: nat, hs: seq<(nat, nat)>)
    requires 0 < n <= |s.candles|
  {
    && (forall k :: 0 <= k < |hs| ==> hs[k].1 < n)
    && (BookAt(s, n).position.Some? ==> forall k :: 0 <= k < |hs| ==> hs[k].1 < Since(s, n))
  }

  ghost predicate InOrder(hs: seq<(nat, nat)>) {
    forall j, k :: 0 <= j < k < |hs| ==> hs[j].1 < hs[k].0
  }

  function TradeOn(s: Setup, x: nat): Trade
    requires 0 < x < |s.candles| && BookAt(s, x).position.Some?
  {
    Closed(s, Trailed(s, BookAt(s, x).position.value, BookAt(s, x).lastStopUpdate, x), x)
  }

  predicate ExitOn(s: Setup, x: nat)
    requires 0 < x < |s.candles|
  {
    BookAt(s, x).position.Some? && BookAt(s, x + 1).position.None?
  }

  lemma TradesNext(s: Setup, x: nat)
    requires 0 < x < |s.candles|
    ensures BookAt(s, x + 1).trades == BookAt(s, x).trades + if ExitOn(s, x) then [TradeOn(s, x)] else []
  {
    var b := BookAt(s, x);
    assert b.trades + [] == b.trades;
  }

  lemma HoldingEnds(s: Setup, x: nat)
    requires 0 < x < |s.candles| && ExitOn(s, x)
    ensures Holding(s, Since(s, x), x, TradeOn(s, x))
  {
    PositionIsHeld(s, x);
  }

  lemma {:induction false} AsManyTradesAsHoldings(s: Setup, n: nat)
    requires 0 < n <= |s.candles|
    ensures |Holdings(s, n)| == |BookAt(s, n).trades|
  {
    if n > 1 {
      AsManyTradesAsHoldings(s, n - 1);
      TradesNext(s, n - 1);
    }
  }

  /** The trades are exactly the holdings. */
  lemma {:induction false} TradeIsHolding(s: Setup, n: nat, k: nat)
    requires 0 < n <= |s.candles|
    ensures |Holdings(s, n)| == |BookAt(s, n).trades|
    ensures k < |Holdings(s, n)| ==> Holding(s, Holdings(s, n)[k].0, Holdings(s, n)[k].1, BookAt(s, n).trades[k])
  {
    AsManyTradesAsHoldings(s, n);
    if n > 1 {
      AsManyTradesAsHoldings(s, n - 1);
      TradesNext(s, n - 1);
      if k < |Holdings(s, n - 1)| {
        TradeIsHolding(s, n - 1, k);
      } else if ExitOn(s, n - 1) {
        HoldingEnds(s, n - 1);
      }
    }
  }

  /** They come one after the other: at any time at most one position is open. */
  lemma {:induction false} HoldingsInOrder(s: Setup, n: nat)
    requires 0 < n <= |s.candles|
    ensures InOrder(Holdings(s, n)) && EndBefore(s, n, Holdings(s, n))
  {
    if n > 1 {
      HoldingsInOrder(s, n - 1);
      if BookAt(s, n - 1).position.Some? {
        PositionIsHeld(s, n - 1);
      }
    }
  }

  ghost predicate TimesIncrease(candles: seq<Candle>) {
    forall j: nat, k: nat :: j < k < |candles| ==> candles[j].t < candles[k].t
  }

  /** Each trade has the times of its holding. */
  ghost predicate Timed(candles: seq<Candle>, hs: seq<(nat, nat)>, trades: seq<Trade>) {
    && |hs| == |trades|
    && forall k :: 0 <= k < |hs| ==>
         && hs[k].0 < hs[k].1 < |candles|
         && trades[k].entryTime == candles[hs[k].0].t && trades[k].exitTime == candles[hs[k].1].t
  }

  lemma TradesAreTimed(s: Setup)
    requires s.candles != []
    ensures Timed(s.candles, Holdings(s, |s.candles|), BookAt(s, |s.candles|).trades)
  {
    var n, hs := |s.candles|, Holdings(s, |s.candles|);
    TradeIsHolding(s, n, 0);
    forall k | 0 <= k < |hs|
      ensures hs[k].0 < hs[k].1 < n && BookAt(s, n).trades[k].entryTime == s.candles[hs[k].0].t
           && BookAt(s, n).trades[k].exitTime == s.candles[hs[k].1].t
    {
      TradeIsHolding(s, n, k);
      HoldingTimes(s, hs[k].0, hs[k].1, BookAt(s, n).trades[k]);
    }
  }

  lemma TimedInOrder(candles: seq<Candle>, hs: seq<(nat, nat)>, trades: seq<Trade>)
    requires TimesIncrease(candles) && Timed(candles, hs, trades) && InOrder(hs)
    ensures forall k :: 0 <= k < |trades| ==> trades[k].entryTime < trades[k].exitTime
    ensures forall j, k :: 0 <= j < k < |trades| ==> trades[j].exitTime < trades[k].entryTime
  {
  }

  lemma PositionIsLast(s: Setup, k: nat)
    requires s.candles != [] && TimesIncrease(s.candles) && k < |BookAt(s, |s.candles|).trades|
    requires BookAt(s, |s.candles|).position.Some?
    ensures BookAt(s, |s.candles|).trades[k].exitTime < BookAt(s, |s.candles|).position.value.entryTime
  {
    TradesAreTimed(s);
    HoldingsInOrder(s, |s.candles|);
    PositionIsHeld(s, |s.candles|);
  }

  /** So on candles in order of time no trade starts before the one before it has ended. */
  lemma TradesDoNotOverlap(s: Setup, r: Outcome)
    requires s.candles != [] && Ran(s, r) && TimesIncrease(s.candles)
    ensures forall k :: 0 <= k < |r.trades| ==> r.trades[k].entryTime < r.trades[k].exitTime
    ensures forall j, k :: 0 <= j < k < |r.trades| ==> r.trades[j].exitTime < r.trades[k].entryTime
    ensures r.position.Some? ==> forall k :: 0 <= k < |r.trades| ==> r.trades[k].exitTime < r.position.value.entryTime
  {
    TradesAreTimed(s);
    HoldingsInOrder(s, |s.candles|);
    TimedInOrder(s.candles, Holdings(s, |s.candles|), r.trades);
    if r.position.Some? {
      forall k | 0 <= k < |r.trades| ensures r.trades[k].exitTime < r.position.value.entryTime {
        PositionIsLast(s, k);
      }
    }
  }

  lemma HoldingTimes(s: Setup, e: nat, x: nat, t: Trade)
    requires Holding(s, e, x, t)
    ensures t.entryTime == s.candles[e].t && t.exitTime == s.candles[x].t
  {
  }

  // ------------------------------------------------------------------ sizes and losses

  lemma WithinBudget(q: real, budget: real, d: real)
    requires d > 0.0 && q <= budget / d
    ensures q * d <= budget
  {
    DividedBack(budget, d);
    assert q * d <= (budget / d) * d;
  }

  function Worth(qty: real, price: real): real {
    qty * price
  }

  /** What `qty` loses when the price goes from one value to another. */
  function Lost(qty: real, from: real, to: real): real {
    qty * (from - to)
  }

  lemma LostMore(qty: real, from: real, to: real, lower: real)
    requires qty > 0.0 && lower <= to
    ensures Lost(qty, from, to) <= Lost(qty, from, lower)
  {
  }

  /** An entry buys no more than the exposure cap, and with its stop below it, or at it, risks no more than its share of
      the equity there. */
  lemma EntryWithinCaps(s: Setup, equity: real, i: nat)
    requires 0 < i < |s.candles| && Opened(s, equity, i).Some?
    ensures var p := Opened(s, equity, i).value;
      && p.qty > 0.0 && (p.stop <= p.entryPrice <==> s.params.stopAtrMultiple >= 0.0)
      && (s.params.stopAtrMultiple >= 0.0 ==> Lost(p.qty, p.entryPrice, p.stop) <= RiskBudget(s.params, equity))
      && Worth(p.qty, p.entryPrice) <= ExposureCap(s.params, equity)
  {
    var p := Opened(s, equity, i).value;
    assert p.entryPrice - p.stop == StopDistance(s, i);
    if StopDistance(s, i) > 0.0 {
      WithinBudget(p.qty, RiskBudget(s.params, equity), StopDistance(s, i));
    }
    WithinBudget(p.qty, ExposureCap(s.params, equity), EntryPrice(s, i));
  }

  /** On a bar whose close is not below its low, the exit is no lower than the carried stop, unless the bar opened
      below it. */
  lemma ExitAgainstStop(s: Setup, p: Position, last: int, x: nat)
    requires x < |s.candles| && s.candles[x].l <= s.candles[x].c
    ensures ExitPrice(s, Trailed(s, p, last, x), x) >= Min(p.stop, s.candles[x].o)
  {
  }

  /** The position a holding was opened with. */
  ghost function FirstOf(s: Setup, e: nat): Position
    requires 0 < e < |s.candles| && Opened(s, BookAt(s, e).equity, e).Some?
  {
    Opened(s, BookAt(s, e).equity, e).value
  }

  lemma HoldingFigures(s: Setup, e: nat, x: nat, t: Trade)
    requires Holding(s, e, x, t) && s.candles[x].l <= s.candles[x].c
    ensures Opened(s, BookAt(s, e).equity, e).Some?
    ensures var first := FirstOf(s, e);
      && t.entryPrice == first.entryPrice && t.qty == first.qty
      && t.pnl == Pnl(s.params, first.entryPrice, t.exitPrice, first.qty)
      && first.stop <= BookAt(s, x).position.value.stop
      && t.exitPrice >= Min(BookAt(s, x).position.value.stop, s.candles[x].o)
  {
    ExitAgainstStop(s, BookAt(s, x).position.value, BookAt(s, x).lastStopUpdate, x);
  }

  /** The lowest price a holding can count on at its last bar. */
  lemma LossAgainst(s: Setup, e: nat, x: nat, t: Trade, floor: real)
    requires Holding(s, e, x, t) && s.candles[x].l <= s.candles[x].c && floor <= t.exitPrice
    ensures t.pnl >= -Lost(t.qty, t.entryPrice, floor) - ExitFee(s.params, t)
  {
    HoldingFigures(s, e, x, t);
    EntryWithinCaps(s, BookAt(s, e).equity, e);
    LostMore(t.qty, t.entryPrice, t.exitPrice, floor);
  }

  /** A closed trade loses at most the risk budget fixed at its entry and the exit fee, whether it ends on its stop or
      on a broken trend, when its last bar did not open below the stop carried into it. When it did, the loss is
      measured from that open. */
  lemma LossIsBounded(s: Setup, e: nat, x: nat, t: Trade)
    requires Holding(s, e, x, t) && s.candles[x].l <= s.candles[x].c
    ensures s.candles[x].o >= BookAt(s, x).position.value.stop && s.params.stopAtrMultiple >= 0.0 ==>
              t.pnl >= -RiskBudget(s.params, BookAt(s, e).equity) - ExitFee(s.params, t)
    ensures s.candles[x].o < BookAt(s, x).position.value.stop ==>
              t.pnl >= -Lost(t.qty, t.entryPrice, s.candles[x].o) - ExitFee(s.params, t)
  {
    HoldingFigures(s, e, x, t);
    if s.candles[x].o >= BookAt(s, x).position.value.stop && s.params.stopAtrMultiple >= 0.0 {
      LossAgainst(s, e, x, t, FirstOf(s, e).stop);
      EntryWithinCaps(s, BookAt(s, e).equity, e);
    } else if s.candles[x].o < BookAt(s, x).position.value.stop {
      LossAgainst(s, e, x, t, s.candles[x].o);
    }
  }

  /** Every trade of a run is a holding that kept both caps, and lost no more than this. */
  lemma EveryTradeIsBounded(s: Setup, r: Outcome, k: nat) returns (e: nat, x: nat)
    requires s.candles != [] && Ran(s, r) && k < |r.trades| && s.params.stopAtrMultiple >= 0.0
    requires forall i: nat :: i < |s.candles| ==> s.candles[i].l <= s.candles[i].c
    ensures Holding(s, e, x, r.trades[k])
    ensures Lost(r.trades[k].qty, r.trades[k].entryPrice, FirstOf(s, e).stop)
         <= RiskBudget(s.params, BookAt(s, e).equity)
    ensures Worth(r.trades[k].qty, r.trades[k].entryPrice) <= ExposureCap(s.params, BookAt(s, e).equity)
    ensures s.candles[x].o >= BookAt(s, x).position.value.stop ==>
              r.trades[k].pnl >= -RiskBudget(s.params, BookAt(s, e).equity) - ExitFee(s.params, r.trades[k])
  {
    TradeIsHolding(s, |s.candles|, k);
    e, x := Holdings(s, |s.candles|)[k].0, Holdings(s, |s.candles|)[k].1;
    LossIsBounded(s, e, x, r.trades[k]);
    CapsOfTrade(s, e, x, r.trades[k]);
  }

  lemma CapsOfTrade(s: Setup, e: nat, x: nat, t: Trade)
    requires Holding(s, e, x, t) && s.candles[x].l <= s.candles[x].c
    ensures Worth(t.qty, t.entryPrice) <= ExposureCap(s.params, BookAt(s, e).equity)
    ensures Opened(s, BookAt(s, e).equity, e).Some?
    ensures s.params.stopAtrMultiple >= 0.0 ==>
              Lost(t.qty, t.entryPrice, FirstOf(s, e).stop) <= RiskBudget(s.params, BookAt(s, e).equity)
  {
    HoldingFigures(s, e, x, t);
    EntryWithinCaps(s, BookAt(s, e).equity, e);
  }
}
