/** The figures of a carry run, from the points of its series alone. */
module CarryFigures {
  import opened Drawdown
  import opened CarrySimulation

  /** The sum of n rates, from point `from` on. */
  function RatesFrom(series: seq<RatePoint>, from: nat, n: nat): real
    requires from + n <= |series|
  {
    if n == 0 then 0.0 else RatesFrom(series, from, n - 1) + series[from+n-1].rate1h
  }

  lemma {:induction false} SumIs(series: seq<RatePoint>, from: nat, rates: seq<real>)
    requires from + |rates| <= |series| && forall k :: 0 <= k < |rates| ==> rates[k] == series[from+k].rate1h
    ensures Sum(rates) == RatesFrom(series, from, |rates|)
    decreases |rates|
  {
    if rates != [] {
      SumIs(series, from, rates[..|rates|-1]);
    }
  }

  /** How many of i rates a lookback takes: all of them when it is none or longer. */
  function Taken(lookback: nat, i: nat): (n: nat)
    requires i > 0
    ensures 0 < n <= i
  {
    if lookback == 0 || lookback > i then i else lookback
  }

  /** The mean of the last rates up to point i. */
  function MeanRate(series: seq<RatePoint>, lookback: nat, i: nat): real
    requires 0 < i < |series|
  {
    RatesFrom(series, i + 1 - Taken(lookback, i), Taken(lookback, i)) / Taken(lookback, i) as real
  }

  lemma WindowIs(series: seq<RatePoint>, lookback: nat, i: nat)
    requires 0 < i < |series|
    ensures var win := Window(RatesTo(series, i), lookback);
            |win| == Taken(lookback, i) && Sum(win) == RatesFrom(series, i + 1 - |win|, |win|)
  {
    var win := Window(RatesTo(series, i), lookback);
    SumIs(series, i + 1 - |win|, win);
  }

  /** The trailing rate of a point is the mean of the last rates up to it, times the hours of a year. */
  lemma AprIsMean(series: seq<RatePoint>, params: CarryParams, i: nat)
    requires 0 < i < |series|
    ensures AprAt(series, params, i) == MeanRate(series, params.lookbackHours, i) * 24.0 * 365.0
  {
    WindowIs(series, params.lookbackHours, i);
  }

  lemma {:induction false} AprsAre(series: seq<RatePoint>, params: CarryParams, n: nat, i: nat)
    requires i < n <= |series|
    ensures AprsTo(series, params, n)[i] == AprAt(series, params, i)
  {
    if i < n - 1 {
      AprsAre(series, params, n - 1, i);
    }
  }

  /** Every trailing rate of a series is such a mean; the first point has none. */
  lemma TrailingRatesAre(series: seq<RatePoint>, params: CarryParams, i: nat)
    requires i < |series|
    ensures Aprs(series, params)[i]
         == if i == 0 then 0.0 else MeanRate(series, params.lookbackHours, i) * 24.0 * 365.0
  {
    AprsAre(series, params, |series|, i);
    if i > 0 {
      AprIsMean(series, params, i);
    }
  }

  /** A point pays its rate on the notional, a leg costs the fees of both markets, and the capital is the notional and
      its margin. */
  lemma AmountsAre(series: seq<RatePoint>, params: CarryParams)
    ensures forall i :: 0 <= i < |series| ==> Flows(series, params)[i] == params.notional * series[i].rate1h
    ensures InputsOf(series, params).capital == params.notional + params.notional * params.marginRatio
    ensures InputsOf(series, params).fee == params.notional * params.spotFee + params.notional * params.perpFee
  {
  }

  /** The annual return is the return of the hours taken to those of a year. */
  lemma ReturnPerYear(netReturn: real, hours: nat)
    requires hours > 0
    ensures PerYear(netReturn, hours) * hours as real == netReturn * 24.0 * 365.0
  {
    var years := hours as real / 24.0 / 365.0;
    DividedBack(netReturn, years);
  }
}
