/** A funding-only run of the carry book: always on, or gated by the trailing funding rate. */
module CarrySimulation {
  import opened Extremes
  import opened Drawdown

  datatype RatePoint = RatePoint(t: int, rate1h: real)

  datatype Params = Params(
    notional: real,
    marginRatio: real,
    spotFee: real,
    perpFee: real,
    enterApr: real,
    exitApr: real,
    lookbackHours: nat)

  type CarryParams = p: Params | p.notional > 0.0 && p.marginRatio >= 0.0
    witness Params(10000.0, 0.5, 0.001, 0.0005, 0.02, -0.02, 72)

  datatype CarryLeg = CarryLeg(
    netReturn: real,
    annualised: real,
    fundingCollected: real,
    costs: real,
    entries: nat,
    inMarketShare: real,
    maxDrawdown: real)

  // ------------------------------------------------------------------ the trailing rate

  function Sum(rates: seq<real>): real {
    if rates == [] then 0.0 else Sum(rates[..|rates|-1]) + rates[|rates|-1]
  }

  /** The last `lookback` rates; all of them for a lookback of zero, as `slice(-0)` gives. */
  function Window(rates: seq<real>, lookback: nat): seq<real> {
    if lookback == 0 || |rates| <= lookback then rates else rates[|rates|-lookback..]
  }

  /** The trailing rate, annualised. */
  function Annualised(rates: seq<real>, lookback: nat): real
    requires rates != []
  {
    var win := Window(rates, lookback);
    Sum(win) / |win| as real * 24.0 * 365.0
  }

  /** The rates of the points from 1 up to and including i. */
  function RatesTo(series: seq<RatePoint>, i: nat): seq<real>
    requires i < |series|
  {
    seq(i, k requires 0 <= k < i => series[k+1].rate1h)
  }

  /** The trailing rate at point i; the first point has none. */
  function AprAt(series: seq<RatePoint>, params: CarryParams, i: nat): real
    requires i < |series|
  {
    if i == 0 then 0.0 else Annualised(RatesTo(series, i), params.lookbackHours)
  }

  function AprsTo(series: seq<RatePoint>, params: CarryParams, n: nat): (aprs: seq<real>)
    requires n <= |series|
    ensures |aprs| == n
  {
    if n == 0 then [] else AprsTo(series, params, n - 1) + [AprAt(series, params, n - 1)]
  }

  function Aprs(series: seq<RatePoint>, params: CarryParams): (aprs: seq<real>)
    ensures |aprs| == |series|
  {
    AprsTo(series, params, |series|)
  }

  function FundingOf(params: CarryParams, p: RatePoint): real {
    params.notional * p.rate1h
  }

  /** The funding of every point, for a book that is in. */
  function Flows(series: seq<RatePoint>, params: CarryParams): seq<real> {
    seq(|series|, i requires 0 <= i < |series| => FundingOf(params, series[i]))
  }

  // ------------------------------------------------------------------ the gate

  datatype Gate = AlwaysOn | Gated(enterApr: real, exitApr: real)
  {
    predicate WantIn(apr: real) { Gated? ==> apr > enterApr }

    predicate WantOut(apr: real) { Gated? && apr < exitApr }
  }

  /** In position before point n. */
  predicate InBefore(aprs: seq<real>, gate: Gate, n: nat)
    requires 0 < n <= |aprs|
  {
    if n == 1 then false
    else if InBefore(aprs, gate, n - 1) then !gate.WantOut(aprs[n-1])
    else gate.WantIn(aprs[n-1])
  }

  /** Point j called for entry, and no point since, up to n, called for exit. */
  ghost predicate StandingEntry(aprs: seq<real>, gate: Gate, j: nat, n: nat)
    requires gate.Gated? && n <= |aprs|
  {
    0 < j < n && aprs[j] > gate.enterApr && forall k: nat :: j < k < n ==> aprs[k] >= gate.exitApr
  }

  /** The gate is a hysteresis: the book is in exactly when the rate has been above the entry rate and has not been
      below the exit rate since. */
  lemma {:induction false} GateIsHysteresis(aprs: seq<real>, gate: Gate, n: nat)
    requires 0 < n <= |aprs| && gate.Gated? && gate.exitApr <= gate.enterApr
    ensures InBefore(aprs, gate, n) <==> exists j: nat :: StandingEntry(aprs, gate, j, n)
  {
    if n > 1 {
      GateIsHysteresis(aprs, gate, n - 1);
      var apr := aprs[n-1];
      if apr > gate.enterApr {
        assert StandingEntry(aprs, gate, n - 1, n);
      } else if apr >= gate.exitApr {
        if InBefore(aprs, gate, n - 1) {
          var j: nat :| StandingEntry(aprs, gate, j, n - 1);
          assert StandingEntry(aprs, gate, j, n);
        }
        forall j: nat | StandingEntry(aprs, gate, j, n) ensures StandingEntry(aprs, gate, j, n - 1) {
        }
      } else {
        forall j: nat ensures !StandingEntry(aprs, gate, j, n) {
        }
      }
    }
  }

  // ------------------------------------------------------------------ the account

  /** Funding of the points before n that were met in position. */
  function FundingTo(aprs: seq<real>, flows: seq<real>, gate: Gate, n: nat): real
    requires 0 < n <= |aprs| == |flows|
  {
    if n == 1 then 0.0
    else FundingTo(aprs, flows, gate, n - 1) + if InBefore(aprs, gate, n - 1) then flows[n-1] else 0.0
  }

  /** How many of those points there were. */
  function HoursTo(aprs: seq<real>, gate: Gate, n: nat): nat
    requires 0 < n <= |aprs|
  {
    if n == 1 then 0 else HoursTo(aprs, gate, n - 1) + if InBefore(aprs, gate, n - 1) then 1 else 0
  }

  function EntriesTo(aprs: seq<real>, gate: Gate, n: nat): nat
    requires 0 < n <= |aprs|
  {
    if n == 1 then 0
    else EntriesTo(aprs, gate, n - 1) + if !InBefore(aprs, gate, n - 1) && InBefore(aprs, gate, n) then 1 else 0
  }

  /** A fee for every change of position. */
  function CostsTo(aprs: seq<real>, gate: Gate, fee: real, n: nat): real
    requires 0 < n <= |aprs|
  {
    if n == 1 then 0.0
    else CostsTo(aprs, gate, fee, n - 1) +
         if InBefore(aprs, gate, n - 1) != InBefore(aprs, gate, n) then fee else 0.0
  }

  /** What a run depends on: the trailing rate and the funding of every point, the capital, and the fee of a leg. */
  datatype Inputs = Inputs(aprs: seq<real>, flows: seq<real>, capital: real, fee: real)
  {
    predicate Valid() { |aprs| == |flows| && capital > 0.0 }
  }

  function InputsOf(series: seq<RatePoint>, params: CarryParams): (inp: Inputs)
    ensures inp.Valid()
  {
    Inputs(Aprs(series, params), Flows(series, params),
           params.notional * (1.0 + params.marginRatio), params.notional * (params.spotFee + params.perpFee))
  }

  /** The equity before point n: each point adds its funding, if it is met in position, and takes a fee, if the
      position changes. */
  function EquityAt(inp: Inputs, gate: Gate, n: nat): real
    requires inp.Valid() && 0 < n <= |inp.aprs|
  {
    if n == 1 then inp.capital
    else
      var before := EquityAt(inp, gate, n - 1);
      var paid := if InBefore(inp.aprs, gate, n - 1) then before + inp.flows[n-1] else before;
      if InBefore(inp.aprs, gate, n - 1) != InBefore(inp.aprs, gate, n) then paid - inp.fee else paid
  }

  /** The capital, then the equity after every point from the second one on. */
  function EquityPath(inp: Inputs, gate: Gate): (path: seq<real>)
    requires inp.Valid()
    ensures path != [] && path[0] == inp.capital
  {
    if inp.aprs == [] then [inp.capital]
    else seq(|inp.aprs|, i requires 0 <= i < |inp.aprs| => EquityAt(inp, gate, i + 1))
  }

  function FinalEquity(inp: Inputs, gate: Gate): real
    requires inp.Valid()
  {
    if inp.aprs == [] then inp.capital else EquityAt(inp, gate, |inp.aprs|)
  }

  function NetReturn(equity: real, capital: real): real
    requires capital > 0.0
  {
    equity / capital - 1.0
  }

  function Hours(inp: Inputs): (h: nat)
    ensures h > 0
  {
    if |inp.aprs| < 2 then 1 else |inp.aprs| - 1
  }

  function PerYear(netReturn: real, hours: nat): real
    requires hours > 0
  {
    netReturn / (hours as real / 24.0 / 365.0)
  }

  function Share(hoursIn: nat, hours: nat): real
    requires hours > 0
  {
    hoursIn as real / hours as real
  }

  /** The amounts of a run: its return, funding, costs and entries. */
  ghost predicate Accounted(inp: Inputs, gate: Gate, r: CarryLeg)
    requires inp.Valid()
  {
    && r.netReturn == NetReturn(FinalEquity(inp, gate), inp.capital)
    && if inp.aprs == [] then r.fundingCollected == 0.0 && r.costs == 0.0 && r.entries == 0
       else
         && r.fundingCollected == FundingTo(inp.aprs, inp.flows, gate, |inp.aprs|)
         && r.costs == CostsTo(inp.aprs, gate, inp.fee, |inp.aprs|)
         && r.entries == EntriesTo(inp.aprs, gate, |inp.aprs|)
  }

  /** Its rates and its drawdown. */
  ghost predicate Rated(inp: Inputs, gate: Gate, r: CarryLeg)
    requires inp.Valid()
  {
    && r.annualised == PerYear(r.netReturn, Hours(inp))
    && r.inMarketShare == Share(if inp.aprs == [] then 0 else HoursTo(inp.aprs, gate, |inp.aprs|), Hours(inp))
    && r.maxDrawdown == DrawdownTo(EquityPath(inp, gate), |EquityPath(inp, gate)|)
  }

  /** The running figures before point i. */
  ghost predicate Running(
    inp: Inputs, gate: Gate, i: nat, inPosition: bool, entries: nat, hoursIn: nat, funding: real, costs: real)
    requires inp.Valid()
  {
    if inp.aprs == [] then !inPosition && entries == 0 && hoursIn == 0 && funding == 0.0 && costs == 0.0
    else
      && 0 < i <= |inp.aprs|
      && inPosition == InBefore(inp.aprs, gate, i)
      && entries == EntriesTo(inp.aprs, gate, i)
      && hoursIn == HoursTo(inp.aprs, gate, i)
      && funding == FundingTo(inp.aprs, inp.flows, gate, i)
      && costs == CostsTo(inp.aprs, gate, inp.fee, i)
  }

  /** The account of a run, point by point. */
  method Account(inp: Inputs, gate: Gate) returns (r: CarryLeg)
    requires inp.Valid()
    ensures Accounted(inp, gate, r) && Rated(inp, gate, r)
  {
    var n := |inp.aprs|;
    var equity := inp.capital;
    var peak := inp.capital;
    var maxDrawdown := 0.0;
    var inPosition := false;
    var entries := 0;
    var hoursIn := 0;
    var fundingCollected := 0.0;
    var costs := 0.0;
    ghost var path := EquityPath(inp, gate);

    var i := 1;
    while i < n
      invariant 1 <= i <= |path|
      invariant Running(inp, gate, i, inPosition, entries, hoursIn, fundingCollected, costs)
      invariant equity == path[i-1]
      invariant peak == PeakTo(path, i) && maxDrawdown == DrawdownTo(path, i)
    {
      if inPosition {
        equity := equity + inp.flows[i];
        fundingCollected := fundingCollected + inp.flows[i];
        hoursIn := hoursIn + 1;
      }

      var wantIn := gate.WantIn(inp.aprs[i]);
      var wantOut := gate.WantOut(inp.aprs[i]);

      if !inPosition && wantIn {
        equity := equity - inp.fee;
        costs := costs + inp.fee;
        inPosition := true;
        entries := entries + 1;
      } else if inPosition && wantOut {
        equity := equity - inp.fee;
        costs := costs + inp.fee;
        inPosition := false;
      }

      assert path[i] == equity;
      peak := Max(peak, equity);
      maxDrawdown := Max(maxDrawdown, Fall(peak, equity));
      i := i + 1;
    }

    var netReturn := NetReturn(equity, inp.capital);
    r := CarryLeg(netReturn, PerYear(netReturn, Hours(inp)), fundingCollected, costs, entries,
                  Share(hoursIn, Hours(inp)), maxDrawdown);
  }

  lemma OneMoreRate(series: seq<RatePoint>, i: nat)
    requires 0 < i < |series|
    ensures RatesTo(series, i) == RatesTo(series, i - 1) + [series[i].rate1h]
  {
  }

  lemma OneMoreApr(series: seq<RatePoint>, params: CarryParams, i: nat)
    requires 0 < i < |series|
    ensures AprsTo(series, params, i + 1) == AprsTo(series, params, i) + [AprAt(series, params, i)]
  {
  }

  lemma FirstRate(series: seq<RatePoint>, params: CarryParams)
    requires series != []
    ensures RatesTo(series, 0) == [] && AprsTo(series, params, 1) == [0.0]
  {
    assert AprsTo(series, params, 0) == [];
  }

  /** The trailing rates, from a list of rates that grows point by point. */
  method TrailingRates(series: seq<RatePoint>, params: CarryParams) returns (aprs: seq<real>)
    ensures aprs == Aprs(series, params)
  {
    if series == [] {
      return [];
    }
    var rates: seq<real> := [];
    aprs := [0.0];
    FirstRate(series, params);
    for i := 1 to |series|
      invariant rates == RatesTo(series, i - 1)
      invariant aprs == AprsTo(series, params, i)
    {
      OneMoreRate(series, i);
      OneMoreApr(series, params, i);
      rates := rates + [series[i].rate1h];
      var apr := Annualised(rates, params.lookbackHours);
      aprs := aprs + [apr];
    }
  }

  method Simulate(series: seq<RatePoint>, params: CarryParams, gate: Gate) returns (r: CarryLeg)
    ensures Accounted(InputsOf(series, params), gate, r) && Rated(InputsOf(series, params), gate, r)
  {
    var aprs := TrailingRates(series, params);
    var inp := Inputs(aprs, Flows(series, params), params.notional * (1.0 + params.marginRatio),
                      params.notional * (params.spotFee + params.perpFee));
    assert inp == InputsOf(series, params);
    r := Account(inp, gate);
  }

  // ------------------------------------------------------------------ what the figures add up to

  lemma ReturnOnCapital(equity: real, capital: real)
    requires capital > 0.0
    ensures NetReturn(equity, capital) * capital == equity - capital
  {
    DividedBack(equity, capital);
    Distribute(equity / capital, -1.0, capital);
  }

  /** At every point the equity is the capital, plus the funding collected so far, less the costs so far. */
  lemma {:induction false} EquityAddsUp(inp: Inputs, gate: Gate, n: nat)
    requires inp.Valid() && 0 < n <= |inp.aprs|
    ensures EquityAt(inp, gate, n)
         == inp.capital + FundingTo(inp.aprs, inp.flows, gate, n) - CostsTo(inp.aprs, gate, inp.fee, n)
  {
    if n > 1 {
      EquityAddsUp(inp, gate, n - 1);
    }
  }

  /** So it is at the end, and the return on the capital is what was collected less what was paid. */
  lemma EquityIsAccountedFor(inp: Inputs, gate: Gate, r: CarryLeg)
    requires inp.Valid() && Accounted(inp, gate, r)
    ensures FinalEquity(inp, gate) == inp.capital + r.fundingCollected - r.costs
    ensures r.netReturn * inp.capital == r.fundingCollected - r.costs
  {
    ReturnOnCapital(FinalEquity(inp, gate), inp.capital);
    if inp.aprs != [] {
      EquityAddsUp(inp, gate, |inp.aprs|);
    }
  }

  function Times(count: nat, fee: real): real {
    if count == 0 then 0.0 else Times(count - 1, fee) + fee
  }

  lemma {:induction false} TimesIsProduct(count: nat, fee: real)
    ensures Times(count, fee) == count as real * fee
  {
    if count > 0 {
      TimesIsProduct(count - 1, fee);
      Distribute((count - 1) as real, 1.0, fee);
    }
  }

  /** Every entry and every exit: twice the entries, but for a position still open. */
  function LegsTo(aprs: seq<real>, gate: Gate, n: nat): int
    requires 0 < n <= |aprs|
  {
    2 * EntriesTo(aprs, gate, n) - if InBefore(aprs, gate, n) then 1 else 0
  }

  lemma {:induction false} LegsPaid(aprs: seq<real>, gate: Gate, fee: real, n: nat)
    requires 0 < n <= |aprs|
    ensures LegsTo(aprs, gate, n) >= 0
    ensures CostsTo(aprs, gate, fee, n) == Times(LegsTo(aprs, gate, n), fee)
  {
    if n > 1 {
      LegsPaid(aprs, gate, fee, n - 1);
    }
  }

  /** Costs are one fee an entry and one an exit. */
  lemma CostsAreLegs(inp: Inputs, gate: Gate, r: CarryLeg)
    requires inp.Valid() && inp.aprs != [] && Accounted(inp, gate, r)
    ensures LegsTo(inp.aprs, gate, |inp.aprs|)
         == 2 * r.entries - if InBefore(inp.aprs, gate, |inp.aprs|) then 1 else 0
    ensures r.costs == LegsTo(inp.aprs, gate, |inp.aprs|) as real * inp.fee
  {
    LegsPaid(inp.aprs, gate, inp.fee, |inp.aprs|);
    TimesIsProduct(LegsTo(inp.aprs, gate, |inp.aprs|), inp.fee);
  }

  /** The drawdown is the worst fall of the equity from a peak; the capital is positive, so every peak is. */
  lemma DrawdownIsReported(inp: Inputs, gate: Gate, r: CarryLeg)
    requires inp.Valid() && Rated(inp, gate, r)
    ensures IsWorstFall(r.maxDrawdown, EquityPath(inp, gate))
    ensures forall n: nat :: 0 < n <= |EquityPath(inp, gate)| ==> PeakTo(EquityPath(inp, gate), n) > 0.0
  {
    var path := EquityPath(inp, gate);
    DrawdownIsWorstFall(path);
    forall n: nat | 0 < n <= |path| ensures PeakTo(path, n) > 0.0 {
      var i := PeakIsHighest(path, n);
    }
  }

  lemma {:induction false} AlwaysOnIsIn(aprs: seq<real>, fee: real, n: nat)
    requires 0 < n <= |aprs|
    ensures InBefore(aprs, AlwaysOn, n) == (n >= 2)
    ensures CostsTo(aprs, AlwaysOn, fee, n) == if n >= 2 then fee else 0.0
    ensures HoursTo(aprs, AlwaysOn, n) == if n >= 2 then n - 2 else 0
  {
    if n > 1 {
      AlwaysOnIsIn(aprs, fee, n - 1);
    }
  }

  /** The funding of the points, from the third on, that the gated run met out of position. */
  function MissedTo(aprs: seq<real>, flows: seq<real>, gate: Gate, n: nat): real
    requires 0 < n <= |aprs| == |flows|
  {
    if n <= 2 then 0.0
    else MissedTo(aprs, flows, gate, n - 1) + if InBefore(aprs, gate, n - 1) then 0.0 else flows[n-1]
  }

  lemma {:induction false} MissedIsTheDifference(aprs: seq<real>, flows: seq<real>, gate: Gate, n: nat)
    requires 0 < n <= |aprs| == |flows|
    ensures FundingTo(aprs, flows, gate, n) + MissedTo(aprs, flows, gate, n) == FundingTo(aprs, flows, AlwaysOn, n)
  {
    if n > 1 {
      MissedIsTheDifference(aprs, flows, gate, n - 1);
      AlwaysOnIsIn(aprs, 0.0, n - 1);
    }
  }

  lemma EquityDifference(inp: Inputs, gate: Gate)
    requires inp.Valid() && |inp.aprs| >= 2
    ensures FinalEquity(inp, gate) - FinalEquity(inp, AlwaysOn)
         == -MissedTo(inp.aprs, inp.flows, gate, |inp.aprs|) - (CostsTo(inp.aprs, gate, inp.fee, |inp.aprs|) - inp.fee)
  {
    EquityAddsUp(inp, gate, |inp.aprs|);
    EquityAddsUp(inp, AlwaysOn, |inp.aprs|);
    MissedIsTheDifference(inp.aprs, inp.flows, gate, |inp.aprs|);
    AlwaysOnIsIn(inp.aprs, inp.fee, |inp.aprs|);
  }

  /** What the gate is worth: minus the funding of the hours it is out, and minus a fee for every leg but one. */
  lemma GatedAgainstAlwaysOn(inp: Inputs, gate: Gate, gated: CarryLeg, always: CarryLeg)
    requires inp.Valid() && |inp.aprs| >= 2
    requires Accounted(inp, gate, gated) && Accounted(inp, AlwaysOn, always)
    ensures (gated.netReturn - always.netReturn) * inp.capital
         == -MissedTo(inp.aprs, inp.flows, gate, |inp.aprs|) - (gated.costs - inp.fee)
    ensures gated.costs == LegsTo(inp.aprs, gate, |inp.aprs|) as real * inp.fee
  {
    EquityDifference(inp, gate);
    CostsAreLegs(inp, gate, gated);
  }

  /** The always-on run is never reported as in the market all the time: it enters at the end of the first hour. */
  lemma AlwaysOnShare(inp: Inputs, r: CarryLeg)
    requires inp.Valid() && |inp.aprs| >= 2 && Rated(inp, AlwaysOn, r)
    ensures r.inMarketShare == (|inp.aprs| - 2) as real / (|inp.aprs| - 1) as real
  {
    AlwaysOnIsIn(inp.aprs, 0.0, |inp.aprs|);
  }
}
