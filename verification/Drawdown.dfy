/** The worst fall of an equity path from its running peak. */
module Drawdown {
  import opened Extremes

  /** The running peak after n values; the first value is the starting one. */
  function PeakTo(path: seq<real>, n: nat): real
    requires 0 < n <= |path|
  {
    if n == 1 then path[0] else Max(PeakTo(path, n - 1), path[n-1])
  }

  /** A fall in proportion to a peak; none from a peak that is not positive. */
  function Fall(peak: real, value: real): real {
    if peak > 0.0 then (peak - value) / peak else 0.0
  }

  /** The running maximum drawdown after n values. */
  function DrawdownTo(path: seq<real>, n: nat): real
    requires 0 < n <= |path|
  {
    if n == 1 then 0.0 else Max(DrawdownTo(path, n - 1), Fall(PeakTo(path, n), path[n-1]))
  }

  /** Up to index j, the value at i is the highest. */
  ghost predicate HighestAt(path: seq<real>, i: nat, j: nat) {
    i <= j < |path| && forall k: nat :: k <= j ==> path[k] <= path[i]
  }

  /** v is the worst fall from any peak of the path to a value at or after it that has not exceeded it. */
  ghost predicate IsWorstFall(v: real, path: seq<real>) {
    && (exists i: nat, j: nat :: HighestAt(path, i, j) && v == Fall(path[i], path[j]))
    && (forall i: nat, j: nat :: HighestAt(path, i, j) ==> Fall(path[i], path[j]) <= v)
  }

  lemma {:induction false} PeakIsHighest(path: seq<real>, n: nat) returns (i: nat)
    requires 0 < n <= |path|
    ensures HighestAt(path, i, n - 1) && path[i] == PeakTo(path, n)
  {
    if n == 1 {
      i := 0;
    } else {
      i := PeakIsHighest(path, n - 1);
      if path[i] <= path[n-1] {
        i := n - 1;
      }
    }
  }

  lemma HighestValue(path: seq<real>, i: nat, j: nat)
    requires HighestAt(path, i, j)
    ensures path[i] == PeakTo(path, j + 1)
  {
    var k := PeakIsHighest(path, j + 1);
    assert path[i] <= path[k];
  }

  lemma {:induction false} DrawdownReached(path: seq<real>, n: nat) returns (i: nat, j: nat)
    requires 0 < n <= |path|
    ensures HighestAt(path, i, j) && j < n && DrawdownTo(path, n) == Fall(path[i], path[j])
  {
    if n == 1 {
      i, j := 0, 0;
    } else {
      i, j := DrawdownReached(path, n - 1);
      if DrawdownTo(path, n) != DrawdownTo(path, n - 1) {
        i := PeakIsHighest(path, n);
        j := n - 1;
      }
    }
  }

  lemma {:induction false} DrawdownBounds(path: seq<real>, n: nat, i: nat, j: nat)
    requires 0 < n <= |path| && HighestAt(path, i, j) && j < n
    ensures Fall(path[i], path[j]) <= DrawdownTo(path, n)
  {
    HighestValue(path, i, j);
    if j < n - 1 {
      DrawdownBounds(path, n - 1, i, j);
    }
  }

  /** The running figure is the worst fall. */
  lemma DrawdownIsWorstFall(path: seq<real>)
    requires path != []
    ensures IsWorstFall(DrawdownTo(path, |path|), path)
  {
    var i, j := DrawdownReached(path, |path|);
    forall i: nat, j: nat | HighestAt(path, i, j) ensures Fall(path[i], path[j]) <= DrawdownTo(path, |path|) {
      DrawdownBounds(path, |path|, i, j);
    }
  }

  lemma DividedBack(x: real, c: real)
    requires c > 0.0
    ensures (x / c) * c == x
  {
  }

  lemma Distribute(x: real, y: real, c: real)
    ensures (x + y) * c == x * c + y * c
  {
  }

  lemma SameFactor(x: real, y: real, c: real)
    requires x * c <= y * c && c > 0.0
    ensures x <= y
  {
  }

  lemma FallIsRest(peak: real, value: real)
    requires peak > 0.0
    ensures Fall(peak, value) == 1.0 - value / peak
  {
    var f, g := (peak - value) / peak, value / peak;
    DividedBack(peak - value, peak);
    DividedBack(value, peak);
    Distribute(f, g, peak);
    SameFactor(f + g, 1.0, peak);
    SameFactor(1.0, f + g, peak);
  }

  lemma RatioFalls(value: real, low: real, high: real)
    requires value >= 0.0 && 0.0 < low <= high
    ensures value / high <= value / low
  {
    var a, b := value / low, value / high;
    DividedBack(value, low);
    DividedBack(value, high);
    assert b >= 0.0;
    assert b * low <= b * high;
    SameFactor(b, a, low);
  }

  lemma LowerPeakFallsLess(low: real, high: real, value: real)
    requires low <= high && value >= 0.0 && low > 0.0
    ensures Fall(low, value) <= Fall(high, value)
  {
    RatioFalls(value, low, high);
    FallIsRest(low, value);
    FallIsRest(high, value);
  }

  /** While the path never goes below zero, it is the worst fall from any value to any later one. */
  lemma WorstFallBetweenAnyTwo(v: real, path: seq<real>, i: nat, j: nat)
    requires IsWorstFall(v, path) && i <= j < |path|
    requires forall k: nat :: k < |path| ==> path[k] >= 0.0
    ensures Fall(path[i], path[j]) <= v
  {
    var p := PeakIsHighest(path, j + 1);
    assert HighestAt(path, p, j) && path[i] <= path[p];
    if path[i] > 0.0 {
      LowerPeakFallsLess(path[i], path[p], path[j]);
    } else {
      assert HighestAt(path, 0, 0);
    }
  }
}
