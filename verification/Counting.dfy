/** Sums over a sequence of weights. */
module Counting {
  function Total<T>(xs: seq<T>, weigh: T -> nat): nat {
    if xs == [] then 0 else weigh(xs[0]) + Total(xs[1..], weigh)
  }

  lemma TotalUpdate<T>(xs: seq<T>, weigh: T -> nat, i: nat, x: T)
    requires i < |xs|
    ensures Total(xs[i := x], weigh) + weigh(xs[i]) == Total(xs, weigh) + weigh(x)
  {
    if i == 0 {
      assert xs[0 := x][1..] == xs[1..];
    } else {
      assert xs[i := x][1..] == xs[1..][i-1 := x];
      TotalUpdate(xs[1..], weigh, i - 1, x);
    }
  }

  lemma TotalAtLeast<T>(xs: seq<T>, weigh: T -> nat, i: nat)
    requires i < |xs|
    ensures Total(xs, weigh) >= weigh(xs[i])
  {
    if i > 0 {
      TotalAtLeast(xs[1..], weigh, i - 1);
    }
  }
}
