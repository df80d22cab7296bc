/** Least and greatest of a list of numbers, in two independent forms: by comparison and by running value. */
module Extremes {
  function Min(a: real, b: real): real { if a <= b then a else b }

  function Max(a: real, b: real): real { if a <= b then b else a }

  function Abs(x: real): real { if x < 0.0 then -x else x }

  predicate IsLeast(v: real, xs: seq<real>) {
    v in xs && forall i :: 0 <= i < |xs| ==> v <= xs[i]
  }

  predicate IsGreatest(v: real, xs: seq<real>) {
    v in xs && forall i :: 0 <= i < |xs| ==> xs[i] <= v
  }

  lemma LeastExtended(v: real, xs: seq<real>, x: real)
    requires IsLeast(v, xs)
    ensures IsLeast(Min(v, x), xs + [x])
  {
    assert (xs + [x])[|xs|] == x;
  }

  lemma GreatestExtended(v: real, xs: seq<real>, x: real)
    requires IsGreatest(v, xs)
    ensures IsGreatest(Max(v, x), xs + [x])
  {
    assert (xs + [x])[|xs|] == x;
  }
}
