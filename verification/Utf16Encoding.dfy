/** The code units of code points, and the range of a slice. */
module Utf16Encoding {
  import opened Wrappers
  import opened Utf16

  // ------------------------------------------------------------------ encoding

  /** Section 3.9 of The Unicode Standard: a code point that is not a surrogate. */
  type Scalar = n: nat | n < 0xD800 || 0xE000 <= n < 0x110000

  /** Section 3.9 of The Unicode Standard, UTF-16: one unit, or a high and a low surrogate. */
  function Encode(v: Scalar): seq<Unit> {
    if v < 0x10000 then [v] else [0xD800 + (v - 0x10000) / 0x400, 0xDC00 + (v - 0x10000) % 0x400]
  }

  function EncodeAll(vs: seq<Scalar>): seq<Unit> {
    if vs == [] then [] else Encode(vs[0]) + EncodeAll(vs[1..])
  }

  lemma PairOfScalar(v: Scalar)
    requires v >= 0x10000
    ensures var u := Encode(v); IsHighSurrogate(u[0]) && IsLowSurrogate(u[1]) && PairValue(u[0], u[1]) == v
  {
  }

  lemma ScalarOfPair(high: Unit, low: Unit)
    requires IsHighSurrogate(high) && IsLowSurrogate(low)
    ensures Encode(PairValue(high, low)) == [high, low]
  {
  }

  lemma FirstOfEncoded(v: Scalar, rest: seq<Unit>)
    requires rest == [] || !IsLowSurrogate(rest[0])
    ensures CodePoints(Encode(v) + rest) == [v] + CodePoints(rest)
    ensures WellFormed(Encode(v) + rest) <==> WellFormed(rest)
  {
    var s := Encode(v) + rest;
    if v < 0x10000 {
      assert s[0] == v && s[1..] == rest;
    } else {
      PairOfScalar(v);
      assert s[0] == Encode(v)[0] && s[1] == Encode(v)[1] && s[2..] == rest;
    }
  }

  /** What code points are encoded as is well formed, and has those code points. */
  lemma {:induction false} EncodedIsDecoded(vs: seq<Scalar>)
    ensures WellFormed(EncodeAll(vs)) && CodePoints(EncodeAll(vs)) == vs
    ensures EncodeAll(vs) != [] ==> !IsLowSurrogate(EncodeAll(vs)[0])
    decreases |vs|
  {
    if vs != [] {
      EncodedIsDecoded(vs[1..]);
      FirstOfEncoded(vs[0], EncodeAll(vs[1..]));
      if vs[0] >= 0x10000 {
        PairOfScalar(vs[0]);
      }
    }
  }

  /** A well-formed string is what its code points are encoded as. */
  lemma {:induction false} DecodedIsEncoded(s: seq<Unit>)
    requires WellFormed(s)
    ensures (forall k :: 0 <= k < |CodePoints(s)| ==>
               CodePoints(s)[k] < 0xD800 || 0xE000 <= CodePoints(s)[k] < 0x110000)
         && EncodeAll(CodePoints(s)) == s
    decreases |s|
  {
    if s != [] {
      if Splits(s, 1) {
        DecodedIsEncoded(s[2..]);
        ScalarOfPair(s[0], s[1]);
        assert CodePoints(s)[1..] == CodePoints(s[2..]);
        assert s == [s[0], s[1]] + s[2..];
      } else {
        DecodedIsEncoded(s[1..]);
        assert CodePoints(s)[1..] == CodePoints(s[1..]);
        assert s == [s[0]] + s[1..];
      }
    }
  }

  /** A string is well formed exactly when it encodes some code points. */
  lemma WellFormedExactlyWhenEncoded(s: seq<Unit>)
    ensures WellFormed(s) <==> exists vs: seq<Scalar> :: EncodeAll(vs) == s
  {
    if WellFormed(s) {
      DecodedIsEncoded(s);
      var vs: seq<Scalar> := CodePoints(s);
      assert EncodeAll(vs) == s;
    }
    if vs: seq<Scalar> :| EncodeAll(vs) == s {
      EncodedIsDecoded(vs);
    }
  }

  // ------------------------------------------------------------------ the requested range

  /** A negative bound counts from the end. */
  function Position(len: nat, bound: int): int {
    if bound < 0 then len + bound else bound
  }

  /** The position inside the string that is nearest to p. */
  ghost predicate Nearest(len: nat, p: int, r: int) {
    0 <= r <= len && forall q :: 0 <= q <= len && q != r ==> Distance(p, r) < Distance(p, q)
  }

  function Distance(p: int, q: int): int {
    if p < q then q - p else p - q
  }

  lemma NearestIsOne(len: nat, p: int, c: int, r: int)
    requires Nearest(len, p, c)
    ensures Nearest(len, p, r) <==> r == c
  {
    assert Nearest(len, p, r) ==> Distance(p, r) <= Distance(p, c);
  }

  /** A bound is clamped to the nearest position inside the string, and there is only one. */
  lemma ClampedIsNearest(len: nat, bound: int, r: int)
    ensures Clamped(len, bound) == r <==> Nearest(len, Position(len, bound), r)
  {
    var c := Clamped(len, bound);
    assert Nearest(len, Position(len, bound), c);
    NearestIsOne(len, Position(len, bound), c, r);
  }

  /** The range requested is between the positions nearest to the two bounds, whichever comes first; without an end it
      goes to the end of the string. */
  lemma RequestedIsBetween(len: nat, start: int, end: Option<int>, a: int, b: int)
    requires Nearest(len, Position(len, start), a)
    requires Nearest(len, if end.Some? then Position(len, end.value) else len, b)
    ensures Requested(len, start, end) == if a <= b then (a, b) else (b, a)
  {
    ClampedIsNearest(len, start, a);
    ClampedIsNearest(len, if end.Some? then end.value else len, b);
  }
}
