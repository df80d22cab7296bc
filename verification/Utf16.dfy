/** Slicing strings of UTF-16 code units without splitting a surrogate pair. */
module Utf16 {
  import opened Wrappers

  type Unit = n: nat | n < 0x10000

  predicate IsHighSurrogate(u: Unit) { 0xD800 <= u <= 0xDBFF }

  predicate IsLowSurrogate(u: Unit) { 0xDC00 <= u <= 0xDFFF }

  /** Position k is inside a surrogate pair. */
  predicate Splits(s: seq<Unit>, k: int) {
    0 < k < |s| && IsHighSurrogate(s[k-1]) && IsLowSurrogate(s[k])
  }

  /** Section 3.9 of The Unicode Standard: every surrogate is one half of a pair. */
  predicate WellFormed(s: seq<Unit>) {
    if s == [] then true
    else if IsHighSurrogate(s[0]) then |s| > 1 && IsLowSurrogate(s[1]) && WellFormed(s[2..])
    else !IsLowSurrogate(s[0]) && WellFormed(s[1..])
  }

  function PairValue(high: Unit, low: Unit): (v: nat)
    requires IsHighSurrogate(high) && IsLowSurrogate(low)
    ensures 0x10000 <= v <= 0x10FFFF
  {
    0x10000 + (high - 0xD800) * 0x400 + (low - 0xDC00)
  }

  /** The code points of a string; a surrogate on its own stands for itself. */
  function CodePoints(s: seq<Unit>): seq<nat> {
    if s == [] then []
    else if Splits(s, 1) then [PairValue(s[0], s[1])] + CodePoints(s[2..])
    else [s[0]] + CodePoints(s[1..])
  }

  // ------------------------------------------------------------------ safe positions

  /** The position itself, or the end of the pair it is inside. */
  function UpFrom(s: seq<Unit>, k: int): int {
    if Splits(s, k) then k + 1 else k
  }

  /** The position itself, or the start of the pair it is inside. */
  function DownFrom(s: seq<Unit>, k: int): int {
    if Splits(s, k) then k - 1 else k
  }

  lemma NearestSafe(s: seq<Unit>, k: int)
    requires 0 <= k <= |s|
    ensures k <= UpFrom(s, k) <= |s| && !Splits(s, UpFrom(s, k))
    ensures forall j :: k <= j && !Splits(s, j) ==> UpFrom(s, k) <= j
    ensures 0 <= DownFrom(s, k) <= k && !Splits(s, DownFrom(s, k))
    ensures forall j :: j <= k && !Splits(s, j) ==> j <= DownFrom(s, k)
  {
  }

  function Clamped(len: nat, k: int): (r: nat)
    ensures r <= len
  {
    if k < 0 then (if len + k < 0 then 0 else len + k) else if k < len then k else len
  }

  /** The requested range: negative bounds count from the end, and the bounds may come in either order. */
  function Requested(len: nat, start: int, end: Option<int>): (r: (nat, nat))
    ensures r.0 <= r.1 <= len
  {
    var a, b := Clamped(len, start), if end.None? then len else Clamped(len, end.value);
    if b < a then (b, a) else (a, b)
  }

  /** The largest part of the requested range that begins and ends at safe positions. */
  function SafePart(s: seq<Unit>, lo: nat, hi: nat): seq<Unit>
    requires lo <= hi <= |s|
  {
    NearestSafe(s, lo);
    NearestSafe(s, hi);
    if UpFrom(s, lo) <= DownFrom(s, hi) then s[UpFrom(s, lo)..DownFrom(s, hi)] else []
  }

  method SliceUtf16Safe(input: seq<Unit>, start: int, end: Option<int>) returns (r: seq<Unit>)
    ensures r == SafePart(input, Requested(|input|, start, end).0, Requested(|input|, start, end).1)
  {
    var len := |input|;
    var from: int := if start < 0 then (if len + start < 0 then 0 else len + start)
                     else if start < len then start else len;
    var to: int := if end.None? then len
                   else if end.value < 0 then (if len + end.value < 0 then 0 else len + end.value)
                   else if end.value < len then end.value else len;
    if to < from {
      var tmp := from;
      from := to;
      to := tmp;
    }
    ghost var lo: nat, hi: nat := from, to;
    assert (lo, hi) == Requested(len, start, end);
    if from > 0 && from < len {
      if IsLowSurrogate(input[from]) && IsHighSurrogate(input[from-1]) {
        from := from + 1;
      }
    }
    if to > 0 && to < len {
      if IsHighSurrogate(input[to-1]) && IsLowSurrogate(input[to]) {
        to := to - 1;
      }
    }
    assert from == UpFrom(input, lo) && to == DownFrom(input, hi);
    r := if from <= to then input[from..to] else [];
  }

  method TruncateUtf16Safe(input: seq<Unit>, maxLen: real) returns (r: seq<Unit>)
    ensures r == Truncated(input, maxLen.Floor)
    ensures r <= input && (r == [] || |r| as real <= maxLen) && (r == input || |r| as real + 2.0 > maxLen)
  {
    TruncatedIsPrefix(input, maxLen.Floor);
    var limit := if maxLen.Floor < 0 then 0 else maxLen.Floor;
    if |input| <= limit {
      return input;
    }
    r := SliceUtf16Safe(input, 0, Some(limit));
  }

  function Truncated(s: seq<Unit>, maxLen: int): seq<Unit> {
    var limit := if maxLen < 0 then 0 else maxLen;
    if |s| <= limit then s else SafePart(s, 0, limit)
  }

  /** The result is a prefix no longer than the limit; when it cuts, it is as long as the limit, or one unit shorter
      exactly when the limit is inside a pair. */
  lemma TruncatedIsPrefix(s: seq<Unit>, maxLen: int)
    ensures var limit := if maxLen < 0 then 0 else maxLen; var r := Truncated(s, maxLen);
      && r <= s && |r| <= limit
      && (|s| <= limit ==> r == s)
      && (|s| > limit ==> |r| == if Splits(s, limit) then limit - 1 else limit)
      && !Splits(s, |r|)
  {
    var limit := if maxLen < 0 then 0 else maxLen;
    if |s| > limit {
      NearestSafe(s, limit);
    }
  }

  // ------------------------------------------------------------------ well-formedness

  /** Every high surrogate is followed by a low one, and every low one preceded by a high one. */
  ghost predicate PairedEverywhere(s: seq<Unit>) {
    forall i :: 0 <= i < |s| ==>
      && (IsHighSurrogate(s[i]) ==> Splits(s, i + 1))
      && (IsLowSurrogate(s[i]) ==> Splits(s, i))
  }

  lemma {:induction false} WellFormedExactlyWhenPaired(s: seq<Unit>)
    ensures WellFormed(s) <==> PairedEverywhere(s)
    decreases |s|
  {
    if s != [] {
      var n := if Splits(s, 1) then 2 else 1;
      WellFormedExactlyWhenPaired(s[n..]);
      forall i | n < i < |s| ensures Splits(s, i) <==> Splits(s[n..], i - n) {
      }
      if IsHighSurrogate(s[0]) && !Splits(s, 1) {
        assert !PairedEverywhere(s);
      } else if IsLowSurrogate(s[0]) {
        assert !Splits(s, 0);
      } else {
        TailIsPaired(s, n);
      }
    }
  }

  /** Past a whole character, pairing is pairing of the rest. */
  lemma TailIsPaired(s: seq<Unit>, n: nat)
    requires 0 < n <= |s| && n == (if Splits(s, 1) then 2 else 1)
    requires !IsLowSurrogate(s[0]) && (IsHighSurrogate(s[0]) ==> Splits(s, 1))
    ensures PairedEverywhere(s) <==> PairedEverywhere(s[n..])
  {
    var t := s[n..];
    assert !Splits(s, n);
    if PairedEverywhere(s) {
      forall i | 0 <= i < |t|
        ensures (IsHighSurrogate(t[i]) ==> Splits(t, i + 1)) && (IsLowSurrogate(t[i]) ==> Splits(t, i))
      {
        ShiftedSplits(s, n, i);
        ShiftedSplits(s, n, i + 1);
        assert t[i] == s[n+i];
      }
    }
    if PairedEverywhere(t) {
      forall i | 0 <= i < |s|
        ensures (IsHighSurrogate(s[i]) ==> Splits(s, i + 1)) && (IsLowSurrogate(s[i]) ==> Splits(s, i))
      {
        if i >= n {
          ShiftedSplits(s, n, i - n);
          ShiftedSplits(s, n, i - n + 1);
          assert t[i-n] == s[i];
        }
      }
    }
  }

  lemma ShiftedSplits(s: seq<Unit>, n: nat, k: nat)
    requires n <= |s|
    ensures k > 0 ==> (Splits(s[n..], k) <==> Splits(s, n + k))
  {
  }

  /** A part of a well-formed string is well formed exactly when it begins and ends at safe positions. */
  lemma PartIsWellFormedExactlyWhen(s: seq<Unit>, from: nat, to: nat)
    requires from < to <= |s| && WellFormed(s)
    ensures WellFormed(s[from..to]) <==> !Splits(s, from) && !Splits(s, to)
  {
    var r := s[from..to];
    WellFormedExactlyWhenPaired(s);
    WellFormedExactlyWhenPaired(r);
    assert r[0] == s[from] && r[|r|-1] == s[to-1];
    assert !Splits(r, 0) && !Splits(r, |r|);
    forall i | 0 < i < |r| ensures Splits(r, i) <==> Splits(s, from + i) {
    }
    if !Splits(s, from) && !Splits(s, to) {
      forall i | 0 <= i < |r|
        ensures (IsHighSurrogate(r[i]) ==> Splits(r, i + 1)) && (IsLowSurrogate(r[i]) ==> Splits(r, i))
      {
        assert IsHighSurrogate(s[from+i]) ==> Splits(s, from + i + 1);
        assert IsLowSurrogate(s[from+i]) ==> Splits(s, from + i);
      }
    }
  }

  /** A slice of a well-formed string is well formed, and inside the requested range. */
  lemma SliceIsWellFormed(s: seq<Unit>, lo: nat, hi: nat)
    requires lo <= hi <= |s| && WellFormed(s)
    ensures WellFormed(SafePart(s, lo, hi))
    ensures exists from: nat, to: nat :: lo <= from <= to <= hi && SafePart(s, lo, hi) == s[from..to]
  {
    NearestSafe(s, lo);
    NearestSafe(s, hi);
    var from, to := UpFrom(s, lo), DownFrom(s, hi);
    if from < to {
      PartIsWellFormedExactlyWhen(s, from, to);
      assert SafePart(s, lo, hi) == s[from..to];
    } else {
      assert SafePart(s, lo, hi) == s[lo..lo];
    }
  }

  // ------------------------------------------------------------------ code points

  lemma CodePointsAfterCut(s: seq<Unit>, k: nat, n: nat)
    requires n <= k <= |s|
    ensures s[..k][n..] == s[n..][..k-n] && s[n..][k-n..] == s[k..]
  {
  }

  lemma {:induction false} CodePointsJoin(s: seq<Unit>, k: nat)
    requires k <= |s| && !Splits(s, k)
    ensures CodePoints(s) == CodePoints(s[..k]) + CodePoints(s[k..])
    decreases k
  {
    if k == 0 {
      assert s[..0] == [] && s[0..] == s;
    } else {
      var n := if Splits(s, 1) then 2 else 1;
      assert n <= k;
      CodePointsAfterCut(s, k, n);
      assert Splits(s[..k], 1) <==> Splits(s, 1);
      assert Splits(s[n..], k - n) ==> Splits(s, k);
      CodePointsJoin(s[n..], k - n);
    }
  }

  lemma {:induction false} CodePointsLonger(s: seq<Unit>, k: nat)
    requires Splits(s, k)
    ensures |CodePoints(s[..k])| + |CodePoints(s[k..])| == |CodePoints(s)| + 1
    decreases k
  {
    var n := if Splits(s, 1) then 2 else 1;
    if k == 1 {
      assert s[..1] == [s[0]] && s[1..][1..] == s[2..];
      assert !Splits(s[1..], 1);
      assert CodePoints(s[..1]) == [s[0]] + CodePoints(s[..1][1..]);
    } else {
      assert n <= k - 1;
      CodePointsAfterCut(s, k, n);
      assert Splits(s[..k], 1) <==> Splits(s, 1);
      CodePointsLonger(s[n..], k - n);
    }
  }

  /** Cutting a string in two keeps its code points exactly when the cut is not inside a pair. */
  lemma CutKeepsCodePointsExactlyWhen(s: seq<Unit>, k: nat)
    requires k <= |s|
    ensures CodePoints(s[..k]) + CodePoints(s[k..]) == CodePoints(s) <==> !Splits(s, k)
  {
    if Splits(s, k) {
      CodePointsLonger(s, k);
    } else {
      CodePointsJoin(s, k);
    }
  }

  /** A slice holds whole characters of any string, well formed or not: its code points are a stretch of the
      string's own. */
  lemma SliceHoldsWholeCharacters(s: seq<Unit>, lo: nat, hi: nat) returns (before: seq<nat>, after: seq<nat>)
    requires lo <= hi <= |s|
    ensures CodePoints(s) == before + CodePoints(SafePart(s, lo, hi)) + after
  {
    NearestSafe(s, lo);
    NearestSafe(s, hi);
    var from, to := UpFrom(s, lo), DownFrom(s, hi);
    if from <= to {
      before, after := MiddleJoins(s, from, to);
    } else {
      before, after := CodePoints(s), [];
    }
  }

  lemma MiddleJoins(s: seq<Unit>, from: nat, to: nat) returns (before: seq<nat>, after: seq<nat>)
    requires from <= to <= |s| && !Splits(s, from) && !Splits(s, to)
    ensures CodePoints(s) == before + CodePoints(s[from..to]) + after
  {
    before, after := CodePoints(s[..from]), CodePoints(s[to..]);
    CodePointsJoin(s, to);
    if from < to {
      assert Splits(s[..to], from) <==> Splits(s, from);
    }
    CodePointsJoin(s[..to], from);
    assert s[..to][..from] == s[..from] && s[..to][from..] == s[from..to];
  }
}
