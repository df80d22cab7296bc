/** Fresh placeholder names: `__OC_I18N_<number>__`, numbered from 900000, skipping names the source
    text already uses. */
module Placeholders {
  import opened Wrappers
  import opened Text

  const OPEN := "__OC_I18N_"
  const STEM := "OC_I18N_"
  const FIRST: nat := 900000

  function Name(k: nat): string {
    OPEN + Digits(k) + "__"
  }

  /** The shape `__OC_I18N_\d+__`. */
  predicate IsName(n: string) {
    && |n| > 12
    && OPEN <= n && n[|n|-2..] == "__"
    && forall i :: 10 <= i < |n| - 2 ==> IsDigit(n[i])
  }

  lemma NameIsName(k: nat)
    ensures IsName(Name(k))
  {
    DigitsAreDigits(k);
  }

  lemma NameInjective(j: nat, k: nat)
    requires Name(j) == Name(k)
    ensures j == k
  {
    assert Name(j)[10..|Name(j)|-2] == Digits(j);
    assert Name(k)[10..|Name(k)|-2] == Digits(k);
    DigitsInjective(j, k);
  }

  /** The end of the run of digits that starts at i. */
  function DigitsEnd(s: string, i: nat): (e: nat)
    requires i <= |s|
    ensures i <= e <= |s| && (forall j :: i <= j < e ==> IsDigit(s[j])) && (e < |s| ==> !IsDigit(s[e]))
    decreases |s| - i
  {
    if i < |s| && IsDigit(s[i]) then DigitsEnd(s, i + 1) else i
  }

  /** Where the placeholder that starts at i ends, if one does. */
  function NameAt(s: string, i: nat): (r: Option<nat>)
    ensures r.Some? ==> i + 12 < r.value <= |s| && IsName(s[i..r.value])
  {
    if OccursAt(s, OPEN, i) then
      var e := DigitsEnd(s, i + 10);
      if e > i + 10 && OccursAt(s, "__", e) then
        assert s[e..][..2] == "__";
        Some(e + 2)
      else None
    else None
  }

  /** The regular expression's matches from i on: leftmost, and never overlapping. */
  function FindNames(s: string, i: nat): set<string>
    decreases |s| - i
  {
    if i >= |s| then {}
    else match NameAt(s, i)
         case Some(e) => {s[i..e]} + FindNames(s, e)
         case None => FindNames(s, i + 1)
  }

  /** The least number from c on whose name is not used. */
  function FreshFrom(c: nat, used: set<string>): nat
    decreases |used|
  {
    if Name(c) !in used then c else FreshFrom(c + 1, used - {Name(c)})
  }

  lemma {:induction false} FreshFromIsLeast(c: nat, used: set<string>)
    ensures c <= FreshFrom(c, used) && Name(FreshFrom(c, used)) !in used
    ensures forall k :: c <= k < FreshFrom(c, used) ==> Name(k) in used
    decreases |used|
  {
    if Name(c) in used {
      FreshFromIsLeast(c + 1, used - {Name(c)});
      var f := FreshFrom(c, used);
      if Name(f) == Name(c) {
        NameInjective(f, c);
      }
    }
  }

  /** The names that n calls return. */
  function Fresh(c: nat, used: set<string>, n: nat): seq<string>
    decreases n
  {
    if n == 0 then []
    else var k := FreshFrom(c, used);
         [Name(k)] + Fresh(k + 1, used + {Name(k)}, n - 1)
  }

  class PlaceholderState {
    var counter: nat
    var used: set<string>

    constructor (text: string)
      ensures counter == FIRST && used == FindNames(text, 0)
    {
      counter, used := FIRST, FindNames(text, 0);
    }

    method Next() returns (candidate: string)
      modifies this
      ensures counter == FreshFrom(old(counter), old(used)) + 1
      ensures candidate == Name(FreshFrom(old(counter), old(used)))
      ensures candidate !in old(used) && used == old(used) + {candidate}
    {
      FreshFromIsLeast(counter, used);
      while true
        invariant old(counter) <= counter <= FreshFrom(old(counter), old(used)) && used == old(used)
        decreases FreshFrom(old(counter), old(used)) - counter
      {
        candidate := Name(counter);
        counter := counter + 1;
        if candidate in used {
          continue;
        }
        used := used + {candidate};
        return;
      }
    }
  }

  /** Over a whole run no name comes twice, and none was used before. */
  lemma {:induction false} FreshDistinct(c: nat, used: set<string>, n: nat)
    ensures |Fresh(c, used, n)| == n
    ensures forall i :: 0 <= i < n ==> Fresh(c, used, n)[i] !in used
    ensures forall i, j :: 0 <= i < j < n ==> Fresh(c, used, n)[i] != Fresh(c, used, n)[j]
    decreases n
  {
    if n > 0 {
      var k := FreshFrom(c, used);
      FreshFromIsLeast(c, used);
      FreshDistinct(k + 1, used + {Name(k)}, n - 1);
    }
  }

  /** Some number of calls hands out the name. */
  ghost predicate Reached(c: nat, used: set<string>, name: string) {
    exists n: nat, i :: 0 <= i < |Fresh(c, used, n)| && Fresh(c, used, n)[i] == name
  }

  lemma ReachedLater(c: nat, used: set<string>, name: string)
    requires var k := FreshFrom(c, used); Reached(k + 1, used + {Name(k)}, name)
    ensures Reached(c, used, name)
  {
    var k := FreshFrom(c, used);
    var after := used + {Name(k)};
    var n: nat, i :| 0 <= i < |Fresh(k + 1, after, n)| && Fresh(k + 1, after, n)[i] == name;
    assert Fresh(c, used, n + 1) == [Name(k)] + Fresh(k + 1, after, n);
    assert Fresh(c, used, n + 1)[i + 1] == name;
  }

  /** Every unused number from c on is reached. */
  lemma {:induction false} FreshReaches(c: nat, used: set<string>, m: nat)
    requires c <= m && Name(m) !in used
    ensures Reached(c, used, Name(m))
    decreases m - c
  {
    var k := FreshFrom(c, used);
    FreshFromIsLeast(c, used);
    if k == m {
      assert 0 < |Fresh(c, used, 1)| && Fresh(c, used, 1)[0] == Name(m);
    } else {
      if Name(m) == Name(k) {
        NameInjective(m, k);
      }
      FreshReaches(k + 1, used + {Name(k)}, m);
      ReachedLater(c, used, Name(m));
    }
  }

  lemma {:induction false} FreshAreNames(c: nat, used: set<string>, n: nat, i: nat)
    requires i < |Fresh(c, used, n)|
    ensures exists k :: c <= k && Fresh(c, used, n)[i] == Name(k)
    decreases n
  {
    var k := FreshFrom(c, used);
    FreshFromIsLeast(c, used);
    if i > 0 {
      FreshAreNames(k + 1, used + {Name(k)}, n - 1, i - 1);
    }
  }

  /** Some sequence of calls on a fresh state returns the name. */
  ghost predicate HandsOut(used: set<string>, name: string) {
    Reached(FIRST, used, name)
  }

  lemma HandsOutUnused(used: set<string>, name: string)
    ensures HandsOut(used, name) <==> name !in used && exists k: nat :: FIRST <= k && name == Name(k)
  {
    if HandsOut(used, name) {
      var n: nat, i :| 0 <= i < |Fresh(FIRST, used, n)| && Fresh(FIRST, used, n)[i] == name;
      FreshAreNames(FIRST, used, n, i);
      FreshDistinct(FIRST, used, n);
    }
    if name !in used && exists k: nat :: FIRST <= k && name == Name(k) {
      var k: nat :| FIRST <= k && name == Name(k);
      FreshReaches(FIRST, used, k);
    }
  }

  // ------------------------------------------------------------------ what the scan sees

  /** Where the scan finds placeholders from i on: where each begins and where it ends. */
  function Found(s: string, i: nat): (spans: seq<(nat, nat)>)
    ensures forall k :: 0 <= k < |spans| ==> i <= spans[k].0 < spans[k].1 <= |s|
    decreases |s| - i
  {
    if i >= |s| then []
    else match NameAt(s, i)
         case Some(e) => [(i, e)] + Found(s, e)
         case None => Found(s, i + 1)
  }

  /** Position q is inside a placeholder that the scan found to begin before it. */
  ghost predicate Hidden(spans: seq<(nat, nat)>, q: nat) {
    exists k :: 0 <= k < |spans| && spans[k].0 < q < spans[k].1
  }

  /** The name occurs at or after i, at a place that is not hidden. */
  ghost predicate SeenFrom(s: string, i: nat, name: string) {
    exists q: nat :: i <= q <= |s| && OccursAt(s, name, q) && !Hidden(Found(s, i), q)
  }

  lemma {:induction false} DigitsEndIs(s: string, i: nat, e: nat)
    requires i <= e < |s| && !IsDigit(s[e]) && forall j :: i <= j < e ==> IsDigit(s[j])
    ensures DigitsEnd(s, i) == e
    decreases e - i
  {
    if i < e {
      DigitsEndIs(s, i + 1, e);
    }
  }

  lemma NameChars(name: string)
    requires IsName(name)
    ensures name[..10] == OPEN && name[|name|-2] == '_' && name[|name|-2..] == "__"
    ensures forall j :: 10 <= j < |name| - 2 ==> IsDigit(name[j])
  {
    assert name[|name|-2] == name[|name|-2..][0];
  }

  lemma StandsAt(s: string, name: string, q: nat)
    requires OccursAt(s, name, q)
    ensures q + |name| <= |s| && s[q..q+|name|] == name
    ensures forall j :: q <= j < q + |name| ==> s[j] == name[j-q]
  {
    assert s[q..][..|name|] == name;
    assert s[q..q+|name|] == s[q..][..|name|];
    forall j | q <= j < q + |name| ensures s[j] == name[j-q] {
      assert s[q..q+|name|][j-q] == s[j];
    }
  }

  lemma OccursHere(s: string, part: string, q: nat)
    requires q + |part| <= |s| && s[q..q+|part|] == part
    ensures OccursAt(s, part, q)
  {
    assert s[q..][..|part|] == s[q..q+|part|];
  }

  /** Where a name stands, the pattern matches it, and no other text. */
  lemma NameMatches(s: string, name: string, q: nat)
    requires IsName(name) && OccursAt(s, name, q)
    ensures q < |s| && NameAt(s, q) == Some(q + |name|) && s[q..q+|name|] == name
  {
    var e := q + |name| - 2;
    NameChars(name);
    StandsAt(s, name, q);
    DigitsEndIs(s, q + 10, e);
    assert s[q..q+10] == s[q..q+|name|][..10];
    OccursHere(s, OPEN, q);
    assert s[e..e+2] == s[q..q+|name|][|name|-2..];
    OccursHere(s, "__", e);
  }

  lemma HiddenMore(span: (nat, nat), spans: seq<(nat, nat)>, q: nat)
    ensures Hidden([span] + spans, q) <==> span.0 < q < span.1 || Hidden(spans, q)
  {
    var all := [span] + spans;
    assert all[0] == span;
    if Hidden(spans, q) {
      var k :| 0 <= k < |spans| && spans[k].0 < q < spans[k].1;
      assert all[k+1] == spans[k];
    }
  }

  lemma FoundHere(s: string, i: nat)
    requires i < |s|
    ensures match NameAt(s, i)
            case Some(e) => Found(s, i) == [(i, e)] + Found(s, e) && FindNames(s, i) == {s[i..e]} + FindNames(s, e)
            case None => Found(s, i) == Found(s, i + 1) && FindNames(s, i) == FindNames(s, i + 1)
  {
  }

  /** Nothing begins at i: the name is seen from i exactly when it is seen from the next position. */
  lemma SeenPast(s: string, i: nat, name: string)
    requires IsName(name) && i < |s| && NameAt(s, i) == None
    ensures SeenFrom(s, i, name) <==> SeenFrom(s, i + 1, name)
  {
    FoundHere(s, i);
    if OccursAt(s, name, i) {
      NameMatches(s, name, i);
    }
  }

  /** A placeholder at i: it is the name, or the name is seen from its end. */
  lemma SeenAt(s: string, i: nat, e: nat, name: string)
    requires IsName(name) && i < |s| && NameAt(s, i) == Some(e)
    ensures SeenFrom(s, i, name) <==> name == s[i..e] || SeenFrom(s, e, name)
  {
    FoundHere(s, i);
    forall q: nat ensures Hidden(Found(s, i), q) <==> i < q < e || Hidden(Found(s, e), q) {
      HiddenMore((i, e), Found(s, e), q);
    }
    if SeenFrom(s, i, name) {
      var q: nat :| i <= q <= |s| && OccursAt(s, name, q) && !Hidden(Found(s, i), q);
      if q == i {
        NameMatches(s, name, i);
      }
    }
    if name == s[i..e] {
      assert s[i..][..e-i] == s[i..e];
      assert OccursAt(s, name, i);
    }
  }

  /** The scan finds a name exactly when the name occurs somewhere but inside a placeholder found before it. */
  lemma {:induction false} FindNamesExactlyWhen(s: string, i: nat, name: string)
    requires IsName(name)
    ensures name in FindNames(s, i) <==> SeenFrom(s, i, name)
    decreases |s| - i
  {
    if i >= |s| {
      forall q: nat | i <= q <= |s| ensures !OccursAt(s, name, q) {
      }
    } else {
      FoundHere(s, i);
      match NameAt(s, i)
      case None =>
        SeenPast(s, i, name);
        FindNamesExactlyWhen(s, i + 1, name);
      case Some(e) =>
        SeenAt(s, i, e, name);
        FindNamesExactlyWhen(s, e, name);
    }
  }

  /** No name ever handed out occurs in the source, exactly when every placeholder in it that is numbered from 900000 on
      occurs somewhere but inside a placeholder that the scan found before it. */
  lemma NeverInSourceExactlyWhen(s: string)
    ensures (forall name :: HandsOut(FindNames(s, 0), name) ==> !Contains(s, name))
       <==> (forall k: nat :: FIRST <= k && Contains(s, Name(k)) ==> SeenFrom(s, 0, Name(k)))
  {
    forall name
      ensures HandsOut(FindNames(s, 0), name) <==>
                name !in FindNames(s, 0) && exists k: nat :: FIRST <= k && name == Name(k)
    {
      HandsOutUnused(FindNames(s, 0), name);
    }
    forall k: nat ensures Name(k) in FindNames(s, 0) <==> SeenFrom(s, 0, Name(k)) {
      NameIsName(k);
      FindNamesExactlyWhen(s, 0, Name(k));
    }
  }

  const OVERLAP_HEAD := "__OC_I18N_1__"
  const OVERLAP_TAIL := "OC_I18N_900000__"
  const OVERLAP := OVERLAP_HEAD + OVERLAP_TAIL

  lemma OverlapFirst()
    ensures NameAt(OVERLAP, 0) == Some(13)
  {
    assert OVERLAP[0..] == OVERLAP && OVERLAP[..13] == OVERLAP_HEAD;
    assert OVERLAP[10] == '1' && OVERLAP[11] == '_' && OVERLAP[12] == '_';
    assert OVERLAP[..10] == OPEN;
    assert DigitsEnd(OVERLAP, 11) == 11 && DigitsEnd(OVERLAP, 10) == 11;
    assert OVERLAP[11..][..2] == "__";
  }

  lemma OverlapRest(j: nat)
    requires 13 <= j
    ensures NameAt(OVERLAP, j) == None
  {
    if OccursAt(OVERLAP, OPEN, j) {
      assert OVERLAP[j] == OVERLAP[j..][0] && OVERLAP[j+1] == OVERLAP[j..][1];
    }
  }

  lemma OverlapScan()
    ensures FindNames(OVERLAP, 0) == {OVERLAP_HEAD}
  {
    OverlapFirst();
    forall j | 13 <= j <= |OVERLAP| ensures NameAt(OVERLAP, j) == None {
      OverlapRest(j);
    }
    NoNames(OVERLAP, 13);
    assert OVERLAP[0..13] == OVERLAP_HEAD;
  }

  lemma FirstName()
    ensures Name(FIRST) == "__OC_I18N_900000__"
  {
    assert Digits(90) == "90";
    assert Digits(900) == "900";
    assert Digits(9000) == "9000";
    assert Digits(90000) == "90000";
  }

  lemma OverlapContains(name: string)
    requires name == "__OC_I18N_900000__"
    ensures Contains(OVERLAP, name) && name !in {OVERLAP_HEAD}
  {
    assert OVERLAP[11..] == OVERLAP_HEAD[11..] + OVERLAP_TAIL == name;
    assert OccursAt(OVERLAP, name, 11);
    assert |name| != |OVERLAP_HEAD|;
  }

  /** Two placeholders that share their underscores: the scan sees only the first, and the very first name
      handed out occurs in the source. */
  lemma OverlapIsMissed()
    ensures HandsOut(FindNames(OVERLAP, 0), Name(FIRST)) && Contains(OVERLAP, Name(FIRST))
  {
    var used := FindNames(OVERLAP, 0);
    OverlapScan();
    FirstName();
    OverlapContains(Name(FIRST));
    HandsOutUnused(used, Name(FIRST));
  }

  lemma {:induction false} NoNames(s: string, i: nat)
    requires forall j :: i <= j <= |s| ==> NameAt(s, j) == None
    ensures FindNames(s, i) == {}
    decreases |s| - i
  {
    if i < |s| {
      NoNames(s, i + 1);
    }
  }

  /** A text without the stem has no placeholder. */
  lemma StemFreeHasNoNames(s: string)
    requires !Contains(s, STEM)
    ensures FindNames(s, 0) == {}
  {
    forall j | 0 <= j <= |s| ensures NameAt(s, j) == None {
      if OccursAt(s, OPEN, j) {
        assert s[j+2..] == s[j..][2..] && OPEN[2..] == STEM;
        assert OccursAt(s, STEM, j + 2);
        assert false;
      }
    }
    NoNames(s, 0);
  }
}
