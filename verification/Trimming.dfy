/** What trimming takes away, by characters. */
module Trimming {
  import opened Text

  predicate AllSpace(s: string) {
    forall i :: 0 <= i < |s| ==> IsSpace(s[i])
  }

  /** r is what stands in s from i up to, not including, j, between white space. */
  ghost predicate StrippedAt(s: string, r: string, i: nat, j: nat) {
    i <= j <= |s| && r == s[i..j] && AllSpace(s[..i]) && AllSpace(s[j..]) && Trimmed(r)
  }

  /** r is what stands in s between white space. */
  ghost predicate Stripped(s: string, r: string) {
    exists i: nat, j: nat :: StrippedAt(s, r, i, j)
  }

  lemma {:induction false} TrimLeftDrops(s: string) returns (i: nat)
    ensures i <= |s| && TrimLeft(s) == s[i..] && AllSpace(s[..i])
  {
    if s != "" && IsSpace(s[0]) {
      i := TrimLeftDrops(s[1..]);
      i := i + 1;
    } else {
      i := 0;
    }
  }

  lemma {:induction false} TrimRightDrops(s: string) returns (j: nat)
    ensures j <= |s| && TrimRight(s) == s[..j] && AllSpace(s[j..])
  {
    if s != "" && IsSpace(s[|s|-1]) {
      j := TrimRightDrops(s[..|s|-1]);
      assert s[..|s|-1][..j] == s[..j];
      forall k | j <= k < |s| ensures IsSpace(s[k]) {
        assert k < |s| - 1 ==> s[..|s|-1][j..][k-j] == s[k];
      }
    } else {
      j := |s|;
    }
  }

  /** What is trimmed away is white space, and nothing else is. */
  lemma TrimIsStripped(s: string)
    ensures Stripped(s, Trim(s))
  {
    TrimIsTrimmed(s);
    var i := TrimLeftDrops(s);
    var j := TrimRightDrops(s[i..]);
    assert s[i..][..j] == s[i..i+j] && s[i..][j..] == s[i+j..];
    assert StrippedAt(s, Trim(s), i, i + j);
  }

  lemma SameStripped(s: string, r: string, q: string, i: nat, j: nat, k: nat, l: nat)
    requires StrippedAt(s, r, i, j) && StrippedAt(s, q, k, l)
    ensures r == q
  {
    InsideStripped(s, i, j, k, l);
    InsideStripped(s, k, l, i, j);
  }

  /** Only one text stands in s between white space. */
  lemma StrippedOnce(s: string, r: string, q: string)
    requires Stripped(s, r) && Stripped(s, q)
    ensures r == q
  {
    var i: nat, j: nat :| StrippedAt(s, r, i, j);
    var k: nat, l: nat :| StrippedAt(s, q, k, l);
    SameStripped(s, r, q, i, j, k, l);
  }

  lemma SpaceAround(s: string, k: nat, l: nat, i: nat)
    requires k <= l <= |s| && AllSpace(s[..k]) && AllSpace(s[l..]) && i < |s|
    ensures i < k || l <= i ==> IsSpace(s[i])
  {
    assert i < k ==> s[..k][i] == s[i];
    assert l <= i ==> s[l..][i-l] == s[i];
  }

  /** A trimmed stretch lies inside any that has only white space around it. */
  lemma InsideStripped(s: string, i: nat, j: nat, k: nat, l: nat)
    requires i <= j <= |s| && k <= l <= |s| && Trimmed(s[i..j]) && AllSpace(s[..k]) && AllSpace(s[l..])
    ensures i < j ==> k <= i && j <= l
  {
    if i < j {
      assert s[i..j][0] == s[i] && s[i..j][j-i-1] == s[j-1];
      SpaceAround(s, k, l, i);
      SpaceAround(s, k, l, j - 1);
    }
  }

  /** A text is blank exactly when it is all white space. */
  lemma BlankExactlyWhen(s: string)
    ensures Blank(s) <==> AllSpace(s)
  {
    TrimIsStripped(s);
    var i: nat, j: nat :| StrippedAt(s, Trim(s), i, j);
    if Blank(s) {
      forall k | 0 <= k < |s| ensures IsSpace(s[k]) {
        SpaceAround(s, i, j, k);
      }
    } else {
      assert Trim(s)[0] == s[i];
    }
  }
}
