/** The string operations the translation engine relies on, as functions on character sequences. */
module Text {
  import opened Wrappers

  predicate OccursAt(s: string, p: string, i: nat) {
    i <= |s| && p <= s[i..]
  }

  predicate Contains(s: string, p: string) {
    exists i :: 0 <= i <= |s| && OccursAt(s, p, i)
  }

  /** The offset of the first occurrence of p in s. */
  function IndexOf(s: string, p: string): Option<nat> {
    if p <= s then Some(0)
    else if s == "" then None
    else match IndexOf(s[1..], p)
         case None => None
         case Some(i) => Some(i + 1)
  }

  lemma {:induction false} IndexOfIsFirst(s: string, p: string)
    ensures match IndexOf(s, p)
            case Some(i) => OccursAt(s, p, i) && forall j :: 0 <= j < i ==> !OccursAt(s, p, j)
            case None => !Contains(s, p)
  {
    assert OccursAt(s, p, 0) <==> p <= s;
    if !(p <= s) && s != "" {
      IndexOfIsFirst(s[1..], p);
      forall j: nat | 0 < j ensures OccursAt(s, p, j) <==> OccursAt(s[1..], p, j - 1) {
      }
    }
  }

  /** An occurrence with none before it is the one IndexOf reports. */
  lemma IndexOfAt(s: string, p: string, i: nat)
    requires OccursAt(s, p, i) && forall j :: 0 <= j < i ==> !OccursAt(s, p, j)
    ensures IndexOf(s, p) == Some(i)
  {
    IndexOfIsFirst(s, p);
    assert Contains(s, p);
  }

  /** Replace the leftmost non-overlapping occurrences of `pat`. */
  function ReplaceAll(s: string, pat: string, filling: string): string
    requires pat != ""
    decreases |s|
  {
    if s == "" then ""
    else if pat <= s then filling + ReplaceAll(s[|pat|..], pat, filling)
    else [s[0]] + ReplaceAll(s[1..], pat, filling)
  }

  /** The white space of Go's `unicode.IsSpace`. */
  predicate IsSpace(c: char) {
    c in " \t\n\r" || c == 11 as char || c == 12 as char || c == 0x85 as char || c == 0xA0 as char
    || c == 0x1680 as char || 0x2000 as char <= c <= 0x200A as char || c == 0x2028 as char || c == 0x2029 as char
    || c == 0x202F as char || c == 0x205F as char || c == 0x3000 as char
  }

  function TrimLeft(s: string): string {
    if s != "" && IsSpace(s[0]) then TrimLeft(s[1..]) else s
  }

  function TrimRight(s: string): string {
    if s != "" && IsSpace(s[|s|-1]) then TrimRight(s[..|s|-1]) else s
  }

  function Trim(s: string): string {
    TrimRight(TrimLeft(s))
  }

  predicate Trimmed(s: string) {
    s == "" || (!IsSpace(s[0]) && !IsSpace(s[|s|-1]))
  }

  predicate Blank(s: string) {
    Trim(s) == ""
  }

  lemma {:induction false} TrimLeftStarts(s: string)
    ensures TrimLeft(s) == "" || !IsSpace(TrimLeft(s)[0])
  {
    if s != "" && IsSpace(s[0]) {
      TrimLeftStarts(s[1..]);
    }
  }

  lemma {:induction false} TrimRightEnds(s: string)
    ensures TrimRight(s) <= s
    ensures TrimRight(s) == "" || !IsSpace(TrimRight(s)[|TrimRight(s)|-1])
  {
    if s != "" && IsSpace(s[|s|-1]) {
      TrimRightEnds(s[..|s|-1]);
    }
  }

  lemma TrimIsTrimmed(s: string)
    ensures Trimmed(Trim(s))
    ensures Trimmed(s) ==> Trim(s) == s
  {
    TrimLeftStarts(s);
    TrimRightEnds(TrimLeft(s));
  }

  function Digit(d: nat): char
    requires d < 10
  {
    "0123456789"[d]
  }

  predicate IsDigit(c: char) { '0' <= c <= '9' }

  /** A number in decimal, as `%d` prints it. */
  function Digits(n: nat): string {
    if n < 10 then [Digit(n)] else Digits(n / 10) + [Digit(n % 10)]
  }

  lemma {:induction false} DigitsAreDigits(n: nat)
    ensures Digits(n) != "" && forall i :: 0 <= i < |Digits(n)| ==> IsDigit(Digits(n)[i])
  {
    if n >= 10 {
      DigitsAreDigits(n / 10);
    }
  }

  lemma DigitInjective(c: nat, d: nat)
    requires c < 10 && d < 10 && Digit(c) == Digit(d)
    ensures c == d
  {
  }

  lemma {:induction false} DigitsInjective(m: nat, n: nat)
    requires Digits(m) == Digits(n)
    ensures m == n
  {
    var s := Digits(m);
    DigitsAreDigits(m / 10);
    DigitsAreDigits(n / 10);
    assert s[|s|-1] == Digit(m % 10) && s[|s|-1] == Digit(n % 10);
    DigitInjective(m % 10, n % 10);
    assert m >= 10 ==> |s| > 1 && s[..|s|-1] == Digits(m / 10);
    assert n >= 10 ==> |s| > 1 && s[..|s|-1] == Digits(n / 10);
    if m >= 10 && n >= 10 {
      DigitsInjective(m / 10, n / 10);
    }
  }
}
