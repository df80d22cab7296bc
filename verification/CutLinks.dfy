/** A link that a code span reaches into from inside, and that is not hidden. */
module CutLinks {
  import opened Wrappers
  import opened Text
  import opened Placeholders
  import opened Masking
  import opened Patterns
  import opened Replies

  const CUT := "<http://a`>`"

  lemma {:induction false} FindAllSkips(p: Pattern, s: string, i: nat, j: nat)
    requires i <= j <= |s| && forall q :: i <= q < j ==> MatchAt(p, s, q) == None
    ensures FindAll(p, s, i) == FindAll(p, s, j)
    decreases j - i
  {
    if i < j {
      FindAllSkips(p, s, i + 1, j);
    }
  }

  lemma CodeOfCut()
    ensures FindAll(InlineCode, CUT, 0) == [Span(9, 9, 12, 12)]
  {
    FindAllSkips(InlineCode, CUT, 0, 9);
    assert CodeAt(CUT, 9, 11);
    MatchesExactlyWhen(InlineCode, CUT, 9, Span(9, 9, 12, 12));
    FindAllHere(InlineCode, CUT, 9);
    assert FindAll(InlineCode, CUT, 12) == [];
  }

  lemma OneSpliced(b: Book)
    ensures Splice(CUT, [Span(9, 9, 12, 12)], 0, b) == ("<http://a" + Issue(b, "`>`").placeholders[|b.placeholders|],
                                                        Issue(b, "`>`"))
  {
    var c := Issue(b, "`>`");
    assert CUT[9..12] == "`>`" && CUT[0..9] == "<http://a" && CUT[12..] == "";
    assert [Span(9, 9, 12, 12)][1..] == [];
    assert Splice(CUT, [], 12, c) == ("", c);
    assert "<http://a" + c.placeholders[|b.placeholders|] + "" == "<http://a" + c.placeholders[|b.placeholders|];
  }

  lemma NoMoreFound(n: string, p: Pattern)
    requires IsName(n) && !p.InlineCode?
    ensures FindAll(p, "<http://a" + n, 0) == []
  {
    var s := "<http://a" + n;
    forall q | 0 <= q < |s| ensures s[q] != '>' && s[q] != ')' {
      if q >= 9 {
        NameHasNoDelimiter(n, q - 9);
      }
    }
    forall q | 0 <= q < |s| ensures MatchAt(p, s, q) == None {
      if MatchAt(p, s, q).Some? {
        MatchesExactlyWhen(p, s, q, MatchAt(p, s, q).value);
      }
    }
    NothingFound(p, s, 0);
  }

  lemma OnlyCodeMasked(text: string, b: Book, t: string, c: Book)
    requires MaskPass(InlineCode, text, b) == (t, c)
    requires FindAll(AngleLink, t, 0) == [] && FindAll(LinkUrl, t, 0) == []
    ensures Mask(text, b) == (t, c)
  {
    assert t[0..] == t;
  }

  lemma CutMasked() returns (n: string)
    ensures MasksTo(CUT, "<http://a" + n, [n], map[n := "`>`"])
  {
    var b := NewBook(CUT);
    n := Name(FreshFrom(b.counter, b.used));
    CodeOfCut();
    OneSpliced(b);
    NameIsName(FreshFrom(b.counter, b.used));
    NoMoreFound(n, AngleLink);
    NoMoreFound(n, LinkUrl);
    OnlyCodeMasked(CUT, b, "<http://a" + n, Issue(b, "`>`"));
  }

  lemma NotConcealed(b: Book, n: string)
    requires b.placeholders == [n] && b.mapping == map[n := "`>`"]
    ensures !Concealed(b, CUT[0..11])
  {
  }

  lemma CutIsLink()
    ensures AngleAt(CUT, 0, 10)
  {
    assert CUT[0..] == CUT && "<http://" <= CUT;
  }

  /** In `CUT` a code span takes the end of an angle link away: the link stands in the source, neither it nor anything
      that holds it is behind a placeholder, and its beginning stays in sight. */
  lemma CodeMayCutLink()
    ensures AngleAt(CUT, 0, 10) && !Concealed(Mask(CUT, NewBook(CUT)).1, CUT[0..11])
    ensures "<http://a" <= Mask(CUT, NewBook(CUT)).0
  {
    var n := CutMasked();
    CutIsLink();
    NotConcealed(Mask(CUT, NewBook(CUT)).1, n);
  }
}
