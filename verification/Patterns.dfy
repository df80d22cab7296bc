/** What the three masking patterns match, character by character, and what of a source is behind a placeholder. */
module Patterns {
  import opened Wrappers
  import opened Text
  import opened Placeholders
  import opened Masking

  // ------------------------------------------------------------------ by characters

  predicate Lacks(s: string, c: char, from: nat, to: nat)
    requires to <= |s|
  {
    forall k :: from <= k < to ==> s[k] != c
  }

  /** A backtick at i, the next one at j, and something between them. */
  predicate CodeAt(s: string, i: nat, j: nat) {
    i + 1 < j < |s| && s[i] == '`' && s[j] == '`' && Lacks(s, '`', i + 1, j)
  }

  predicate AngleFrom(s: string, head: string, i: nat, j: nat) {
    OccursAt(s, head, i) && i + |head| < j < |s| && s[j] == '>' && Lacks(s, '>', i + |head|, j)
  }

  /** `<http://` or `<https://` at i, the next `>` at j, and something between them. */
  predicate AngleAt(s: string, i: nat, j: nat) {
    AngleFrom(s, "<http://", i, j) || AngleFrom(s, "<https://", i, j)
  }

  /** A `[` at i, the next `]` at j, a `(` right after it, the next `)` at k, and something in the parentheses. */
  predicate LinkAt(s: string, i: nat, j: nat, k: nat) {
    && i < j && j + 2 < k < |s|
    && s[i] == '[' && s[j] == ']' && Lacks(s, ']', i + 1, j)
    && s[j+1] == '(' && s[k] == ')' && Lacks(s, ')', j + 2, k)
  }

  /** A stretch of the text that the pattern is for, and the part of it that is masked: all of a code span and of an
      angle link, and of a link exactly what stands between the parentheses. */
  ghost predicate IsStretch(p: Pattern, s: string, span: Span) {
    match p
    case InlineCode =>
      span.full == span.start && span.stop == span.end && span.end > 0 && CodeAt(s, span.start, span.end - 1)
    case AngleLink =>
      span.full == span.start && span.stop == span.end && span.end > 0 && AngleAt(s, span.start, span.end - 1)
    case LinkUrl =>
      span.start >= 2 && span.stop == span.end + 1 && LinkAt(s, span.full, span.start - 2, span.end)
  }

  lemma FindCharIs(s: string, c: char, i: nat, j: nat)
    requires i <= j < |s| && s[j] == c && Lacks(s, c, i, j)
    ensures FindChar(s, c, i) == j
  {
  }

  lemma CodeMatchesExactlyWhen(s: string, i: nat, span: Span)
    requires i < |s|
    ensures MatchAt(InlineCode, s, i) == Some(span) <==> span.full == i && IsStretch(InlineCode, s, span)
  {
    if span.full == i && IsStretch(InlineCode, s, span) {
      FindCharIs(s, '`', i + 1, span.end - 1);
    }
  }

  lemma HeadsDiffer(s: string, i: nat)
    ensures !(OccursAt(s, "<http://", i) && OccursAt(s, "<https://", i))
  {
    if OccursAt(s, "<http://", i) {
      assert s[i..][5] == "<http://"[5] == ':';
      assert "<https://"[5] == 's';
    }
  }

  lemma AngleMatchesExactlyWhen(s: string, i: nat, span: Span)
    requires i < |s|
    ensures MatchAt(AngleLink, s, i) == Some(span) <==> span.full == i && IsStretch(AngleLink, s, span)
  {
    HeadsDiffer(s, i);
    if span.full == i && IsStretch(AngleLink, s, span) {
      FindCharIs(s, '>', if OccursAt(s, "<http://", i) then i + 8 else i + 9, span.end - 1);
    }
  }

  lemma LinkMatchesExactlyWhen(s: string, i: nat, span: Span)
    requires i < |s|
    ensures MatchAt(LinkUrl, s, i) == Some(span) <==> span.full == i && IsStretch(LinkUrl, s, span)
  {
    if span.full == i && IsStretch(LinkUrl, s, span) {
      FindCharIs(s, ']', i + 1, span.start - 2);
      FindCharIs(s, ')', span.start, span.end);
    }
  }

  /** A pattern matches at a position exactly the stretch it is for. */
  lemma MatchesExactlyWhen(p: Pattern, s: string, i: nat, span: Span)
    requires i < |s|
    ensures MatchAt(p, s, i) == Some(span) <==> span.full == i && IsStretch(p, s, span)
  {
    match p
    case InlineCode => CodeMatchesExactlyWhen(s, i, span);
    case AngleLink => AngleMatchesExactlyWhen(s, i, span);
    case LinkUrl => LinkMatchesExactlyWhen(s, i, span);
  }

  lemma StretchBounds(p: Pattern, s: string, span: Span)
    requires IsStretch(p, s, span)
    ensures span.full <= span.start < span.end <= span.stop <= |s|
  {
  }

  lemma {:induction false} MatchesAreStretches(p: Pattern, s: string, spans: seq<Span>, i: nat)
    requires Matches(p, s, spans, i)
    ensures forall k :: 0 <= k < |spans| ==> IsStretch(p, s, spans[k])
    decreases |spans|
  {
    if spans != [] {
      MatchesExactlyWhen(p, s, spans[0].full, spans[0]);
      MatchesAreStretches(p, s, spans[1..], spans[0].stop);
    }
  }

  /** Everything found is a stretch the pattern is for, and every such stretch begins inside something found. */
  lemma FoundAreStretches(p: Pattern, s: string)
    ensures forall k :: 0 <= k < |FindAll(p, s, 0)| ==> IsStretch(p, s, FindAll(p, s, 0)[k])
    ensures forall span :: IsStretch(p, s, span) ==> Covered(FindAll(p, s, 0), span.full)
  {
    FoundMatch(p, s, 0);
    MatchesAreStretches(p, s, FindAll(p, s, 0), 0);
    forall span | IsStretch(p, s, span) ensures Covered(FindAll(p, s, 0), span.full) {
      StretchBounds(p, s, span);
      MatchesExactlyWhen(p, s, span.full, span);
      FoundCover(p, s, 0, span.full);
    }
  }

  // ------------------------------------------------------------------ what is behind a placeholder

  /** Each name is one the allocator has passed. */
  ghost predicate NamesBelow(b: Book) {
    forall n :: n in b.placeholders ==> exists k: nat :: k < b.counter && n == Name(k)
  }

  /** The part stands for one of the placeholders. */
  ghost predicate Behind(b: Book, part: string) {
    exists n :: n in b.placeholders && n in b.mapping && b.mapping[n] == part
  }

  /** Every placeholder of b stands for the same in c. */
  ghost predicate Keeps(b: Book, c: Book) {
    && (forall n :: n in b.placeholders ==> n in c.placeholders)
    && (forall n :: n in b.placeholders && n in b.mapping ==> n in c.mapping && c.mapping[n] == b.mapping[n])
  }

  lemma IssueKeeps(b: Book, original: string)
    requires NamesBelow(b)
    ensures NamesBelow(Issue(b, original)) && Keeps(b, Issue(b, original)) && Behind(Issue(b, original), original)
  {
    var k := FreshFrom(b.counter, b.used);
    var c := Issue(b, original);
    FreshFromIsLeast(b.counter, b.used);
    forall n | n in b.placeholders ensures n != Name(k) && exists q: nat :: q < c.counter && n == Name(q) {
      var q: nat :| q < b.counter && n == Name(q);
      if n == Name(k) {
        NameInjective(q, k);
      }
    }
    assert Name(k) in c.placeholders && c.mapping[Name(k)] == original;
  }

  lemma BehindStays(b: Book, c: Book, part: string)
    requires Behind(b, part) && Keeps(b, c)
    ensures Behind(c, part)
  {
  }

  /** In order and apart, from pos on. */
  ghost predicate Apart(text: string, spans: seq<Span>, pos: nat)
    decreases |spans|
  {
    if spans == [] then pos <= |text|
    else
      && pos <= spans[0].full <= spans[0].start < spans[0].end <= |text|
      && Apart(text, spans[1..], spans[0].end)
  }

  lemma ApartEarlier(text: string, spans: seq<Span>, i: nat, j: nat)
    requires Apart(text, spans, j) && i <= j
    ensures Apart(text, spans, i)
  {
  }

  lemma {:induction false} MatchesAreApart(p: Pattern, s: string, spans: seq<Span>, i: nat)
    requires Matches(p, s, spans, i) && i <= |s|
    ensures Apart(s, spans, i)
    decreases |spans|
  {
    if spans != [] {
      MatchesAreApart(p, s, spans[1..], spans[0].stop);
      ApartEarlier(s, spans[1..], spans[0].end, spans[0].stop);
    }
  }

  lemma {:induction false} ApartInText(text: string, spans: seq<Span>, pos: nat)
    requires Apart(text, spans, pos)
    ensures pos <= |text| && forall k :: 0 <= k < |spans| ==> spans[k].start <= spans[k].end <= |text|
    ensures forall k :: 0 <= k < |spans| ==> pos <= spans[k].full
    decreases |spans|
  {
    if spans != [] {
      ApartInText(text, spans[1..], spans[0].end);
    }
  }

  /** The text outside the spans, with a name in the place of each of them. */
  function Woven(text: string, spans: seq<Span>, names: seq<string>, pos: nat): string
    requires pos <= |text| && |names| == |spans|
    requires Apart(text, spans, pos)
    decreases |spans|
  {
    if spans == [] then text[pos..]
    else text[pos..spans[0].start] + names[0] + Woven(text, spans[1..], names[1..], spans[0].end)
  }

  lemma SpliceFirst(text: string, spans: seq<Span>, pos: nat, b: Book)
    requires spans != [] && Apart(text, spans, pos)
    ensures pos <= |text| && forall k :: 0 <= k < |spans| ==> spans[k].start <= spans[k].end <= |text|
    ensures var c := Issue(b, text[spans[0].start..spans[0].end]);
            && Splice(text, spans, pos, b).0 == text[pos..spans[0].start] + Name(FreshFrom(b.counter, b.used))
                                                + Splice(text, spans[1..], spans[0].end, c).0
            && Splice(text, spans, pos, b).1 == Splice(text, spans[1..], spans[0].end, c).1
  {
    ApartInText(text, spans, pos);
    ApartInText(text, spans[1..], spans[0].end);
  }

  /** A splice puts a new placeholder for every span, and leaves the rest of the text. */
  lemma {:induction false} SpliceHides(text: string, spans: seq<Span>, pos: nat, b: Book) returns (names: seq<string>)
    requires Apart(text, spans, pos) && NamesBelow(b)
    ensures pos <= |text| && |names| == |spans|
    ensures forall k :: 0 <= k < |spans| ==> spans[k].start <= spans[k].end <= |text|
    ensures var (out, c) := Splice(text, spans, pos, b);
            && c.placeholders == b.placeholders + names && NamesBelow(c) && Keeps(b, c)
            && out == Woven(text, spans, names, pos)
            && forall k :: 0 <= k < |spans| ==> Behind(c, text[spans[k].start..spans[k].end])
    decreases |spans|
  {
    ApartInText(text, spans, pos);
    if spans == [] {
      names := [];
      assert b.placeholders + [] == b.placeholders;
    } else {
      var part := text[spans[0].start..spans[0].end];
      var c := Issue(b, part);
      SpliceFirst(text, spans, pos, b);
      IssueKeeps(b, part);
      var rest := SpliceHides(text, spans[1..], spans[0].end, c);
      names := [Name(FreshFrom(b.counter, b.used))] + rest;
      assert names[1..] == rest;
      Appended(b.placeholders, names[0], rest);
      var d := Splice(text, spans[1..], spans[0].end, c).1;
      BehindStays(c, d, part);
      forall k | 0 <= k < |spans| ensures Behind(d, text[spans[k].start..spans[k].end]) {
        assert k > 0 ==> spans[k] == spans[1..][k-1];
      }
    }
  }

  lemma Appended<T>(a: seq<T>, x: T, b: seq<T>)
    ensures a + [x] + b == a + ([x] + b)
  {
  }

  /** Everything the pattern finds in the text is behind a placeholder. */
  ghost predicate AllBehind(p: Pattern, text: string, b: Book) {
    forall k :: 0 <= k < |FindAll(p, text, 0)| ==>
      Behind(b, text[FindAll(p, text, 0)[k].start..FindAll(p, text, 0)[k].end])
  }

  /** One pass: a new placeholder for everything the pattern finds, in order, and the rest of the text as it was. */
  lemma PassHides(p: Pattern, text: string, b: Book) returns (names: seq<string>)
    requires NamesBelow(b)
    ensures Apart(text, FindAll(p, text, 0), 0) && |names| == |FindAll(p, text, 0)|
    ensures var (out, c) := MaskPass(p, text, b);
            && out == Woven(text, FindAll(p, text, 0), names, 0) && c.placeholders == b.placeholders + names
            && NamesBelow(c) && Keeps(b, c) && AllBehind(p, text, c)
  {
    FoundMatch(p, text, 0);
    MatchesAreApart(p, text, FindAll(p, text, 0), 0);
    names := SpliceHides(text, FindAll(p, text, 0), 0, b);
  }

  lemma AllBehindStays(p: Pattern, text: string, b: Book, c: Book)
    requires AllBehind(p, text, b) && Keeps(b, c)
    ensures AllBehind(p, text, c)
  {
  }

  lemma KeepsTwice(b: Book, c: Book, d: Book)
    requires Keeps(b, c) && Keeps(c, d)
    ensures Keeps(b, d)
  {
  }

  /** The texts that the second and the third pass are made over. */
  function AfterCode(source: string): (string, Book) {
    MaskPass(InlineCode, source, NewBook(source))
  }

  function AfterAngles(source: string): (string, Book) {
    MaskPass(AngleLink, AfterCode(source).0, AfterCode(source).1)
  }

  /** After the three passes everything each of them found in its text is behind a placeholder. */
  lemma MaskHidesAll(source: string)
    ensures var b := Mask(source, NewBook(source)).1;
            && AllBehind(InlineCode, source, b) && AllBehind(AngleLink, AfterCode(source).0, b)
            && AllBehind(LinkUrl, AfterAngles(source).0, b)
  {
    var (t1, b1) := AfterCode(source);
    var (t2, b2) := AfterAngles(source);
    var b3 := MaskPass(LinkUrl, t2, b2).1;
    var n1 := PassHides(InlineCode, source, NewBook(source));
    var n2 := PassHides(AngleLink, t1, b1);
    var n3 := PassHides(LinkUrl, t2, b2);
    KeepsTwice(b1, b2, b3);
    AllBehindStays(InlineCode, source, b1, b3);
    AllBehindStays(AngleLink, t1, b2, b3);
  }

  // ------------------------------------------------------------------ the stretches of a source

  /** The piece is part of what some placeholder stands for. */
  ghost predicate Concealed(b: Book, piece: string) {
    exists n :: n in b.placeholders && n in b.mapping && Contains(b.mapping[n], piece)
  }

  lemma SliceContains(s: string, x: nat, a: nat, e: nat, y: nat)
    requires x <= a <= e <= y <= |s|
    ensures Contains(s[x..y], s[a..e])
  {
    assert s[x..y][a-x..][..e-a] == s[a..e];
    assert OccursAt(s[x..y], s[a..e], a - x);
  }

  lemma ContainsLater(before: string, s: string, piece: string)
    requires Contains(s, piece)
    ensures Contains(before + s, piece)
  {
    var i :| 0 <= i <= |s| && OccursAt(s, piece, i);
    assert (before + s)[|before|+i..] == s[i..];
    assert OccursAt(before + s, piece, |before| + i);
  }

  lemma ContainsEarlier(s: string, after: string, piece: string)
    requires Contains(s, piece)
    ensures Contains(s + after, piece)
  {
    var i :| 0 <= i <= |s| && OccursAt(s, piece, i);
    assert (s + after)[i..] == s[i..] + after;
    assert OccursAt(s + after, piece, i);
  }

  lemma ContainsInner(s: string, middle: string, piece: string)
    requires Contains(s, middle) && Contains(middle, piece)
    ensures Contains(s, piece)
  {
    var i :| 0 <= i <= |s| && OccursAt(s, middle, i);
    var j :| 0 <= j <= |middle| && OccursAt(middle, piece, j);
    assert s[i..][..|middle|] == middle;
    assert s[i+j..][..|piece|] == middle[j..][..|piece|];
    assert OccursAt(s, piece, i + j);
  }

  lemma PartHidden(b: Book, part: string, piece: string)
    requires Behind(b, part) && Contains(part, piece)
    ensures Concealed(b, piece)
  {
  }

  /** A stretch of text that no span touches is still there after the weaving. */
  lemma {:induction false} Survives(text: string, spans: seq<Span>, names: seq<string>, pos: nat, a: nat, e: nat)
    requires Apart(text, spans, pos) && |names| == |spans| && pos <= a <= e <= |text|
    requires forall k :: 0 <= k < |spans| ==> spans[k].end <= a || e <= spans[k].start
    ensures pos <= |text| && Contains(Woven(text, spans, names, pos), text[a..e])
    decreases |spans|
  {
    if spans == [] {
      SliceContains(text, pos, a, e, |text|);
      assert text[pos..|text|] == text[pos..];
    } else {
      var head, tail := text[pos..spans[0].start], Woven(text, spans[1..], names[1..], spans[0].end);
      if e <= spans[0].start {
        SliceContains(text, pos, a, e, spans[0].start);
        ContainsEarlier(head, names[0], text[a..e]);
        ContainsEarlier(head + names[0], tail, text[a..e]);
      } else {
        Survives(text, spans[1..], names[1..], spans[0].end, a, e);
        ContainsLater(head + names[0], tail, text[a..e]);
      }
    }
  }

  /** Each span is to one side of the stretch, or around it. */
  ghost predicate Around(spans: seq<Span>, a: nat, e: nat) {
    forall k :: 0 <= k < |spans| ==>
      spans[k].end <= a || e <= spans[k].start || (spans[k].start <= a && e <= spans[k].end)
  }

  lemma CodeAround(text: string, span: Span, a: nat, e: nat)
    requires IsStretch(InlineCode, text, span) && a < e <= |text| && Lacks(text, '`', a, e)
    ensures span.end <= a || e <= span.start || (span.start <= a && e <= span.end)
  {
  }

  lemma HeadAt(s: string, head: string, i: nat)
    requires OccursAt(s, head, i)
    ensures i + |head| <= |s| && forall k :: i <= k < i + |head| ==> s[k] == head[k-i]
  {
    forall k | i <= k < i + |head| ensures s[k] == head[k-i] {
      assert s[i..][k-i] == s[k];
    }
  }

  lemma AngleOpensFrom(s: string, head: string, i: nat, j: nat)
    requires AngleFrom(s, head, i, j) && head != "" && head[0] == '<' && '>' !in head
    ensures i < j < |s| && s[i] == '<' && s[j] == '>' && Lacks(s, '>', i, j)
  {
    HeadAt(s, head, i);
    forall k | i <= k < j ensures s[k] != '>' {
      if k < i + |head| {
        assert s[k] in head;
      }
    }
  }

  lemma AngleOpens(s: string, i: nat, j: nat)
    requires AngleAt(s, i, j)
    ensures i < j < |s| && s[i] == '<' && s[j] == '>' && Lacks(s, '>', i, j)
  {
    if AngleFrom(s, "<http://", i, j) {
      AngleOpensFrom(s, "<http://", i, j);
    } else {
      AngleOpensFrom(s, "<https://", i, j);
    }
  }

  lemma AngleAround(text: string, span: Span, a: nat, e: nat)
    requires IsStretch(AngleLink, text, span) && a < e <= |text| && Lacks(text, '<', a, e) && Lacks(text, '>', a, e)
    ensures span.end <= a || e <= span.start || (span.start <= a && e <= span.end)
  {
    AngleOpens(text, span.start, span.end - 1);
  }

  /** So is every code span for a stretch without backticks, and every angle link for one without angle brackets. */
  lemma PassesAround(p: Pattern, text: string, a: nat, e: nat)
    requires a < e <= |text| && !p.LinkUrl?
    requires if p.InlineCode? then Lacks(text, '`', a, e) else Lacks(text, '<', a, e) && Lacks(text, '>', a, e)
    ensures Around(FindAll(p, text, 0), a, e)
  {
    var spans := FindAll(p, text, 0);
    FoundAreStretches(p, text);
    forall k | 0 <= k < |spans|
      ensures spans[k].end <= a || e <= spans[k].start || (spans[k].start <= a && e <= spans[k].end)
    {
      if p.InlineCode? {
        CodeAround(text, spans[k], a, e);
      } else {
        AngleAround(text, spans[k], a, e);
      }
    }
  }

  /** A pass hides such a stretch as a part of something it found, or leaves it as it is. */
  lemma HiddenOrLeft(p: Pattern, text: string, b: Book, last: Book, a: nat, e: nat)
    requires NamesBelow(b) && a < e <= |text| && Around(FindAll(p, text, 0), a, e) && AllBehind(p, text, last)
    ensures Concealed(last, text[a..e]) || Contains(MaskPass(p, text, b).0, text[a..e])
  {
    var spans := FindAll(p, text, 0);
    var names := PassHides(p, text, b);
    if k :| 0 <= k < |spans| && spans[k].start <= a && e <= spans[k].end {
      ApartInText(text, spans, 0);
      SliceContains(text, spans[k].start, a, e, spans[k].end);
      PartHidden(last, text[spans[k].start..spans[k].end], text[a..e]);
    } else {
      Survives(text, spans, names, 0, a, e);
    }
  }

  lemma MovedCharacters(s: string, a: nat, e: nat, t: string, at: nat)
    requires a <= e <= |s| && OccursAt(t, s[a..e], at)
    ensures at + (e - a) <= |t| && t[at..at+(e-a)] == s[a..e]
    ensures forall k :: a <= k < e ==> t[at+(k-a)] == s[k]
    ensures forall k :: at <= k < at + (e - a) ==> t[k] == s[a+(k-at)]
  {
    assert t[at..][..e-a] == s[a..e];
    assert t[at..at+(e-a)] == t[at..][..e-a];
    forall k | a <= k < e ensures t[at+(k-a)] == s[k] {
      assert t[at..at+(e-a)][k-a] == s[a..e][k-a];
    }
    forall k | at <= k < at + (e - a) ensures t[k] == s[a+(k-at)] {
      assert t[at..at+(e-a)][k-at] == s[a..e][k-at];
    }
  }

  lemma AngleMoves(s: string, i: nat, j: nat, t: string, at: nat)
    requires AngleAt(s, i, j) && OccursAt(t, s[i..j+1], at)
    ensures AngleAt(t, at, at + (j - i))
  {
    var head := if AngleFrom(s, "<http://", i, j) then "<http://" else "<https://";
    MovedCharacters(s, i, j + 1, t, at);
    assert t[at..][..|head|] == head by {
      assert forall k :: 0 <= k < |head| ==> t[at+k] == s[i+k] == s[i..][k] == head[k];
    }
    assert AngleFrom(t, head, at, at + (j - i));
  }

  lemma LinkMoves(s: string, i: nat, j: nat, k: nat, t: string, at: nat)
    requires LinkAt(s, i, j, k) && OccursAt(t, s[i..k+1], at)
    ensures LinkAt(t, at, at + (j - i), at + (k - i))
    ensures t[at+(j-i)+2..at+(k-i)] == s[j+2..k]
    ensures Lacks(s, ')', i, j) ==> Lacks(t, ')', at, at + (j - i))
  {
    MovedCharacters(s, i, k + 1, t, at);
  }

  /** An angle link is inside the one found around its beginning. */
  lemma AngleInside(t: string, i: nat, j: nat, span: Span)
    requires AngleAt(t, i, j) && IsStretch(AngleLink, t, span) && span.full <= i < span.stop
    ensures span.start <= i && j + 1 <= span.end
  {
    AngleOpens(t, i, j);
    AngleOpens(t, span.start, span.end - 1);
  }

  /** The target of a link is inside that of the one found around its beginning, when no `)` is in its brackets. */
  lemma TargetInside(t: string, i: nat, j: nat, k: nat, span: Span)
    requires LinkAt(t, i, j, k) && Lacks(t, ')', i, j) && IsStretch(LinkUrl, t, span) && span.full <= i < span.stop
    ensures span.start <= j + 2 && k <= span.end
  {
  }

  /** What the pattern found around the beginning of a stretch. */
  lemma FoundAround(p: Pattern, text: string, span: Span) returns (f: Span)
    requires IsStretch(p, text, span)
    ensures IsStretch(p, text, f) && f.full <= span.full < f.stop && f in FindAll(p, text, 0)
  {
    var spans := FindAll(p, text, 0);
    FoundAreStretches(p, text);
    assert Covered(spans, span.full);
    var k :| 0 <= k < |spans| && spans[k].full <= span.full < spans[k].stop;
    f := spans[k];
  }

  lemma FoundIsBehind(p: Pattern, text: string, b: Book, f: Span)
    requires AllBehind(p, text, b) && f in FindAll(p, text, 0)
    ensures f.start <= f.end <= |text| && Behind(b, text[f.start..f.end])
  {
    var k :| 0 <= k < |FindAll(p, text, 0)| && FindAll(p, text, 0)[k] == f;
  }

  lemma CodeBehind(text: string, b: Book, i: nat, j: nat) returns (x: nat, y: nat)
    requires CodeAt(text, i, j) && AllBehind(InlineCode, text, b)
    ensures x <= i <= y && CodeAt(text, x, y) && Behind(b, text[x..y+1])
  {
    var f := FoundAround(InlineCode, text, Span(i, i, j + 1, j + 1));
    FoundIsBehind(InlineCode, text, b, f);
    x, y := f.start, f.end - 1;
  }

  lemma FoundConceals(p: Pattern, text: string, b: Book, f: Span, a: nat, e: nat)
    requires AllBehind(p, text, b) && f in FindAll(p, text, 0) && f.start <= a <= e <= f.end && e <= |text|
    ensures Concealed(b, text[a..e])
  {
    FoundIsBehind(p, text, b, f);
    SliceContains(text, f.start, a, e, f.end);
    PartHidden(b, text[f.start..f.end], text[a..e]);
  }

  lemma AngleBehind(text: string, b: Book, i: nat, j: nat)
    requires AngleAt(text, i, j) && AllBehind(AngleLink, text, b)
    ensures Concealed(b, text[i..j+1])
  {
    var f := FoundAround(AngleLink, text, Span(i, i, j + 1, j + 1));
    AngleInside(text, i, j, f);
    FoundConceals(AngleLink, text, b, f, i, j + 1);
  }

  lemma TargetBehind(text: string, b: Book, i: nat, j: nat, k: nat)
    requires LinkAt(text, i, j, k) && Lacks(text, ')', i, j) && AllBehind(LinkUrl, text, b)
    ensures Concealed(b, text[j+2..k])
  {
    var f := FoundAround(LinkUrl, text, Span(i, j + 2, k, k + 1));
    TargetInside(text, i, j, k, f);
    FoundConceals(LinkUrl, text, b, f, j + 2, k);
  }

  /** An angle link that is left in a text, wherever it is now. */
  lemma AngleMoved(t: string, b: Book, s: string, i: nat, j: nat)
    requires AngleAt(s, i, j) && Contains(t, s[i..j+1]) && AllBehind(AngleLink, t, b)
    ensures Concealed(b, s[i..j+1])
  {
    var at: nat :| at <= |t| && OccursAt(t, s[i..j+1], at);
    AngleMoves(s, i, j, t, at);
    MovedCharacters(s, i, j + 1, t, at);
    AngleBehind(t, b, at, at + (j - i));
  }

  lemma TargetMoved(t: string, b: Book, s: string, i: nat, j: nat, k: nat)
    requires LinkAt(s, i, j, k) && Lacks(s, ')', i, j) && Contains(t, s[i..k+1]) && AllBehind(LinkUrl, t, b)
    ensures Concealed(b, s[j+2..k])
  {
    var at: nat :| at <= |t| && OccursAt(t, s[i..k+1], at);
    LinkMoves(s, i, j, k, t, at);
    TargetBehind(t, b, at, at + (j - i), at + (k - i));
  }

  lemma InnerHidden(b: Book, outer: string, piece: string)
    requires Concealed(b, outer) && Contains(outer, piece)
    ensures Concealed(b, piece)
  {
    var n :| n in b.placeholders && n in b.mapping && Contains(b.mapping[n], outer);
    ContainsInner(b.mapping[n], outer, piece);
  }

  /** A piece of a source that is left in a text: the next pass hides it or leaves it. */
  lemma PassHidesOrLeaves(s: string, t: string, b: Book, last: Book, a: nat, e: nat, p: Pattern)
    requires NamesBelow(b) && a < e <= |s| && !p.LinkUrl? && AllBehind(p, t, last) && Contains(t, s[a..e])
    requires if p.InlineCode? then Lacks(s, '`', a, e) else Lacks(s, '<', a, e) && Lacks(s, '>', a, e)
    ensures Concealed(last, s[a..e]) || Contains(MaskPass(p, t, b).0, s[a..e])
  {
    var at: nat :| at <= |t| && OccursAt(t, s[a..e], at);
    MovedCharacters(s, a, e, t, at);
    PassesAround(p, t, at, at + (e - a));
    HiddenOrLeft(p, t, b, last, at, at + (e - a));
  }

  lemma ContainsSlice(s: string, a: nat, e: nat)
    requires a <= e <= |s|
    ensures Contains(s, s[a..e])
  {
    SliceContains(s, 0, a, e, |s|);
    assert s[0..|s|] == s;
  }

  lemma BooksBelow(source: string)
    ensures NamesBelow(NewBook(source)) && NamesBelow(AfterCode(source).1)
  {
    var names := PassHides(InlineCode, source, NewBook(source));
  }

  /** Every code span of a source begins inside one that is behind a placeholder, all of it. */
  lemma CodeIsHidden(source: string, i: nat, j: nat)
    requires CodeAt(source, i, j)
    ensures exists x: nat, y: nat :: x <= i <= y && CodeAt(source, x, y)
                                     && Behind(Mask(source, NewBook(source)).1, source[x..y+1])
  {
    MaskHidesAll(source);
    var x, y := CodeBehind(source, Mask(source, NewBook(source)).1, i, j);
  }

  /** Every angle link of a source without backticks in it is behind a placeholder, all of it. */
  lemma AngleIsHidden(source: string, i: nat, j: nat)
    requires AngleAt(source, i, j) && Lacks(source, '`', i, j + 1)
    ensures Concealed(Mask(source, NewBook(source)).1, source[i..j+1])
  {
    var b := Mask(source, NewBook(source)).1;
    MaskHidesAll(source);
    BooksBelow(source);
    ContainsSlice(source, i, j + 1);
    PassHidesOrLeaves(source, source, NewBook(source), b, i, j + 1, InlineCode);
    if !Concealed(b, source[i..j+1]) {
      AngleMoved(AfterCode(source).0, b, source, i, j);
    }
  }

  /** A piece of a source through the first two passes with their books. */
  lemma ThroughTwo(source: string, b0: Book, t1: string, b1: Book, t2: string, b: Book, a: nat, e: nat)
    requires a < e <= |source| && NamesBelow(b0) && NamesBelow(b1)
    requires Lacks(source, '`', a, e) && Lacks(source, '<', a, e) && Lacks(source, '>', a, e)
    requires MaskPass(InlineCode, source, b0).0 == t1 && MaskPass(AngleLink, t1, b1).0 == t2
    requires AllBehind(InlineCode, source, b) && AllBehind(AngleLink, t1, b)
    ensures Concealed(b, source[a..e]) || Contains(t2, source[a..e])
  {
    ContainsSlice(source, a, e);
    PassHidesOrLeaves(source, source, b0, b, a, e, InlineCode);
    if !Concealed(b, source[a..e]) {
      PassHidesOrLeaves(source, t1, b1, b, a, e, AngleLink);
    }
  }

  /** The target of a link that is hidden, or that is left for the third pass. */
  lemma TargetOfLink(source: string, t2: string, b: Book, i: nat, j: nat, k: nat)
    requires LinkAt(source, i, j, k) && Lacks(source, ')', i, j) && AllBehind(LinkUrl, t2, b)
    requires Concealed(b, source[i..k+1]) || Contains(t2, source[i..k+1])
    ensures Concealed(b, source[j+2..k])
  {
    if Concealed(b, source[i..k+1]) {
      SliceContains(source, i, j + 2, k, k + 1);
      InnerHidden(b, source[i..k+1], source[j+2..k]);
    } else {
      TargetMoved(t2, b, source, i, j, k);
    }
  }

  /** The target of every link of a source, without backticks and angle brackets in the link and without a `)` in its
      brackets, is behind a placeholder, all of it. */
  lemma TargetIsHidden(source: string, i: nat, j: nat, k: nat)
    requires LinkAt(source, i, j, k) && Lacks(source, ')', i, j)
    requires Lacks(source, '`', i, k + 1) && Lacks(source, '<', i, k + 1) && Lacks(source, '>', i, k + 1)
    ensures Concealed(Mask(source, NewBook(source)).1, source[j+2..k])
  {
    var b := Mask(source, NewBook(source)).1;
    MaskHidesAll(source);
    BooksBelow(source);
    ThroughTwo(source, NewBook(source), AfterCode(source).0, AfterCode(source).1, AfterAngles(source).0, b, i, k + 1);
    TargetOfLink(source, AfterAngles(source).0, b, i, j, k);
  }
}
