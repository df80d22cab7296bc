/** Masking code spans, angle links and link targets by placeholders before a prompt, and putting them
    back into the reply. */
module Masking {
  import opened Wrappers
  import opened Text
  import opened Tokens
  import opened Placeholders

  // ------------------------------------------------------------------ the three patterns

  datatype Pattern = InlineCode | AngleLink | LinkUrl

  /** One match: it begins at `full` and ends at `stop`; the part from `start` to `end` is masked. */
  datatype Span = Span(full: nat, start: nat, end: nat, stop: nat)

  /** The first c at or after i, or the length of s. */
  function FindChar(s: string, c: char, i: nat): (j: nat)
    requires i <= |s|
    ensures i <= j <= |s| && (j < |s| ==> s[j] == c) && forall k :: i <= k < j ==> s[k] != c
    decreases |s| - i
  {
    if i == |s| || s[i] == c then i else FindChar(s, c, i + 1)
  }

  /** The match that begins at i: a code span is "`[^`]+`", an angle link `<https?://[^>]+>`, and a link
      `\[[^\]]*\]\(([^)]+)\)`, of which only the group is masked. */
  function MatchAt(p: Pattern, s: string, i: nat): (r: Option<Span>)
    requires i < |s|
    ensures r.Some? ==>
              i == r.value.full <= r.value.start < r.value.end <= r.value.stop <= |s|
              && SafeCut(s, r.value.start) && SafeCut(s, r.value.end)
  {
    match p
    case InlineCode =>
      if s[i] != '`' then None
      else var j := FindChar(s, '`', i + 1);
           if j < |s| && j > i + 1 then Some(Span(i, i, j + 1, j + 1)) else None
    case AngleLink =>
      var http := OccursAt(s, "<http://", i);
      if !http && !OccursAt(s, "<https://", i) then None
      else var from := if http then i + 8 else i + 9;
           var j := FindChar(s, '>', from);
           if j < |s| && j > from then Some(Span(i, i, j + 1, j + 1)) else None
    case LinkUrl =>
      if s[i] != '[' then None
      else var j := FindChar(s, ']', i + 1);
           if j + 1 < |s| && s[j+1] == '(' then
             var k := FindChar(s, ')', j + 2);
             if k < |s| && k > j + 2 then Some(Span(i, j + 2, k, k + 1)) else None
           else None
  }

  /** The matches from i on: leftmost, and never overlapping. */
  function FindAll(p: Pattern, s: string, i: nat): (spans: seq<Span>)
    ensures forall k :: 0 <= k < |spans| ==>
              spans[k].start < spans[k].end <= |s| && SafeCut(s, spans[k].start) && SafeCut(s, spans[k].end)
    decreases |s| - i
  {
    if i >= |s| then []
    else match MatchAt(p, s, i)
         case Some(span) => [span] + FindAll(p, s, span.stop)
         case None => FindAll(p, s, i + 1)
  }

  /** Position q is inside a match. */
  ghost predicate Covered(spans: seq<Span>, q: nat) {
    exists k :: 0 <= k < |spans| && spans[k].full <= q < spans[k].stop
  }

  lemma CoveredMore(span: Span, spans: seq<Span>, q: nat)
    ensures Covered([span] + spans, q) <==> span.full <= q < span.stop || Covered(spans, q)
  {
    var all := [span] + spans;
    assert all[0] == span;
    if Covered(spans, q) {
      var k :| 0 <= k < |spans| && spans[k].full <= q < spans[k].stop;
      assert all[k+1] == spans[k];
    }
  }

  /** The spans are matches from i on, each after the end of the one before it. */
  ghost predicate Matches(p: Pattern, s: string, spans: seq<Span>, i: nat)
    decreases |spans|
  {
    spans != [] ==>
      && i <= spans[0].full < |s| && MatchAt(p, s, spans[0].full) == Some(spans[0])
      && Matches(p, s, spans[1..], spans[0].stop)
  }

  lemma MatchesEarlier(p: Pattern, s: string, spans: seq<Span>, i: nat, j: nat)
    requires Matches(p, s, spans, j) && i <= j
    ensures Matches(p, s, spans, i)
  {
  }

  lemma FindAllHere(p: Pattern, s: string, i: nat)
    requires i < |s|
    ensures FindAll(p, s, i) == match MatchAt(p, s, i)
                                case Some(span) => [span] + FindAll(p, s, span.stop)
                                case None => FindAll(p, s, i + 1)
  {
  }

  lemma {:induction false} FoundMatch(p: Pattern, s: string, i: nat)
    ensures Matches(p, s, FindAll(p, s, i), i)
    decreases |s| - i
  {
    if i < |s| {
      FindAllHere(p, s, i);
      var m := MatchAt(p, s, i);
      if m.None? {
        FoundMatch(p, s, i + 1);
        MatchesEarlier(p, s, FindAll(p, s, i + 1), i, i + 1);
      } else {
        var rest := FindAll(p, s, m.value.stop);
        FoundMatch(p, s, m.value.stop);
        assert ([m.value] + rest)[1..] == rest;
      }
    }
  }

  lemma CoverHere(p: Pattern, s: string, i: nat, q: nat)
    requires i < |s|
    requires match MatchAt(p, s, i)
             case None => Covered(FindAll(p, s, i + 1), q)
             case Some(span) => span.full <= q < span.stop || Covered(FindAll(p, s, span.stop), q)
    ensures Covered(FindAll(p, s, i), q)
  {
    FindAllHere(p, s, i);
    var m := MatchAt(p, s, i);
    if m.Some? {
      CoveredMore(m.value, FindAll(p, s, m.value.stop), q);
    }
  }

  lemma {:induction false} FoundCover(p: Pattern, s: string, i: nat, q: nat)
    requires i <= q < |s| && MatchAt(p, s, q).Some?
    ensures Covered(FindAll(p, s, i), q)
    decreases |s| - i
  {
    var m := MatchAt(p, s, i);
    if m.None? {
      FoundCover(p, s, i + 1, q);
    } else if m.value.stop <= q {
      FoundCover(p, s, m.value.stop, q);
    }
    CoverHere(p, s, i, q);
  }

  /** What is found are matches, in order and apart from each other, and every place where a match could begin is
      inside one of them. */
  lemma FindAllIsLeftmost(p: Pattern, s: string, i: nat, q: nat)
    ensures Matches(p, s, FindAll(p, s, i), i)
    ensures i <= q < |s| && MatchAt(p, s, q).Some? ==> Covered(FindAll(p, s, i), q)
  {
    FoundMatch(p, s, i);
    if i <= q < |s| && MatchAt(p, s, q).Some? {
      FoundCover(p, s, i, q);
    }
  }

  /** A character no placeholder contains. */
  predicate Delimiter(c: char) {
    c == '`' || c == '<' || c == '>' || c == '(' || c == ')'
  }

  /** No placeholder can reach across position p. */
  predicate SafeCut(s: string, p: nat) {
    p <= |s| && (p == 0 || p == |s| || Delimiter(s[p]) || Delimiter(s[p-1]))
  }

  // ------------------------------------------------------------------ masking

  /** What masking keeps: the allocator's state, the placeholders in issue order and what they stand for. */
  datatype Book = Book(counter: nat, used: set<string>, placeholders: seq<string>, mapping: map<string, string>)

  function Issue(b: Book, original: string): Book {
    var k := FreshFrom(b.counter, b.used);
    Book(k + 1, b.used + {Name(k)}, b.placeholders + [Name(k)], b.mapping[Name(k) := original])
  }

  /** `text` from pos on with the spans replaced by fresh placeholders, left to right. */
  function Splice(text: string, spans: seq<Span>, pos: nat, b: Book): (string, Book)
    requires pos <= |text| && forall k :: 0 <= k < |spans| ==> spans[k].start <= spans[k].end <= |text|
    decreases |spans|
  {
    if spans == [] then (text[pos..], b)
    else if spans[0].full < pos || spans[0].start < pos then Splice(text, spans[1..], pos, b)
    else
      var b' := Issue(b, text[spans[0].start..spans[0].end]);
      var (rest, b'') := Splice(text, spans[1..], spans[0].end, b');
      (text[pos..spans[0].start] + b'.placeholders[|b'.placeholders|-1] + rest, b'')
  }

  lemma AppendThree(a: string, b: string, c: string, d: string)
    ensures a + b + c + d == a + (b + c + d)
  {
    Assoc(a + b, c, d);
    Assoc(a, b, c + d);
    Assoc(b, c, d);
  }

  function MaskPass(p: Pattern, text: string, b: Book): (string, Book) {
    Splice(text, FindAll(p, text, 0), 0, b)
  }

  function Mask(text: string, b: Book): (string, Book) {
    var (t1, b1) := MaskPass(InlineCode, text, b);
    var (t2, b2) := MaskPass(AngleLink, t1, b1);
    MaskPass(LinkUrl, t2, b2)
  }

  function NewBook(text: string): Book {
    Book(FIRST, FindNames(text, 0), [], map[])
  }

  /** The list and the map that the masking passes fill in place. */
  class MaskLog {
    var placeholders: seq<string>
    var mapping: map<string, string>

    constructor ()
      ensures placeholders == [] && mapping == map[]
    {
      placeholders, mapping := [], map[];
    }
  }

  ghost function BookOf(state: PlaceholderState, log: MaskLog): Book
    reads state, log
  {
    Book(state.counter, state.used, log.placeholders, log.mapping)
  }

  lemma SpliceStep(text: string, spans: seq<Span>, pos: nat, b: Book, done: string)
    requires spans != [] && pos <= |text| && spans[0].full >= pos && spans[0].start >= pos
    requires forall k :: 0 <= k < |spans| ==> spans[k].start <= spans[k].end <= |text|
    ensures var b' := Issue(b, text[spans[0].start..spans[0].end]);
            var placeholder := Name(FreshFrom(b.counter, b.used));
            && done + Splice(text, spans, pos, b).0
               == done + text[pos..spans[0].start] + placeholder + Splice(text, spans[1..], spans[0].end, b').0
            && Splice(text, spans, pos, b).1 == Splice(text, spans[1..], spans[0].end, b').1
  {
    var b' := Issue(b, text[spans[0].start..spans[0].end]);
    AppendThree(done, text[pos..spans[0].start], Name(FreshFrom(b.counter, b.used)),
                Splice(text, spans[1..], spans[0].end, b').0);
  }

  method MaskMatches(text: string, p: Pattern, state: PlaceholderState, log: MaskLog) returns (masked: string)
    modifies state, log
    ensures (masked, BookOf(state, log)) == MaskPass(p, text, old(BookOf(state, log)))
  {
    ghost var whole := MaskPass(p, text, BookOf(state, log));
    var matches := FindAll(p, text, 0);
    masked := "";
    var pos: nat := 0;
    assert matches[0..] == matches;
    for i := 0 to |matches|
      invariant pos <= |text|
      invariant masked + Splice(text, matches[i..], pos, BookOf(state, log)).0 == whole.0
      invariant Splice(text, matches[i..], pos, BookOf(state, log)).1 == whole.1
    {
      var span := matches[i];
      assert matches[i..][0] == span && matches[i..][1..] == matches[i+1..];
      if span.full < pos || span.start < pos {
        continue;
      }
      ghost var book := BookOf(state, log);
      SpliceStep(text, matches[i..], pos, book, masked);
      masked := masked + text[pos..span.start];
      var placeholder := state.Next();
      log.mapping := log.mapping[placeholder := text[span.start..span.end]];
      log.placeholders := log.placeholders + [placeholder];
      masked := masked + placeholder;
      assert BookOf(state, log) == Issue(book, text[span.start..span.end]);
      pos := span.end;
    }
    masked := masked + text[pos..];
  }

  method MaskMarkdown(text: string, state: PlaceholderState, log: MaskLog) returns (masked: string)
    modifies state, log
    ensures (masked, BookOf(state, log)) == Mask(text, old(BookOf(state, log)))
  {
    masked := MaskMatches(text, InlineCode, state, log);
    masked := MaskMatches(masked, AngleLink, state, log);
    masked := MaskMatches(masked, LinkUrl, state, log);
  }

  // ------------------------------------------------------------------ unmasking

  function Original(mapping: map<string, string>, placeholder: string): string {
    if placeholder in mapping then mapping[placeholder] else ""
  }

  function Unmask(text: string, placeholders: seq<string>, mapping: map<string, string>): string
    requires "" !in placeholders
    decreases |placeholders|
  {
    if placeholders == [] then text
    else Unmask(ReplaceAll(text, placeholders[0], Original(mapping, placeholders[0])), placeholders[1..], mapping)
  }

  method UnmaskMarkdown(text: string, placeholders: seq<string>, mapping: map<string, string>) returns (out: string)
    requires "" !in placeholders
    ensures out == Unmask(text, placeholders, mapping)
  {
    out := text;
    for i := 0 to |placeholders|
      invariant Unmask(out, placeholders[i..], mapping) == Unmask(text, placeholders, mapping)
    {
      assert placeholders[i] in placeholders;
      assert placeholders[i..][0] == placeholders[i] && placeholders[i..][1..] == placeholders[i+1..];
      out := ReplaceAll(out, placeholders[i], Original(mapping, placeholders[i]));
    }
  }

  /** The first placeholder that is missing from the text. */
  method ValidatePlaceholders(text: string, placeholders: seq<string>) returns (missing: Option<string>)
    ensures missing.None? <==> forall p :: p in placeholders ==> Contains(text, p)
    ensures missing.Some? ==> missing.value in placeholders && !Contains(text, missing.value)
  {
    for i := 0 to |placeholders|
      invariant forall j :: 0 <= j < i ==> Contains(text, placeholders[j])
    {
      if !Contains(text, placeholders[i]) {
        return Some(placeholders[i]);
      }
    }
    missing := None;
  }

  // ------------------------------------------------------------------ placeholders inside text

  ghost predicate AllNames(toks: seq<Token>) {
    forall t :: t in toks && t.Tag? ==> IsName(t.name)
  }

  /** No run of plain characters spells the stem. */
  ghost predicate Clean(toks: seq<Token>) {
    forall i: nat :: !StemAt(toks, i)
  }

  ghost predicate StemAt(toks: seq<Token>, i: nat) {
    i + 8 <= |toks| && toks[i..i+8] == Chars(STEM)
  }

  lemma CleanTail(toks: seq<Token>, n: nat)
    requires Clean(toks) && AllNames(toks) && n <= |toks|
    ensures Clean(toks[n..]) && AllNames(toks[n..])
  {
    forall i: nat ensures !StemAt(toks[n..], i) {
      if i + 8 <= |toks[n..]| {
        assert toks[n..][i..i+8] == toks[n+i..n+i+8];
        assert !StemAt(toks, n + i);
      }
    }
  }

  /** A pattern without two underscores in a row that does not end in one is spelled by plain characters. */
  lemma {:induction false} PlainPrefix(pat: string, toks: seq<Token>)
    requires AllNames(toks) && pat <= Render(toks)
    requires forall i :: 0 <= i < |pat| && pat[i] == '_' ==> i + 1 < |pat| && pat[i+1] != '_'
    ensures Chars(pat) <= toks
  {
    if pat != "" {
      assert toks != [];
      var r := Render(toks);
      assert r[0] == pat[0] && toks[0] in toks;
      assert pat[0] == '_' ==> pat[1] == r[1];
      assert toks[0].Ch?;
      assert r == [toks[0].c] + Render(toks[1..]);
      PlainPrefix(pat[1..], toks[1..]);
      assert Chars(pat) == [Ch(pat[0])] + Chars(pat[1..]);
    }
  }

  lemma StemSpelled(toks: seq<Token>, d: char)
    requires Chars(STEM + [d]) <= toks
    ensures StemAt(toks, 0)
  {
    assert toks[0..8] == Chars(STEM + [d])[0..8] == Chars(STEM);
  }

  /** The stem followed by a digit cannot start where the text is clean. */
  lemma NoStem(toks: seq<Token>, d: char)
    requires AllNames(toks) && Clean(toks) && IsDigit(d)
    ensures !(STEM + [d] <= Render(toks))
  {
    if STEM + [d] <= Render(toks) {
      PlainPrefix(STEM + [d], toks);
      StemSpelled(toks, d);
    }
  }

  /** Nor can the stem and a digit after one underscore. */
  lemma NoStemAfterUnderscore(toks: seq<Token>, d: char)
    requires AllNames(toks) && Clean(toks) && IsDigit(d)
    ensures !("_" + STEM + [d] <= Render(toks))
  {
    var pat := "_" + STEM + [d];
    if pat <= Render(toks) {
      var r := Render(toks);
      assert r[0] == '_' && r[1] == 'O';
      assert toks[0] in toks && toks[0].Ch?;
      assert r[1..] == Render(toks[1..]);
      assert pat[1..] == STEM + [d];
      CleanTail(toks, 1);
      NoStem(toks[1..], d);
    }
  }

  lemma NameHead(n: string)
    requires IsName(n)
    ensures n[..11] == OPEN + [n[10]] && IsDigit(n[10])
    ensures n[2..11] == STEM + [n[10]] && n[1..11] == "_" + STEM + [n[10]]
  {
    assert n[..10] == OPEN;
    assert n[2..10] == OPEN[2..] && n[1..10] == OPEN[1..];
  }

  /** A name does not go on where a shorter one with the same beginning has ended. */
  lemma NotLonger(n: string, m: string)
    requires IsName(n) && IsName(m) && |n| < |m|
    ensures n != m[..|n|]
  {
    var k := |n| - 2;
    assert n[k] == n[k..][0] && m[..|n|][k] == m[k] && IsDigit(m[k]);
  }

  lemma NoInnerUnderscores(m: string, k: nat)
    requires IsName(m) && 0 < k < |m| - 2
    ensures !(m[k] == '_' && m[k+1] == '_')
  {
    assert m[..10] == OPEN;
    assert k < 10 ==> m[k] == OPEN[k];
    assert k < 9 ==> m[k+1] == OPEN[k+1];
  }

  /** Two placeholder names of which one starts the text of the other are equal. */
  lemma SameName(n: string, m: string, rest: string)
    requires IsName(n) && IsName(m) && n <= m + rest
    ensures n == m
  {
    var both := m + rest;
    assert forall i :: 0 <= i < |n| ==> n[i] == both[i];
    if |n| < |m| {
      assert both[..|n|] == m[..|n|];
      NotLonger(n, m);
    } else if |m| < |n| {
      assert both[..|m|] == m;
      NotLonger(m, n);
    }
    assert n == both[..|n|] == m;
  }

  /** In clean text a placeholder starts only where its tag is. */
  lemma TagAtStart(n: string, toks: seq<Token>)
    requires IsName(n) && AllNames(toks) && Clean(toks) && n <= Render(toks)
    ensures toks != [] && toks[0] == Tag(n)
  {
    NameHead(n);
    var r := Render(toks);
    assert r[0] == n[0] && r[1..11] == n[1..11];
    if toks[0].Ch? {
      assert r[1..] == Render(toks[1..]);
      CleanTail(toks, 1);
      assert "_" + STEM + [n[10]] <= r[1..];
      NoStemAfterUnderscore(toks[1..], n[10]);
      assert false;
    } else {
      assert toks[0] in toks;
      SameName(n, toks[0].name, Render(toks[1..]));
    }
  }

  /** No placeholder starts strictly inside another one. */
  lemma NotInside(n: string, m: string, o: nat, toks: seq<Token>)
    requires IsName(n) && IsName(m) && 0 < o < |m| && AllNames(toks) && Clean(toks)
    ensures !(n <= (m + Render(toks))[o..])
  {
    var all := m + Render(toks);
    if n <= all[o..] {
      NameHead(n);
      NameHead(m);
      assert all[o] == n[0] == '_' && all[o+1] == n[1] == '_' && all[o+2] == n[2] == 'O';
      assert m[..10] == OPEN && m[|m|-2..] == "__";
      if o < |m| - 2 {
        NoInnerUnderscores(m, o);
      } else if o == |m| - 2 {
        assert all[o..][2..] == Render(toks);
        assert STEM + [n[10]] <= Render(toks);
        NoStem(toks, n[10]);
      } else {
        assert all[o..][1..] == Render(toks);
        assert "_" + STEM + [n[10]] <= Render(toks);
        NoStemAfterUnderscore(toks, n[10]);
      }
    }
  }

  // ------------------------------------------------------------------ replacing is substituting

  /** Text in which the pattern starts nowhere is passed over. */
  lemma {:induction false} ReplaceSkips(u: string, v: string, pat: string, filling: string)
    requires pat != "" && forall o :: 0 <= o < |u| ==> !(pat <= (u + v)[o..])
    ensures ReplaceAll(u + v, pat, filling) == u + ReplaceAll(v, pat, filling)
    decreases |u|
  {
    if u == "" {
      assert u + v == v;
    } else {
      var all, rest := u + v, u[1..] + v;
      assert all[0..] == all && all[1..] == rest;
      forall o | 0 <= o < |u[1..]| ensures !(pat <= rest[o..]) {
        assert rest[o..] == all[o+1..];
      }
      ReplaceSkips(u[1..], v, pat, filling);
      Assoc([u[0]], u[1..], ReplaceAll(v, pat, filling));
    }
  }

  /** Nowhere does n start but in tags n. */
  ghost predicate OnlyInTags(toks: seq<Token>, n: string)
    decreases |toks|
  {
    toks == [] || (OnlyInTags(toks[1..], n) && (toks[0] == Tag(n) || !StartsIn(toks, n)))
  }

  /** n starts in the first token. */
  ghost predicate StartsIn(toks: seq<Token>, n: string)
    requires toks != []
  {
    exists o: nat :: o < |Spelled(toks[0])| && n <= Render(toks)[o..]
  }

  lemma StartsNowhere(toks: seq<Token>, n: string)
    requires toks != [] && !StartsIn(toks, n)
    ensures forall o :: 0 <= o < |Spelled(toks[0])| ==> !(n <= (Spelled(toks[0]) + Render(toks[1..]))[o..])
  {
    forall o | 0 <= o < |Spelled(toks[0])| ensures !(n <= (Spelled(toks[0]) + Render(toks[1..]))[o..]) {
      var k: nat := o;
      assert !(n <= Render(toks)[k..]);
    }
  }

  lemma {:induction false} CleanIsOnlyInTags(toks: seq<Token>, n: string)
    requires IsName(n) && AllNames(toks) && Clean(toks)
    ensures OnlyInTags(toks, n)
    decreases |toks|
  {
    if toks != [] {
      CleanTail(toks, 1);
      CleanIsOnlyInTags(toks[1..], n);
      if toks[0] != Tag(n) {
        forall o: nat | o < |Spelled(toks[0])| ensures !(n <= Render(toks)[o..]) {
          if o == 0 {
            assert Render(toks)[0..] == Render(toks);
            if n <= Render(toks) {
              TagAtStart(n, toks);
            }
          } else {
            assert toks[0] in toks;
            NotInside(n, toks[0].name, o, toks[1..]);
          }
        }
      }
    }
  }

  lemma {:induction false} ReplaceTags(toks: seq<Token>, n: string, filling: seq<Token>)
    requires n != "" && OnlyInTags(toks, n)
    ensures ReplaceAll(Render(toks), n, Render(filling)) == Render(Subst(toks, n, filling))
    decreases |toks|
  {
    if toks != [] {
      var rest := toks[1..];
      ReplaceTags(rest, n, filling);
      if toks[0] == Tag(n) {
        assert Render(toks)[|n|..] == Render(rest);
        RenderConcat(filling, Subst(rest, n, filling));
      } else {
        StartsNowhere(toks, n);
        ReplaceSkips(Spelled(toks[0]), Render(rest), n, Render(filling));
        assert [toks[0]] + Subst(rest, n, filling) == Subst(toks, n, filling);
      }
    }
  }

  lemma ReplaceIsSubst(toks: seq<Token>, n: string, filling: seq<Token>)
    requires IsName(n) && AllNames(toks) && Clean(toks)
    ensures ReplaceAll(Render(toks), n, Render(filling)) == Render(Subst(toks, n, filling))
  {
    CleanIsOnlyInTags(toks, n);
    ReplaceTags(toks, n, filling);
  }

  lemma OccursAfter(u: string, rest: string, n: string, i: nat)
    requires OccursAt(rest, n, i)
    ensures OccursAt(u + rest, n, |u| + i)
  {
    assert (u + rest)[|u|+i..] == rest[i..];
  }

  lemma {:induction false} TagIsContained(toks: seq<Token>, n: string)
    requires Tag(n) in toks
    ensures Contains(Render(toks), n)
  {
    var r := Render(toks);
    if toks[0] == Tag(n) {
      assert r[0..] == r;
      assert OccursAt(r, n, 0);
    } else {
      var rest := Render(toks[1..]);
      TagIsContained(toks[1..], n);
      var i :| 0 <= i <= |rest| && OccursAt(rest, n, i);
      OccursAfter(Spelled(toks[0]), rest, n, i);
    }
  }

  lemma OccursLater(u: string, rest: string, n: string, i: nat)
    requires OccursAt(u + rest, n, i) && |u| <= i
    ensures OccursAt(rest, n, i - |u|)
  {
    assert (u + rest)[i..] == rest[i-|u|..];
  }

  lemma {:induction false} OccurrenceIsTag(toks: seq<Token>, n: string, i: nat)
    requires IsName(n) && AllNames(toks) && Clean(toks) && OccursAt(Render(toks), n, i)
    ensures Tag(n) in toks
  {
    if i == 0 {
      assert Render(toks)[0..] == Render(toks);
      TagAtStart(n, toks);
    } else {
      var u, rest := Spelled(toks[0]), toks[1..];
      CleanTail(toks, 1);
      assert Render(toks) == u + Render(rest) && toks[0] in toks;
      if i < |u| {
        NotInside(n, toks[0].name, i, rest);
      } else {
        OccursLater(u, Render(rest), n, i);
        OccurrenceIsTag(rest, n, i - |u|);
      }
    }
  }

  lemma ContainsIsTag(toks: seq<Token>, n: string)
    requires IsName(n) && AllNames(toks) && Clean(toks)
    ensures Contains(Render(toks), n) <==> Tag(n) in toks
  {
    if Contains(Render(toks), n) {
      var i :| 0 <= i <= |Render(toks)| && OccursAt(Render(toks), n, i);
      OccurrenceIsTag(toks, n, i);
    }
    if Tag(n) in toks {
      TagIsContained(toks, n);
    }
  }

  // ------------------------------------------------------------------ the masking ledger

  /** What is known while text is being masked: the current text as tokens, what each placeholder
      replaced, as tokens, and which part of the source that is. */
  datatype Ledger = Ledger(
    toks: seq<Token>,
    issued: seq<string>,
    content: map<string, seq<Token>>,
    plain: map<string, string>)

  ghost predicate Sound(source: string, l: Ledger) {
    && AllNames(l.toks)
    && (forall n :: n in l.issued ==> IsName(n) && n in l.content && n in l.plain)
    && (forall n :: n in l.content || n in l.plain ==> n in l.issued)
    && (forall n :: n in l.issued ==> AllNames(l.content[n]))
    && (forall i, j :: 0 <= i < j < |l.issued| ==> l.issued[i] != l.issued[j])
    && Expand(l.toks, l.plain) == source
    && (forall n :: n in l.issued ==> Expand(l.content[n], l.plain) == l.plain[n])
  }

  /** Each placeholder is at one place: once in the text, or inside what a later one replaced. */
  ghost predicate Placed(l: Ledger) {
    && (forall t :: t in l.toks && t.Tag? ==> t.name in l.issued)
    && TagsOnce(l.toks)
    && (forall n, t :: n in l.content && t in l.content[n] && t.Tag? ==> t.name in l.issued && t !in l.toks)
    && (forall i, j :: 0 <= i <= j < |l.issued| && l.issued[i] in l.content ==>
          Tag(l.issued[j]) !in l.content[l.issued[i]])
    && (forall n :: n in l.issued && Tag(n) !in l.toks ==> exists m :: m in l.content && Tag(n) in l.content[m])
  }

  /** The tokens from i to j replaced by a fresh placeholder. */
  function Carve(l: Ledger, i: nat, j: nat, n: string): Ledger
    requires i <= j <= |l.toks|
  {
    Ledger(l.toks[..i] + [Tag(n)] + l.toks[j..], l.issued + [n],
           l.content[n := l.toks[i..j]], l.plain[n := Expand(l.toks[i..j], l.plain)])
  }

  /** The text around a new placeholder, and the new placeholder, still stand for the source. */
  lemma CarveExpands(l: Ledger, i: nat, j: nat, n: string)
    requires i <= j <= |l.toks| && Tag(n) !in l.toks
    ensures Expand(Carve(l, i, j, n).toks, Carve(l, i, j, n).plain) == Expand(l.toks, l.plain)
    ensures Expand(l.toks[i..j], Carve(l, i, j, n).plain) == Expand(l.toks[i..j], l.plain)
  {
    var a, b, c := l.toks[..i], l.toks[i..j], l.toks[j..];
    var text := Expand(b, l.plain);
    var plain := l.plain[n := text];
    assert l.toks == a + b + c;
    ExpandConcat(a, b, l.plain);
    ExpandConcat(a + b, c, l.plain);
    ExpandFrame(a, l.plain, n, text);
    ExpandFrame(b, l.plain, n, text);
    ExpandFrame(c, l.plain, n, text);
    ExpandConcat(a, [Tag(n)], plain);
    ExpandConcat(a + [Tag(n)], c, plain);
    assert Expand([Tag(n)], plain) == text;
  }

  lemma CarveSound(source: string, l: Ledger, i: nat, j: nat, n: string)
    requires Sound(source, l) && Placed(l) && i <= j <= |l.toks| && IsName(n) && n !in l.issued
    ensures Sound(source, Carve(l, i, j, n))
  {
    var l' := Carve(l, i, j, n);
    assert Tag(n) !in l.toks;
    CarveExpands(l, i, j, n);
    forall m | m in l'.issued
      ensures Expand(l'.content[m], l'.plain) == l'.plain[m] && AllNames(l'.content[m])
    {
      if m != n {
        ExpandFrame(l.content[m], l.plain, n, l'.plain[n]);
      }
    }
  }

  ghost predicate TagsOnce(toks: seq<Token>) {
    forall i, j :: 0 <= i < j < |toks| && toks[i].Tag? ==> toks[i] != toks[j]
  }

  lemma CarveOnce(toks: seq<Token>, i: nat, j: nat, n: string)
    requires i <= j <= |toks| && TagsOnce(toks) && Tag(n) !in toks
    ensures TagsOnce(toks[..i] + [Tag(n)] + toks[j..])
    ensures forall t :: t in toks[i..j] && t.Tag? ==> t !in toks[..i] + [Tag(n)] + toks[j..]
  {
    var after := toks[..i] + [Tag(n)] + toks[j..];
    assert forall k :: 0 <= k < |after| ==>
      after[k] == if k < i then toks[k] else if k == i then Tag(n) else toks[k-i-1+j];
    assert forall k :: i <= k < j ==> toks[i..j][k-i] == toks[k];
  }

  lemma CarveMembers(toks: seq<Token>, i: nat, j: nat, n: string, t: Token)
    requires i <= j <= |toks|
    ensures t in toks[..i] + [Tag(n)] + toks[j..] ==> t == Tag(n) || t in toks
    ensures t in toks ==> t in toks[..i] + [Tag(n)] + toks[j..] || t in toks[i..j]
    ensures t in toks[i..j] ==> t in toks
    ensures Tag(n) in toks[..i] + [Tag(n)] + toks[j..]
  {
    assert toks == toks[..i] + toks[i..j] + toks[j..];
  }

  lemma CarvePlaced(l: Ledger, i: nat, j: nat, n: string)
    requires Placed(l) && i <= j <= |l.toks| && n !in l.issued && l.content.Keys == (set m | m in l.issued)
    ensures Placed(Carve(l, i, j, n))
  {
    var l' := Carve(l, i, j, n);
    assert Tag(n) !in l.toks;
    forall t ensures t in l'.toks ==> t == Tag(n) || t in l.toks
             ensures t in l.toks ==> t in l'.toks || t in l.toks[i..j]
             ensures t in l.toks[i..j] ==> t in l.toks
             ensures Tag(n) in l'.toks
    {
      CarveMembers(l.toks, i, j, n, t);
    }
    CarveOnce(l.toks, i, j, n);
    CarveContents(l, l', n);
    forall m | m in l'.issued && Tag(m) !in l'.toks
      ensures exists k :: k in l'.content && Tag(m) in l'.content[k]
    {
      if Tag(m) in l.toks {
        assert Tag(m) in l'.content[n];
      } else {
        var k :| k in l.content && Tag(m) in l.content[k];
        assert l'.content[k] == l.content[k];
      }
    }
  }

  lemma CarveContents(l: Ledger, l': Ledger, n: string)
    requires Placed(l) && n !in l.issued && l.content.Keys == (set m | m in l.issued)
    requires n in l'.content && l' == Ledger(l'.toks, l.issued + [n], l.content[n := l'.content[n]], l'.plain)
    requires forall t :: t in l'.toks ==> t == Tag(n) || t in l.toks
    requires forall t :: t in l'.content[n] ==> t in l.toks && (t.Tag? ==> t !in l'.toks)
    ensures forall m, t :: m in l'.content && t in l'.content[m] && t.Tag? ==> t.name in l'.issued && t !in l'.toks
    ensures forall i, j :: 0 <= i <= j < |l'.issued| && l'.issued[i] in l'.content ==>
              Tag(l'.issued[j]) !in l'.content[l'.issued[i]]
  {
    forall i, j | 0 <= i <= j < |l'.issued| && l'.issued[i] in l'.content
      ensures Tag(l'.issued[j]) !in l'.content[l'.issued[i]]
    {
      if j < |l.issued| {
        assert l'.issued[i] == l.issued[i] && l'.issued[j] == l.issued[j];
        assert l.issued[i] in l.content;
      } else {
        assert l'.issued[j] == n;
        if i < j {
          assert l'.issued[i] == l.issued[i];
        }
      }
    }
  }

  // ------------------------------------------------------------------ unmasking, on tokens

  /** What unmasking does, placeholder by placeholder. */
  function Unfold(toks: seq<Token>, issued: seq<string>, content: map<string, seq<Token>>): seq<Token>
    requires forall n :: n in issued ==> n in content
    decreases |issued|
  {
    if issued == [] then toks
    else Unfold(Subst(toks, issued[0], content[issued[0]]), issued[1..], content)
  }

  lemma CleanIfStemFree(toks: seq<Token>, plain: map<string, string>)
    requires !Contains(Expand(toks, plain), STEM)
    ensures Clean(toks)
  {
    forall i: nat ensures !StemAt(toks, i) {
      if StemAt(toks, i) {
        var a, w, b := toks[..i], toks[i..i+8], toks[i+8..];
        assert toks == a + w + b;
        ExpandConcat(a, w, plain);
        ExpandConcat(a + w, b, plain);
        NoTagsExpand(w, plain);
        RenderChars(STEM);
        var text := Expand(toks, plain);
        assert text == Expand(a, plain) + STEM + Expand(b, plain);
        assert OccursAt(text, STEM, |Expand(a, plain)|);
      }
    }
  }

  /** Placeholders, what they replaced, and what the program remembers of it, agree. */
  ghost predicate Remembered(
    issued: seq<string>, content: map<string, seq<Token>>, plain: map<string, string>, mapping: map<string, string>)
  {
    forall n :: n in issued ==>
      && IsName(n) && n in content && n in plain && n in mapping
      && AllNames(content[n]) && Expand(content[n], plain) == plain[n] && mapping[n] == Render(content[n])
  }

  /** As long as the expanded text is free of the stem, unmasking strings is unfolding tokens. */
  lemma {:induction false} UnmaskIsUnfold(
    toks: seq<Token>, issued: seq<string>, content: map<string, seq<Token>>, plain: map<string, string>,
    mapping: map<string, string>)
    requires AllNames(toks) && Remembered(issued, content, plain, mapping)
    requires !Contains(Expand(toks, plain), STEM)
    ensures "" !in issued
    ensures Unmask(Render(toks), issued, mapping) == Render(Unfold(toks, issued, content))
    ensures Expand(Unfold(toks, issued, content), plain) == Expand(toks, plain)
    decreases |issued|
  {
    if issued != [] {
      var n := issued[0];
      CleanIfStemFree(toks, plain);
      ReplaceIsSubst(toks, n, content[n]);
      ExpandSubst(toks, n, content[n], plain);
      SubstTags(toks, n, content[n]);
      UnmaskIsUnfold(Subst(toks, n, content[n]), issued[1..], content, plain, mapping);
    }
  }

  /** If nothing that was replaced holds a placeholder, no placeholder is left. */
  lemma {:induction false} AllTagsGo(toks: seq<Token>, issued: seq<string>, content: map<string, seq<Token>>)
    requires forall n :: n in issued ==> n in content && forall t :: t in content[n] ==> t.Ch?
    requires forall t :: t in toks && t.Tag? ==> t.name in issued
    ensures forall t :: t in Unfold(toks, issued, content) ==> t.Ch?
    decreases |issued|
  {
    if issued != [] {
      SubstTags(toks, issued[0], content[issued[0]]);
      AllTagsGo(Subst(toks, issued[0], content[issued[0]]), issued[1..], content);
    }
  }

  lemma {:induction false} OldTagStays(
    toks: seq<Token>, issued: seq<string>, content: map<string, seq<Token>>, x: string)
    requires forall n :: n in issued ==> n in content
    requires Tag(x) in toks && x !in issued
    ensures Tag(x) in Unfold(toks, issued, content)
    decreases |issued|
  {
    if issued != [] {
      SubstTags(toks, issued[0], content[issued[0]]);
      OldTagStays(Subst(toks, issued[0], content[issued[0]]), issued[1..], content, x);
    }
  }

  /** A placeholder inside what a later one replaced comes back too late to be replaced. */
  lemma {:induction false} SwallowedTagStays(
    toks: seq<Token>, issued: seq<string>, content: map<string, seq<Token>>, m: string, x: string)
    requires forall n :: n in issued ==> n in content
    requires m in issued && Tag(m) in toks && Tag(x) in content[m]
    requires forall i, j :: 0 <= i <= j < |issued| && issued[i] == m ==> issued[j] != x
    ensures Tag(x) in Unfold(toks, issued, content)
    decreases |issued|
  {
    var h := issued[0];
    SubstTags(toks, h, content[h]);
    if h == m {
      OldTagStays(Subst(toks, h, content[h]), issued[1..], content, x);
    } else {
      SwallowedTagStays(Subst(toks, h, content[h]), issued[1..], content, m, x);
    }
  }

  /** Of the placeholders missing from the text, the last one lies inside one that is not missing. */
  lemma {:induction false} LastMissing(l: Ledger, from: nat) returns (j: nat)
    requires Placed(l) && from <= |l.issued|
    requires exists i :: 0 <= i < |l.issued| - from && Tag(l.issued[i]) !in l.toks
    requires forall i :: |l.issued| - from <= i < |l.issued| ==> Tag(l.issued[i]) in l.toks
    ensures j < |l.issued| && Tag(l.issued[j]) !in l.toks
    ensures forall i :: j < i < |l.issued| ==> Tag(l.issued[i]) in l.toks
    decreases |l.issued| - from
  {
    j := |l.issued| - from - 1;
    if Tag(l.issued[j]) in l.toks {
      j := LastMissing(l, from + 1);
    }
  }

  lemma PresentIsRestored(source: string, l: Ledger)
    requires Sound(source, l) && Placed(l) && forall n :: n in l.issued ==> Tag(n) in l.toks
    requires Expand(Unfold(l.toks, l.issued, l.content), l.plain) == source
    ensures Render(Unfold(l.toks, l.issued, l.content)) == source
  {
    ContentsPlain(l);
    AllTagsGo(l.toks, l.issued, l.content);
    NoTagsExpand(Unfold(l.toks, l.issued, l.content), l.plain);
  }

  lemma FindSwallowed(l: Ledger) returns (x: string, m: string)
    requires Placed(l) && forall i, j :: 0 <= i < j < |l.issued| ==> l.issued[i] != l.issued[j]
    requires forall n :: n in l.content ==> n in l.issued
    requires exists i :: 0 <= i < |l.issued| && Tag(l.issued[i]) !in l.toks
    ensures m in l.content && m in l.issued && Tag(m) in l.toks && Tag(x) in l.content[m]
    ensures forall i, j :: 0 <= i <= j < |l.issued| && l.issued[i] == m ==> l.issued[j] != x
  {
    var j := LastMissing(l, 0);
    x := l.issued[j];
    m :| m in l.content && Tag(x) in l.content[m];
    var k :| 0 <= k < |l.issued| && l.issued[k] == m;
    assert k > j;
  }

  lemma MissingIsNotRestored(source: string, l: Ledger)
    requires Sound(source, l) && Placed(l) && !Contains(source, STEM)
    requires exists n :: n in l.issued && Tag(n) !in l.toks
    ensures Render(Unfold(l.toks, l.issued, l.content)) != source
  {
    var u := Unfold(l.toks, l.issued, l.content);
    var x, m := FindSwallowed(l);
    SwallowedTagStays(l.toks, l.issued, l.content, m, x);
    TagIsContained(u, x);
    assert x in l.issued;
    StemInName(Render(u), x);
  }

  /** The heart of it: for a source without the stem, unmasking gives the source back exactly when every
      placeholder is still in the text. */
  lemma LedgerRoundTrip(source: string, l: Ledger, mapping: map<string, string>)
    requires Sound(source, l) && Placed(l) && Remembered(l.issued, l.content, l.plain, mapping)
    requires !Contains(source, STEM)
    ensures "" !in l.issued
    ensures (forall n :: n in l.issued ==> Contains(Render(l.toks), n))
       <==> Unmask(Render(l.toks), l.issued, mapping) == source
  {
    UnmaskIsUnfold(l.toks, l.issued, l.content, l.plain, mapping);
    CleanIfStemFree(l.toks, l.plain);
    forall n | n in l.issued ensures Contains(Render(l.toks), n) <==> Tag(n) in l.toks {
      ContainsIsTag(l.toks, n);
    }
    if forall n :: n in l.issued ==> Tag(n) in l.toks {
      PresentIsRestored(source, l);
    } else {
      MissingIsNotRestored(source, l);
    }
  }

  lemma ContentsPlain(l: Ledger)
    requires Placed(l) && forall n :: n in l.issued ==> n in l.content && Tag(n) in l.toks
    ensures forall n, t :: n in l.issued && t in l.content[n] ==> t.Ch?
  {
  }

  lemma StemInName(s: string, n: string)
    requires IsName(n) && Contains(s, n)
    ensures Contains(s, STEM)
  {
    var i :| 0 <= i <= |s| && OccursAt(s, n, i);
    NameHead(n);
    assert s[i+2..] == s[i..][2..];
    assert n[2..11][..8] == STEM;
    assert OccursAt(s, STEM, i + 2);
  }

  // ------------------------------------------------------------------ the passes keep the ledger

  ghost predicate Fits(b: Book, l: Ledger) {
    && b.placeholders == l.issued
    && l.content.Keys == (set n | n in l.issued)
    && forall n :: n in l.issued ==>
         n in b.mapping && b.mapping[n] == Render(l.content[n]) && exists k: nat :: k < b.counter && n == Name(k)
  }

  lemma NameHasNoDelimiter(n: string, i: nat)
    requires IsName(n) && i < |n|
    ensures !Delimiter(n[i])
  {
    assert n[..10] == OPEN && n[|n|-2..] == "__";
    assert i < 10 ==> n[i] == OPEN[i];
    assert i >= |n| - 2 ==> n[i] == n[|n|-2..][i-(|n|-2)];
  }

  lemma NoCutInName(u: string, r: string, p: nat)
    requires IsName(u) && u <= r && 0 < p < |u|
    ensures !SafeCut(r, p)
  {
    NameHasNoDelimiter(u, p);
    NameHasNoDelimiter(u, p - 1);
    assert r[p] == u[p] && r[p-1] == u[p-1];
  }

  lemma {:induction false} CutAt(toks: seq<Token>, p: nat) returns (i: nat)
    requires AllNames(toks) && SafeCut(Render(toks), p)
    ensures i <= |toks| && |Render(toks[..i])| == p
  {
    if p == 0 {
      i := 0;
    } else {
      var r, u, rest := Render(toks), Spelled(toks[0]), toks[1..];
      assert toks[0] in toks;
      if toks[0].Tag? && p < |u| {
        NoCutInName(u, r, p);
      }
      assert p - |u| < |Render(rest)| ==> Render(rest)[p-|u|] == r[p];
      assert p > |u| ==> Render(rest)[p-|u|-1] == r[p-1];
      i := CutAt(rest, p - |u|);
      i := i + 1;
      assert toks[..i][1..] == rest[..i-1];
    }
  }

  lemma SliceSlices(toks: seq<Token>, done: nat, k: nat)
    requires done + k <= |toks|
    ensures toks[done..][..k] == toks[done..done+k] && toks[done..][k..] == toks[done+k..]
  {
  }

  lemma SafeCutSuffix(text: string, pos: nat, p: nat)
    requires pos <= p && SafeCut(text, p)
    ensures SafeCut(text[pos..], p - pos)
  {
  }

  lemma SliceNames(toks: seq<Token>, done: nat)
    requires done <= |toks| && AllNames(toks)
    ensures AllNames(toks[done..])
  {
  }

  /** Where position q of a text falls in its tokens. */
  lemma CutRest(rest: seq<Token>, tail: string, q: nat) returns (k: nat)
    requires AllNames(rest) && Render(rest) == tail && SafeCut(tail, q) && q <= |tail|
    ensures k <= |rest| && Render(rest[..k]) == tail[..q] && Render(rest[k..]) == tail[q..]
  {
    k := CutAt(rest, q);
    RenderSplit(rest, k);
    assert tail[..q] == Render(rest[..k]);
  }

  lemma TextSlices(text: string, pos: nat, p: nat)
    requires pos <= p <= |text|
    ensures text[pos..][..p-pos] == text[pos..p] && text[pos..][p-pos..] == text[p..]
  {
  }

  /** Where position p of the text falls in the tokens from `done` on, which render to text[pos..]. */
  lemma CutText(toks: seq<Token>, done: nat, text: string, pos: nat, p: nat) returns (i: nat)
    requires AllNames(toks) && done <= |toks| && pos <= p <= |text| && Render(toks[done..]) == text[pos..]
    requires SafeCut(text, p)
    ensures done <= i <= |toks| && Render(toks[done..i]) == text[pos..p] && Render(toks[i..]) == text[p..]
  {
    SliceNames(toks, done);
    SafeCutSuffix(text, pos, p);
    var k := CutRest(toks[done..], text[pos..], p - pos);
    i := done + k;
    CutMoves(toks, done, k, i, text, pos, p, p - pos);
  }

  lemma CutMoves(toks: seq<Token>, done: nat, k: nat, i: nat, text: string, pos: nat, p: nat, q: nat)
    requires i == done + k <= |toks| && p == pos + q <= |text|
    requires Render(toks[done..][..k]) == text[pos..][..q] && Render(toks[done..][k..]) == text[pos..][q..]
    ensures Render(toks[done..i]) == text[pos..p] && Render(toks[i..]) == text[p..]
  {
    SliceSlices(toks, done, k);
    TextSlices(text, pos, p);
  }

  lemma RenderSplit(toks: seq<Token>, k: nat)
    requires k <= |toks|
    ensures Render(toks) == Render(toks[..k]) + Render(toks[k..])
  {
    assert toks == toks[..k] + toks[k..];
    RenderConcat(toks[..k], toks[k..]);
  }

  lemma IssueFits(l: Ledger, b: Book, i: nat, j: nat) returns (n: string)
    requires Fits(b, l) && i <= j <= |l.toks|
    ensures n == Name(FreshFrom(b.counter, b.used)) && IsName(n) && n !in l.issued
    ensures Fits(Issue(b, Render(l.toks[i..j])), Carve(l, i, j, n))
  {
    var k := FreshFrom(b.counter, b.used);
    FreshFromIsLeast(b.counter, b.used);
    n := Name(k);
    NameIsName(k);
    if n in l.issued {
      var k': nat :| k' < b.counter && n == Name(k');
      NameInjective(k, k');
    }
    var l' := Carve(l, i, j, n);
    forall m | m in l'.issued ensures exists q: nat :: q < k + 1 && m == Name(q) {
      if m == n {
        assert k < k + 1 && m == Name(k);
      } else {
        var q: nat :| q < b.counter && m == Name(q);
        assert q < k + 1;
      }
    }
  }

  lemma RenderExtend(toks: seq<Token>, done: nat, i: nat)
    requires done <= i <= |toks|
    ensures Render(toks[..i]) == Render(toks[..done]) + Render(toks[done..i])
  {
    assert toks[..i] == toks[..done] + toks[done..i];
    RenderConcat(toks[..done], toks[done..i]);
  }

  /** The token range that a span covers. */
  lemma SpanRange(toks: seq<Token>, done: nat, text: string, span: Span, pos: nat) returns (i: nat, j: nat)
    requires AllNames(toks) && done <= |toks|
    requires pos <= span.start < span.end <= |text| && SafeCut(text, span.start) && SafeCut(text, span.end)
    requires Render(toks[done..]) == text[pos..]
    ensures done <= i <= j <= |toks|
    ensures Render(toks[..i]) == Render(toks[..done]) + text[pos..span.start]
    ensures Render(toks[i..j]) == text[span.start..span.end] && Render(toks[j..]) == text[span.end..]
  {
    i := CutText(toks, done, text, pos, span.start);
    j := CutText(toks, i, text, span.start, span.end);
    RenderExtend(toks, done, i);
  }

  lemma RenderCarved(toks: seq<Token>, i: nat, j: nat, n: string)
    requires i <= j <= |toks|
    ensures var after := toks[..i] + [Tag(n)] + toks[j..];
            after[i+1..] == toks[j..] && Render(after[..i+1]) == Render(toks[..i]) + n
  {
    var after := toks[..i] + [Tag(n)] + toks[j..];
    assert after[..i+1] == toks[..i] + [Tag(n)];
    RenderConcat(toks[..i], [Tag(n)]);
    assert Render([Tag(n)]) == n;
  }

  ghost predicate Kept(source: string, l: Ledger, b: Book) {
    Sound(source, l) && Placed(l) && Fits(b, l)
  }

  lemma CarveKept(source: string, l: Ledger, b: Book, i: nat, j: nat) returns (l': Ledger)
    requires Kept(source, l, b) && i <= j <= |l.toks|
    ensures Kept(source, l', Issue(b, Render(l.toks[i..j])))
    ensures l'.toks == l.toks[..i] + [Tag(Name(FreshFrom(b.counter, b.used)))] + l.toks[j..]
  {
    var n := IssueFits(l, b, i, j);
    CarveSound(source, l, i, j, n);
    CarvePlaced(l, i, j, n);
    l' := Carve(l, i, j, n);
  }

  /** One span: its tokens become a tag. */
  lemma SpanKeepsLedger(source: string, l: Ledger, done: nat, text: string, span: Span, pos: nat, b: Book)
    returns (l': Ledger, done': nat)
    requires Kept(source, l, b) && done <= |l.toks|
    requires pos <= span.start < span.end <= |text| && SafeCut(text, span.start) && SafeCut(text, span.end)
    requires Render(l.toks[done..]) == text[pos..]
    ensures Kept(source, l', Issue(b, text[span.start..span.end]))
    ensures done' <= |l'.toks| && Render(l'.toks[done'..]) == text[span.end..]
    ensures Render(l'.toks[..done'])
         == Render(l.toks[..done]) + text[pos..span.start] + Name(FreshFrom(b.counter, b.used))
  {
    var i, j := SpanRange(l.toks, done, text, span, pos);
    RenderCarved(l.toks, i, j, Name(FreshFrom(b.counter, b.used)));
    l' := CarveKept(source, l, b, i, j);
    done' := i + 1;
  }

  ghost predicate CutSpans(text: string, spans: seq<Span>) {
    forall k :: 0 <= k < |spans| ==>
      spans[k].start < spans[k].end <= |text| && SafeCut(text, spans[k].start) && SafeCut(text, spans[k].end)
  }

  lemma SpliceDone(l: Ledger, done: nat, text: string, pos: nat)
    requires done <= |l.toks| && pos <= |text| && Render(l.toks[done..]) == text[pos..]
    ensures Render(l.toks) == Render(l.toks[..done]) + text[pos..]
  {
    assert l.toks == l.toks[..done] + l.toks[done..];
    RenderConcat(l.toks[..done], l.toks[done..]);
  }

  lemma {:induction false} SpliceKeepsLedger(
    source: string, l: Ledger, done: nat, text: string, spans: seq<Span>, pos: nat, b: Book) returns (l': Ledger)
    requires Kept(source, l, b) && done <= |l.toks| && pos <= |text| && CutSpans(text, spans)
    requires Render(l.toks[done..]) == text[pos..]
    ensures Kept(source, l', Splice(text, spans, pos, b).1)
    ensures Render(l'.toks) == Render(l.toks[..done]) + Splice(text, spans, pos, b).0
    decreases |spans|
  {
    if spans == [] {
      l' := l;
      SpliceDone(l, done, text, pos);
    } else if spans[0].full < pos || spans[0].start < pos {
      l' := SpliceKeepsLedger(source, l, done, text, spans[1..], pos, b);
    } else {
      var l1, done1 := SpanKeepsLedger(source, l, done, text, spans[0], pos, b);
      var b1 := Issue(b, text[spans[0].start..spans[0].end]);
      l' := SpliceKeepsLedger(source, l1, done1, text, spans[1..], spans[0].end, b1);
      var tail := Splice(text, spans[1..], spans[0].end, b1).0;
      AppendThree(Render(l.toks[..done]), text[pos..spans[0].start], Name(FreshFrom(b.counter, b.used)), tail);
    }
  }

  lemma PassKeepsLedger(source: string, l: Ledger, p: Pattern, b: Book) returns (l': Ledger)
    requires Kept(source, l, b)
    ensures var (out, b') := MaskPass(p, Render(l.toks), b);
            Kept(source, l', b') && Render(l'.toks) == out
  {
    var text := Render(l.toks);
    assert l.toks[0..] == l.toks && text[0..] == text;
    l' := SpliceKeepsLedger(source, l, 0, text, FindAll(p, text, 0), 0, b);
  }

  lemma MaskLedger(source: string) returns (l: Ledger)
    ensures var (masked, b) := Mask(source, NewBook(source));
            Kept(source, l, b) && Render(l.toks) == masked
  {
    RenderChars(source);
    l := Ledger(Chars(source), [], map[], map[]);
    NoTagsExpand(l.toks, l.plain);
    var b := NewBook(source);
    var l1 := PassKeepsLedger(source, l, InlineCode, b);
    var (t1, b1) := MaskPass(InlineCode, source, b);
    var l2 := PassKeepsLedger(source, l1, AngleLink, b1);
    var (t2, b2) := MaskPass(AngleLink, t1, b1);
    l := PassKeepsLedger(source, l2, LinkUrl, b2);
  }

  /** For every source without the stem: the three passes can be undone exactly when the check for missing
      placeholders accepts the masked text. */
  lemma MaskRoundTripExactlyWhen(source: string)
    requires !Contains(source, STEM)
    ensures var (masked, b) := Mask(source, NewBook(source));
            "" !in b.placeholders &&
            ((forall p :: p in b.placeholders ==> Contains(masked, p))
              <==> Unmask(masked, b.placeholders, b.mapping) == source)
  {
    var l := MaskLedger(source);
    var (masked, b) := Mask(source, NewBook(source));
    LedgerRoundTrip(source, l, b.mapping);
  }

  // ------------------------------------------------------------------ one masked translation

  datatype TranslateError = PromptFailed | EmptyTranslation | PlaceholderMissing(placeholder: string)

  /** `reply` is the model: it answers a prompt or fails. */
  method TranslateMasked(core: string, reply: string -> Option<string>) returns (r: Result<string, TranslateError>)
    ensures var (masked, b) := Mask(core, NewBook(core));
            && "" !in b.placeholders
            && match reply(masked)
               case None => r == Failure(PromptFailed)
               case Some(text) =>
                 if Trim(text) == "" then r == Failure(EmptyTranslation)
                 else if forall p :: p in b.placeholders ==> Contains(Trim(text), p) then
                   r == Success(Unmask(Trim(text), b.placeholders, b.mapping))
                 else r.Failure? && r.error.PlaceholderMissing? && r.error.placeholder in b.placeholders
                      && !Contains(Trim(text), r.error.placeholder)
  {
    ghost var l := MaskLedger(core);
    var state := new PlaceholderState(core);
    var log := new MaskLog();
    var masked := MaskMarkdown(core, state, log);
    var answer := reply(masked);
    if answer.None? {
      return Failure(PromptFailed);
    }
    var translated := Trim(answer.value);
    if translated == "" {
      return Failure(EmptyTranslation);
    }
    var missing := ValidatePlaceholders(translated, log.placeholders);
    if missing.Some? {
      return Failure(PlaceholderMissing(missing.value));
    }
    var out := UnmaskMarkdown(translated, log.placeholders, log.mapping);
    r := Success(out);
  }

  lemma NameEnds(n: string)
    requires IsName(n)
    ensures n[0] == '_' && n[|n|-1] == '_'
  {
    assert n[..10] == OPEN;
    assert n[|n|-1] == n[|n|-2..][1];
  }

  lemma FirstOfTokens(toks: seq<Token>, plain: map<string, string>)
    requires AllNames(toks) && toks != [] && Trimmed(Expand(toks, plain))
    ensures Render(toks) != "" && !IsSpace(Render(toks)[0])
  {
    assert toks[0] in toks;
    if toks[0].Tag? {
      NameEnds(toks[0].name);
    } else {
      assert Expand(toks, plain)[0] == toks[0].c;
    }
  }

  lemma LastParts(init: seq<Token>, last: Token, plain: map<string, string>)
    ensures Render(init + [last]) == Render(init) + Spelled(last)
    ensures Expand(init + [last], plain) == Expand(init, plain) + Meaning(last, plain)
  {
    assert [last][1..] == [];
    RenderConcat(init, [last]);
    ExpandConcat(init, [last], plain);
  }

  lemma LastOfTokens(toks: seq<Token>, plain: map<string, string>)
    requires toks != [] && Trimmed(Expand(toks, plain))
    requires toks[|toks|-1].Tag? ==> IsName(toks[|toks|-1].name)
    ensures Render(toks) != "" && !IsSpace(Render(toks)[|Render(toks)|-1])
  {
    var init, last := toks[..|toks|-1], toks[|toks|-1];
    assert toks == init + [last];
    LastParts(init, last, plain);
    if last.Tag? {
      NameEnds(last.name);
    }
  }

  lemma MaskedIsTrimmed(core: string)
    requires Trimmed(core) && core != ""
    ensures Trimmed(Mask(core, NewBook(core)).0) && Mask(core, NewBook(core)).0 != ""
  {
    var l := MaskLedger(core);
    assert l.toks != [] && l.toks[|l.toks|-1] in l.toks;
    FirstOfTokens(l.toks, l.plain);
    LastOfTokens(l.toks, l.plain);
  }

  /** A model that gives every prompt back unchanged returns the text unchanged, or the check for missing
      placeholders stops it: exactly when a masked span lies inside another one. */
  lemma EchoExactlyWhen(core: string)
    requires !Contains(core, STEM) && Trimmed(core) && core != ""
    ensures var (masked, b) := Mask(core, NewBook(core));
            && "" !in b.placeholders && Trim(masked) == masked != ""
            && ((forall p :: p in b.placeholders ==> Contains(masked, p))
                <==> Unmask(masked, b.placeholders, b.mapping) == core)
  {
    MaskRoundTripExactlyWhen(core);
    MaskedIsTrimmed(core);
    TrimIsTrimmed(Mask(core, NewBook(core)).0);
  }
}
