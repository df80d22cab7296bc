/** What becomes of a reply to a masked prompt: which occurrences of a placeholder unmasking replaces. */
module Replies {
  import opened Wrappers
  import opened Text
  import opened Tokens
  import opened Placeholders
  import opened Masking
  import opened Patterns

  // ------------------------------------------------------------------ where a placeholder is replaced

  /** Where the replacement of `pat` in s takes place, counted from `at`. */
  function Hits(s: string, pat: string, at: nat): seq<nat>
    requires pat != ""
    decreases |s|
  {
    if s == "" then []
    else if pat <= s then [at] + Hits(s[|pat|..], pat, at + |pat|)
    else Hits(s[1..], pat, at + 1)
  }

  /** Where the tags n stand in the text of the tokens. */
  function Places(toks: seq<Token>, n: string, at: nat): seq<nat>
    decreases |toks|
  {
    if toks == [] then []
    else if toks[0] == Tag(n) then [at] + Places(toks[1..], n, at + |n|)
    else Places(toks[1..], n, at + |Spelled(toks[0])|)
  }

  lemma {:induction false} FirstPlace(toks: seq<Token>, n: string, at: nat)
    ensures Places(toks, n, at) == [] || at <= Places(toks, n, at)[0]
    decreases |toks|
  {
    if toks != [] {
      FirstPlace(toks[1..], n, at + |Spelled(toks[0])|);
    }
  }

  lemma {:induction false} FirstHit(s: string, pat: string, at: nat, o: nat)
    requires pat != "" && o < |s| && pat <= s[o..]
    ensures Hits(s, pat, at) != [] && Hits(s, pat, at)[0] <= at + o
    decreases |s|
  {
    assert s[0..] == s;
    if !(pat <= s) {
      assert s[1..][o-1..] == s[o..];
      FirstHit(s[1..], pat, at + 1, o - 1);
    }
  }

  lemma {:induction false} HitsSkip(u: string, v: string, pat: string, at: nat)
    requires pat != "" && forall o :: 0 <= o < |u| ==> !(pat <= (u + v)[o..])
    ensures Hits(u + v, pat, at) == Hits(v, pat, at + |u|)
    decreases |u|
  {
    if u == "" {
      assert u + v == v;
    } else {
      var all, rest := u + v, u[1..] + v;
      assert all[0..] == all && all[1..] == rest;
      forall o | 0 <= o < |u[1..]| ensures !(pat <= rest[o..]) {
        assert rest[o..] == all[o+1..];
      }
      HitsSkip(u[1..], v, pat, at + 1);
    }
  }

  lemma HitsAtTag(n: string, rest: string, at: nat)
    requires n != ""
    ensures Hits(n + rest, n, at) == [at] + Hits(rest, n, at + |n|)
  {
    assert (n + rest)[|n|..] == rest;
  }

  lemma HitsElsewhere(toks: seq<Token>, n: string, at: nat, o: nat)
    requires n != "" && toks != [] && toks[0] != Tag(n)
    requires o < |Spelled(toks[0])| && o < |Render(toks)| && n <= Render(toks)[o..]
    ensures Hits(Render(toks), n, at) != Places(toks, n, at)
  {
    FirstHit(Render(toks), n, at, o);
    FirstPlace(toks[1..], n, at + |Spelled(toks[0])|);
  }

  lemma SameTail<T>(x: T, a: seq<T>, b: seq<T>)
    ensures [x] + a == [x] + b <==> a == b
  {
    assert ([x] + a)[1..] == a && ([x] + b)[1..] == b;
  }

  /** Whether the replacement takes place exactly at the tags. */
  ghost predicate HitsTags(toks: seq<Token>, n: string, at: nat)
    requires n != ""
  {
    Hits(Render(toks), n, at) == Places(toks, n, at)
  }

  lemma TagFirst(toks: seq<Token>, n: string, at: nat)
    requires n != "" && toks != [] && toks[0] == Tag(n)
    ensures HitsTags(toks, n, at) <==> HitsTags(toks[1..], n, at + |n|)
  {
    HitsAtTag(n, Render(toks[1..]), at);
    SameTail(at, Hits(Render(toks[1..]), n, at + |n|), Places(toks[1..], n, at + |n|));
  }

  lemma HitsPast(toks: seq<Token>, n: string, at: nat)
    requires n != "" && toks != [] && !StartsIn(toks, n)
    ensures Hits(Render(toks), n, at) == Hits(Render(toks[1..]), n, at + |Spelled(toks[0])|)
  {
    StartsNowhere(toks, n);
    HitsSkip(Spelled(toks[0]), Render(toks[1..]), n, at);
  }

  lemma OtherFirst(toks: seq<Token>, n: string, at: nat)
    requires n != "" && toks != [] && toks[0] != Tag(n) && !StartsIn(toks, n)
    ensures HitsTags(toks, n, at) <==> HitsTags(toks[1..], n, at + |Spelled(toks[0])|)
  {
    HitsPast(toks, n, at);
  }

  /** The replacement takes place exactly at the tags when the placeholder starts nowhere else. */
  lemma {:induction false} HitsAreTagsExactlyWhen(toks: seq<Token>, n: string, at: nat)
    requires n != ""
    ensures Hits(Render(toks), n, at) == Places(toks, n, at) <==> OnlyInTags(toks, n)
    decreases |toks|
  {
    if toks != [] {
      HitsAreTagsExactlyWhen(toks[1..], n, at + |Spelled(toks[0])|);
      if toks[0] == Tag(n) {
        TagFirst(toks, n, at);
      } else if o: nat :| o < |Spelled(toks[0])| && n <= Render(toks)[o..] {
        HitsElsewhere(toks, n, at, o);
      } else {
        OtherFirst(toks, n, at);
      }
    }
  }

  // ------------------------------------------------------------------ unmasking a reply

  /** Placeholder by placeholder, what is replaced are the tags, and nothing else. */
  ghost predicate ReplacesTags(text: string, toks: seq<Token>, placeholders: seq<string>, mapping: map<string, string>)
    requires "" !in placeholders
    decreases |placeholders|
  {
    placeholders != [] ==>
      var n := placeholders[0];
      var original := Original(mapping, n);
      && Hits(text, n, 0) == Places(toks, n, 0)
      && ReplacesTags(ReplaceAll(text, n, original), Subst(toks, n, Chars(original)), placeholders[1..], mapping)
  }

  /** With the placeholders before it filled in, each placeholder starts nowhere but in its tags. */
  ghost predicate Undisturbed(toks: seq<Token>, placeholders: seq<string>, mapping: map<string, string>)
    decreases |placeholders|
  {
    placeholders != [] ==>
      var n := placeholders[0];
      OnlyInTags(toks, n) && Undisturbed(Subst(toks, n, Chars(Original(mapping, n))), placeholders[1..], mapping)
  }

  /** Unmasking replaces the placeholders of a reply and nothing else, exactly when none of them starts anywhere else
      at the time it is replaced. */
  lemma {:induction false} ReplacesTagsExactlyWhen(
    reply: seq<Token>, placeholders: seq<string>, mapping: map<string, string>)
    requires "" !in placeholders
    ensures ReplacesTags(Render(reply), reply, placeholders, mapping) <==> Undisturbed(reply, placeholders, mapping)
    decreases |placeholders|
  {
    if placeholders != [] {
      var n := placeholders[0];
      var original := Original(mapping, n);
      assert n in placeholders;
      HitsAreTagsExactlyWhen(reply, n, 0);
      if OnlyInTags(reply, n) {
        RenderChars(original);
        ReplaceTags(reply, n, Chars(original));
        ReplacesTagsExactlyWhen(Subst(reply, n, Chars(original)), placeholders[1..], mapping);
      }
    }
  }

  /** Then every placeholder of the reply is filled in. */
  lemma {:induction false} UndisturbedIsFilledIn(
    reply: seq<Token>, placeholders: seq<string>, mapping: map<string, string>)
    requires "" !in placeholders && Undisturbed(reply, placeholders, mapping)
    requires forall p :: p in placeholders ==> p in mapping
    requires forall t :: t in reply && t.Tag? ==> t.name in placeholders
    ensures Unmask(Render(reply), placeholders, mapping) == Expand(reply, mapping)
    decreases |placeholders|
  {
    if placeholders == [] {
      NoTagsExpand(reply, mapping);
    } else {
      var n := placeholders[0];
      var filled := Chars(mapping[n]);
      assert n in placeholders;
      RenderChars(mapping[n]);
      NoTagsExpand(filled, mapping);
      ReplaceTags(reply, n, filled);
      ExpandSubst(reply, n, filled, mapping);
      SubstTags(reply, n, filled);
      UndisturbedIsFilledIn(Subst(reply, n, filled), placeholders[1..], mapping);
    }
  }

  /** For every source, and every reply of plain characters and whole placeholders, in any order and number: unmasking
      replaces the placeholders and nothing else exactly when none starts anywhere else at the time it is replaced;
      and then each is filled in. */
  lemma MaskedReplyExactlyWhen(source: string, reply: seq<Token>)
    requires forall t :: t in reply && t.Tag? ==> t.name in Mask(source, NewBook(source)).1.placeholders
    ensures var (masked, b) := Mask(source, NewBook(source));
            && "" !in b.placeholders
            && (ReplacesTags(Render(reply), reply, b.placeholders, b.mapping)
                <==> Undisturbed(reply, b.placeholders, b.mapping))
            && (Undisturbed(reply, b.placeholders, b.mapping) ==>
                  Unmask(Render(reply), b.placeholders, b.mapping) == Expand(reply, b.mapping))
  {
    var l := MaskLedger(source);
    var (masked, b) := Mask(source, NewBook(source));
    ReplacesTagsExactlyWhen(reply, b.placeholders, b.mapping);
    if Undisturbed(reply, b.placeholders, b.mapping) {
      UndisturbedIsFilledIn(reply, b.placeholders, b.mapping);
    }
  }

  /** It is enough that no span of the source is nested and the filled-in reply does not spell the stem. Then the check
      also accepts the reply exactly when every placeholder is present. */
  lemma ReplyIsFilledIn(source: string, reply: seq<Token>)
    requires !Contains(source, STEM)
    requires var (masked, b) := Mask(source, NewBook(source));
             && (forall p :: p in b.placeholders ==> Contains(masked, p))
             && (forall t :: t in reply && t.Tag? ==> t.name in b.placeholders)
             && !Contains(Expand(reply, b.mapping), STEM)
    ensures var (masked, b) := Mask(source, NewBook(source));
            && "" !in b.placeholders
            && Unmask(Render(reply), b.placeholders, b.mapping) == Expand(reply, b.mapping)
            && ((forall p :: p in b.placeholders ==> Contains(Render(reply), p))
                <==> forall p :: p in b.placeholders ==> Tag(p) in reply)
  {
    var l := MaskLedger(source);
    var (masked, b) := Mask(source, NewBook(source));
    CleanIfStemFree(l.toks, l.plain);
    forall n | n in l.issued ensures Tag(n) in l.toks {
      ContainsIsTag(l.toks, n);
    }
    ContentsPlain(l);
    forall n | n in l.issued ensures l.plain[n] == b.mapping[n] {
      NoTagsExpand(l.content[n], l.plain);
    }
    SameExpansion(reply, l.plain, b.mapping);
    UnmaskIsUnfold(reply, l.issued, l.content, l.plain, b.mapping);
    AllTagsGo(reply, l.issued, l.content);
    NoTagsExpand(Unfold(reply, l.issued, l.content), l.plain);
    CleanIfStemFree(reply, b.mapping);
    forall p | p in b.placeholders ensures Contains(Render(reply), p) <==> Tag(p) in reply {
      ContainsIsTag(reply, p);
    }
  }

  lemma {:induction false} SameExpansion(toks: seq<Token>, p: map<string, string>, q: map<string, string>)
    requires forall t :: t in toks && t.Tag? ==> t.name in p && t.name in q && p[t.name] == q[t.name]
    ensures Expand(toks, p) == Expand(toks, q)
  {
    if toks != [] {
      assert toks[0] in toks;
      SameExpansion(toks[1..], p, q);
    }
  }

  // ------------------------------------------------------------------ replies that go wrong

  /** A reply that is disturbed: let the name of a later placeholder p1 be split as x + y, with x shorter
      than the stem, and let y be the link target that p0 stands for. After "x" then p0 then p1 comes back
      with p0 filled in, the name p1 stands there twice, and both are replaced. */
  lemma FilledInReplyMayReopen(p0: string, p1: string, x: string, y: string, w: string)
    requires IsName(p0) && IsName(p1) && p0 != p1 && p1 == x + y && |x| < |STEM|
    ensures var reply := Chars(x) + [Tag(p0), Tag(p1)];
            var mapping := map[p0 := y, p1 := w];
            Unmask(Render(reply), [p0, p1], mapping) == w + w && Expand(reply, mapping) == p1 + w
  {
    var reply := Chars(x) + [Tag(p0), Tag(p1)];
    var mapping := map[p0 := y, p1 := w];
    FirstReplacement(p0, p1, x, y);
    SecondReplacement(p1, w);
    assert [p0, p1][1..] == [p1] && [p1][1..] == [];
    assert Unmask(p1 + p1, [p1], mapping) == w + w;
    PairExpands(p0, p1, x, mapping);
    Assoc(x, y, w);
  }

  lemma PairExpands(p0: string, p1: string, x: string, mapping: map<string, string>)
    requires p0 in mapping && p1 in mapping
    ensures Expand(Chars(x) + [Tag(p0), Tag(p1)], mapping) == x + (mapping[p0] + mapping[p1])
  {
    var tail := [Tag(p0), Tag(p1)];
    RenderChars(x);
    NoTagsExpand(Chars(x), mapping);
    ExpandConcat(Chars(x), tail, mapping);
    assert tail[1..] == [Tag(p1)] && [Tag(p1)][1..] == [];
    assert Expand([Tag(p1)], mapping) == mapping[p1];
    assert Expand(tail, mapping) == mapping[p0] + mapping[p1];
  }

  lemma ShortHeadIsClean(x: string, tail: seq<Token>)
    requires |x| < |STEM| && |tail| <= |STEM| && forall t :: t in tail ==> t.Tag?
    ensures Clean(Chars(x) + tail)
  {
    var toks := Chars(x) + tail;
    forall i: nat ensures !StemAt(toks, i) {
      if i + 8 <= |toks| {
        assert toks[i..i+8][7] == toks[i+7] && toks[i+7] in tail;
        assert Chars(STEM)[7].Ch?;
      }
    }
  }

  lemma SubstInReply(p0: string, p1: string, x: string, y: string)
    requires p0 != p1
    ensures Subst(Chars(x) + [Tag(p0), Tag(p1)], p0, Chars(y)) == Chars(x) + (Chars(y) + [Tag(p1)])
  {
    var tail := [Tag(p0), Tag(p1)];
    SubstConcat(Chars(x), tail, p0, Chars(y));
    SubstNothing(Chars(x), p0, Chars(y));
    assert tail[1..] == [Tag(p1)];
    SubstNothing([Tag(p1)], p0, Chars(y));
  }

  lemma FirstReplacement(p0: string, p1: string, x: string, y: string)
    requires IsName(p0) && IsName(p1) && p0 != p1 && p1 == x + y && |x| < |STEM|
    ensures ReplaceAll(Render(Chars(x) + [Tag(p0), Tag(p1)]), p0, y) == p1 + p1
  {
    ShortHeadIsClean(x, [Tag(p0), Tag(p1)]);
    RenderChars(y);
    ReplaceIsSubst(Chars(x) + [Tag(p0), Tag(p1)], p0, Chars(y));
    SubstInReply(p0, p1, x, y);
    RenderConcat(Chars(x), Chars(y) + [Tag(p1)]);
    RenderConcat(Chars(y), [Tag(p1)]);
    RenderChars(x);
    RenderOne(p1);
    Assoc(x, y, p1);
  }

  lemma SecondReplacement(p1: string, w: string)
    requires IsName(p1)
    ensures ReplaceAll(p1 + p1, p1, w) == w + w
  {
    var both := [Tag(p1), Tag(p1)];
    assert both == [Tag(p1)] + [Tag(p1)] && both[1..] == [Tag(p1)] && [Tag(p1)][1..] == [];
    RenderOne(p1);
    RenderConcat([Tag(p1)], [Tag(p1)]);
    ShortHeadIsClean("", both);
    assert Chars("") + both == both;
    RenderChars(w);
    ReplaceIsSubst(both, p1, Chars(w));
    assert Subst([Tag(p1)], p1, Chars(w)) == Chars(w);
    assert Subst(both, p1, Chars(w)) == Chars(w) + Chars(w);
    RenderConcat(Chars(w), Chars(w));
  }

  // ------------------------------------------------------------------ a source with two links

  predicate PlainTarget(y: string) {
    y != "" && '`' !in y && '<' !in y && ')' !in y
  }

  function TwoLinks(y: string, w: string): string {
    "[a](" + y + ") [b](" + w + ")"
  }

  lemma {:induction false} NothingFound(p: Pattern, s: string, i: nat)
    requires forall q :: i <= q < |s| ==> MatchAt(p, s, q) == None
    ensures FindAll(p, s, i) == []
    decreases |s| - i
  {
    if i < |s| {
      NothingFound(p, s, i + 1);
    }
  }

  /** The characters of the text, by position. */
  ghost predicate Layout(s: string, y: string, w: string) {
    var k := 6 + |y|;
    && |s| == k + 5 + |w|
    && s[0] == '[' && s[1] == 'a' && s[2] == ']' && s[3] == '(' && s[4+|y|] == ')' && s[5+|y|] == ' '
    && s[k] == '[' && s[k+1] == 'b' && s[k+2] == ']' && s[k+3] == '(' && s[k+4+|w|] == ')'
    && (forall q :: 0 <= q < |s| ==> s[q] != '`' && s[q] != '<')
    && (forall q :: 4 <= q < 4 + |y| || k + 4 <= q < k + 4 + |w| ==> s[q] != ')')
  }

  /** The pieces of the text. */
  ghost predicate Pieces(s: string, y: string, w: string) {
    var k := 6 + |y|;
    && |s| == k + 5 + |w|
    && s[4..4+|y|] == y && s[k+4..k+4+|w|] == w
    && s[..4] == "[a](" && s[4+|y|..k+4] == ") [b](" && s[k+4+|w|..] == ")"
  }

  lemma TwoLinksPieces(y: string, w: string)
    ensures Pieces(TwoLinks(y, w), y, w)
  {
  }

  lemma PiecesLayout(s: string, y: string, w: string)
    requires Pieces(s, y, w) && PlainTarget(y) && PlainTarget(w)
    ensures Layout(s, y, w)
  {
    var k := 6 + |y|;
    var head, gap := "[a](", ") [b](";
    forall q | 0 <= q < |s|
      ensures s[q] != '`' && s[q] != '<' && (4 <= q < 4 + |y| || k + 4 <= q < k + 4 + |w| ==> s[q] != ')')
    {
      if q < 4 {
        assert s[..4][q] == s[q];
      } else if q < 4 + |y| {
        assert s[4..4+|y|][q-4] == s[q] && s[q] in y;
      } else if q < k + 4 {
        assert s[4+|y|..k+4][q-4-|y|] == s[q];
      } else if q < k + 4 + |w| {
        assert s[k+4..k+4+|w|][q-k-4] == s[q] && s[q] in w;
      }
    }
    assert forall i :: 0 <= i < 4 ==> s[i] == s[..4][i] == head[i];
    assert forall i :: 0 <= i < 6 ==> s[4+|y|+i] == s[4+|y|..k+4][i] == gap[i];
    assert s[k+4+|w|] == s[k+4+|w|..][0];
  }

  function LinkSpans(m: nat, n: nat): seq<Span> {
    [Span(0, 4, 4 + m, 5 + m), Span(6 + m, 10 + m, 10 + m + n, 11 + m + n)]
  }

  lemma FirstLink(s: string, y: string, w: string)
    requires Layout(s, y, w) && y != ""
    ensures MatchAt(LinkUrl, s, 0) == Some(LinkSpans(|y|, |w|)[0])
  {
    FindCharIs(s, ']', 1, 2);
    FindCharIs(s, ')', 4, 4 + |y|);
  }

  lemma SecondLink(s: string, y: string, w: string)
    requires Layout(s, y, w) && w != ""
    ensures MatchAt(LinkUrl, s, 6 + |y|) == Some(LinkSpans(|y|, |w|)[1]) && MatchAt(LinkUrl, s, 5 + |y|) == None
  {
    var k := 6 + |y|;
    FindCharIs(s, ']', k + 1, k + 2);
    FindCharIs(s, ')', k + 4, k + 4 + |w|);
  }

  lemma FoundInTurn(s: string, first: Span, second: Span)
    requires 0 < first.stop < second.full < |s| && second.full == first.stop + 1 && second.stop == |s|
    requires MatchAt(LinkUrl, s, 0) == Some(first) && MatchAt(LinkUrl, s, first.stop) == None
    requires MatchAt(LinkUrl, s, second.full) == Some(second)
    ensures FindAll(LinkUrl, s, 0) == [first, second]
  {
    FindAllHere(LinkUrl, s, 0);
    FindAllHere(LinkUrl, s, first.stop);
    FindAllHere(LinkUrl, s, second.full);
    assert FindAll(LinkUrl, s, |s|) == [];
  }

  lemma LinksFound(s: string, y: string, w: string)
    requires Layout(s, y, w) && y != "" && w != ""
    ensures FindAll(LinkUrl, s, 0) == LinkSpans(|y|, |w|)
  {
    FirstLink(s, y, w);
    SecondLink(s, y, w);
    FoundInTurn(s, LinkSpans(|y|, |w|)[0], LinkSpans(|y|, |w|)[1]);
  }

  lemma NoCodeNoAngle(s: string)
    requires forall q :: 0 <= q < |s| ==> s[q] != '`' && s[q] != '<'
    ensures FindAll(InlineCode, s, 0) == [] && FindAll(AngleLink, s, 0) == []
  {
    forall q | 0 <= q < |s| ensures MatchAt(InlineCode, s, q) == None && MatchAt(AngleLink, s, q) == None {
      assert s[q..][0] == s[q];
    }
    NothingFound(InlineCode, s, 0);
    NothingFound(AngleLink, s, 0);
  }

  /** The first two names issued when none is used. */
  lemma FirstTwoIssued(text: string, y: string, w: string)
    requires FindNames(text, 0) == {}
    ensures var p0, p1, b1 := Name(FIRST), Name(FIRST + 1), Issue(NewBook(text), y);
            && p0 != p1 && b1.placeholders == [p0]
            && Issue(b1, w).placeholders == [p0, p1] && Issue(b1, w).mapping == map[p0 := y, p1 := w]
  {
    if Name(FIRST) == Name(FIRST + 1) {
      NameInjective(FIRST, FIRST + 1);
    }
    assert Issue(NewBook(text), y) == Book(FIRST + 1, {Name(FIRST)}, [Name(FIRST)], map[Name(FIRST) := y]);
  }

  /** A splice of two spans. */
  lemma SpliceOfTwo(text: string, s0: Span, s1: Span, b: Book)
    requires s0.full <= s0.start <= s0.end <= s1.full <= s1.start <= s1.end <= |text|
    ensures var b1 := Issue(b, text[s0.start..s0.end]);
            var b2 := Issue(b1, text[s1.start..s1.end]);
            Splice(text, [s0, s1], 0, b)
            == (text[0..s0.start] + b1.placeholders[|b.placeholders|]
                + (text[s0.end..s1.start] + b2.placeholders[|b.placeholders|+1] + text[s1.end..]), b2)
  {
    var b1 := Issue(b, text[s0.start..s0.end]);
    var b2 := Issue(b1, text[s1.start..s1.end]);
    assert [s0, s1][1..] == [s1] && [s1][1..] == [];
    assert Splice(text, [], s1.end, b2) == (text[s1.end..], b2);
    assert Splice(text, [s1], s0.end, b1)
        == (text[s0.end..s1.start] + b2.placeholders[|b.placeholders|+1] + text[s1.end..], b2);
  }

  lemma OnlyLinksMasked(text: string, b: Book)
    requires FindAll(InlineCode, text, 0) == [] && FindAll(AngleLink, text, 0) == []
    ensures Mask(text, b) == MaskPass(LinkUrl, text, b)
  {
    assert text[0..] == text;
  }

  /** What masking a text comes to. */
  ghost predicate MasksTo(text: string, masked: string, placeholders: seq<string>, mapping: map<string, string>) {
    var (m, b) := Mask(text, NewBook(text));
    m == masked && b.placeholders == placeholders && b.mapping == mapping
  }

  lemma TwoTargetsMasked(
    text: string, s0: Span, s1: Span, y: string, w: string, head: string, gap: string, tail: string)
    requires FindAll(InlineCode, text, 0) == [] && FindAll(AngleLink, text, 0) == []
    requires FindAll(LinkUrl, text, 0) == [s0, s1] && FindNames(text, 0) == {}
    requires s0.full <= s0.start <= s0.end <= s1.full <= s1.start <= s1.end <= |text|
    requires text[s0.start..s0.end] == y && text[s1.start..s1.end] == w
    requires text[..s0.start] == head && text[s0.end..s1.start] == gap && text[s1.end..] == tail
    ensures var p0, p1 := Name(FIRST), Name(FIRST + 1);
            p0 != p1 && MasksTo(text, head + p0 + (gap + p1 + tail), [p0, p1], map[p0 := y, p1 := w])
  {
    FirstTwoIssued(text, y, w);
    OnlyLinksMasked(text, NewBook(text));
    SpliceOfTwo(text, s0, s1, NewBook(text));
    assert text[0..s0.start] == text[..s0.start];
  }

  lemma TwoLinksSpelled(a: string, b: string)
    ensures "[a](" + a + (") [b](" + b + ")") == TwoLinks(a, b)
  {
  }

  lemma PiecesMasked(text: string, y: string, w: string)
    requires Pieces(text, y, w) && FindNames(text, 0) == {}
    requires FindAll(InlineCode, text, 0) == [] && FindAll(AngleLink, text, 0) == []
    requires FindAll(LinkUrl, text, 0) == LinkSpans(|y|, |w|)
    ensures var p0, p1 := Name(FIRST), Name(FIRST + 1);
            p0 != p1 && MasksTo(text, "[a](" + p0 + (") [b](" + p1 + ")"), [p0, p1], map[p0 := y, p1 := w])
  {
    var spans := LinkSpans(|y|, |w|);
    TwoTargetsMasked(text, spans[0], spans[1], y, w, "[a](", ") [b](", ")");
  }

  /** What masking makes of the two links: their targets become the first two placeholders. */
  lemma TwoLinksMasked(y: string, w: string, text: string)
    requires PlainTarget(y) && PlainTarget(w) && text == TwoLinks(y, w) && !Contains(text, STEM)
    ensures var p0, p1 := Name(FIRST), Name(FIRST + 1);
            p0 != p1 && MasksTo(text, TwoLinks(p0, p1), [p0, p1], map[p0 := y, p1 := w])
  {
    TwoLinksPieces(y, w);
    PiecesLayout(text, y, w);
    StemFreeHasNoNames(text);
    NoCodeNoAngle(text);
    LinksFound(text, y, w);
    PiecesMasked(text, y, w);
    TwoLinksSpelled(Name(FIRST), Name(FIRST + 1));
  }

  lemma NoStemWithoutO(s: string)
    requires 'O' !in s
    ensures !Contains(s, STEM)
  {
    forall i | 0 <= i <= |s| ensures !OccursAt(s, STEM, i) {
      assert i < |s| ==> s[i..][0] == s[i];
    }
  }

  lemma SecondName()
    ensures Name(FIRST + 1) == "__OC_I1" + "8N_900001__"
  {
    assert Digits(90) == "90";
    assert Digits(900) == "900";
    assert Digits(9000) == "9000";
    assert Digits(90000) == "90000";
    assert Digits(900001) == "900001";
  }

  /** Both placeholders are in the text of a reply that holds their tags. */
  lemma TagsAreContained(reply: seq<Token>, placeholders: seq<string>)
    requires forall p :: p in placeholders ==> Tag(p) in reply
    ensures forall p :: p in placeholders ==> Contains(Render(reply), p)
  {
    forall p | p in placeholders ensures Contains(Render(reply), p) {
      TagIsContained(reply, p);
    }
  }

  function DisturbedReply(x: string): seq<Token> {
    Chars(x) + [Tag(Name(FIRST)), Tag(Name(FIRST + 1))]
  }

  /** The reply is accepted, and unmasks to `out`; filled in it is `full`. */
  ghost predicate ComesOut(
    reply: seq<Token>, placeholders: seq<string>, mapping: map<string, string>, out: string,
    full: string)
  {
    && "" !in placeholders && (forall p :: p in placeholders ==> Contains(Render(reply), p))
    && Unmask(Render(reply), placeholders, mapping) == out && Expand(reply, mapping) == full
  }

  lemma LinksReopen(x: string, y: string, w: string, mapping: map<string, string>)
    requires Name(FIRST + 1) == x + y && |x| < |STEM| && Name(FIRST) != Name(FIRST + 1)
    requires mapping == map[Name(FIRST) := y, Name(FIRST + 1) := w]
    ensures ComesOut(DisturbedReply(x), [Name(FIRST), Name(FIRST + 1)], mapping, w + w, Name(FIRST + 1) + w)
  {
    NameIsName(FIRST);
    NameIsName(FIRST + 1);
    PairReopens(Name(FIRST), Name(FIRST + 1), x, y, w, mapping);
  }

  lemma PairReopens(p0: string, p1: string, x: string, y: string, w: string, mapping: map<string, string>)
    requires IsName(p0) && IsName(p1) && p0 != p1 && p1 == x + y && |x| < |STEM|
    requires mapping == map[p0 := y, p1 := w]
    ensures ComesOut(Chars(x) + [Tag(p0), Tag(p1)], [p0, p1], mapping, w + w, p1 + w)
  {
    var reply := Chars(x) + [Tag(p0), Tag(p1)];
    FilledInReplyMayReopen(p0, p1, x, y, w);
    assert reply[|x|] == Tag(p0) && reply[|x|+1] == Tag(p1);
    TagsAreContained(reply, [p0, p1]);
  }

  lemma SourceThatReopens(y: string, w: string)
    requires y == "8N_900001__" && w == "c"
    ensures TwoLinks(y, w) == "[a](8N_900001__) [b](c)" && !Contains(TwoLinks(y, w), STEM)
    ensures PlainTarget(y) && PlainTarget(w)
  {
    NoStemWithoutO(TwoLinks(y, w));
  }

  /** A source, and a reply with every placeholder, which the check accepts and which is not filled in: the target of
      the first link and what stands before its placeholder spell the second placeholder once more. */
  lemma AcceptedReplyMayReopen(source: string)
    requires source == "[a](8N_900001__) [b](c)"
    ensures var reply := DisturbedReply("__OC_I1");
            var (masked, b) := Mask(source, NewBook(source));
            && !Contains(source, STEM) && "" !in b.placeholders
            && (forall p :: p in b.placeholders ==> Contains(Render(reply), p))
            && Unmask(Render(reply), b.placeholders, b.mapping) == "c" + "c"
            && Expand(reply, b.mapping) == Name(FIRST + 1) + "c"
  {
    SourceThatReopens("8N_900001__", "c");
    SecondName();
    TwoLinksMasked("8N_900001__", "c", source);
    LinksReopen("__OC_I1", "8N_900001__", "c", map[Name(FIRST) := "8N_900001__", Name(FIRST + 1) := "c"]);
  }

  /** A reply with a placeholder less its last underscores, followed by that placeholder, of a link to "__": what is
      replaced is not the tag, and yet the text is the filled-in reply. */
  lemma ChanceReply(n: string, x: string, mapping: map<string, string>)
    requires IsName(n) && n == x + "__" && mapping == map[n := "__"]
    ensures Unmask(Render(Chars(x) + [Tag(n)]), [n], mapping) == Expand(Chars(x) + [Tag(n)], mapping)
    ensures Hits(Render(Chars(x) + [Tag(n)]), n, 0) != Places(Chars(x) + [Tag(n)], n, 0)
  {
    ChanceText(n, x);
    ChanceReplaced(n);
    ChanceExpands(n, x, mapping);
    ChanceUnmasked(n + n[2..], n, mapping);
    assert (n + n[2..])[0..] == n + n[2..];
    FirstHit(n + n[2..], n, 0, 0);
    ChancePlaces(x, n, 0);
  }

  lemma ChanceText(n: string, x: string)
    requires IsName(n) && n == x + "__"
    ensures Render(Chars(x) + [Tag(n)]) == n + n[2..]
  {
    RenderConcat(Chars(x), [Tag(n)]);
    RenderChars(x);
    RenderOne(n);
    NameTwice(n, x);
  }

  lemma NameTwice(n: string, x: string)
    requires IsName(n) && n == x + "__"
    ensures x + n == n + n[2..]
  {
    NameOpens(n);
    Assoc(x, "__", n[2..]);
  }

  lemma NameOpens(n: string)
    requires IsName(n)
    ensures n == "__" + n[2..]
  {
    assert n[..10] == OPEN;
  }

  lemma ChanceUnmasked(text: string, n: string, mapping: map<string, string>)
    requires n != "" && mapping == map[n := "__"]
    ensures Unmask(text, [n], mapping) == ReplaceAll(text, n, "__")
  {
    assert [n][1..] == [];
  }

  lemma ChanceExpands(n: string, x: string, mapping: map<string, string>)
    requires n == x + "__" && mapping == map[n := "__"]
    ensures Expand(Chars(x) + [Tag(n)], mapping) == n
  {
    ExpandConcat(Chars(x), [Tag(n)], mapping);
    NoTagsExpand(Chars(x), mapping);
    RenderChars(x);
    assert Expand([Tag(n)], mapping) == "__" + Expand([Tag(n)][1..], mapping);
  }

  lemma ChanceReplaced(n: string)
    requires IsName(n)
    ensures ReplaceAll(n + n[2..], n, "__") == n
  {
    NameOpens(n);
    var tail := n[2..];
    assert (n + tail)[|n|..] == tail;
    assert forall o :: 0 <= o < |tail| ==> |(tail + "")[o..]| < |n|;
    ReplaceSkips(tail, "", n, "__");
    assert tail + "" == tail;
  }

  lemma {:induction false} ChancePlaces(x: string, n: string, at: nat)
    ensures Places(Chars(x) + [Tag(n)], n, at) == [at + |x|]
  {
    var toks := Chars(x) + [Tag(n)];
    if x == "" {
      assert toks == [Tag(n)] && toks[1..] == [];
    } else {
      assert toks[1..] == Chars(x[1..]) + [Tag(n)];
      ChancePlaces(x[1..], n, at + 1);
    }
  }

  // ------------------------------------------------------------------ a source with one link

  lemma OneTargetMasked(text: string, span: Span, y: string)
    requires FindAll(InlineCode, text, 0) == [] && FindAll(AngleLink, text, 0) == []
    requires FindAll(LinkUrl, text, 0) == [span] && FindNames(text, 0) == {}
    requires span.full <= span.start <= span.end <= |text| && text[span.start..span.end] == y
    ensures MasksTo(text, text[..span.start] + Name(FIRST) + text[span.end..], [Name(FIRST)], map[Name(FIRST) := y])
  {
    OnlyLinksMasked(text, NewBook(text));
    FirstTwoIssued(text, y, "");
    assert [span][1..] == [];
    assert Splice(text, [], span.end, Issue(NewBook(text), y)) == (text[span.end..], Issue(NewBook(text), y));
    assert text[0..span.start] == text[..span.start];
  }

  lemma ChanceSource(text: string)
    requires text == "[a](__)"
    ensures FindAll(InlineCode, text, 0) == [] && FindAll(AngleLink, text, 0) == []
    ensures FindAll(LinkUrl, text, 0) == [Span(0, 4, 6, 7)] && FindNames(text, 0) == {}
    ensures text[4..6] == "__" && !Contains(text, STEM)
  {
    NoStemWithoutO(text);
    StemFreeHasNoNames(text);
    NoCodeNoAngle(text);
    FindCharIs(text, ']', 1, 2);
    FindCharIs(text, ')', 4, 6);
    FindAllHere(LinkUrl, text, 0);
    assert FindAll(LinkUrl, text, 7) == [];
  }

  /** The filled-in text may come out by chance. Take a reply of the placeholder that masking makes of the link to
      "__", less its last underscores, followed by the placeholder. It is accepted, what is replaced in it is not the
      tag, and yet it unmasks to the filled-in reply. */
  lemma RightByChance(source: string, x: string)
    requires source == "[a](__)" && Name(FIRST) == x + "__"
    ensures var reply := Chars(x) + [Tag(Name(FIRST))];
            var (masked, b) := Mask(source, NewBook(source));
            && !Contains(source, STEM) && "" !in b.placeholders && b.placeholders == [Name(FIRST)]
            && (forall p :: p in b.placeholders ==> Contains(Render(reply), p))
            && Unmask(Render(reply), b.placeholders, b.mapping) == Expand(reply, b.mapping)
            && !ReplacesTags(Render(reply), reply, b.placeholders, b.mapping)
  {
    ChanceSource(source);
    OneTargetMasked(source, Span(0, 4, 6, 7), "__");
    ChanceAccepted(x, map[Name(FIRST) := "__"]);
  }

  lemma ChanceAccepted(x: string, mapping: map<string, string>)
    requires Name(FIRST) == x + "__" && mapping == map[Name(FIRST) := "__"]
    ensures var reply := Chars(x) + [Tag(Name(FIRST))];
            && ComesOut(reply, [Name(FIRST)], mapping, Expand(reply, mapping), Expand(reply, mapping))
            && !ReplacesTags(Render(reply), reply, [Name(FIRST)], mapping)
  {
    var reply := Chars(x) + [Tag(Name(FIRST))];
    NameIsName(FIRST);
    ChanceReply(Name(FIRST), x, mapping);
    assert reply[|x|] == Tag(Name(FIRST));
    TagsAreContained(reply, [Name(FIRST)]);
  }
}
