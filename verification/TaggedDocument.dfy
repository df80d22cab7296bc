/** Whole-document translation: front matter values between numbered markers, front matter and body
    between tags, one prompt, and the way back. */
module TaggedDocument {
  import opened Wrappers
  import opened Text
  import opened Tokens

  // ------------------------------------------------------------------ the tagged document

  const FRONT_START := "<frontmatter>"
  const FRONT_END := "</frontmatter>"
  const BODY_START := "<body>"
  const BODY_END := "</body>"

  function FormatTaggedDocument(front: string, body: string): string {
    FRONT_START + "\n" + front + "\n" + FRONT_END + "\n" + BODY_START + "\n" + body + "\n" + BODY_END
  }

  datatype DocError =
    MissingTag(tag: string) | TextOutside | FrontMatterRemoved | MissingMarker(marker: string) | Refused

  function TrimTagNewlines(value: string): string {
    var v := if "\n" <= value then value[1..] else value;
    if v != "" && v[|v|-1] == '\n' then v[..|v|-1] else v
  }

  /** The part of the parse from the front matter's end tag on. */
  function ParseBody(prefix: string, front: string, afterFront: string): Result<(string, string), DocError> {
    IndexOfBounds(afterFront, BODY_START);
    match IndexOf(afterFront, BODY_START)
    case None => Failure(MissingTag(BODY_START))
    case Some(b) =>
      var inBody := afterFront[b + |BODY_START|..];
      IndexOfBounds(inBody, BODY_END);
      match IndexOf(inBody, BODY_END)
      case None => Failure(MissingTag(BODY_END))
      case Some(be) =>
        if Trim(prefix) != "" || Trim(inBody[be + |BODY_END|..]) != "" then Failure(TextOutside)
        else Success((TrimTagNewlines(front), TrimTagNewlines(inBody[..be])))
  }

  function ParseTaggedDocument(text: string): Result<(string, string), DocError> {
    IndexOfBounds(text, FRONT_START);
    match IndexOf(text, FRONT_START)
    case None => Failure(MissingTag(FRONT_START))
    case Some(f) =>
      var afterTag := text[f + |FRONT_START|..];
      IndexOfBounds(afterTag, FRONT_END);
      match IndexOf(afterTag, FRONT_END)
      case None => Failure(MissingTag(FRONT_END))
      case Some(fe) => ParseBody(text[..f], afterTag[..fe], afterTag[fe..])
  }

  lemma IndexOfBounds(s: string, p: string)
    ensures IndexOf(s, p).Some? ==> IndexOf(s, p).value + |p| <= |s|
  {
    IndexOfIsFirst(s, p);
  }

  lemma OccursByCharacters(s: string, p: string, i: nat)
    ensures OccursAt(s, p, i) <==> i + |p| <= |s| && forall k :: 0 <= k < |p| ==> s[i+k] == p[k]
  {
    if i + |p| <= |s| && forall k :: 0 <= k < |p| ==> s[i+k] == p[k] {
      assert s[i..][..|p|] == p;
    }
  }

  function Broken(piece: string, tag: string, rest: string): string {
    "\n" + piece + "\n" + tag + rest
  }

  lemma BrokenCharacters(piece: string, tag: string, rest: string)
    ensures var text := Broken(piece, tag, rest);
            && |text| == |piece| + 2 + |tag| + |rest| && text[0] == '\n' && text[|piece|+1] == '\n'
            && (forall k :: 0 <= k < |piece| ==> text[k+1] == piece[k])
            && (forall k :: 0 <= k < |tag| ==> text[|piece|+2+k] == tag[k])
  {
  }

  /** A tag without line breaks that occurs before its place occurs inside the piece. */
  lemma EarlierIsInPiece(piece: string, tag: string, rest: string, j: nat)
    requires tag != "" && '\n' !in tag && j < |piece| + 2
    ensures OccursAt(Broken(piece, tag, rest), tag, j) <==> 0 < j && OccursAt(piece, tag, j - 1)
  {
    var text := Broken(piece, tag, rest);
    BrokenCharacters(piece, tag, rest);
    OccursByCharacters(text, tag, j);
    if 0 < j {
      OccursByCharacters(piece, tag, j - 1);
    }
  }

  /** After a piece and a line break a tag is found at its place, or earlier, inside the piece. */
  lemma TagAfterBreak(piece: string, tag: string, rest: string)
    requires tag != "" && '\n' !in tag
    ensures IndexOf(Broken(piece, tag, rest), tag).Some?
    ensures var i := IndexOf(Broken(piece, tag, rest), tag).value;
            if Contains(piece, tag) then 0 < i <= |piece| else i == |piece| + 2
  {
    var text := Broken(piece, tag, rest);
    BrokenCharacters(piece, tag, rest);
    OccursByCharacters(text, tag, |piece| + 2);
    IndexOfIsFirst(text, tag);
    assert Contains(text, tag);
    var i := IndexOf(text, tag).value;
    assert i <= |piece| + 2;
    if i < |piece| + 2 {
      EarlierIsInPiece(piece, tag, rest, i);
      OccursByCharacters(piece, tag, i - 1);
    } else if Contains(piece, tag) {
      var j :| 0 <= j <= |piece| && OccursAt(piece, tag, j);
      EarlierIsInPiece(piece, tag, rest, j + 1);
    }
  }

  lemma TrimOneBreakEachSide(piece: string)
    ensures TrimTagNewlines("\n" + piece + "\n") == piece
  {
    var v := piece + "\n";
    assert ("\n" + piece + "\n")[1..] == v;
    assert v[..|v|-1] == piece;
  }

  function AfterFront(body: string): string {
    FRONT_END + "\n" + BODY_START + Broken(body, BODY_END, "")
  }

  lemma BodyTagAt(body: string)
    ensures IndexOf(AfterFront(body), BODY_START) == Some(|FRONT_END| + 1)
    ensures AfterFront(body)[|FRONT_END| + 1 + |BODY_START|..] == Broken(body, BODY_END, "")
  {
    var s := AfterFront(body);
    var head := FRONT_END + "\n" + BODY_START;
    assert forall k :: 0 <= k < |head| ==> s[k] == head[k];
    OccursByCharacters(s, BODY_START, |FRONT_END| + 1);
    forall j | 0 <= j < |FRONT_END| + 1 ensures !OccursAt(s, BODY_START, j) {
      OccursByCharacters(s, BODY_START, j);
      assert s[j] == head[j] && s[j+1] == head[j+1];
      assert head[j] != '<' || head[j+1] != 'b';
    }
    IndexOfAt(s, BODY_START, |FRONT_END| + 1);
  }

  lemma FormatParts(front: string, body: string)
    ensures var text := FormatTaggedDocument(front, body);
            && IndexOf(text, FRONT_START) == Some(0)
            && text[|FRONT_START|..] == Broken(front, FRONT_END, "\n" + BODY_START + Broken(body, BODY_END, ""))
  {
    var text := FormatTaggedDocument(front, body);
    assert text[..|FRONT_START|] == FRONT_START && FRONT_START <= text;
    assert text[|FRONT_START|..] == Broken(front, FRONT_END, "\n" + BODY_START + Broken(body, BODY_END, ""));
  }

  lemma BrokenAtTag(piece: string, tag: string, rest: string)
    ensures Broken(piece, tag, rest)[..|piece|+2] == "\n" + piece + "\n"
    ensures Broken(piece, tag, rest)[|piece|+2..] == tag + rest
  {
  }

  /** Printing and parsing gives front matter and body back exactly when neither contains its own end tag. */
  lemma ParseFormatExactlyWhen(front: string, body: string)
    ensures ParseTaggedDocument(FormatTaggedDocument(front, body)) == Success((front, body))
       <==> !Contains(front, FRONT_END) && !Contains(body, BODY_END)
  {
    var rest := "\n" + BODY_START + Broken(body, BODY_END, "");
    var text, afterTag := FormatTaggedDocument(front, body), Broken(front, FRONT_END, rest);
    FormatParts(front, body);
    TagAfterBreak(front, FRONT_END, rest);
    var fe := IndexOf(afterTag, FRONT_END).value;
    assert text[..0] == "";
    assert ParseTaggedDocument(text) == ParseBody("", afterTag[..fe], afterTag[fe..]);
    if Contains(front, FRONT_END) {
      FrontOfParsed("", afterTag[..fe], afterTag[fe..]);
    } else {
      BrokenAtTag(front, FRONT_END, rest);
      TrimOneBreakEachSide(front);
      AfterFrontIs(body);
      BodyParsed(afterTag[..fe], body);
    }
  }

  lemma AfterFrontIs(body: string)
    ensures FRONT_END + ("\n" + BODY_START + Broken(body, BODY_END, "")) == AfterFront(body)
  {
  }

  lemma FrontOfParsed(prefix: string, front: string, afterFront: string)
    ensures var r := ParseBody(prefix, front, afterFront); r.Success? ==> r.value.0 == TrimTagNewlines(front)
  {
  }

  lemma BodyParsed(front: string, body: string)
    ensures ParseBody("", front, AfterFront(body)) == Success((TrimTagNewlines(front), body))
       <==> !Contains(body, BODY_END)
  {
    var inBody := Broken(body, BODY_END, "");
    BodyTagAt(body);
    TagAfterBreak(body, BODY_END, "");
    var be := IndexOf(inBody, BODY_END).value;
    if Contains(body, BODY_END) {
      BrokenCharacters(body, BODY_END, "");
    } else {
      BrokenAtTag(body, BODY_END, "");
      TrimOneBreakEachSide(body);
      assert inBody[be + |BODY_END|..] == "";
    }
  }

  // ------------------------------------------------------------------ every text

  /** `tag` comes first in s after `before`, and `after` follows it. */
  ghost predicate Split(s: string, before: string, tag: string, after: string) {
    s == before + tag + after && forall j :: 0 <= j < |before| ==> !OccursAt(s, tag, j)
  }

  lemma SplitIs(s: string, before: string, tag: string, after: string)
    requires Split(s, before, tag, after)
    ensures IndexOf(s, tag) == Some(|before|)
    ensures s[..|before|] == before && s[|before|+|tag|..] == after && s[|before|..] == tag + after
  {
    assert s[|before|..] == tag + after;
    IndexOfAt(s, tag, |before|);
  }

  lemma SplitOf(s: string, tag: string)
    ensures match IndexOf(s, tag)
            case Some(i) => i + |tag| <= |s| && Split(s, s[..i], tag, s[i+|tag|..]) && s[i..] == tag + s[i+|tag|..]
            case None => !Contains(s, tag)
  {
    IndexOfIsFirst(s, tag);
    if IndexOf(s, tag).Some? {
      CutAround(s, tag, IndexOf(s, tag).value);
    }
  }

  lemma CutAround(s: string, tag: string, i: nat)
    requires OccursAt(s, tag, i)
    ensures i + |tag| <= |s| && s[i..] == tag + s[i+|tag|..] && s == s[..i] + tag + s[i+|tag|..]
  {
    var rest := s[i..];
    assert rest == tag + rest[|tag|..] && rest[|tag|..] == s[i+|tag|..];
    assert s == s[..i] + rest;
    Assoc(s[..i], tag, rest[|tag|..]);
  }

  /** A text with both sections: what comes before them, the front matter, what is between them, the body, and what
      comes after. Each tag is the first one after the tag before it. */
  datatype Parts = Parts(prefix: string, front: string, gap: string, body: string, suffix: string)

  ghost predicate HasParts(text: string, d: Parts) {
    var inBody := d.body + BODY_END + d.suffix;
    var afterFront := FRONT_END + d.gap + BODY_START + inBody;
    var afterTag := d.front + afterFront;
    && Split(text, d.prefix, FRONT_START, afterTag)
    && Split(afterTag, d.front, FRONT_END, d.gap + BODY_START + inBody)
    && Split(afterFront, FRONT_END + d.gap, BODY_START, inBody)
    && Split(inBody, d.body, BODY_END, d.suffix)
  }

  /** The front matter opens, but the text has no tag for its end. */
  ghost predicate FrontUnclosed(text: string) {
    exists prefix: string, rest: string :: Split(text, prefix, FRONT_START, rest) && !Contains(rest, FRONT_END)
  }

  /** The front matter is there, and no body opens after it. */
  ghost predicate BodyMissing(text: string) {
    exists prefix: string, front: string, rest: string ::
      && Split(text, prefix, FRONT_START, front + FRONT_END + rest)
      && Split(front + FRONT_END + rest, front, FRONT_END, rest)
      && !Contains(FRONT_END + rest, BODY_START)
  }

  /** The body opens, and there is no tag for its end. */
  ghost predicate BodyUnclosed(text: string) {
    exists prefix: string, front: string, gap: string, rest: string ::
      var afterFront := FRONT_END + gap + BODY_START + rest;
      && Split(text, prefix, FRONT_START, front + afterFront)
      && Split(front + afterFront, front, FRONT_END, gap + BODY_START + rest)
      && Split(afterFront, FRONT_END + gap, BODY_START, rest)
      && !Contains(rest, BODY_END)
  }

  /** What a text with both sections is parsed to. */
  function Judged(d: Parts): Result<(string, string), DocError> {
    if !Blank(d.prefix) || !Blank(d.suffix) then Failure(TextOutside)
    else Success((TrimTagNewlines(d.front), TrimTagNewlines(d.body)))
  }

  lemma PartsJudged(text: string, d: Parts)
    requires HasParts(text, d)
    ensures ParseTaggedDocument(text) == Judged(d)
  {
    var inBody := d.body + BODY_END + d.suffix;
    var afterFront := FRONT_END + d.gap + BODY_START + inBody;
    var afterTag := d.front + afterFront;
    SplitIs(text, d.prefix, FRONT_START, afterTag);
    SplitIs(afterTag, d.front, FRONT_END, d.gap + BODY_START + inBody);
    assert afterTag[|d.front|..] == afterFront;
    BodyJudged(d.prefix, d.front, afterFront, FRONT_END + d.gap, d.body, d.suffix);
  }

  lemma BodyJudged(
    prefix: string, front: string, afterFront: string, before: string, body: string, suffix: string)
    requires Split(afterFront, before, BODY_START, body + BODY_END + suffix)
    requires Split(body + BODY_END + suffix, body, BODY_END, suffix)
    ensures ParseBody(prefix, front, afterFront)
         == if !Blank(prefix) || !Blank(suffix) then Failure(TextOutside)
            else Success((TrimTagNewlines(front), TrimTagNewlines(body)))
  {
    SplitIs(afterFront, before, BODY_START, body + BODY_END + suffix);
    SplitIs(body + BODY_END + suffix, body, BODY_END, suffix);
  }

  lemma NoFrontJudged(text: string)
    requires !Contains(text, FRONT_START)
    ensures ParseTaggedDocument(text) == Failure(MissingTag(FRONT_START))
  {
    SplitOf(text, FRONT_START);
    IndexOfIsFirst(text, FRONT_START);
  }

  lemma NotFound(s: string, tag: string)
    requires !Contains(s, tag)
    ensures IndexOf(s, tag) == None
  {
    IndexOfIsFirst(s, tag);
  }

  lemma FrontUnclosedJudged(text: string)
    requires FrontUnclosed(text)
    ensures ParseTaggedDocument(text) == Failure(MissingTag(FRONT_END))
  {
    var prefix: string, rest: string :| Split(text, prefix, FRONT_START, rest) && !Contains(rest, FRONT_END);
    SplitIs(text, prefix, FRONT_START, rest);
    NotFound(rest, FRONT_END);
  }

  lemma BodyMissingJudged(text: string)
    requires BodyMissing(text)
    ensures ParseTaggedDocument(text) == Failure(MissingTag(BODY_START))
  {
    var prefix: string, front: string, rest: string :|
      && Split(text, prefix, FRONT_START, front + FRONT_END + rest)
      && Split(front + FRONT_END + rest, front, FRONT_END, rest)
      && !Contains(FRONT_END + rest, BODY_START);
    SplitIs(text, prefix, FRONT_START, front + FRONT_END + rest);
    SplitIs(front + FRONT_END + rest, front, FRONT_END, rest);
    NotFound(FRONT_END + rest, BODY_START);
  }

  lemma BodyUnclosedJudged(text: string)
    requires BodyUnclosed(text)
    ensures ParseTaggedDocument(text) == Failure(MissingTag(BODY_END))
  {
    var prefix: string, front: string, gap: string, rest: string :|
      var afterFront := FRONT_END + gap + BODY_START + rest;
      && Split(text, prefix, FRONT_START, front + afterFront)
      && Split(front + afterFront, front, FRONT_END, gap + BODY_START + rest)
      && Split(afterFront, FRONT_END + gap, BODY_START, rest)
      && !Contains(rest, BODY_END);
    var afterFront := FRONT_END + gap + BODY_START + rest;
    SplitIs(text, prefix, FRONT_START, front + afterFront);
    SplitIs(front + afterFront, front, FRONT_END, gap + BODY_START + rest);
    assert (front + afterFront)[|front|..] == afterFront;
    SplitIs(afterFront, FRONT_END + gap, BODY_START, rest);
    NotFound(rest, BODY_END);
  }

  /** A body tag cannot begin inside the front matter's end tag. */
  lemma BodyTagIsLater(rest: string, i: nat)
    requires OccursAt(FRONT_END + rest, BODY_START, i)
    ensures i >= |FRONT_END|
  {
    var s := FRONT_END + rest;
    OccursByCharacters(s, BODY_START, i);
    assert s[i] == BODY_START[0] && s[i+1] == BODY_START[1];
    assert forall k :: 0 <= k < |FRONT_END| ==> s[k] == FRONT_END[k];
    assert FRONT_END[1] == '/' && forall k :: 0 < k < |FRONT_END| ==> FRONT_END[k] != '<';
  }

  /** Every text lacks one of the tags in its place, or has both sections. */
  lemma TextIsOneOf(text: string)
    ensures || !Contains(text, FRONT_START) || FrontUnclosed(text) || BodyMissing(text) || BodyUnclosed(text)
            || exists d :: HasParts(text, d)
  {
    SplitOf(text, FRONT_START);
    if IndexOf(text, FRONT_START).Some? {
      var i := IndexOf(text, FRONT_START).value;
      AfterFrontTag(text, text[..i], text[i+|FRONT_START|..]);
    }
  }

  lemma AfterFrontTag(text: string, prefix: string, afterTag: string)
    requires Split(text, prefix, FRONT_START, afterTag)
    ensures FrontUnclosed(text) || BodyMissing(text) || BodyUnclosed(text) || exists d :: HasParts(text, d)
  {
    SplitOf(afterTag, FRONT_END);
    match IndexOf(afterTag, FRONT_END)
    case None =>
    case Some(i) => AfterFrontEnd(text, prefix, afterTag[..i], afterTag[i+|FRONT_END|..]);
  }

  lemma AfterFrontEnd(text: string, prefix: string, front: string, rest: string)
    requires Split(text, prefix, FRONT_START, front + FRONT_END + rest)
    requires Split(front + FRONT_END + rest, front, FRONT_END, rest)
    ensures BodyMissing(text) || BodyUnclosed(text) || exists d :: HasParts(text, d)
  {
    var afterFront := FRONT_END + rest;
    SplitOf(afterFront, BODY_START);
    match IndexOf(afterFront, BODY_START)
    case None =>
    case Some(i) =>
      BodyTagIsLater(rest, i);
      var gap, inBody := rest[..i-|FRONT_END|], afterFront[i+|BODY_START|..];
      assert afterFront[..i] == FRONT_END + gap;
      assert rest == gap + BODY_START + inBody by {
        assert afterFront == FRONT_END + gap + BODY_START + inBody;
        assert afterFront[|FRONT_END|..] == gap + BODY_START + inBody;
        assert afterFront[|FRONT_END|..] == rest;
      }
      Assoc(front, FRONT_END, rest);
      assert afterFront == FRONT_END + gap + BODY_START + inBody;
      AfterBodyTag(text, prefix, front, gap, inBody);
  }

  lemma AfterBodyTag(text: string, prefix: string, front: string, gap: string, inBody: string)
    requires var afterFront := FRONT_END + gap + BODY_START + inBody;
      && Split(text, prefix, FRONT_START, front + afterFront)
      && Split(front + afterFront, front, FRONT_END, gap + BODY_START + inBody)
      && Split(afterFront, FRONT_END + gap, BODY_START, inBody)
    ensures BodyUnclosed(text) || exists d :: HasParts(text, d)
  {
    SplitOf(inBody, BODY_END);
    match IndexOf(inBody, BODY_END)
    case None =>
    case Some(i) =>
      var d := Parts(prefix, front, gap, inBody[..i], inBody[i+|BODY_END|..]);
      assert inBody == d.body + BODY_END + d.suffix;
      assert HasParts(text, d);
  }

  /** What a text is refused for: the first tag that is missing from its place, or text around the sections. */
  ghost predicate RefusedFor(text: string, e: DocError) {
    match e
    case MissingTag(tag) =>
      || (tag == FRONT_START && !Contains(text, FRONT_START)) || (tag == FRONT_END && FrontUnclosed(text))
      || (tag == BODY_START && BodyMissing(text)) || (tag == BODY_END && BodyUnclosed(text))
    case TextOutside => exists d :: HasParts(text, d) && (!Blank(d.prefix) || !Blank(d.suffix))
    case _ => false
  }

  ghost predicate AcceptedAs(text: string, front: string, body: string) {
    exists d :: HasParts(text, d) && Blank(d.prefix) && Blank(d.suffix)
                && front == TrimTagNewlines(d.front) && body == TrimTagNewlines(d.body)
  }

  lemma AcceptedIsParsed(text: string, front: string, body: string)
    requires AcceptedAs(text, front, body)
    ensures ParseTaggedDocument(text) == Success((front, body))
  {
    var d :| HasParts(text, d) && Blank(d.prefix) && Blank(d.suffix)
             && front == TrimTagNewlines(d.front) && body == TrimTagNewlines(d.body);
    PartsJudged(text, d);
  }

  lemma RefusedIsError(text: string, e: DocError)
    requires RefusedFor(text, e)
    ensures ParseTaggedDocument(text) == Failure(e)
  {
    match e
    case MissingTag(tag) =>
      if tag == FRONT_START && !Contains(text, FRONT_START) {
        NoFrontJudged(text);
      } else if tag == FRONT_END && FrontUnclosed(text) {
        FrontUnclosedJudged(text);
      } else if tag == BODY_START && BodyMissing(text) {
        BodyMissingJudged(text);
      } else {
        BodyUnclosedJudged(text);
      }
    case TextOutside =>
      var d :| HasParts(text, d) && (!Blank(d.prefix) || !Blank(d.suffix));
      PartsJudged(text, d);
  }

  /** Every text is accepted or refused. */
  lemma AcceptedOrRefused(text: string)
    ensures (exists front: string, body: string :: AcceptedAs(text, front, body)) || exists e :: RefusedFor(text, e)
  {
    TextIsOneOf(text);
    if !Contains(text, FRONT_START) {
      assert RefusedFor(text, MissingTag(FRONT_START));
    } else if FrontUnclosed(text) {
      assert RefusedFor(text, MissingTag(FRONT_END));
    } else if BodyMissing(text) {
      assert RefusedFor(text, MissingTag(BODY_START));
    } else if BodyUnclosed(text) {
      assert RefusedFor(text, MissingTag(BODY_END));
    } else {
      var d :| HasParts(text, d);
      if Blank(d.prefix) && Blank(d.suffix) {
        assert AcceptedAs(text, TrimTagNewlines(d.front), TrimTagNewlines(d.body));
      } else {
        assert RefusedFor(text, TextOutside);
      }
    }
  }

  /** A text is accepted exactly when it has both sections, each tag the first one after the tag before it, with nothing
      but white space around them; what comes out are front matter and body, less one line break at each end. */
  lemma ParsesExactlyWhen(text: string, front: string, body: string)
    ensures ParseTaggedDocument(text) == Success((front, body)) <==> AcceptedAs(text, front, body)
  {
    AcceptedOrRefused(text);
    if x: string, z: string :| AcceptedAs(text, x, z) {
      AcceptedIsParsed(text, x, z);
    } else {
      var e :| RefusedFor(text, e);
      RefusedIsError(text, e);
    }
    if AcceptedAs(text, front, body) {
      AcceptedIsParsed(text, front, body);
    }
  }

  /** And a text is refused for a reason exactly when it has that reason. */
  lemma RefusedExactlyWhen(text: string, e: DocError)
    ensures ParseTaggedDocument(text) == Failure(e) <==> RefusedFor(text, e)
  {
    AcceptedOrRefused(text);
    if x: string, z: string :| AcceptedAs(text, x, z) {
      AcceptedIsParsed(text, x, z);
    } else {
      var r :| RefusedFor(text, r);
      RefusedIsError(text, r);
    }
    if RefusedFor(text, e) {
      RefusedIsError(text, e);
    }
  }

  /** One line break at each end, where there is one, and nothing else. */
  lemma BreaksTrimmed(before: string, value: string, after: string)
    requires before == "" || before == "\n"
    requires after == "" || after == "\n"
    requires before == "" && value + after != "" ==> (value + after)[0] != '\n'
    requires after == "" && value != "" ==> value[|value|-1] != '\n'
    ensures TrimTagNewlines(before + value + after) == value
  {
    var v := value + after;
    assert before + value + after == before + v;
    assert (before + v)[|before|..] == v;
    assert after != "" ==> v[..|v|-1] == value;
  }
}
