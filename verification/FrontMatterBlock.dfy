/** A document's front matter stands between two `---` lines. */
module FrontMatterBlock {
  import opened Text
  import opened Tokens
  import opened FrontMatter

  const FENCE := "---"

  function SplitLines(s: string): (lines: seq<string>)
    ensures lines != []
    decreases |s|
  {
    if s == "" then [""]
    else if s[0] == '\n' then [""] + SplitLines(s[1..])
    else Prepend(s[0], SplitLines(s[1..]))
  }

  /** The lines with a character before the first. */
  function Prepend(c: char, lines: seq<string>): (r: seq<string>)
    requires lines != []
    ensures |r| == |lines|
  {
    [[c] + lines[0]] + lines[1..]
  }

  predicate IsFence(line: string) {
    Trim(line) == FENCE
  }

  /** The first fence from line `from` on; the number of lines if there is none. */
  function FindFence(lines: seq<string>, from: nat): (i: nat)
    requires from <= |lines|
    ensures from <= i <= |lines|
    ensures i < |lines| ==> IsFence(lines[i])
    ensures forall k :: from <= k < i ==> !IsFence(lines[k])
    decreases |lines| - from
  {
    if from == |lines| || IsFence(lines[from]) then from else FindFence(lines, from + 1)
  }

  function WithoutFirstBreak(body: string): string {
    if "\n" <= body then body[1..] else body
  }

  function Split(content: string): (string, string) {
    var lines := SplitLines(content);
    if !(FENCE <= content) || |lines| < 2 then ("", content)
    else
      var end := FindFence(lines, 1);
      if end == |lines| then ("", content)
      else (JoinLines(lines[1..end]), WithoutFirstBreak(JoinLines(lines[end+1..])))
  }

  method SplitFrontMatter(content: string) returns (front: string, body: string)
    ensures (front, body) == Split(content)
  {
    if !(FENCE <= content) {
      return "", content;
    }
    var lines := SplitLines(content);
    if |lines| < 2 {
      return "", content;
    }
    var endIndex := |lines|;
    for i := 1 to |lines|
      invariant endIndex == |lines| && FindFence(lines, i) == FindFence(lines, 1)
    {
      if Trim(lines[i]) == "---" {
        endIndex := i;
        break;
      }
    }
    if endIndex == |lines| {
      return "", content;
    }
    front := JoinLines(lines[1..endIndex]);
    body := JoinLines(lines[endIndex+1..]);
    if "\n" <= body {
      body := body[1..];
    }
  }

  // ------------------------------------------------------------------ lines

  lemma JoinMore(first: string, rest: seq<string>)
    requires rest != []
    ensures JoinLines([first] + rest) == first + "\n" + JoinLines(rest)
  {
    assert ([first] + rest)[1..] == rest;
  }

  lemma LongerFirst(c: char, lines: seq<string>)
    requires lines != []
    ensures JoinLines(Prepend(c, lines)) == [c] + JoinLines(lines)
  {
    if |lines| > 1 {
      JoinMore([c] + lines[0], lines[1..]);
      Assoc([c], lines[0], "\n");
      Assoc([c], lines[0] + "\n", JoinLines(lines[1..]));
    }
  }

  /** Joining the lines of a text gives the text. */
  lemma {:induction false} JoinOfSplit(s: string)
    ensures JoinLines(SplitLines(s)) == s
    decreases |s|
  {
    if s != "" {
      JoinOfSplit(s[1..]);
      if s[0] == '\n' {
        JoinMore("", SplitLines(s[1..]));
        assert s == "" + "\n" + s[1..];
      } else {
        LongerFirst(s[0], SplitLines(s[1..]));
        assert s == [s[0]] + s[1..];
      }
    }
  }

  lemma PrependConcat(c: char, a: seq<string>, b: seq<string>)
    requires a != []
    ensures Prepend(c, a + b) == Prepend(c, a) + b
  {
    assert (a + b)[0] == a[0] && (a + b)[1..] == a[1..] + b;
    Assoc([[c] + a[0]], a[1..], b);
  }

  lemma TailAround(a: string, b: string)
    requires a != ""
    ensures (a + "\n" + b)[0] == a[0] && (a + "\n" + b)[1..] == a[1..] + "\n" + b
  {
  }

  /** The lines of two texts around a line break. */
  lemma {:induction false} LinesAroundBreak(a: string, b: string)
    ensures SplitLines(a + "\n" + b) == SplitLines(a) + SplitLines(b)
    decreases |a|
  {
    if a == "" {
      assert (a + "\n" + b)[1..] == b;
    } else {
      TailAround(a, b);
      LinesAroundBreak(a[1..], b);
      if a[0] == '\n' {
        Assoc([""], SplitLines(a[1..]), SplitLines(b));
      } else {
        PrependConcat(a[0], SplitLines(a[1..]), SplitLines(b));
      }
    }
  }

  lemma {:induction false} FewerLinesAreShorter(lines: seq<string>, k: nat)
    requires k < |lines|
    ensures k > 0 ==> |JoinLines(lines[..k])| < |JoinLines(lines)|
    decreases |lines|
  {
    if k > 0 {
      var rest := lines[1..];
      assert lines == [lines[0]] + rest;
      JoinMore(lines[0], rest);
      if k > 1 {
        FewerLinesAreShorter(rest, k - 1);
        assert lines[..k] == [lines[0]] + rest[..k-1];
        JoinMore(lines[0], rest[..k-1]);
      } else {
        assert lines[..1] == [lines[0]];
      }
    }
  }

  // ------------------------------------------------------------------ writing and reading

  /** A document as it is written: the front matter, as a text that ends in a line break, between two fences, an empty
      line, and the body. */
  function Written(front: string, body: string): string {
    "---\n" + (front + "\n") + "---\n\n" + body
  }

  lemma WrittenParts(front: string, body: string)
    ensures Written(front, body) == "---" + "\n" + (front + "\n" + ("---" + "\n" + ("" + "\n" + body)))
    ensures FENCE <= Written(front, body)
  {
  }

  lemma FlatLines(f: seq<string>, b: seq<string>)
    ensures [FENCE] + (f + ([FENCE] + ([""] + b))) == [FENCE] + f + [FENCE, ""] + b
  {
  }

  lemma WrittenLines(front: string, body: string)
    ensures SplitLines(Written(front, body)) == [FENCE] + SplitLines(front) + [FENCE, ""] + SplitLines(body)
  {
    var last := "" + "\n" + body;
    var afterFront := "---" + "\n" + last;
    WrittenParts(front, body);
    LinesAroundBreak("---", front + "\n" + afterFront);
    LinesAroundBreak(front, afterFront);
    LinesAroundBreak("---", last);
    LinesAroundBreak("", body);
    OneLine("---");
    FlatLines(SplitLines(front), SplitLines(body));
  }

  lemma {:induction false} OneLine(s: string)
    requires '\n' !in s
    ensures SplitLines(s) == [s]
    decreases |s|
  {
    if s != "" {
      OneLine(s[1..]);
      assert s[0] in s && s == [s[0]] + s[1..];
      assert Prepend(s[0], [s[1..]]) == [[s[0]] + s[1..]];
    }
  }

  lemma FenceIsFence()
    ensures IsFence("---")
  {
    TrimIsTrimmed("---");
  }

  lemma EndOfWritten(front: string, body: string)
    ensures FindFence(SplitLines(Written(front, body)), 1) == 1 + FindFence(SplitLines(front), 0)
  {
    var lines, f := SplitLines(Written(front, body)), SplitLines(front);
    var k := FindFence(f, 0);
    WrittenLines(front, body);
    FenceIsFence();
    assert forall i :: 0 <= i < |f| ==> lines[1+i] == f[i];
    assert forall i :: 1 <= i < 1 + k ==> lines[i] == f[i-1];
    assert IsFence(lines[1+|f|]) && IsFence(lines[1+k]);
  }

  lemma PartsOfWritten(front: string, body: string, k: nat)
    requires k <= |SplitLines(front)|
    ensures var lines, f := SplitLines(Written(front, body)), SplitLines(front);
      |lines| > |f| + 2 && lines[1..1+k] == f[..k] && lines[|f|+2..] == [""] + SplitLines(body)
  {
    WrittenLines(front, body);
  }

  /** What is read as front matter ends at the first fence. */
  lemma FrontThatIsRead(front: string, body: string, k: nat)
    requires k == FindFence(SplitLines(front), 0)
    ensures Split(Written(front, body)).0 == JoinLines(SplitLines(front)[..k])
  {
    WrittenParts(front, body);
    EndOfWritten(front, body);
    PartsOfWritten(front, body, k);
  }

  lemma BreakBefore(body: string)
    ensures WithoutFirstBreak(JoinLines([""] + SplitLines(body))) == body
  {
    JoinMore("", SplitLines(body));
    JoinOfSplit(body);
    assert "" + "\n" + body == "\n" + body && ("\n" + body)[1..] == body;
  }

  /** With no fence in the front matter the whole body is read. */
  lemma BodyThatIsRead(front: string, body: string)
    requires FindFence(SplitLines(front), 0) == |SplitLines(front)|
    ensures Split(Written(front, body)).1 == body
  {
    WrittenParts(front, body);
    EndOfWritten(front, body);
    PartsOfWritten(front, body, 0);
    BreakBefore(body);
  }

  lemma ShorterAtFence(front: string, k: nat)
    requires k == FindFence(SplitLines(front), 0) < |SplitLines(front)|
    ensures |JoinLines(SplitLines(front)[..k])| < |front|
  {
    JoinOfSplit(front);
    FewerLinesAreShorter(SplitLines(front), k);
  }

  /** Reading a written document gives its front matter and its body exactly when no line of the front matter is
      itself a fence. */
  lemma SplitOfWrittenExactlyWhen(front: string, body: string)
    ensures Split(Written(front, body)) == (front, body) <==>
            forall k :: 0 <= k < |SplitLines(front)| ==> !IsFence(SplitLines(front)[k])
  {
    var f, k := SplitLines(front), FindFence(SplitLines(front), 0);
    FrontThatIsRead(front, body, k);
    if k == |f| {
      BodyThatIsRead(front, body);
      JoinOfSplit(front);
      assert f[..k] == f;
    } else {
      ShorterAtFence(front, k);
    }
  }
}
