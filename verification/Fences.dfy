/** What a front matter fence is, and where the front matter of a text ends, by characters. */
module Fences {
  import opened Text
  import opened Trimming
  import opened FrontMatter
  import opened FrontMatterBlock

  /** From i on the line is three dashes, with nothing but white space around them. */
  ghost predicate DashesAt(line: string, i: nat) {
    i + 3 <= |line| && line[i..i+3] == "---" && AllSpace(line[..i]) && AllSpace(line[i+3..])
  }

  ghost predicate Dashes(line: string) {
    exists i: nat :: DashesAt(line, i)
  }

  lemma DashesAreStripped(line: string, i: nat)
    requires DashesAt(line, i)
    ensures Stripped(line, "---")
  {
    assert StrippedAt(line, "---", i, i + 3);
  }

  lemma FenceExactlyWhen(line: string)
    ensures IsFence(line) <==> Dashes(line)
  {
    TrimIsStripped(line);
    if IsFence(line) {
      var i: nat, j: nat :| StrippedAt(line, "---", i, j);
      assert DashesAt(line, i);
    }
    if i: nat :| DashesAt(line, i) {
      DashesAreStripped(line, i);
      StrippedOnce(line, Trim(line), "---");
    }
  }

  /** The lines of a text have no line breaks in them. */
  lemma {:induction false} LinesAreUnbroken(s: string)
    ensures forall k :: 0 <= k < |SplitLines(s)| ==> '\n' !in SplitLines(s)[k]
    decreases |s|
  {
    if s != "" {
      LinesAreUnbroken(s[1..]);
    }
  }

  /** The text begins with three dashes, and line `end` is the first after its first line that is a fence. */
  ghost predicate FencedAt(content: string, end: nat) {
    var lines := SplitLines(content);
    && "---" <= content && 0 < end < |lines| && Dashes(lines[end])
    && forall k :: 0 < k < end ==> !Dashes(lines[k])
  }

  lemma FoundIsFenced(content: string, end: nat)
    requires "---" <= content && |SplitLines(content)| > 1
    ensures FencedAt(content, end) <==> end == FindFence(SplitLines(content), 1) && end < |SplitLines(content)|
  {
    var lines := SplitLines(content);
    var found := FindFence(lines, 1);
    forall k | 0 <= k < |lines| ensures IsFence(lines[k]) <==> Dashes(lines[k]) {
      FenceExactlyWhen(lines[k]);
    }
    if FencedAt(content, end) && found < |lines| {
      assert Dashes(lines[found]) && IsFence(lines[end]);
    }
  }

  /** When a text is fenced, the front matter is the lines between the fences and the body the lines after them, less
      one line break; otherwise there is none and the body is the whole text. */
  lemma SplitExactlyWhen(content: string, end: nat)
    ensures FencedAt(content, end) ==>
              var lines := SplitLines(content);
              Split(content) == (JoinLines(lines[1..end]), WithoutFirstBreak(JoinLines(lines[end+1..])))
    ensures (forall k: nat :: !FencedAt(content, k)) ==> Split(content) == ("", content)
  {
    if "---" <= content && |SplitLines(content)| > 1 {
      FoundIsFenced(content, end);
      FoundIsFenced(content, FindFence(SplitLines(content), 1));
    }
  }
}
