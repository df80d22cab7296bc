/** What the file of a translation memory loads as, line by line. */
module MemoryFile {
  import opened Wrappers
  import opened Text
  import opened Tokens
  import opened TranslationMemory

  /** The lines of a file; a line break at its end begins no other line. */
  function FileLines(s: string): seq<string>
    decreases |s|
  {
    if s == "" then []
    else
      var n := LineEnd(s, 0);
      [s[..n]] + FileLines(if n < |s| then s[n+1..] else "")
  }

  /** The file is its lines, each ended by a line break but for the last, which need not be. */
  ghost predicate Makes(lines: seq<string>, s: string) {
    s == Ended(lines) || s + "\n" == Ended(lines)
  }

  lemma OneMoreLine(line: string, rest: string, lines: seq<string>)
    requires Makes(lines, rest)
    ensures Makes([line] + lines, line + "\n" + rest)
  {
    assert ([line] + lines)[1..] == lines;
    Assoc(line + "\n", rest, "\n");
  }

  lemma LastLine(line: string)
    ensures Makes([line], line)
  {
    assert [line][1..] == [];
    assert line + "\n" + "" == line + "\n";
  }

  lemma {:induction false} LinesMakeFile(s: string)
    ensures forall k :: 0 <= k < |FileLines(s)| ==> '\n' !in FileLines(s)[k]
    ensures Makes(FileLines(s), s)
    decreases |s|
  {
    if s != "" {
      var n := LineEnd(s, 0);
      LineEndIsFirst(s, 0);
      if n < |s| {
        LinesMakeFile(s[n+1..]);
        OneMoreLine(s[..n], s[n+1..], FileLines(s[n+1..]));
        assert s == s[..n] + "\n" + s[n+1..];
      } else {
        LastLine(s);
        assert s[..n] == s && FileLines(s) == [s] + FileLines("");
      }
    }
  }

  function Ended(lines: seq<string>): string {
    if lines == [] then "" else lines[0] + "\n" + Ended(lines[1..])
  }

  /** The entry that a line that is not blank holds. */
  function Held(codec: Codec, line: string): Option<Entry> {
    codec.decode(Trim(line))
  }

  /** The line is not blank and cannot be decoded. */
  predicate Unreadable(codec: Codec, line: string) {
    !Blank(line) && Held(codec, line).None?
  }

  /** The line holds that entry, which can be looked up. */
  predicate Holds(codec: Codec, line: string, e: Entry) {
    !Blank(line) && Held(codec, line) == Some(e) && e.cacheKey != "" && !Blank(e.translated)
  }

  predicate HoldsKey(codec: Codec, line: string, key: string) {
    Held(codec, line).Some? && Holds(codec, line, Held(codec, line).value) && Held(codec, line).value.cacheKey == key
  }

  ghost predicate SomeUnreadable(codec: Codec, lines: seq<string>) {
    exists i :: 0 <= i < |lines| && Unreadable(codec, lines[i])
  }

  ghost predicate NoneHolds(codec: Codec, lines: seq<string>, key: string) {
    forall i :: 0 <= i < |lines| ==> !HoldsKey(codec, lines[i], key)
  }

  /** Line i is the last that holds an entry of that key, and holds e. */
  ghost predicate LastHoldsAt(codec: Codec, lines: seq<string>, key: string, e: Entry, i: nat) {
    && i < |lines| && HoldsKey(codec, lines[i], key) && Held(codec, lines[i]) == Some(e)
    && NoneHolds(codec, lines[i+1..], key)
  }

  ghost predicate LastHolds(codec: Codec, lines: seq<string>, key: string, e: Entry) {
    exists i: nat :: LastHoldsAt(codec, lines, key, e, i)
  }

  lemma FirstUnreadable(codec: Codec, lines: seq<string>)
    requires lines != []
    ensures SomeUnreadable(codec, lines) <==> SomeUnreadable(codec, lines[1..]) || Unreadable(codec, lines[0])
  {
    var rest := lines[1..];
    assert forall i :: 0 <= i < |rest| ==> rest[i] == lines[i+1];
    if SomeUnreadable(codec, lines) {
      var i :| 0 <= i < |lines| && Unreadable(codec, lines[i]);
      assert i > 0 ==> lines[i] == rest[i-1];
    }
  }

  lemma FirstNone(codec: Codec, lines: seq<string>, key: string)
    requires lines != []
    ensures NoneHolds(codec, lines, key) <==> NoneHolds(codec, lines[1..], key) && !HoldsKey(codec, lines[0], key)
  {
    assert forall i :: 0 < i < |lines| ==> lines[i] == lines[1..][i-1];
  }

  lemma FirstHeld(codec: Codec, lines: seq<string>, key: string, e: Entry)
    requires lines != []
    ensures LastHolds(codec, lines, key, e) <==>
              LastHolds(codec, lines[1..], key, e) || LastHoldsAt(codec, lines, key, e, 0)
  {
    var rest := lines[1..];
    if i: nat :| LastHoldsAt(codec, rest, key, e, i) {
      assert lines[i+1] == rest[i] && lines[i+2..] == rest[i+1..];
      assert LastHoldsAt(codec, lines, key, e, i + 1);
    }
    if i: nat :| LastHoldsAt(codec, lines, key, e, i) {
      if i > 0 {
        assert lines[i] == rest[i-1] && lines[i+1..] == rest[i..];
        assert LastHoldsAt(codec, rest, key, e, i - 1);
      }
    }
  }

  /** What is loaded after `before`: the entries of the lines, or what was there before. */
  ghost predicate LoadedFrom(codec: Codec, lines: seq<string>, before: map<string, Entry>, after: map<string, Entry>) {
    forall key, e :: key in after && after[key] == e <==>
      LastHolds(codec, lines, key, e) || (NoneHolds(codec, lines, key) && key in before && before[key] == e)
  }

  /** What a line adds. */
  function Added(codec: Codec, before: map<string, Entry>, line: string): map<string, Entry>
    requires !Unreadable(codec, line)
  {
    if Blank(line) then before else Accepted(before, Held(codec, line).value)
  }

  lemma AddedIs(codec: Codec, before: map<string, Entry>, line: string, key: string)
    requires !Unreadable(codec, line)
    ensures var next := Added(codec, before, line);
            if HoldsKey(codec, line, key) then key in next && next[key] == Held(codec, line).value
            else (key in next <==> key in before) && (key in before ==> next[key] == before[key])
  {
  }

  lemma LoadedNext(
    codec: Codec, lines: seq<string>, before: map<string, Entry>, after: map<string, Entry>)
    requires lines != [] && !Unreadable(codec, lines[0])
    requires LoadedFrom(codec, lines[1..], Added(codec, before, lines[0]), after)
    ensures LoadedFrom(codec, lines, before, after)
  {
    forall key, e ensures key in after && after[key] == e <==>
        LastHolds(codec, lines, key, e) || (NoneHolds(codec, lines, key) && key in before && before[key] == e)
    {
      AddedIs(codec, before, lines[0], key);
      FirstHeld(codec, lines, key, e);
      FirstNone(codec, lines, key);
    }
  }

  function FirstOf(s: string): string
    requires s != ""
  {
    s[..LineEnd(s, 0)]
  }

  function RestOf(s: string): (rest: string)
    requires s != ""
    ensures |rest| < |s|
  {
    var n := LineEnd(s, 0);
    if n < |s| then s[n+1..] else ""
  }

  lemma ParsedNext(codec: Codec, s: string, before: map<string, Entry>)
    requires s != ""
    ensures FileLines(s) == [FirstOf(s)] + FileLines(RestOf(s))
    ensures Unreadable(codec, FirstOf(s)) ==> Parsed(codec, s, before).Failure?
    ensures !Unreadable(codec, FirstOf(s)) ==>
              Parsed(codec, s, before) == Parsed(codec, RestOf(s), Added(codec, before, FirstOf(s)))
  {
  }

  /** Loading fails exactly when some line that is not blank cannot be decoded; otherwise the memory holds, under each
      key, the entry of the last line with that key whose translation is not blank, and nothing else. */
  lemma {:induction false} LoadsExactlyWhen(codec: Codec, s: string, before: map<string, Entry>)
    ensures Parsed(codec, s, before).Failure? <==> SomeUnreadable(codec, FileLines(s))
    ensures Parsed(codec, s, before).Success? ==>
              LoadedFrom(codec, FileLines(s), before, Parsed(codec, s, before).value)
    decreases |s|
  {
    if s != "" {
      var lines := FileLines(s);
      ParsedNext(codec, s, before);
      assert lines[1..] == FileLines(RestOf(s));
      FirstUnreadable(codec, lines);
      if !Unreadable(codec, FirstOf(s)) {
        LoadsExactlyWhen(codec, RestOf(s), Added(codec, before, FirstOf(s)));
        if Parsed(codec, s, before).Success? {
          LoadedNext(codec, lines, before, Parsed(codec, s, before).value);
        }
      }
    }
  }
}
