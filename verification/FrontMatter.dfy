/** Front matter values travel through the prompt between numbered markers. */
module FrontMatter {
  import opened Wrappers
  import opened Text
  import opened Tokens
  import opened TaggedDocument

  // ------------------------------------------------------------------ data and markers

  /** A list item: a string, or something else and how `%v` prints it. */
  datatype Item = Words(text: string) | OtherItem(shown: string)

  datatype Value = Str(s: string) | Items(items: seq<Item>) | Other

  type Data = map<string, Value>

  const SUMMARY := "SUMMARY"
  const TITLE := "TITLE"
  const READ_WHEN := "READ_WHEN"
  const HEAD := "[[[FM_"

  datatype Kind = Start | End

  function MarkerName(field: string, index: nat, kind: Kind): string {
    HEAD + field + "_" + Digits(index) + (if kind == Start then "_START]]]" else "_END]]]")
  }

  datatype Marker = Marker(field: string, index: nat)
  {
    function StartTag(): string { MarkerName(field, index, Start) }

    function EndTag(): string { MarkerName(field, index, End) }
  }

  predicate KnownField(f: string) {
    f == SUMMARY || f == TITLE || f == READ_WHEN
  }

  /** One line of the template: plain text, or a value between its markers. */
  datatype Row = Plain(text: string) | Slot(prefix: string, marker: Marker, value: string)

  function SummaryRows(data: Data): seq<Row> {
    if "summary" in data && data["summary"].Str? then [Slot("summary: ", Marker(SUMMARY, 0), data["summary"].s)] else []
  }

  function TitleRows(data: Data): seq<Row> {
    if "title" in data && data["title"].Str? then [Slot("title: ", Marker(TITLE, 0), data["title"].s)] else []
  }

  function ItemRow(item: Item, i: nat): Row {
    match item
    case Words(text) => Slot("  - ", Marker(READ_WHEN, i), text)
    case OtherItem(shown) => Plain("  - " + shown)
  }

  function ItemRows(items: seq<Item>, from: nat): seq<Row>
    requires from <= |items|
  {
    seq(|items| - from, k requires 0 <= k < |items| - from => ItemRow(items[from + k], from + k))
  }

  function ReadWhenRows(data: Data): seq<Row> {
    if "read_when" in data && data["read_when"].Items? then
      [Plain("read_when:")] + ItemRows(data["read_when"].items, 0)
    else []
  }

  function Rows(data: Data): seq<Row> {
    SummaryRows(data) + TitleRows(data) + ReadWhenRows(data)
  }

  function MarkersOf(rows: seq<Row>): seq<Marker> {
    if rows == [] then []
    else (if rows[0].Slot? then [rows[0].marker] else []) + MarkersOf(rows[1..])
  }

  function RowToks(row: Row): seq<Token> {
    match row
    case Plain(text) => Chars(text)
    case Slot(prefix, m, value) => Chars(prefix) + [Tag(m.StartTag())] + (Chars(value) + [Tag(m.EndTag())])
  }

  /** The lines, separated by line breaks. */
  function TemplateToks(rows: seq<Row>): seq<Token> {
    if rows == [] then []
    else if |rows| == 1 then RowToks(rows[0])
    else RowToks(rows[0]) + [Ch('\n')] + TemplateToks(rows[1..])
  }

  function Template(data: Data): string {
    Render(TemplateToks(Rows(data)))
  }

  function JoinLines(lines: seq<string>): string {
    if lines == [] then ""
    else if |lines| == 1 then lines[0]
    else lines[0] + "\n" + JoinLines(lines[1..])
  }

  function LinesOf(rows: seq<Row>): seq<string> {
    seq(|rows|, i requires 0 <= i < |rows| => Render(RowToks(rows[i])))
  }

  lemma {:induction false} JoinIsRender(rows: seq<Row>)
    ensures JoinLines(LinesOf(rows)) == Render(TemplateToks(rows))
  {
    if |rows| > 1 {
      JoinIsRender(rows[1..]);
      assert LinesOf(rows)[1..] == LinesOf(rows[1..]);
      RenderConcat(RowToks(rows[0]) + [Ch('\n')], TemplateToks(rows[1..]));
      RenderConcat(RowToks(rows[0]), [Ch('\n')]);
      assert [Ch('\n')][1..] == [];
    }
  }

  function RowText(row: Row): string {
    match row
    case Plain(text) => text
    case Slot(prefix, m, value) => prefix + m.StartTag() + value + m.EndTag()
  }

  lemma RenderRow(row: Row)
    ensures Render(RowToks(row)) == RowText(row)
  {
    match row
    case Plain(text) => RenderChars(text);
    case Slot(prefix, m, value) =>
      RenderSlot(prefix, m.StartTag(), value, m.EndTag());
  }

  lemma RenderSlot(prefix: string, start: string, value: string, end: string)
    ensures Render(Chars(prefix) + [Tag(start)] + (Chars(value) + [Tag(end)])) == prefix + start + value + end
  {
    RenderChars(prefix);
    RenderChars(value);
    RenderOne(start);
    RenderOne(end);
    RenderConcat(Chars(prefix) + [Tag(start)], Chars(value) + [Tag(end)]);
    RenderConcat(Chars(prefix), [Tag(start)]);
    RenderConcat(Chars(value), [Tag(end)]);
    Assoc(prefix + start, value, end);
  }

  lemma {:induction false} MarkersConcat(a: seq<Row>, b: seq<Row>)
    ensures MarkersOf(a + b) == MarkersOf(a) + MarkersOf(b)
  {
    if a == [] {
      assert a + b == b;
    } else {
      MarkersConcat(a[1..], b);
      TailOfConcat(a, b);
    }
  }

  /** `lines` and `markers` are those of the rows written so far. */
  ghost predicate Written(rows: seq<Row>, lines: seq<string>, markers: seq<Marker>) {
    lines == LinesOf(rows) && markers == MarkersOf(rows)
  }

  lemma RowAppended(rows: seq<Row>, lines: seq<string>, markers: seq<Marker>, row: Row)
    requires Written(rows, lines, markers)
    ensures Written(rows + [row], lines + [RowText(row)], markers + (if row.Slot? then [row.marker] else []))
  {
    RenderRow(row);
    MarkersConcat(rows, [row]);
    assert [row][1..] == [];
  }

  /** The `read_when` list, one line an item. */
  method AppendItems(items: seq<Item>, lines0: seq<string>, markers0: seq<Marker>, ghost rows0: seq<Row>)
    returns (lines: seq<string>, markers: seq<Marker>)
    requires Written(rows0, lines0, markers0)
    ensures Written(rows0 + ItemRows(items, 0), lines, markers)
  {
    ghost var rows := rows0;
    lines, markers := lines0, markers0;
    for idx := 0 to |items|
      invariant rows + ItemRows(items, idx) == rows0 + ItemRows(items, 0)
      invariant Written(rows, lines, markers)
    {
      ghost var row := ItemRow(items[idx], idx);
      RowAppended(rows, lines, markers, row);
      assert ItemRows(items, idx) == [row] + ItemRows(items, idx + 1);
      Assoc(rows, [row], ItemRows(items, idx + 1));
      rows := rows + [row];
      match items[idx] {
        case OtherItem(shown) =>
          lines := lines + ["  - " + shown];
        case Words(text) =>
          var m := Marker(READ_WHEN, idx);
          markers := markers + [m];
          lines := lines + ["  - " + m.StartTag() + text + m.EndTag()];
      }
    }
    assert rows + ItemRows(items, |items|) == rows;
  }

  method BuildFrontmatterTemplate(data: Data) returns (template: string, markers: seq<Marker>)
    ensures template == Template(data) && markers == MarkersOf(Rows(data))
  {
    if |data| == 0 {
      return "", [];
    }
    markers := [];
    var lines: seq<string> := [];
    ghost var none: seq<Row> := [];
    if "summary" in data && data["summary"].Str? {
      var m := Marker(SUMMARY, 0);
      RowAppended(none, lines, markers, SummaryRows(data)[0]);
      markers := markers + [m];
      lines := lines + ["summary: " + m.StartTag() + data["summary"].s + m.EndTag()];
    }
    assert Written(SummaryRows(data), lines, markers);
    if "title" in data && data["title"].Str? {
      var m := Marker(TITLE, 0);
      RowAppended(SummaryRows(data), lines, markers, TitleRows(data)[0]);
      markers := markers + [m];
      lines := lines + ["title: " + m.StartTag() + data["title"].s + m.EndTag()];
    }
    ghost var rows := SummaryRows(data) + TitleRows(data);
    assert Written(rows, lines, markers);
    if "read_when" in data && data["read_when"].Items? {
      RowAppended(rows, lines, markers, Plain("read_when:"));
      lines := lines + ["read_when:"];
      assert markers + [] == markers;
      Assoc(rows, [Plain("read_when:")], ItemRows(data["read_when"].items, 0));
      lines, markers := AppendItems(data["read_when"].items, lines, markers, rows + [Plain("read_when:")]);
    }
    assert Written(Rows(data), lines, markers);
    JoinIsRender(Rows(data));
    template := JoinLines(lines);
  }

  // ------------------------------------------------------------------ markers inside text

  /** The shape of every marker: `[[[FM_`, letters, digits and underscores, `]]]`. */
  predicate IsMarker(n: string) {
    && |n| > 9 && n[..6] == HEAD && n[|n|-3..] == "]]]"
    && forall i :: 6 <= i < |n| - 3 ==> n[i] != '[' && n[i] != ']'
  }

  lemma BracketedIsMarker(middle: string)
    requires middle != "" && forall i :: 0 <= i < |middle| ==> middle[i] != '[' && middle[i] != ']'
    ensures IsMarker(HEAD + middle + "]]]")
  {
    var n := HEAD + middle + "]]]";
    assert forall i :: 6 <= i < |n| - 3 ==> n[i] == middle[i-6];
  }

  function Suffix(kind: Kind): string {
    if kind == Start then "_START" else "_END"
  }

  lemma MarkerParts(field: string, index: nat, kind: Kind)
    ensures MarkerName(field, index, kind) == HEAD + (field + "_" + Digits(index) + Suffix(kind)) + "]]]"
  {
    var tail := Suffix(kind) + "]]]";
    assert tail == if kind == Start then "_START]]]" else "_END]]]";
    Assoc(HEAD + field + "_" + Digits(index), Suffix(kind), "]]]");
    Assoc(HEAD, field, "_");
    Assoc(HEAD, field + "_", Digits(index));
    Assoc(HEAD, field + "_" + Digits(index), Suffix(kind));
  }

  lemma MarkerIsMarker(field: string, index: nat, kind: Kind)
    requires KnownField(field)
    ensures IsMarker(MarkerName(field, index, kind))
  {
    MarkerParts(field, index, kind);
    DigitsAreDigits(index);
    BracketedIsMarker(field + "_" + Digits(index) + Suffix(kind));
  }

  ghost predicate AllMarkers(toks: seq<Token>) {
    forall t :: t in toks && t.Tag? ==> IsMarker(t.name)
  }

  ghost predicate HeadAt(toks: seq<Token>, i: nat) {
    i + 6 <= |toks| && toks[i..i+6] == Chars(HEAD)
  }

  /** No run of plain characters spells the head of a marker. */
  ghost predicate Clean(toks: seq<Token>) {
    forall i: nat :: !HeadAt(toks, i)
  }

  lemma CleanTail(toks: seq<Token>, n: nat)
    requires Clean(toks) && AllMarkers(toks) && n <= |toks|
    ensures Clean(toks[n..]) && AllMarkers(toks[n..])
  {
    forall i: nat ensures !HeadAt(toks[n..], i) {
      if i + 6 <= |toks[n..]| {
        assert toks[n..][i..i+6] == toks[n+i..n+i+6];
        assert !HeadAt(toks, n + i);
      }
    }
  }

  lemma CleanChars(s: string)
    requires !Contains(s, HEAD)
    ensures Clean(Chars(s))
  {
    forall i: nat ensures !HeadAt(Chars(s), i) {
      if i + 6 <= |s| {
        OccursByCharacters(s, HEAD, i);
        var k :| 0 <= k < 6 && s[i+k] != HEAD[k];
        assert Chars(s)[i..i+6][k] != Chars(HEAD)[k];
      }
    }
  }

  /** Clean text on both sides of a tag or a line break is clean. */
  lemma CleanAround(a: seq<Token>, sep: Token, b: seq<Token>)
    requires Clean(a) && Clean(b) && (sep.Tag? || sep.c == '\n')
    ensures Clean(a + [sep] + b)
  {
    var all := a + [sep] + b;
    assert forall k :: 0 <= k < |b| ==> all[|a|+1+k] == b[k];
    forall i: nat ensures !HeadAt(all, i) {
      if i + 6 <= |all| {
        if i + 6 <= |a| {
          assert all[i..i+6] == a[i..i+6];
          assert !HeadAt(a, i);
        } else if |a| < i {
          var k := i - |a| - 1;
          assert all[i..i+6] == b[k..k+6];
          assert !HeadAt(b, k);
        } else {
          assert all[i..i+6][|a|-i] == sep;
          assert Chars(HEAD)[|a|-i] == Ch(HEAD[|a|-i]) && HEAD[|a|-i] != '\n';
        }
      }
    }
  }

  lemma TagStarts(toks: seq<Token>)
    requires toks != [] && toks[0].Tag? && IsMarker(toks[0].name)
    ensures var r := Render(toks); |r| > 3 && r[0] == '[' && r[1] == '[' && r[2] == '[' && r[3] == 'F'
  {
    assert forall k :: 0 <= k < 6 ==> Render(toks)[k] == toks[0].name[..6][k];
  }

  /** Text that begins as a marker does, past its first bracket, is spelled by plain characters. */
  lemma {:induction false} PlainPrefix(pat: string, toks: seq<Token>)
    requires AllMarkers(toks) && pat <= Render(toks)
    requires pat in {"[[FM_", "[FM_", "FM_", "M_", "_", ""}
    ensures Chars(pat) <= toks
    decreases |pat|
  {
    if pat != "" {
      var r := Render(toks);
      assert toks != [] && toks[0] in toks;
      assert forall k :: 0 <= k < |pat| ==> r[k] == pat[k];
      if toks[0].Tag? {
        TagStarts(toks);
      }
      assert r == [toks[0].c] + Render(toks[1..]);
      assert Render(toks[1..]) == r[1..] && pat[1..] == r[1..][..|pat|-1];
      PlainPrefix(pat[1..], toks[1..]);
      assert Chars(pat) == [Ch(pat[0])] + Chars(pat[1..]);
    }
  }

  lemma NoHead(toks: seq<Token>)
    requires AllMarkers(toks) && Clean(toks) && HEAD <= Render(toks)
    ensures toks != [] && toks[0].Tag?
  {
    var r := Render(toks);
    if toks[0].Ch? {
      assert r == [toks[0].c] + Render(toks[1..]) && HEAD[1..] == "[[FM_" && r[1..] == Render(toks[1..]);
      PlainPrefix("[[FM_", toks[1..]);
      HeadSpelled(toks);
    }
  }

  lemma HeadSpelled(toks: seq<Token>)
    requires toks != [] && toks[0] == Ch('[') && Chars("[[FM_") <= toks[1..]
    ensures HeadAt(toks, 0)
  {
    assert toks[0..6] == [toks[0]] + toks[1..6] && toks[1..6] == toks[1..][..5];
  }

  lemma SameMarker(n: string, m: string, rest: string)
    requires IsMarker(n) && IsMarker(m) && n <= m + rest
    ensures n == m
  {
    var both := m + rest;
    assert forall i :: 0 <= i < |n| ==> n[i] == both[i];
    assert forall i :: 0 <= i < |m| ==> m[i] == both[i];
    assert n[|n|-3] == n[|n|-3..][0] && m[|m|-3] == m[|m|-3..][0];
    assert |n| == |m|;
    assert n == both[..|n|] == m;
  }

  lemma MarkerAtStart(n: string, toks: seq<Token>)
    requires IsMarker(n) && AllMarkers(toks) && Clean(toks) && n <= Render(toks)
    ensures toks != [] && toks[0] == Tag(n)
  {
    assert n[..6] <= n;
    NoHead(toks);
    assert toks[0] in toks;
    SameMarker(n, toks[0].name, Render(toks[1..]));
  }

  lemma NoThreeBrackets(m: string, rest: string, o: nat)
    requires IsMarker(m) && 0 < o < |m|
    ensures var s := (m + rest)[o..]; !(|s| > 2 && s[0] == '[' && s[1] == '[' && s[2] == '[')
  {
    var all := m + rest;
    assert forall i :: 0 <= i < 6 ==> m[i] == m[..6][i];
    assert forall i :: |m| - 3 <= i < |m| ==> m[i] == m[|m|-3..][i-(|m|-3)];
    assert all[o] == m[o] && (o < 3 ==> all[3] == 'F');
  }

  lemma NotInside(n: string, m: string, o: nat, rest: string)
    requires IsMarker(n) && IsMarker(m) && 0 < o < |m|
    ensures !(n <= (m + rest)[o..])
  {
    NoThreeBrackets(m, rest, o);
  }

  /** The first tag of a name is where the marker is found. */
  lemma {:induction false} NoEarlierMarker(toks: seq<Token>, n: string, i: nat, j: nat)
    requires IsMarker(n) && AllMarkers(toks) && Clean(toks) && i < |toks| && Tag(n) !in toks[..i]
    requires j < |Render(toks[..i])|
    ensures !OccursAt(Render(toks), n, j)
  {
    var r, u, rest := Render(toks), Spelled(toks[0]), toks[1..];
    assert toks[..i][1..] == rest[..i-1] && toks[..i][0] == toks[0] && toks[0] in toks;
    CleanTail(toks, 1);
    if j == 0 {
      if OccursAt(r, n, 0) {
        assert r[0..] == r;
        MarkerAtStart(n, toks);
      }
    } else if j < |u| {
      NotInside(n, toks[0].name, j, Render(rest));
    } else {
      assert j <= |r| ==> r[j..] == Render(rest)[j-|u|..];
      assert Tag(n) !in rest[..i-1];
      NoEarlierMarker(rest, n, i - 1, j - |u|);
    }
  }

  lemma RenderAround(a: seq<Token>, n: string, b: seq<Token>)
    ensures Render(a + [Tag(n)] + b) == Render(a) + n + Render(b)
  {
    RenderConcat(a + [Tag(n)], b);
    RenderConcat(a, [Tag(n)]);
    RenderOne(n);
  }

  lemma MarkerFound(a: seq<Token>, n: string, b: seq<Token>)
    requires IsMarker(n) && AllMarkers(a + [Tag(n)] + b) && Clean(a + [Tag(n)] + b) && Tag(n) !in a
    ensures IndexOf(Render(a) + n + Render(b), n) == Some(|Render(a)|)
  {
    var toks := a + [Tag(n)] + b;
    SplitAround(a, Tag(n), b);
    RenderAround(a, n, b);
    forall j | 0 <= j < |Render(a)| ensures !OccursAt(Render(toks), n, j) {
      NoEarlierMarker(toks, n, |a|, j);
    }
    IndexOfAt(Render(toks), n, |Render(a)|);
  }

  // ------------------------------------------------------------------ taking values out again

  function ExtractMarkerValue(text: string, start: string, end: string): Result<string, DocError> {
    IndexOfBounds(text, start);
    match IndexOf(text, start)
    case None => Failure(MissingMarker(start))
    case Some(i) =>
      var rest := text[i+|start|..];
      IndexOfBounds(rest, end);
      match IndexOf(rest, end)
      case None => Failure(MissingMarker(end))
      case Some(j) => Success(rest[..j])
  }

  lemma SplitAround<T>(a: seq<T>, x: T, b: seq<T>)
    ensures var all := a + [x] + b; all[..|a|] == a && all[|a|] == x && all[|a|+1..] == b
  {
  }

  lemma CleanInner(a: seq<Token>, x: Token, b: seq<Token>)
    requires AllMarkers(a + [x] + b) && Clean(a + [x] + b)
    ensures AllMarkers(b) && Clean(b)
  {
    SplitAround(a, x, b);
    CleanTail(a + [x] + b, |a| + 1);
  }

  lemma ExtractedFromText(pre: string, start: string, v: string, end: string, post: string)
    requires IndexOf(pre + start + (v + end + post), start) == Some(|pre|)
    requires IndexOf(v + end + post, end) == Some(|v|)
    ensures ExtractMarkerValue(pre + start + (v + end + post), start, end) == Success(v)
  {
    var rest := v + end + post;
    assert (pre + start + rest)[|pre|+|start|..] == rest;
    assert rest[..|v|] == v;
  }

  /** In clean text, what stands between a marker's tags is what is extracted. */
  lemma ExtractedBetween(a: seq<Token>, v: string, b: seq<Token>, start: string, end: string)
    requires IsMarker(start) && IsMarker(end)
    requires var toks := a + [Tag(start)] + (Chars(v) + [Tag(end)] + b); AllMarkers(toks) && Clean(toks)
    requires Tag(start) !in a
    ensures ExtractMarkerValue(Render(a + [Tag(start)] + (Chars(v) + [Tag(end)] + b)), start, end) == Success(v)
  {
    var inner := Chars(v) + [Tag(end)] + b;
    CleanInner(a, Tag(start), inner);
    RenderChars(v);
    RenderAround(Chars(v), end, b);
    RenderAround(a, start, inner);
    MarkerFound(Chars(v), end, b);
    MarkerFound(a, start, inner);
    ExtractedFromText(Render(a), start, v, end, Render(b));
  }

  // ------------------------------------------------------------------ the template can be read back

  ghost predicate GoodRow(row: Row) {
    match row
    case Plain(text) => !Contains(text, HEAD)
    case Slot(prefix, m, value) => KnownField(m.field) && !Contains(prefix, HEAD) && !Contains(value, HEAD)
  }

  ghost predicate GoodRows(rows: seq<Row>) {
    && (forall k :: 0 <= k < |rows| ==> GoodRow(rows[k]))
    && (forall j, k :: 0 <= j < k < |rows| && rows[j].Slot? && rows[k].Slot? ==> rows[j].marker != rows[k].marker)
  }

  lemma MarkersConcatTokens(a: seq<Token>, b: seq<Token>)
    requires AllMarkers(a) && AllMarkers(b)
    ensures AllMarkers(a + b)
  {
  }

  lemma CleanNothing()
    ensures Clean([])
  {
  }

  lemma RowClean(row: Row)
    requires GoodRow(row)
    ensures Clean(RowToks(row)) && AllMarkers(RowToks(row))
  {
    match row
    case Plain(text) => CleanChars(text);
    case Slot(prefix, m, value) =>
      var s, e := Tag(m.StartTag()), Tag(m.EndTag());
      CleanChars(prefix);
      CleanChars(value);
      CleanNothing();
      CleanAround(Chars(value), e, []);
      assert Chars(value) + [e] + [] == Chars(value) + [e];
      CleanAround(Chars(prefix), s, Chars(value) + [e]);
      MarkerIsMarker(m.field, m.index, Start);
      MarkerIsMarker(m.field, m.index, End);
  }

  lemma {:induction false} TemplateClean(rows: seq<Row>)
    requires forall k :: 0 <= k < |rows| ==> GoodRow(rows[k])
    ensures Clean(TemplateToks(rows)) && AllMarkers(TemplateToks(rows))
  {
    if rows != [] {
      RowClean(rows[0]);
      if |rows| > 1 {
        TemplateClean(rows[1..]);
        CleanAround(RowToks(rows[0]), Ch('\n'), TemplateToks(rows[1..]));
        MarkersConcatTokens(RowToks(rows[0]) + [Ch('\n')], TemplateToks(rows[1..]));
      }
    }
  }

  /** The tag belongs to a row before row k. */
  ghost predicate TagOfEarlier(rows: seq<Row>, k: nat, t: Token) {
    exists j :: 0 <= j < k && j < |rows| && rows[j].Slot?
             && (t == Tag(rows[j].marker.StartTag()) || t == Tag(rows[j].marker.EndTag()))
  }

  lemma EarlierInTail(rows: seq<Row>, k: nat, t: Token)
    requires 0 < k < |rows| && TagOfEarlier(rows[1..], k - 1, t)
    ensures TagOfEarlier(rows, k, t)
  {
    var j :| 0 <= j < k - 1 && j < |rows[1..]| && rows[1..][j].Slot?
             && (t == Tag(rows[1..][j].marker.StartTag()) || t == Tag(rows[1..][j].marker.EndTag()));
    assert rows[j+1] == rows[1..][j];
  }

  lemma TagOfFirst(rows: seq<Row>, k: nat, t: Token)
    requires 0 < k < |rows| && t.Tag? && t in RowToks(rows[0])
    ensures TagOfEarlier(rows, k, t)
  {
    assert rows[0].Slot?;
  }

  /** The template, split at the tags of its first row. */
  lemma SplitAtFirst(rows: seq<Row>) returns (b: seq<Token>)
    requires rows != [] && rows[0].Slot?
    ensures TemplateToks(rows)
         == Chars(rows[0].prefix) + [Tag(rows[0].marker.StartTag())]
            + (Chars(rows[0].value) + [Tag(rows[0].marker.EndTag())] + b)
  {
    var a, s, inner := Chars(rows[0].prefix), Tag(rows[0].marker.StartTag()),
                       Chars(rows[0].value) + [Tag(rows[0].marker.EndTag())];
    if |rows| == 1 {
      b := [];
      assert inner + b == inner;
    } else {
      b := [Ch('\n')] + TemplateToks(rows[1..]);
      Assoc(a + [s] + inner, [Ch('\n')], TemplateToks(rows[1..]));
      Assoc(a + [s], inner, b);
    }
  }

  lemma TagsOfEarlier(rows: seq<Row>, k: nat, a: seq<Token>)
    requires 0 < k < |rows| && forall t :: t in a && t.Tag? ==> TagOfEarlier(rows[1..], k - 1, t)
    ensures forall t :: t in RowToks(rows[0]) + [Ch('\n')] + a && t.Tag? ==> TagOfEarlier(rows, k, t)
  {
    forall t | t in RowToks(rows[0]) + [Ch('\n')] + a && t.Tag? ensures TagOfEarlier(rows, k, t) {
      if t in a {
        EarlierInTail(rows, k, t);
      } else {
        TagOfFirst(rows, k, t);
      }
    }
  }

  /** The template, split at the tags of row k. */
  lemma {:induction false} SplitTemplate(rows: seq<Row>, k: nat) returns (a: seq<Token>, b: seq<Token>)
    requires k < |rows| && rows[k].Slot?
    ensures TemplateToks(rows)
         == a + [Tag(rows[k].marker.StartTag())] + (Chars(rows[k].value) + [Tag(rows[k].marker.EndTag())] + b)
    ensures forall t :: t in a && t.Tag? ==> TagOfEarlier(rows, k, t)
    decreases k
  {
    if k == 0 {
      a := Chars(rows[0].prefix);
      b := SplitAtFirst(rows);
    } else {
      var a', b' := SplitTemplate(rows[1..], k - 1);
      var head := RowToks(rows[0]) + [Ch('\n')];
      a, b := head + a', b';
      var s, inner := [Tag(rows[k].marker.StartTag())], Chars(rows[k].value) + [Tag(rows[k].marker.EndTag())] + b;
      Assoc(head, a' + s, inner);
      Assoc(head, a', s);
      TagsOfEarlier(rows, k, a');
    }
  }

  lemma SameFieldName(field: string, i: nat, j: nat, ki: Kind, kj: Kind)
    requires MarkerName(field, i, ki) == MarkerName(field, j, kj)
    ensures i == j && ki == kj
  {
    var n := MarkerName(field, i, ki);
    var p := |HEAD| + |field| + 1;
    assert ki == Start ==> n[|n|-4] == 'T';
    assert ki == End ==> n[|n|-4] == 'D';
    assert kj == Start ==> n[|n|-4] == 'T';
    assert kj == End ==> n[|n|-4] == 'D';
    var q := |n| - (if ki == Start then 9 else 7);
    assert n[p..q] == Digits(i) && n[p..q] == Digits(j);
    DigitsInjective(i, j);
  }

  lemma NamesDiffer(m1: Marker, m2: Marker, k1: Kind, k2: Kind)
    requires KnownField(m1.field) && KnownField(m2.field) && (m1 != m2 || k1 != k2)
    ensures MarkerName(m1.field, m1.index, k1) != MarkerName(m2.field, m2.index, k2)
  {
    if m1.field == m2.field {
      if MarkerName(m1.field, m1.index, k1) == MarkerName(m2.field, m2.index, k2) {
        SameFieldName(m1.field, m1.index, m2.index, k1, k2);
      }
    } else {
      assert MarkerName(m1.field, m1.index, k1)[6] == m1.field[0];
      assert MarkerName(m2.field, m2.index, k2)[6] == m2.field[0];
    }
  }

  /** Every value can be extracted from the template again. */
  lemma RowExtracted(rows: seq<Row>, row: Row)
    requires GoodRows(rows) && row in rows && row.Slot?
    ensures ExtractMarkerValue(Render(TemplateToks(rows)), row.marker.StartTag(), row.marker.EndTag())
         == Success(row.value)
  {
    var k :| 0 <= k < |rows| && rows[k] == row;
    var a, b := SplitTemplate(rows, k);
    TemplateClean(rows);
    assert GoodRow(rows[k]);
    MarkerIsMarker(row.marker.field, row.marker.index, Start);
    MarkerIsMarker(row.marker.field, row.marker.index, End);
    if Tag(row.marker.StartTag()) in a {
      assert TagOfEarlier(rows, k, Tag(row.marker.StartTag()));
      var j :| 0 <= j < k && rows[j].Slot? && (Tag(row.marker.StartTag()) == Tag(rows[j].marker.StartTag())
                                            || Tag(row.marker.StartTag()) == Tag(rows[j].marker.EndTag()));
      assert GoodRow(rows[j]);
      NamesDiffer(row.marker, rows[j].marker, Start, Start);
      NamesDiffer(row.marker, rows[j].marker, Start, End);
    }
    ExtractedBetween(a, row.value, b, row.marker.StartTag(), row.marker.EndTag());
  }

  // ------------------------------------------------------------------ writing the values back

  function Padded(items: seq<Item>, n: nat): seq<Item>
    decreases n - |items|
  {
    if n < |items| then items else Padded(items + [Words("")], n)
  }

  lemma {:induction false} PaddedLength(items: seq<Item>, n: nat)
    ensures n < |Padded(items, n)|
    decreases n - |items|
  {
    if n >= |items| {
      PaddedLength(items + [Words("")], n);
    }
  }

  function WithItem(items: seq<Item>, index: nat, value: string): seq<Item> {
    PaddedLength(items, index);
    Padded(items, index)[index := Words(value)]
  }

  method SetReadWhenValue(existing: Option<Value>, index: nat, value: string) returns (items: seq<Item>)
    ensures items == WithItem(
              if existing.Some? && existing.value.Items? then existing.value.items else [], index, value)
  {
    items := if existing.Some? && existing.value.Items? then existing.value.items else [];
    ghost var padded := Padded(items, index);
    while |items| <= index
      invariant Padded(items, index) == padded
      decreases index - |items|
    {
      items := items + [Words("")];
    }
    items := items[index := Words(value)];
  }

  function ReadWhen(data: Data): seq<Item> {
    if "read_when" in data && data["read_when"].Items? then data["read_when"].items else []
  }

  function WithValue(data: Data, m: Marker, value: string): Data {
    if m.field == SUMMARY then data["summary" := Str(value)]
    else if m.field == TITLE then data["title" := Str(value)]
    else if m.field == READ_WHEN then data["read_when" := Items(WithItem(ReadWhen(data), m.index, value))]
    else data
  }

  function ApplyAll(data: Data, markers: seq<Marker>, front: string): Result<Data, DocError>
    decreases |markers|
  {
    if markers == [] then Success(data)
    else match ExtractMarkerValue(front, markers[0].StartTag(), markers[0].EndTag())
         case Failure(e) => Failure(e)
         case Success(value) => ApplyAll(WithValue(data, markers[0], Trim(value)), markers[1..], front)
  }

  method ApplyFrontmatterTranslations(data0: Data, markers: seq<Marker>, front: string)
    returns (r: Result<Data, DocError>)
    ensures r == ApplyAll(data0, markers, front)
  {
    var data := data0;
    for i := 0 to |markers|
      invariant ApplyAll(data, markers[i..], front) == ApplyAll(data0, markers, front)
    {
      var marker := markers[i];
      assert markers[i..][0] == marker && markers[i..][1..] == markers[i+1..];
      var extracted := ExtractMarkerValue(front, marker.StartTag(), marker.EndTag());
      if extracted.Failure? {
        return Failure(extracted.error);
      }
      var value := Trim(extracted.value);
      if marker.field == SUMMARY {
        data := data["summary" := Str(value)];
      } else if marker.field == TITLE {
        data := data["title" := Str(value)];
      } else if marker.field == READ_WHEN {
        var items := SetReadWhenValue(
          if "read_when" in data then Some(data["read_when"]) else None, marker.index, value);
        data := data["read_when" := Items(items)];
      }
    }
    r := Success(data);
  }

  lemma {:induction false} ApplyConcat(data: Data, a: seq<Marker>, b: seq<Marker>, front: string)
    requires ApplyAll(data, a, front).Success?
    ensures ApplyAll(data, a + b, front) == ApplyAll(ApplyAll(data, a, front).value, b, front)
    decreases |a|
  {
    if a == [] {
      assert a + b == b;
    } else {
      TailOfConcat(a, b);
      var value := ExtractMarkerValue(front, a[0].StartTag(), a[0].EndTag()).value;
      ApplyConcat(WithValue(data, a[0], Trim(value)), a[1..], b, front);
    }
  }

  function TrimmedItem(item: Item): Item {
    match item
    case Words(text) => Words(Trim(text))
    case OtherItem(_) => item
  }

  /** The first i items trimmed. */
  function PartlyTrimmed(items: seq<Item>, i: nat): seq<Item> {
    seq(|items|, k requires 0 <= k < |items| => if k < i then TrimmedItem(items[k]) else items[k])
  }

  function TrimmedField(data: Data, field: string): Data {
    if field in data && data[field].Str? then data[field := Str(Trim(data[field].s))] else data
  }

  function TrimmedItems(data: Data): Data {
    if "read_when" in data && data["read_when"].Items? then
      data["read_when" := Items(PartlyTrimmed(data["read_when"].items, |data["read_when"].items|))]
    else data
  }

  /** Every translatable string trimmed, everything else as it was. */
  function TrimmedData(data: Data): Data {
    TrimmedItems(TrimmedField(TrimmedField(data, "summary"), "title"))
  }

  /** Nothing that is printed into the template contains the head of a marker. */
  ghost predicate NoHeads(data: Data) {
    && ("summary" in data && data["summary"].Str? ==> !Contains(data["summary"].s, HEAD))
    && ("title" in data && data["title"].Str? ==> !Contains(data["title"].s, HEAD))
    && forall k :: 0 <= k < |ReadWhen(data)| ==>
         match ReadWhen(data)[k]
         case Words(text) => !Contains(text, HEAD)
         case OtherItem(shown) => !Contains("  - " + shown, HEAD)
  }

  lemma NoBrackets(s: string)
    requires '[' !in s
    ensures !Contains(s, HEAD)
  {
    forall i | 0 <= i <= |s| ensures !OccursAt(s, HEAD, i) {
      OccursByCharacters(s, HEAD, i);
      assert i + 6 <= |s| ==> s[i] in s && s[i+0] == s[i];
    }
  }

  lemma ReadWhenRow(data: Data, k: nat)
    requires 0 < k < |ReadWhenRows(data)|
    ensures k <= |ReadWhen(data)| && ReadWhenRows(data)[k] == ItemRow(ReadWhen(data)[k-1], k - 1)
  {
    assert ItemRows(ReadWhen(data), 0)[k-1] == ItemRow(ReadWhen(data)[k-1], k - 1);
  }

  lemma ReadWhenRowsGood(data: Data)
    requires NoHeads(data)
    ensures forall k :: 0 <= k < |ReadWhenRows(data)| ==>
              GoodRow(ReadWhenRows(data)[k]) && (ReadWhenRows(data)[k].Slot? ==>
                ReadWhenRows(data)[k].marker.field == READ_WHEN && ReadWhenRows(data)[k].marker.index == k - 1)
  {
    NoBrackets("read_when:");
    NoBrackets("  - ");
    var items := ReadWhen(data);
    forall k | 0 < k < |ReadWhenRows(data)|
      ensures ReadWhenRows(data)[k] == ItemRow(items[k-1], k - 1) && GoodRow(ReadWhenRows(data)[k])
    {
      ReadWhenRow(data, k);
    }
  }

  lemma FieldRowsGood(data: Data)
    requires NoHeads(data)
    ensures forall row :: row in SummaryRows(data) ==> GoodRow(row) && row.marker.field == SUMMARY
    ensures forall row :: row in TitleRows(data) ==> GoodRow(row) && row.marker.field == TITLE
  {
    NoBrackets("summary: ");
    NoBrackets("title: ");
  }

  lemma RowAt(data: Data, k: nat)
    requires k < |Rows(data)|
    ensures var a, b, c := SummaryRows(data), TitleRows(data), ReadWhenRows(data);
      Rows(data)[k] == if k < |a| then a[k] else if k < |a| + |b| then b[k-|a|] else c[k-|a|-|b|]
  {
  }

  lemma RowsDistinct(data: Data, j: nat, k: nat)
    requires NoHeads(data) && j < k < |Rows(data)| && Rows(data)[j].Slot? && Rows(data)[k].Slot?
    ensures Rows(data)[j].marker != Rows(data)[k].marker
  {
    FieldRowsGood(data);
    ReadWhenRowsGood(data);
    assert SUMMARY[0] == 'S' && TITLE[0] == 'T' && READ_WHEN[0] == 'R';
    RowAt(data, j);
    RowAt(data, k);
  }

  lemma RowsAreGood(data: Data)
    requires NoHeads(data)
    ensures GoodRows(Rows(data))
  {
    FieldRowsGood(data);
    ReadWhenRowsGood(data);
    forall k: nat | k < |Rows(data)| ensures GoodRow(Rows(data)[k]) {
      RowAt(data, k);
    }
    forall j: nat, k: nat | j < k < |Rows(data)| && Rows(data)[j].Slot? && Rows(data)[k].Slot?
      ensures Rows(data)[j].marker != Rows(data)[k].marker
    {
      RowsDistinct(data, j, k);
    }
  }

  lemma ListValue(data: Data, items: seq<Item>, i: nat, value: string)
    requires "read_when" in data && data["read_when"] == Items(items)
    ensures WithValue(data, Marker(READ_WHEN, i), value) == data["read_when" := Items(WithItem(items, i, value))]
  {
    assert SUMMARY[0] == 'S' && TITLE[0] == 'T' && READ_WHEN[0] == 'R';
  }

  /** Every string from item `from` on is found between its markers. */
  ghost predicate Extractable(items: seq<Item>, from: nat, front: string) {
    forall k: nat :: from <= k < |items| && items[k].Words? ==>
      ExtractMarkerValue(front, Marker(READ_WHEN, k).StartTag(), Marker(READ_WHEN, k).EndTag())
      == Success(items[k].text)
  }

  lemma MarkersOfItems(items: seq<Item>, i: nat)
    requires i < |items|
    ensures MarkersOf(ItemRows(items, i))
         == if items[i].Words? then [Marker(READ_WHEN, i)] + MarkersOf(ItemRows(items, i + 1))
            else MarkersOf(ItemRows(items, i + 1))
  {
    assert ItemRows(items, i)[0] == ItemRow(items[i], i);
    assert ItemRows(items, i)[1..] == ItemRows(items, i + 1);
  }

  lemma NextTrimmed(items: seq<Item>, i: nat)
    requires i < |items|
    ensures PartlyTrimmed(items, i + 1)
         == if items[i].Words? then WithItem(PartlyTrimmed(items, i), i, Trim(items[i].text))
            else PartlyTrimmed(items, i)
  {
  }

  lemma FirstMarkerApplied(data: Data, m: Marker, ms: seq<Marker>, front: string, value: string)
    requires ExtractMarkerValue(front, m.StartTag(), m.EndTag()) == Success(value)
    ensures ApplyAll(data, [m] + ms, front) == ApplyAll(WithValue(data, m, Trim(value)), ms, front)
  {
    assert ([m] + ms)[1..] == ms;
  }

  lemma Overwritten(data: Data, key: string, v: Value, w: Value)
    ensures data[key := v][key := w] == data[key := w]
    ensures key in data && data[key] == v ==> data[key := v] == data
  {
  }

  lemma WordsWrittenBack(data: Data, items: seq<Item>, i: nat, front: string)
    requires i < |items| && items[i].Words?
    requires "read_when" in data && data["read_when"] == Items(PartlyTrimmed(items, i))
    requires ExtractMarkerValue(front, Marker(READ_WHEN, i).StartTag(), Marker(READ_WHEN, i).EndTag())
          == Success(items[i].text)
    ensures ApplyAll(data, MarkersOf(ItemRows(items, i)), front)
         == ApplyAll(data["read_when" := Items(PartlyTrimmed(items, i + 1))], MarkersOf(ItemRows(items, i + 1)), front)
  {
    MarkersOfItems(items, i);
    NextTrimmed(items, i);
    FirstMarkerApplied(data, Marker(READ_WHEN, i), MarkersOf(ItemRows(items, i + 1)), front, items[i].text);
    ListValue(data, PartlyTrimmed(items, i), i, Trim(items[i].text));
  }

  lemma OtherWrittenBack(data: Data, items: seq<Item>, i: nat)
    requires i < |items| && items[i].OtherItem?
    requires "read_when" in data && data["read_when"] == Items(PartlyTrimmed(items, i))
    ensures MarkersOf(ItemRows(items, i)) == MarkersOf(ItemRows(items, i + 1))
    ensures data["read_when" := Items(PartlyTrimmed(items, i + 1))] == data
  {
    MarkersOfItems(items, i);
    NextTrimmed(items, i);
    Overwritten(data, "read_when", Items(PartlyTrimmed(items, i)), Other);
  }

  lemma NothingWrittenBack(data: Data, items: seq<Item>, front: string)
    requires "read_when" in data && data["read_when"] == Items(PartlyTrimmed(items, |items|))
    ensures ApplyAll(data, MarkersOf(ItemRows(items, |items|)), front)
         == Success(data["read_when" := Items(PartlyTrimmed(items, |items|))])
  {
    assert ItemRows(items, |items|) == [];
    Overwritten(data, "read_when", Items(PartlyTrimmed(items, |items|)), Other);
  }

  lemma {:induction false} ItemsWrittenBack(data: Data, items: seq<Item>, i: nat, front: string)
    requires i <= |items| && "read_when" in data && data["read_when"] == Items(PartlyTrimmed(items, i))
    requires Extractable(items, i, front)
    ensures ApplyAll(data, MarkersOf(ItemRows(items, i)), front)
         == Success(data["read_when" := Items(PartlyTrimmed(items, |items|))])
    decreases |items| - i
  {
    if i == |items| {
      NothingWrittenBack(data, items, front);
    } else {
      if items[i].Words? {
        WordsWrittenBack(data, items, i, front);
      } else {
        OtherWrittenBack(data, items, i);
      }
      var next := data["read_when" := Items(PartlyTrimmed(items, i + 1))];
      ItemsWrittenBack(next, items, i + 1, front);
      Overwritten(data, "read_when", next["read_when"], Items(PartlyTrimmed(items, |items|)));
    }
  }

  lemma FieldWrittenBack(data: Data, field: string, m: Marker, front: string)
    requires (field == "summary" && m.field == SUMMARY) || (field == "title" && m.field == TITLE)
    requires field in data && data[field].Str?
    requires ExtractMarkerValue(front, m.StartTag(), m.EndTag()) == Success(data[field].s)
    ensures ApplyAll(data, [m], front) == Success(TrimmedField(data, field))
  {
    assert SUMMARY[0] == 'S' && TITLE[0] == 'T';
    assert [m] + [] == [m];
    FirstMarkerApplied(data, m, [], front, data[field].s);
  }

  lemma SummaryWrittenBack(data: Data)
    requires NoHeads(data)
    ensures ApplyAll(data, MarkersOf(SummaryRows(data)), Template(data)) == Success(TrimmedField(data, "summary"))
  {
    if SummaryRows(data) != [] {
      var row := SummaryRows(data)[0];
      RowsAreGood(data);
      assert Rows(data)[0] == row;
      RowExtracted(Rows(data), row);
      assert SummaryRows(data)[1..] == [] && MarkersOf(SummaryRows(data)) == [row.marker];
      FieldWrittenBack(data, "summary", row.marker, Template(data));
    }
  }

  lemma TitleWrittenBack(data: Data, d1: Data)
    requires NoHeads(data) && d1 == TrimmedField(data, "summary")
    ensures ApplyAll(d1, MarkersOf(TitleRows(data)), Template(data)) == Success(TrimmedField(d1, "title"))
  {
    if TitleRows(data) != [] {
      var row := TitleRows(data)[0];
      RowsAreGood(data);
      assert Rows(data)[|SummaryRows(data)|] == row;
      RowExtracted(Rows(data), row);
      assert TitleRows(data)[1..] == [] && MarkersOf(TitleRows(data)) == [row.marker];
      FieldWrittenBack(d1, "title", row.marker, Template(data));
    }
  }

  lemma ItemExtracted(data: Data, k: nat)
    requires NoHeads(data) && k < |ReadWhen(data)| && ReadWhen(data)[k].Words?
    ensures ExtractMarkerValue(Template(data), Marker(READ_WHEN, k).StartTag(), Marker(READ_WHEN, k).EndTag())
         == Success(ReadWhen(data)[k].text)
  {
    var row := ItemRow(ReadWhen(data)[k], k);
    RowsAreGood(data);
    assert ReadWhenRows(data)[1 + k] == row;
    assert Rows(data)[|SummaryRows(data)| + |TitleRows(data)| + 1 + k] == row;
    RowExtracted(Rows(data), row);
  }

  lemma ItemsKept(data: Data)
    requires ReadWhenRows(data) != []
    ensures var d2 := TrimmedField(TrimmedField(data, "summary"), "title");
      "read_when" in d2 && d2["read_when"] == data["read_when"]
  {
    assert "summary"[0] == 's' && "title"[0] == 't' && "read_when"[0] == 'r';
  }

  lemma MarkersOfReadWhen(data: Data)
    requires ReadWhenRows(data) != []
    ensures MarkersOf(ReadWhenRows(data)) == MarkersOf(ItemRows(ReadWhen(data), 0))
  {
    assert ReadWhenRows(data)[1..] == ItemRows(ReadWhen(data), 0);
  }

  lemma ReadWhenWrittenBack(data: Data, d2: Data)
    requires NoHeads(data) && d2 == TrimmedField(TrimmedField(data, "summary"), "title")
    ensures ApplyAll(d2, MarkersOf(ReadWhenRows(data)), Template(data)) == Success(TrimmedItems(d2))
  {
    if ReadWhenRows(data) == [] {
      NoListToTrim(data);
    } else {
      var items := ReadWhen(data);
      ItemsKept(data);
      MarkersOfReadWhen(data);
      forall k: nat | k < |items| && items[k].Words? { ItemExtracted(data, k); }
      assert PartlyTrimmed(items, 0) == items;
      ItemsWrittenBack(d2, items, 0, Template(data));
    }
  }

  lemma NoListToTrim(data: Data)
    requires ReadWhenRows(data) == []
    ensures var d2 := TrimmedField(TrimmedField(data, "summary"), "title"); TrimmedItems(d2) == d2
  {
    assert "summary"[0] == 's' && "title"[0] == 't' && "read_when"[0] == 'r';
  }

  /** Applying the markers of an unchanged template gives every translatable string back, trimmed, for any
      number of list items. */
  lemma TemplateWrittenBack(data: Data)
    requires NoHeads(data)
    ensures ApplyAll(data, MarkersOf(Rows(data)), Template(data)) == Success(TrimmedData(data))
  {
    var front := Template(data);
    var ms, mt, mr := MarkersOf(SummaryRows(data)), MarkersOf(TitleRows(data)), MarkersOf(ReadWhenRows(data));
    MarkersConcat(SummaryRows(data) + TitleRows(data), ReadWhenRows(data));
    MarkersConcat(SummaryRows(data), TitleRows(data));
    SummaryWrittenBack(data);
    var d1 := TrimmedField(data, "summary");
    TitleWrittenBack(data, d1);
    ReadWhenWrittenBack(data, TrimmedField(d1, "title"));
    ApplyConcat(data, ms, mt, front);
    ApplyConcat(data, ms + mt, mr, front);
  }

  // ------------------------------------------------------------------ one document

  /** `reply` is the raw translation of a prompt. */
  function TranslatedDocument(data: Data, sourceFront: string, body: string, reply: string -> Result<string, DocError>)
    : Result<(Data, string), DocError>
  {
    match reply(FormatTaggedDocument(Template(data), body))
    case Failure(e) => Failure(e)
    case Success(text) =>
      match ParseTaggedDocument(text)
      case Failure(e) => Failure(e)
      case Success((front, translatedBody)) =>
        if sourceFront != "" && Blank(front) then Failure(FrontMatterRemoved)
        else match ApplyAll(data, MarkersOf(Rows(data)), front)
             case Failure(e) => Failure(e)
             case Success(translated) => Success((translated, translatedBody))
  }

  method TranslateDocument(
    data: Data, sourceFront: string, body: string, reply: string -> Result<string, DocError>)
    returns (r: Result<(Data, string), DocError>)
    ensures r == TranslatedDocument(data, sourceFront, body, reply)
  {
    var template, markers := BuildFrontmatterTemplate(data);
    var translatedDoc := reply(FormatTaggedDocument(template, body));
    if translatedDoc.Failure? {
      return Failure(translatedDoc.error);
    }
    var parsed := ParseTaggedDocument(translatedDoc.value);
    if parsed.Failure? {
      return Failure(parsed.error);
    }
    var (front, translatedBody) := parsed.value;
    if sourceFront != "" && Blank(front) {
      return Failure(FrontMatterRemoved);
    }
    var applied := ApplyFrontmatterTranslations(data, markers, front);
    if applied.Failure? {
      return Failure(applied.error);
    }
    r := Success((applied.value, translatedBody));
  }

  /** A reply is refused for what is wrong with its tags, before anything else is looked at: a tag that is missing from
      its place, or text that can be seen around the sections. */
  lemma BadTagsAreRefused(
    data: Data, sourceFront: string, body: string, reply: string -> Result<string, DocError>, text: string, e: DocError)
    requires reply(FormatTaggedDocument(Template(data), body)) == Success(text) && RefusedFor(text, e)
    ensures TranslatedDocument(data, sourceFront, body, reply) == Failure(e)
  {
    RefusedExactlyWhen(text, e);
  }

  /** A document is translated exactly when the reply has both sections, the front matter is still there if there was
      one, and every marker is found in it; the body is that of the reply. */
  lemma TranslatedExactlyWhen(
    data: Data, sourceFront: string, body: string, reply: string -> Result<string, DocError>, text: string,
    translated: Data, translatedBody: string)
    requires reply(FormatTaggedDocument(Template(data), body)) == Success(text)
    ensures TranslatedDocument(data, sourceFront, body, reply) == Success((translated, translatedBody)) <==>
            exists front: string :: AcceptedAs(text, front, translatedBody) && (sourceFront != "" ==> !Blank(front))
                                    && ApplyAll(data, MarkersOf(Rows(data)), front) == Success(translated)
  {
    var parsed := ParseTaggedDocument(text);
    if parsed.Success? {
      ParsesExactlyWhen(text, parsed.value.0, parsed.value.1);
    }
    forall front: string
      ensures AcceptedAs(text, front, translatedBody) ==> parsed == Success((front, translatedBody))
    {
      ParsesExactlyWhen(text, front, translatedBody);
    }
  }

  /** The front matter has something to translate: a summary, a title or a `read_when` list. */
  predicate Translatable(data: Data) {
    || ("summary" in data && data["summary"].Str?)
    || ("title" in data && data["title"].Str?)
    || ("read_when" in data && data["read_when"].Items?)
  }

  lemma {:induction false} FirstNonSpaceStays(s: string)
    requires s != "" && !IsSpace(s[0])
    ensures TrimRight(s) != ""
  {
    if IsSpace(s[|s|-1]) {
      assert s[..|s|-1] != "";
      FirstNonSpaceStays(s[..|s|-1]);
    }
  }

  lemma FirstRowText(rows: seq<Row>)
    requires rows != []
    ensures RowText(rows[0]) <= Render(TemplateToks(rows))
  {
    RenderRow(rows[0]);
    if |rows| > 1 {
      RenderConcat(RowToks(rows[0]) + [Ch('\n')], TemplateToks(rows[1..]));
      RenderConcat(RowToks(rows[0]), [Ch('\n')]);
    }
  }

  lemma FirstRowVisible(data: Data)
    requires Rows(data) != []
    ensures RowText(Rows(data)[0]) != "" && !IsSpace(RowText(Rows(data)[0])[0])
  {
    RowAt(data, 0);
    var text := RowText(Rows(data)[0]);
    var start := if SummaryRows(data) != [] then "summary: " else if TitleRows(data) != [] then "title: "
                 else "read_when:";
    assert start <= text && text[0] == start[0];
  }

  lemma TemplateBlankExactlyWhen(data: Data)
    ensures Blank(Template(data)) <==> !Translatable(data)
  {
    if Translatable(data) {
      var rows := Rows(data);
      assert rows != [];
      FirstRowText(rows);
      FirstRowVisible(data);
      assert Template(data)[0] == RowText(rows[0])[0];
      FirstNonSpaceStays(Template(data));
    } else {
      assert Rows(data) == [];
    }
  }

  /** With a reply that repeats the prompt, the document comes back with its body unchanged and its strings
      trimmed, exactly when the source has no front matter or the front matter has something to translate.
      Otherwise the document is refused, although nothing was removed. */
  lemma EchoedDocumentExactlyWhen(
    data: Data, sourceFront: string, body: string, reply: string -> Result<string, DocError>)
    requires NoHeads(data) && !Contains(Template(data), FRONT_END) && !Contains(body, BODY_END)
    requires reply(FormatTaggedDocument(Template(data), body)) == Success(FormatTaggedDocument(Template(data), body))
    ensures TranslatedDocument(data, sourceFront, body, reply) == Success((TrimmedData(data), body))
       <==> sourceFront == "" || Translatable(data)
    ensures sourceFront != "" && !Translatable(data) ==>
              TranslatedDocument(data, sourceFront, body, reply) == Failure(FrontMatterRemoved)
  {
    ParseFormatExactlyWhen(Template(data), body);
    TemplateBlankExactlyWhen(data);
    TemplateWrittenBack(data);
  }
}
