/** What any reply makes of a document: where its values stand, and what becomes of the front matter. */
module FrontMatterReplies {
  import opened Wrappers
  import opened Text
  import opened Tokens
  import opened TaggedDocument
  import opened FrontMatter

  // ------------------------------------------------------------------ a value between its tags

  /** The text is `before`, the first start tag, the value, the first end tag after it, and `after`. */
  ghost predicate StandsBetween(
    text: string, start: string, end: string, before: string, value: string, after: string)
  {
    var rest := value + end + after;
    Split(text, before, start, rest) && Split(rest, value, end, after)
  }

  lemma SplitContains(s: string, before: string, tag: string, after: string)
    requires Split(s, before, tag, after)
    ensures Contains(s, tag)
  {
    SplitIs(s, before, tag, after);
    IndexOfIsFirst(s, tag);
    assert OccursAt(s, tag, |before|);
  }

  ghost predicate Stands(text: string, start: string, end: string, value: string) {
    exists before: string, after: string :: StandsBetween(text, start, end, before, value, after)
  }

  lemma FirstSplit(s: string, tag: string) returns (before: string, after: string)
    requires IndexOf(s, tag).Some?
    ensures Split(s, before, tag, after)
  {
    SplitOf(s, tag);
    var i := IndexOf(s, tag).value;
    before, after := s[..i], s[i+|tag|..];
  }

  lemma EndIsThere(text: string, start: string, end: string, before: string, rest: string)
    requires ExtractMarkerValue(text, start, end).Success? && Split(text, before, start, rest)
    ensures IndexOf(rest, end).Some?
  {
    SplitIs(text, before, start, rest);
  }

  lemma TwoSplits(
    text: string, start: string, end: string, before: string, rest: string, value: string, after: string)
    requires Split(text, before, start, rest) && Split(rest, value, end, after)
    ensures StandsBetween(text, start, end, before, value, after)
  {
  }

  lemma StandingIsExtracted(
    text: string, start: string, end: string, before: string, value: string, after: string)
    requires StandsBetween(text, start, end, before, value, after)
    ensures ExtractMarkerValue(text, start, end) == Success(value)
  {
    var rest := value + end + after;
    SplitIs(text, before, start, rest);
    SplitIs(rest, value, end, after);
  }

  lemma ExtractedStands(text: string, start: string, end: string, value: string)
    requires ExtractMarkerValue(text, start, end) == Success(value)
    ensures Stands(text, start, end, value)
  {
    var before, rest := FirstSplit(text, start);
    EndIsThere(text, start, end, before, rest);
    var found, after := FirstSplit(rest, end);
    TwoSplits(text, start, end, before, rest, found, after);
    StandingIsExtracted(text, start, end, before, found, after);
  }

  /** A value is extracted exactly when it stands between the first start tag and the first end tag after it. */
  lemma ExtractsExactlyWhen(text: string, start: string, end: string, value: string)
    ensures ExtractMarkerValue(text, start, end) == Success(value) <==> Stands(text, start, end, value)
  {
    if ExtractMarkerValue(text, start, end) == Success(value) {
      ExtractedStands(text, start, end, value);
    }
    if Stands(text, start, end, value) {
      var before: string, after: string :| StandsBetween(text, start, end, before, value, after);
      StandingIsExtracted(text, start, end, before, value, after);
    }
  }

  /** Otherwise the error names the tag that is missing. */
  lemma MissingIsNamed(text: string, start: string, end: string)
    requires forall value: string :: !Stands(text, start, end, value)
    ensures ExtractMarkerValue(text, start, end)
         == Failure(MissingMarker(if Contains(text, start) then end else start))
  {
    IndexOfIsFirst(text, start);
    if ExtractMarkerValue(text, start, end).Success? {
      ExtractedStands(text, start, end, ExtractMarkerValue(text, start, end).value);
    }
    SplitOf(text, start);
    if IndexOf(text, start).Some? {
      var i := IndexOf(text, start).value;
      SplitContains(text, text[..i], start, text[i+|start|..]);
    }
  }

  // ------------------------------------------------------------------ all values

  function ValueOf(front: string, field: string, index: nat): Result<string, DocError> {
    var m := Marker(field, index);
    ExtractMarkerValue(front, m.StartTag(), m.EndTag())
  }

  /** The value of a marker that is found. */
  function Found(front: string, field: string, index: nat): string {
    if ValueOf(front, field, index).Success? then ValueOf(front, field, index).value else ""
  }

  /** Every translatable string has its value in the reply. */
  ghost predicate AllFound(data: Data, front: string) {
    && ("summary" in data && data["summary"].Str? ==> ValueOf(front, SUMMARY, 0).Success?)
    && ("title" in data && data["title"].Str? ==> ValueOf(front, TITLE, 0).Success?)
    && forall k: nat :: k < |ReadWhen(data)| && ReadWhen(data)[k].Words? ==> ValueOf(front, READ_WHEN, k).Success?
  }

  /** A list with every string in it replaced by its value in the reply, from item i on. */
  function Refilled(items: seq<Item>, current: seq<Item>, i: nat, front: string): seq<Item>
    requires |current| == |items|
  {
    seq(|items|, k requires 0 <= k < |items| =>
      if i <= k && items[k].Words? then Words(Trim(Found(front, READ_WHEN, k))) else current[k])
  }

  /** What the entry of a key becomes. */
  function FilledValue(key: string, value: Value, front: string): Value {
    if key == "summary" && value.Str? then Str(Trim(Found(front, SUMMARY, 0)))
    else if key == "title" && value.Str? then Str(Trim(Found(front, TITLE, 0)))
    else if key == "read_when" && value.Items? then Items(Refilled(value.items, value.items, 0, front))
    else value
  }

  /** Every translatable string is its value in the reply, trimmed, and everything else is as it was. */
  ghost predicate IsFilled(data: Data, front: string, filled: Data) {
    filled.Keys == data.Keys && forall key :: key in data ==> filled[key] == FilledValue(key, data[key], front)
  }
  lemma ApplyOne(data: Data, m: Marker, front: string)
    ensures IsFound(front, m) ==>
              ApplyAll(data, [m], front)
              == Success(WithValue(data, m, Trim(ExtractMarkerValue(front, m.StartTag(), m.EndTag()).value)))
  {
    assert [m][1..] == [];
  }

  predicate IsFound(front: string, m: Marker) {
    ExtractMarkerValue(front, m.StartTag(), m.EndTag()).Success?
  }

  /** The markers are applied when all of them are found. */
  lemma {:induction false} AppliedWhenFound(data: Data, ms: seq<Marker>, front: string)
    ensures ApplyAll(data, ms, front).Success? <==> forall m :: m in ms ==> IsFound(front, m)
    decreases |ms|
  {
    if ms != [] {
      assert forall m :: m in ms <==> m == ms[0] || m in ms[1..];
      if IsFound(front, ms[0]) {
        var value := ExtractMarkerValue(front, ms[0].StartTag(), ms[0].EndTag()).value;
        AppliedWhenFound(WithValue(data, ms[0], Trim(value)), ms[1..], front);
      }
    }
  }

  /** Otherwise the first that is not found is the error. */
  lemma {:induction false} FirstMissingIsError(data: Data, ms: seq<Marker>, front: string, k: nat, e: DocError)
    requires k < |ms| && ExtractMarkerValue(front, ms[k].StartTag(), ms[k].EndTag()) == Failure(e)
    requires forall j :: 0 <= j < k ==> IsFound(front, ms[j])
    ensures ApplyAll(data, ms, front) == Failure(e)
    decreases k
  {
    if k > 0 {
      assert IsFound(front, ms[0]);
      var value := ExtractMarkerValue(front, ms[0].StartTag(), ms[0].EndTag()).value;
      FirstMissingIsError(WithValue(data, ms[0], Trim(value)), ms[1..], front, k - 1, e);
    }
  }

  lemma {:induction false} MarkerOfRow(rows: seq<Row>, k: nat)
    requires k < |rows| && rows[k].Slot?
    ensures rows[k].marker in MarkersOf(rows)
    decreases k
  {
    if k > 0 {
      MarkerOfRow(rows[1..], k - 1);
    }
  }

  lemma FieldNames()
    ensures SUMMARY != TITLE && SUMMARY != READ_WHEN && TITLE != READ_WHEN
    ensures "summary" != "title" && "summary" != "read_when" && "title" != "read_when"
  {
    assert SUMMARY[0] == 'S' && TITLE[0] == 'T' && READ_WHEN[0] == 'R';
    assert "summary"[0] == 's' && "title"[0] == 't' && "read_when"[0] == 'r';
  }

  lemma RefilledNext(items: seq<Item>, current: seq<Item>, i: nat, front: string)
    requires i < |items| == |current|
    ensures items[i].OtherItem? ==> Refilled(items, current, i, front) == Refilled(items, current, i + 1, front)
    ensures items[i].Words? ==>
              Refilled(items, current[i := Words(Trim(Found(front, READ_WHEN, i)))], i + 1, front)
              == Refilled(items, current, i, front)
  {
  }

  lemma WordsApplied(data: Data, items: seq<Item>, current: seq<Item>, i: nat, front: string)
    requires i < |items| == |current| && items[i].Words? && ValueOf(front, READ_WHEN, i).Success?
    requires "read_when" in data && data["read_when"] == Items(current)
    ensures ApplyAll(data, MarkersOf(ItemRows(items, i)), front)
         == ApplyAll(data["read_when" := Items(current[i := Words(Trim(Found(front, READ_WHEN, i)))])],
                     MarkersOf(ItemRows(items, i + 1)), front)
  {
    MarkersOfItems(items, i);
    FirstMarkerApplied(data, Marker(READ_WHEN, i), MarkersOf(ItemRows(items, i + 1)), front,
                       Found(front, READ_WHEN, i));
    ListValue(data, current, i, Trim(Found(front, READ_WHEN, i)));
  }

  lemma {:induction false} ItemsApplied(data: Data, items: seq<Item>, current: seq<Item>, i: nat, front: string)
    requires i <= |items| == |current| && "read_when" in data && data["read_when"] == Items(current)
    requires forall k: nat :: i <= k < |items| && items[k].Words? ==> ValueOf(front, READ_WHEN, k).Success?
    ensures ApplyAll(data, MarkersOf(ItemRows(items, i)), front)
         == Success(data["read_when" := Items(Refilled(items, current, i, front))])
    decreases |items| - i
  {
    if i == |items| {
      assert ItemRows(items, i) == [] && Refilled(items, current, i, front) == current;
      Overwritten(data, "read_when", Items(current), Other);
    } else {
      RefilledNext(items, current, i, front);
      if items[i].Words? {
        var next := current[i := Words(Trim(Found(front, READ_WHEN, i)))];
        WordsApplied(data, items, current, i, front);
        ItemsApplied(data["read_when" := Items(next)], items, next, i + 1, front);
        Overwritten(data, "read_when", Items(next), Items(Refilled(items, current, i, front)));
      } else {
        MarkersOfItems(items, i);
        ItemsApplied(data, items, current, i + 1, front);
      }
    }
  }

  /** What becomes of one string field. */
  function FieldFilled(data: Data, key: string, field: string, front: string): Data {
    if key in data && data[key].Str? then data[key := Str(Trim(Found(front, field, 0)))] else data
  }

  lemma SummaryApplied(data: Data, front: string)
    requires "summary" in data && data["summary"].Str? ==> ValueOf(front, SUMMARY, 0).Success?
    ensures ApplyAll(data, MarkersOf(SummaryRows(data)), front) == Success(FieldFilled(data, "summary", SUMMARY, front))
  {
    if SummaryRows(data) != [] {
      assert SummaryRows(data)[1..] == [] && MarkersOf(SummaryRows(data)) == [Marker(SUMMARY, 0)];
      ApplyOne(data, Marker(SUMMARY, 0), front);
    }
  }

  lemma TitleApplied(data: Data, d1: Data, front: string)
    requires d1 == FieldFilled(data, "summary", SUMMARY, front)
    requires "title" in data && data["title"].Str? ==> ValueOf(front, TITLE, 0).Success?
    ensures ApplyAll(d1, MarkersOf(TitleRows(data)), front) == Success(FieldFilled(d1, "title", TITLE, front))
  {
    FieldNames();
    if TitleRows(data) != [] {
      assert TitleRows(data)[1..] == [] && MarkersOf(TitleRows(data)) == [Marker(TITLE, 0)];
      ApplyOne(d1, Marker(TITLE, 0), front);
    }
  }

  function ListFilled(data: Data, front: string): Data {
    if "read_when" in data && data["read_when"].Items?
    then data["read_when" := Items(Refilled(data["read_when"].items, data["read_when"].items, 0, front))]
    else data
  }

  lemma ListApplied(data: Data, d2: Data, front: string)
    requires d2 == FieldFilled(FieldFilled(data, "summary", SUMMARY, front), "title", TITLE, front)
    requires forall k: nat :: k < |ReadWhen(data)| && ReadWhen(data)[k].Words? ==> ValueOf(front, READ_WHEN, k).Success?
    ensures ApplyAll(d2, MarkersOf(ReadWhenRows(data)), front) == Success(ListFilled(d2, front))
  {
    FieldNames();
    if ReadWhenRows(data) != [] {
      MarkersOfReadWhen(data);
      ItemsApplied(d2, ReadWhen(data), ReadWhen(data), 0, front);
    }
  }

  lemma FieldFilledAt(data: Data, name: string, field: string, front: string, key: string)
    requires key in data
    ensures FieldFilled(data, name, field, front).Keys == data.Keys
    ensures FieldFilled(data, name, field, front)[key]
         == if key == name && data[key].Str? then Str(Trim(Found(front, field, 0))) else data[key]
  {
  }

  lemma ListFilledAt(data: Data, front: string, key: string)
    requires key in data
    ensures ListFilled(data, front).Keys == data.Keys
    ensures ListFilled(data, front)[key]
         == if key == "read_when" && data[key].Items?
            then Items(Refilled(data[key].items, data[key].items, 0, front)) else data[key]
  {
  }

  lemma FilledByFields(data: Data, front: string)
    ensures var d2 := FieldFilled(FieldFilled(data, "summary", SUMMARY, front), "title", TITLE, front);
            IsFilled(data, front, ListFilled(d2, front))
  {
    FieldNames();
    var d1 := FieldFilled(data, "summary", SUMMARY, front);
    var d2 := FieldFilled(d1, "title", TITLE, front);
    forall key | key in data ensures ListFilled(d2, front)[key] == FilledValue(key, data[key], front) {
      FieldFilledAt(data, "summary", SUMMARY, front, key);
      FieldFilledAt(d1, "title", TITLE, front, key);
      ListFilledAt(d2, front, key);
    }
  }

  lemma FilledOnce(data: Data, front: string, a: Data, b: Data)
    requires IsFilled(data, front, a) && IsFilled(data, front, b)
    ensures a == b
  {
  }

  lemma AllMarkersApplied(data: Data, front: string)
    requires AllFound(data, front)
    ensures var d2 := FieldFilled(FieldFilled(data, "summary", SUMMARY, front), "title", TITLE, front);
            ApplyAll(data, MarkersOf(Rows(data)), front) == Success(ListFilled(d2, front))
  {
    var a, b, c := SummaryRows(data), TitleRows(data), ReadWhenRows(data);
    var d1 := FieldFilled(data, "summary", SUMMARY, front);
    SummaryApplied(data, front);
    TitleApplied(data, d1, front);
    ListApplied(data, FieldFilled(d1, "title", TITLE, front), front);
    MarkersConcat(a, b);
    MarkersConcat(a + b, c);
    ApplyConcat(data, MarkersOf(a), MarkersOf(b), front);
    ApplyConcat(data, MarkersOf(a) + MarkersOf(b), MarkersOf(c), front);
  }

  lemma AllFoundWhenApplied(data: Data, front: string)
    requires ApplyAll(data, MarkersOf(Rows(data)), front).Success?
    ensures AllFound(data, front)
  {
    var a, b, rows := SummaryRows(data), TitleRows(data), Rows(data);
    AppliedWhenFound(data, MarkersOf(rows), front);
    if a != [] {
      assert rows[0] == a[0];
      MarkerOfRow(rows, 0);
      assert IsFound(front, Marker(SUMMARY, 0));
    }
    if b != [] {
      assert rows[|a|] == b[0];
      MarkerOfRow(rows, |a|);
      assert IsFound(front, Marker(TITLE, 0));
    }
    forall k: nat | k < |ReadWhen(data)| && ReadWhen(data)[k].Words? ensures ValueOf(front, READ_WHEN, k).Success? {
      ReadWhenRow(data, k + 1);
      assert rows[|a|+|b|+k+1] == ReadWhenRows(data)[k+1];
      MarkerOfRow(rows, |a| + |b| + k + 1);
      assert IsFound(front, Marker(READ_WHEN, k));
    }
  }

  /** Whatever the reply: the front matter comes of it exactly when every translatable string has its value there, and
      then each is that value, trimmed, and everything else is as it was. */
  lemma AppliedExactlyWhen(data: Data, front: string, filled: Data)
    ensures ApplyAll(data, MarkersOf(Rows(data)), front) == Success(filled) <==>
              AllFound(data, front) && IsFilled(data, front, filled)
  {
    if ApplyAll(data, MarkersOf(Rows(data)), front).Success? {
      AllFoundWhenApplied(data, front);
    }
    if AllFound(data, front) {
      AllMarkersApplied(data, front);
      FilledByFields(data, front);
      var d2 := FieldFilled(FieldFilled(data, "summary", SUMMARY, front), "title", TITLE, front);
      if IsFilled(data, front, filled) {
        FilledOnce(data, front, filled, ListFilled(d2, front));
      }
    }
  }

  /** So it is with the whole document: its sections, a front matter if there was one, and every value. */
  lemma DocumentExactlyWhen(
    data: Data, sourceFront: string, body: string, reply: string -> Result<string, DocError>, text: string,
    filled: Data, translatedBody: string)
    requires reply(FormatTaggedDocument(Template(data), body)) == Success(text)
    ensures TranslatedDocument(data, sourceFront, body, reply) == Success((filled, translatedBody)) <==>
              exists front: string :: AcceptedAs(text, front, translatedBody) && (sourceFront != "" ==> !Blank(front))
                                      && AllFound(data, front) && IsFilled(data, front, filled)
  {
    TranslatedExactlyWhen(data, sourceFront, body, reply, text, filled, translatedBody);
    forall front: string
      ensures ApplyAll(data, MarkersOf(Rows(data)), front) == Success(filled) <==>
                AllFound(data, front) && IsFilled(data, front, filled)
    {
      AppliedExactlyWhen(data, front, filled);
    }
  }

  // ------------------------------------------------------------------ what is sent

  function StartOf(field: string, index: nat): string {
    "[[[FM_" + field + "_" + Digits(index) + "_START]]]"
  }

  function EndOf(field: string, index: nat): string {
    "[[[FM_" + field + "_" + Digits(index) + "_END]]]"
  }

  function Between(field: string, index: nat, value: string): string {
    StartOf(field, index) + value + EndOf(field, index)
  }

  function ItemLine(item: Item, k: nat): string {
    match item
    case Words(text) => "  - " + Between("READ_WHEN", k, text)
    case OtherItem(shown) => "  - " + shown
  }

  function SentSummary(data: Data): seq<string> {
    if "summary" in data && data["summary"].Str? then ["summary: " + Between("SUMMARY", 0, data["summary"].s)] else []
  }

  function SentTitle(data: Data): seq<string> {
    if "title" in data && data["title"].Str? then ["title: " + Between("TITLE", 0, data["title"].s)] else []
  }

  function SentList(data: Data): seq<string> {
    if "read_when" in data && data["read_when"].Items? then
      ["read_when:"] + seq(|data["read_when"].items|, k requires 0 <= k < |data["read_when"].items| =>
                             ItemLine(data["read_when"].items[k], k))
    else []
  }

  /** The lines of the front matter as they are sent. */
  function SentLines(data: Data): seq<string> {
    SentSummary(data) + SentTitle(data) + SentList(data)
  }

  lemma TagText(field: string, index: nat)
    ensures MarkerName(field, index, Start) == StartOf(field, index)
    ensures MarkerName(field, index, End) == EndOf(field, index)
  {
  }

  lemma SlotText(prefix: string, field: string, index: nat, value: string)
    ensures RowText(Slot(prefix, Marker(field, index), value)) == prefix + Between(field, index, value)
  {
    TagText(field, index);
    Regrouped(prefix, StartOf(field, index), value, EndOf(field, index));
  }

  lemma Regrouped(a: string, b: string, c: string, d: string)
    ensures a + b + c + d == a + (b + c + d)
  {
    Assoc(a, b, c);
    Assoc(a, b + c, d);
  }

  lemma ListText(data: Data, k: nat)
    requires k < |ReadWhenRows(data)|
    ensures |SentList(data)| == |ReadWhenRows(data)| && RowText(ReadWhenRows(data)[k]) == SentList(data)[k]
  {
    if k > 0 {
      ReadWhenRow(data, k);
      if ReadWhen(data)[k-1].Words? {
        SlotText("  - ", READ_WHEN, k - 1, ReadWhen(data)[k-1].text);
      }
    }
  }

  lemma FieldsText(data: Data)
    ensures |SentSummary(data)| == |SummaryRows(data)| && |SentTitle(data)| == |TitleRows(data)|
    ensures |SentList(data)| == |ReadWhenRows(data)|
    ensures forall k :: 0 <= k < |SummaryRows(data)| ==> RowText(SummaryRows(data)[k]) == SentSummary(data)[k]
    ensures forall k :: 0 <= k < |TitleRows(data)| ==> RowText(TitleRows(data)[k]) == SentTitle(data)[k]
  {
    if SummaryRows(data) != [] {
      SlotText("summary: ", SUMMARY, 0, data["summary"].s);
    }
    if TitleRows(data) != [] {
      SlotText("title: ", TITLE, 0, data["title"].s);
    }
  }

  lemma RowsText(data: Data, k: nat)
    requires k < |Rows(data)|
    ensures |Rows(data)| == |SentLines(data)| && RowText(Rows(data)[k]) == SentLines(data)[k]
  {
    var a, b := SummaryRows(data), TitleRows(data);
    RowAt(data, k);
    FieldsText(data);
    if k >= |a| + |b| {
      ListText(data, k - |a| - |b|);
    }
  }

  /** The template is those lines. */
  lemma TemplateIsSentLines(data: Data)
    ensures Template(data) == JoinLines(SentLines(data))
  {
    var rows := Rows(data);
    JoinIsRender(rows);
    forall k | 0 <= k < |rows| ensures LinesOf(rows)[k] == SentLines(data)[k] {
      RenderRow(rows[k]);
      RowsText(data, k);
    }
    if rows == [] {
      assert |SentLines(data)| == 0;
    } else {
      RowsText(data, 0);
    }
    assert LinesOf(rows) == SentLines(data);
  }

  /** What is sent: those lines and the body, each between its tags. */
  lemma SentDocument(data: Data, body: string)
    ensures FormatTaggedDocument(Template(data), body)
         == "<frontmatter>" + "\n" + JoinLines(SentLines(data)) + "\n" + "</frontmatter>" + "\n"
            + "<body>" + "\n" + body + "\n" + "</body>"
  {
    TemplateIsSentLines(data);
  }
}
