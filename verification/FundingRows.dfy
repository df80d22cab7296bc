/** Which rows a fetch of the funding history brings, record by record. */
module FundingRows {
  import opened Wrappers
  import opened FundingHistory

  /** The row is of the hour the record falls in, with its figures. */
  predicate IsRowOf(row: Row, r: Record) {
    && row.t % 3600000 == 0 && row.t <= r.time < row.t + 3600000
    && row.rate1h == r.rate && row.premium == r.premium
  }

  predicate Inside(r: Record, start: int, end: int) {
    start <= r.time <= end
  }

  /** Record k is the first of the records i up to, not including, j that is inside the window and has a row of the
      hour. */
  ghost predicate FirstGiving(records: seq<Record>, i: nat, j: nat, start: int, end: int, row: Row, k: nat)
    requires i <= j <= |records|
  {
    && i <= k < j && Inside(records[k], start, end) && RowOf(records[k]) == row
    && forall m :: i <= m < k && Inside(records[m], start, end) ==> RowOf(records[m]).t != row.t
  }

  lemma NoneGiving(records: seq<Record>, i: nat, j: nat, start: int, end: int, h: int, m: nat)
    requires i <= m < j <= |records| && Inside(records[m], start, end)
    requires FirstWith(KeptRange(records, i, j, start, end), h) == None
    ensures RowOf(records[m]).t != h
  {
    RangeHas(records, i, j, start, end, m);
    HasFirst(KeptRange(records, i, j, start, end), RowOf(records[m]));
  }

  lemma {:induction false} FirstIsGiven(
    records: seq<Record>, i: nat, j: nat, start: int, end: int, row: Row) returns (k: nat)
    requires i <= j <= |records| && FirstWith(KeptRange(records, i, j, start, end), row.t) == Some(row)
    ensures FirstGiving(records, i, j, start, end, row, k)
    decreases j
  {
    var before, last := KeptRange(records, i, j - 1, start, end), records[j-1];
    FirstOfOneMore(before, RowOf(last), row.t);
    NothingMore(before);
    if FirstWith(before, row.t).Some? {
      k := FirstIsGiven(records, i, j - 1, start, end, row);
    } else {
      forall m | i <= m < j - 1 && Inside(records[m], start, end) ensures RowOf(records[m]).t != row.t {
        NoneGiving(records, i, j - 1, start, end, row.t, m);
      }
      k := j - 1;
    }
  }

  lemma OnlyFirst(records: seq<Record>, i: nat, j: nat, start: int, end: int, row: Row, other: Row, k: nat, l: nat)
    requires i <= j <= |records| && row.t == other.t
    requires FirstGiving(records, i, j, start, end, row, k) && FirstGiving(records, i, j, start, end, other, l)
    ensures row == other
  {
  }

  lemma GivenIsFirst(records: seq<Record>, i: nat, j: nat, start: int, end: int, row: Row, k: nat)
    requires i <= j <= |records| && FirstGiving(records, i, j, start, end, row, k)
    ensures FirstWith(KeptRange(records, i, j, start, end), row.t) == Some(row)
  {
    RangeHas(records, i, j, start, end, k);
    HasFirst(KeptRange(records, i, j, start, end), row);
    var other := FirstWith(KeptRange(records, i, j, start, end), row.t).value;
    var l := FirstIsGiven(records, i, j, start, end, other);
    OnlyFirst(records, i, j, start, end, row, other, k, l);
  }

  /** Record k is the first of those records that is inside the window and in the row's hour. */
  ghost predicate FirstOfHour(records: seq<Record>, i: nat, j: nat, start: int, end: int, row: Row, k: nat)
    requires i <= j <= |records|
  {
    && i <= k < j && Inside(records[k], start, end) && IsRowOf(row, records[k])
    && forall m :: i <= m < k && Inside(records[m], start, end) ==> records[m].time < row.t
  }

  ghost predicate OfFirst(records: seq<Record>, i: nat, j: nat, start: int, end: int, row: Row)
    requires i <= j <= |records|
  {
    exists k :: FirstOfHour(records, i, j, start, end, row, k)
  }

  /** The hour of a time is the whole hour it falls in. */
  lemma HourIsWhole(t: int)
    ensures HourOf(t) % 3600000 == 0 && HourOf(t) <= t < HourOf(t) + 3600000
  {
  }

  lemma RowIs(row: Row, r: Record)
    ensures row == RowOf(r) <==> IsRowOf(row, r)
  {
  }

  lemma EarlierHour(h: int, t: int, u: int)
    requires t <= u && h == HourOf(u)
    ensures HourOf(t) != h <==> t < h
  {
  }

  lemma FirstOfHourIs(records: seq<Record>, i: nat, j: nat, start: int, end: int, row: Row, k: nat)
    requires i <= j <= |records| && InOrder(records)
    ensures FirstOfHour(records, i, j, start, end, row, k) <==> FirstGiving(records, i, j, start, end, row, k)
  {
    if i <= k < j && Inside(records[k], start, end) {
      RowIs(row, records[k]);
      if row == RowOf(records[k]) {
        forall m | i <= m < k ensures RowOf(records[m]).t != row.t <==> records[m].time < row.t {
          EarlierHour(row.t, records[m].time, records[k].time);
        }
      }
    }
  }

  lemma InIncreasing(rows: seq<Row>, row: Row)
    requires Increasing(rows)
    ensures row in rows <==> FirstWith(rows, row.t) == Some(row)
  {
    if row in rows {
      var k :| 0 <= k < |rows| && rows[k] == row;
      FirstIsOnly(rows, k);
    }
  }

  /** The deduplicated rows of a range are exactly those of the first record of each hour inside the window. */
  lemma RowsOfRange(records: seq<Record>, i: nat, j: nat, start: int, end: int, row: Row)
    requires i <= j <= |records| && InOrder(records)
    ensures row in Dedupe(KeptRange(records, i, j, start, end)) <==> OfFirst(records, i, j, start, end, row)
  {
    var given := KeptRange(records, i, j, start, end);
    DedupeKeepsFirst(given, row.t);
    InIncreasing(Dedupe(given), row);
    if FirstWith(given, row.t) == Some(row) {
      var k := FirstIsGiven(records, i, j, start, end, row);
      FirstOfHourIs(records, i, j, start, end, row, k);
    }
    if k :| FirstOfHour(records, i, j, start, end, row, k) {
      FirstOfHourIs(records, i, j, start, end, row, k);
      GivenIsFirst(records, i, j, start, end, row, k);
    }
  }

  /** Against a server in order of time, whatever the limits, the rows are exactly those of the first record of each
      hour, among the records from the start of the window on that are seen and inside the window. */
  lemma FetchedExactlyWhen(
    server: int -> seq<Record>, records: seq<Record>, limits: Limits, start: int, end: int, row: Row)
    requires Serves(server, records, limits.page) && InOrder(records) && limits.page > 1
    ensures var i := From(records, start);
            var j := Reach(records, limits.page, i, start, limits.pages, end);
            row in Fetched(server, limits, start, end) <==> OfFirst(records, i, j, start, end, row)
  {
    var i := From(records, start);
    var j := Reach(records, limits.page, i, start, limits.pages, end);
    PagesAreReach(server, records, limits.page, start, limits.pages, start, end);
    assert Fetched(server, limits, start, end) == Dedupe(KeptRange(records, i, j, start, end));
    RowsOfRange(records, i, j, start, end, row);
  }

  // ------------------------------------------------------------------ any server

  /** The cursors that are asked for, from `cursor` on, with `left` requests left. */
  function Cursors(server: int -> seq<Record>, page: nat, cursor: int, left: nat, end: int): seq<int>
    decreases left
  {
    if left == 0 || cursor >= end then []
    else if server(cursor) == [] then [cursor]
    else
      var last := server(cursor)[|server(cursor)|-1].time;
      if cursor < last && page <= |server(cursor)|
      then [cursor] + Cursors(server, page, last + 1, left - 1, end)
      else [cursor]
  }

  /** What comes of asking for each of the cursors in turn. */
  function Asked(server: int -> seq<Record>, cursors: seq<int>, start: int, end: int): seq<Row> {
    if cursors == [] then [] else Kept(server(cursors[0]), start, end) + Asked(server, cursors[1..], start, end)
  }

  lemma NothingKept(start: int, end: int)
    ensures Kept([], start, end) == []
  {
  }

  lemma OneAsked(server: int -> seq<Record>, cursor: int, more: seq<int>, start: int, end: int)
    ensures Asked(server, [cursor] + more, start, end)
         == Kept(server(cursor), start, end) + Asked(server, more, start, end)
  {
    assert ([cursor] + more)[1..] == more;
  }

  /** The cursors strictly increase, from `cursor` on, before the end. */
  ghost predicate Advance(cursors: seq<int>, cursor: int, end: int) {
    && (forall k :: 0 <= k < |cursors| ==> cursor <= cursors[k] < end)
    && (forall j, k :: 0 <= j < k < |cursors| ==> cursors[j] < cursors[k])
  }

  lemma AdvanceMore(cursor: int, next: int, more: seq<int>, end: int)
    requires cursor < next && cursor < end && Advance(more, next, end)
    ensures Advance([cursor] + more, cursor, end)
  {
  }

  lemma {:induction false} CursorsAdvance(server: int -> seq<Record>, page: nat, cursor: int, left: nat, end: int)
    ensures var cursors := Cursors(server, page, cursor, left, end);
            |cursors| <= left && Advance(cursors, cursor, end)
    decreases left
  {
    if left > 0 && cursor < end && server(cursor) != [] {
      var last := server(cursor)[|server(cursor)|-1].time;
      if cursor < last && page <= |server(cursor)| {
        CursorsAdvance(server, page, last + 1, left - 1, end);
        AdvanceMore(cursor, last + 1, Cursors(server, page, last + 1, left - 1, end), end);
      }
    }
  }

  lemma AskedOnce(server: int -> seq<Record>, cursor: int, start: int, end: int)
    ensures Asked(server, [cursor], start, end) == Kept(server(cursor), start, end)
    ensures server(cursor) == [] ==> Asked(server, [cursor], start, end) == []
  {
    NothingKept(start, end);
    OneAsked(server, cursor, [], start, end);
    assert [cursor] + [] == [cursor];
    NothingMore(Kept(server(cursor), start, end));
  }

  lemma {:induction false} PagesAreAsked(
    server: int -> seq<Record>, page: nat, cursor: int, left: nat, start: int, end: int)
    ensures Pages(server, page, cursor, left, start, end)
         == Asked(server, Cursors(server, page, cursor, left, end), start, end)
    decreases left
  {
    if left > 0 && cursor < end {
      var records := server(cursor);
      AskedOnce(server, cursor, start, end);
      NothingMore(Kept(records, start, end));
      if records != [] && cursor < records[|records|-1].time && page <= |records| {
        var next := records[|records|-1].time + 1;
        PagesAreAsked(server, page, next, left - 1, start, end);
        OneAsked(server, cursor, Cursors(server, page, next, left - 1, end), start, end);
      }
    }
  }

  /** Whatever the server answers: the rows are those of the answers, in order, each request asks from a later time on
      than the one before it, all of them before the end of the window, and there are no more than the limit. */
  lemma PagesFollowCursors(
    server: int -> seq<Record>, page: nat, cursor: int, left: nat, start: int, end: int)
    ensures var cursors := Cursors(server, page, cursor, left, end);
            && Pages(server, page, cursor, left, start, end) == Asked(server, cursors, start, end)
            && |cursors| <= left && Advance(cursors, cursor, end)
  {
    PagesAreAsked(server, page, cursor, left, start, end);
    CursorsAdvance(server, page, cursor, left, end);
  }

  /** The request is answered by a full page, and the next one asks from right after its last record on. */
  predicate FullPageThen(server: int -> seq<Record>, page: nat, cursor: int, next: int) {
    server(cursor) != [] && |server(cursor)| >= page && next == server(cursor)[|server(cursor)|-1].time + 1
  }

  lemma {:induction false} OnlyFullPagesGoOn(
    server: int -> seq<Record>, page: nat, cursor: int, left: nat, end: int, k: nat)
    ensures var cursors := Cursors(server, page, cursor, left, end);
            && (cursors != [] ==> cursors[0] == cursor)
            && (k + 1 < |cursors| ==> FullPageThen(server, page, cursors[k], cursors[k+1]))
    decreases left
  {
    if left > 0 && cursor < end && server(cursor) != [] {
      var last := server(cursor)[|server(cursor)|-1].time;
      if cursor < last && page <= |server(cursor)| {
        OnlyFullPagesGoOn(server, page, last + 1, left - 1, end, if k > 0 then k - 1 else 0);
      }
    }
  }

  /** For Hyperliquid there are at most 400 requests, and every one but the last is answered by 500 records or more. */
  lemma HyperliquidCursors(server: int -> seq<Record>, limits: Limits, start: int, end: int, k: nat)
    requires limits == HYPERLIQUID
    ensures var cursors := Cursors(server, limits.page, start, limits.pages, end);
            |cursors| <= 400 && (k + 1 < |cursors| ==> |server(cursors[k])| >= 500)
  {
    CursorsAdvance(server, limits.page, start, limits.pages, end);
    OnlyFullPagesGoOn(server, limits.page, start, limits.pages, end, k);
  }
}
