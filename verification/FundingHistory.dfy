/** Funding records are fetched page by page, floored to the hour, sorted, and deduplicated. */
module FundingHistory {
  import opened Wrappers

  const HOUR := 3600000

  /** How many records a page holds at most, and how many pages are fetched at most. */
  datatype Limits = Limits(page: nat, pages: nat)

  const HYPERLIQUID := Limits(500, 400)

  datatype Record = Record(time: int, rate: real, premium: real)

  datatype Row = Row(t: int, rate1h: real, premium: real)

  function HourOf(t: int): (h: int)
    ensures h <= t < h + HOUR
  {
    t / HOUR * HOUR
  }

  function RowOf(r: Record): Row {
    Row(HourOf(r.time), r.rate, r.premium)
  }

  // ------------------------------------------------------------------ sort and deduplicate

  /** A row placed after every row that is not later. */
  function Insert(rows: seq<Row>, row: Row): seq<Row>
    decreases |rows|
  {
    if rows == [] || rows[|rows|-1].t <= row.t then rows + [row]
    else Insert(rows[..|rows|-1], row) + [rows[|rows|-1]]
  }

  /** The stable sort by time. */
  function Sorted(rows: seq<Row>): seq<Row>
    decreases |rows|
  {
    if rows == [] then [] else Insert(Sorted(rows[..|rows|-1]), rows[|rows|-1])
  }

  /** Every row whose time differs from the row before it. */
  function Distinct(rows: seq<Row>): seq<Row>
    decreases |rows|
  {
    if rows == [] then []
    else Distinct(rows[..|rows|-1]) +
         if |rows| == 1 || rows[|rows|-1].t != rows[|rows|-2].t then [rows[|rows|-1]] else []
  }

  function Dedupe(rows: seq<Row>): seq<Row> {
    Distinct(Sorted(rows))
  }

  predicate Ordered(rows: seq<Row>) {
    forall j, k :: 0 <= j < k < |rows| ==> rows[j].t <= rows[k].t
  }

  predicate Increasing(rows: seq<Row>) {
    forall j, k :: 0 <= j < k < |rows| ==> rows[j].t < rows[k].t
  }

  /** The first row of an hour. */
  function FirstWith(rows: seq<Row>, h: int): (r: Option<Row>)
    ensures r.Some? ==> r.value in rows && r.value.t == h
    decreases |rows|
  {
    if rows == [] then None
    else
      var last := rows[|rows|-1];
      match FirstWith(rows[..|rows|-1], h)
      case Some(row) => Some(row)
      case None => if last.t == h then Some(last) else None
  }

  function OrElse(r: Option<Row>, row: Row, h: int): Option<Row> {
    if r.Some? then r else if row.t == h then Some(row) else None
  }

  lemma FirstOfOneMore(rows: seq<Row>, row: Row, h: int)
    ensures FirstWith(rows + [row], h) == OrElse(FirstWith(rows, h), row, h)
  {
    assert (rows + [row])[..|rows|] == rows;
  }

  lemma NothingMore<T>(a: seq<T>)
    ensures a + [] == a
  {
  }

  lemma {:induction false} InsertKeepsOrder(rows: seq<Row>, row: Row)
    requires Ordered(rows)
    ensures Ordered(Insert(rows, row))
    ensures forall r :: r in Insert(rows, row) ==> r in rows || r == row
    decreases |rows|
  {
    if rows != [] && rows[|rows|-1].t > row.t {
      var init := rows[..|rows|-1];
      InsertKeepsOrder(init, row);
      forall k | 0 <= k < |Insert(init, row)| ensures Insert(init, row)[k].t <= rows[|rows|-1].t {
        assert Insert(init, row)[k] in Insert(init, row);
      }
    }
  }

  lemma {:induction false} NoneBefore(rows: seq<Row>, h: int)
    requires forall r :: r in rows ==> r.t != h
    ensures FirstWith(rows, h) == None
    decreases |rows|
  {
    if rows != [] {
      NoneBefore(rows[..|rows|-1], h);
    }
  }

  lemma {:induction false} FirstOfInsert(rows: seq<Row>, row: Row, h: int)
    requires Ordered(rows)
    ensures FirstWith(Insert(rows, row), h) == OrElse(FirstWith(rows, h), row, h)
    decreases |rows|
  {
    if rows == [] || rows[|rows|-1].t <= row.t {
      FirstOfOneMore(rows, row, h);
    } else {
      var init, last := rows[..|rows|-1], rows[|rows|-1];
      FirstOfInsert(init, row, h);
      FirstOfOneMore(Insert(init, row), last, h);
      assert rows == init + [last];
      FirstOfOneMore(init, last, h);
    }
  }

  lemma {:induction false} SortedKeepsFirst(rows: seq<Row>, h: int)
    ensures Ordered(Sorted(rows)) && FirstWith(Sorted(rows), h) == FirstWith(rows, h)
    decreases |rows|
  {
    if rows != [] {
      var init, last := rows[..|rows|-1], rows[|rows|-1];
      SortedKeepsFirst(init, h);
      InsertKeepsOrder(Sorted(init), last);
      FirstOfInsert(Sorted(init), last, h);
    }
  }

  lemma {:induction false} DistinctIncreases(rows: seq<Row>)
    requires Ordered(rows)
    ensures Increasing(Distinct(rows))
    ensures rows != [] ==> Distinct(rows) != [] && Distinct(rows)[|Distinct(rows)|-1].t == rows[|rows|-1].t
    decreases |rows|
  {
    if rows != [] {
      var init := rows[..|rows|-1];
      DistinctIncreases(init);
      assert init != [] ==> init[|init|-1] == rows[|rows|-2] && init[|init|-1].t <= rows[|rows|-1].t;
    }
  }

  lemma {:induction false} DistinctKeepsFirst(rows: seq<Row>, h: int)
    ensures FirstWith(Distinct(rows), h) == FirstWith(rows, h)
    decreases |rows|
  {
    if rows != [] {
      var init, last := rows[..|rows|-1], rows[|rows|-1];
      DistinctKeepsFirst(init, h);
      FirstOfOneMore(Distinct(init), last, h);
      if |rows| > 1 && last.t == rows[|rows|-2].t {
        assert FirstWith(init, init[|init|-1].t).Some?;
        NothingMore(Distinct(init));
      }
    }
  }

  /** Hours strictly increase, and for every hour the row kept is the first that was given: none is lost. */
  lemma DedupeKeepsFirst(rows: seq<Row>, h: int)
    ensures Increasing(Dedupe(rows))
    ensures FirstWith(Dedupe(rows), h) == FirstWith(rows, h)
  {
    SortedKeepsFirst(rows, h);
    DistinctIncreases(Sorted(rows));
    DistinctKeepsFirst(Sorted(rows), h);
  }

  // ------------------------------------------------------------------ pages

  /** The rows of those of the records i up to, not including, j that are inside the window. */
  function KeptRange(records: seq<Record>, i: nat, j: nat, start: int, end: int): seq<Row>
    requires i <= j <= |records|
    decreases j
  {
    if i == j then []
    else KeptRange(records, i, j - 1, start, end) +
         if start <= records[j-1].time <= end then [RowOf(records[j-1])] else []
  }

  function Kept(records: seq<Record>, start: int, end: int): seq<Row> {
    KeptRange(records, 0, |records|, start, end)
  }

  /** What the pages from `cursor` on bring, with `left` of them left. */
  function Pages(server: int -> seq<Record>, page: nat, cursor: int, left: nat, start: int, end: int): seq<Row>
    decreases left
  {
    if left == 0 || cursor >= end then []
    else
      var records := server(cursor);
      if records == [] then []
      else
        var last := records[|records|-1].time;
        Kept(records, start, end) +
        if last <= cursor || |records| < page then [] else Pages(server, page, last + 1, left - 1, start, end)
  }

  function Fetched(server: int -> seq<Record>, limits: Limits, start: int, end: int): seq<Row> {
    Dedupe(Pages(server, limits.page, start, limits.pages, start, end))
  }

  method AppendKept(out0: seq<Row>, records: seq<Record>, start: int, end: int) returns (out: seq<Row>)
    ensures out == out0 + Kept(records, start, end)
  {
    out := out0;
    for k := 0 to |records|
      invariant out == out0 + KeptRange(records, 0, k, start, end)
    {
      if start <= records[k].time <= end {
        out := out + [RowOf(records[k])];
      }
    }
    assert records[..|records|] == records;
  }

  lemma Regroup<T>(a: seq<T>, b: seq<T>, c: seq<T>)
    ensures a + (b + c) == (a + b) + c
  {
  }

  /** `out` and what the pages from `cursor` on add to it. */
  function Gathered(
    out: seq<Row>, server: int -> seq<Record>, page: nat, cursor: int, left: nat, start: int, end: int): seq<Row>
    decreases left
  {
    if left == 0 || cursor >= end || server(cursor) == [] then out
    else
      var records := server(cursor);
      var last := records[|records|-1].time;
      if last <= cursor || |records| < page then out + Kept(records, start, end)
      else Gathered(out + Kept(records, start, end), server, page, last + 1, left - 1, start, end)
  }

  lemma {:induction false} GatheredIsPages(
    out: seq<Row>, server: int -> seq<Record>, page: nat, cursor: int, left: nat, start: int, end: int)
    ensures Gathered(out, server, page, cursor, left, start, end)
         == out + Pages(server, page, cursor, left, start, end)
    decreases left
  {
    if left == 0 || cursor >= end || server(cursor) == [] {
      NothingMore(out);
    } else {
      var records := server(cursor);
      var last, kept := records[|records|-1].time, Kept(records, start, end);
      if last <= cursor || |records| < page {
        NothingMore(kept);
      } else {
        GatheredIsPages(out + kept, server, page, last + 1, left - 1, start, end);
        Regroup(out, kept, Pages(server, page, last + 1, left - 1, start, end));
      }
    }
  }

  lemma NothingBefore<T>(a: seq<T>)
    ensures [] + a == a
  {
  }

  method FetchFunding(server: int -> seq<Record>, limits: Limits, start: int, end: int) returns (rows: seq<Row>)
    ensures rows == Fetched(server, limits, start, end)
  {
    var out: seq<Row> := [];
    var cursor := start;
    var guard := 0;
    ghost var done := false;
    ghost var whole := Gathered([], server, limits.page, start, limits.pages, start, end);
    while guard < limits.pages && cursor < end
      invariant 0 <= guard <= limits.pages && !done
      invariant Gathered(out, server, limits.page, cursor, limits.pages - guard, start, end) == whole
    {
      var records := server(cursor);
      if |records| == 0 {
        done := true;
        break;
      }
      out := AppendKept(out, records, start, end);
      var last := records[|records|-1].time;
      if last <= cursor {
        done := true;
        break;
      }
      cursor := last + 1;
      if |records| < limits.page {
        done := true;
        break;
      }
      guard := guard + 1;
    }
    assert out == whole;
    GatheredIsPages([], server, limits.page, start, limits.pages, start, end);
    NothingBefore(Pages(server, limits.page, start, limits.pages, start, end));
    rows := Dedupe(out);
  }

  // ------------------------------------------------------------------ against a server in order of time

  ghost predicate InOrder(records: seq<Record>) {
    forall j, k :: 0 <= j < k < |records| ==> records[j].time < records[k].time
  }

  /** Of the first n records, how many are before a time. */
  function Earlier(records: seq<Record>, time: int, n: nat): (i: nat)
    requires n <= |records|
    ensures i <= n
  {
    if n == 0 then 0 else if records[n-1].time < time then n else Earlier(records, time, n - 1)
  }

  lemma {:induction false} EarlierSplits(records: seq<Record>, time: int, n: nat)
    requires InOrder(records) && n <= |records|
    ensures forall k :: 0 <= k < n ==> (k < Earlier(records, time, n) <==> records[k].time < time)
  {
    if n > 0 {
      EarlierSplits(records, time, n - 1);
    }
  }

  /** The number of records before a time. */
  function From(records: seq<Record>, time: int): (i: nat)
    ensures i <= |records|
  {
    Earlier(records, time, |records|)
  }

  lemma FromSplits(records: seq<Record>, time: int)
    requires InOrder(records)
    ensures forall k :: 0 <= k < |records| ==> (k < From(records, time) <==> records[k].time < time)
  {
    EarlierSplits(records, time, |records|);
  }

  function Sooner(a: nat, b: nat): nat { if a <= b then a else b }

  /** At most a page of records, from the cursor on. */
  function PageAt(records: seq<Record>, page: nat, cursor: int): seq<Record> {
    var i := From(records, cursor);
    records[i..Sooner(i + page, |records|)]
  }

  /** The server answers every cursor with the page from there on. */
  ghost predicate Serves(server: int -> seq<Record>, records: seq<Record>, page: nat) {
    forall cursor :: server(cursor) == PageAt(records, page, cursor)
  }

  /** The number of records seen when the fetch ends, given that i lie before the cursor. */
  function Reach(records: seq<Record>, page: nat, i: nat, cursor: int, left: nat, end: int): (j: nat)
    requires i <= |records| && page > 1
    ensures i <= j <= |records|
    decreases left
  {
    if left == 0 || cursor >= end || i == |records| then i
    else if |records| - i < page then |records|
    else Reach(records, page, i + page, records[i+page-1].time + 1, left - 1, end)
  }

  lemma {:induction false} RangeOfSlice(
    records: seq<Record>, slice: seq<Record>, i: nat, k: nat, start: int, end: int)
    requires k <= |slice| && i + |slice| <= |records|
    requires forall m :: 0 <= m < |slice| ==> slice[m] == records[i+m]
    ensures KeptRange(slice, 0, k, start, end) == KeptRange(records, i, i + k, start, end)
    decreases k
  {
    if k > 0 {
      RangeOfSlice(records, slice, i, k - 1, start, end);
    }
  }

  lemma KeptOfSlice(records: seq<Record>, i: nat, j: nat, start: int, end: int)
    requires i <= j <= |records|
    ensures Kept(records[i..j], start, end) == KeptRange(records, i, j, start, end)
  {
    RangeOfSlice(records, records[i..j], i, j - i, start, end);
  }

  lemma {:induction false} RangesJoin(records: seq<Record>, i: nat, m: nat, j: nat, start: int, end: int)
    requires i <= m <= j <= |records|
    ensures KeptRange(records, i, m, start, end) + KeptRange(records, m, j, start, end)
         == KeptRange(records, i, j, start, end)
    decreases j
  {
    if m < j {
      RangesJoin(records, i, m, j - 1, start, end);
    }
  }

  lemma FromNext(records: seq<Record>, k: nat)
    requires InOrder(records) && k < |records|
    ensures From(records, records[k].time + 1) == k + 1
  {
    var i := From(records, records[k].time + 1);
    FromSplits(records, records[k].time + 1);
    assert k < i;
    assert k + 1 < |records| ==> records[k].time < records[k+1].time && i <= k + 1;
  }

  lemma FullPage(records: seq<Record>, page: nat, cursor: int)
    requires InOrder(records) && page > 1 && From(records, cursor) + page <= |records|
    ensures var i, rs := From(records, cursor), PageAt(records, page, cursor);
      rs == records[i..i+page] && rs[page-1] == records[i+page-1] && records[i+page-1].time > cursor
  {
    FromSplits(records, cursor);
    var i := From(records, cursor);
    assert records[i].time < records[i+page-1].time;
  }

  lemma LastPage(records: seq<Record>, page: nat, cursor: int)
    requires From(records, cursor) + page > |records|
    ensures PageAt(records, page, cursor) == records[From(records, cursor)..|records|]
    ensures |PageAt(records, page, cursor)| < page
  {
  }

  lemma PagesOfFull(
    server: int -> seq<Record>, records: seq<Record>, page: nat, cursor: int, left: nat, start: int, end: int)
    requires server(cursor) == PageAt(records, page, cursor)
    requires InOrder(records) && page > 1 && left > 0 && cursor < end && From(records, cursor) + page <= |records|
    ensures var i := From(records, cursor); var next := records[i+page-1].time + 1;
      Pages(server, page, cursor, left, start, end)
      == KeptRange(records, i, i + page, start, end) + Pages(server, page, next, left - 1, start, end)
  {
    FullPage(records, page, cursor);
    KeptOfSlice(records, From(records, cursor), From(records, cursor) + page, start, end);
  }

  lemma PagesOfLast(
    server: int -> seq<Record>, records: seq<Record>, page: nat, cursor: int, left: nat, start: int, end: int)
    requires server(cursor) == PageAt(records, page, cursor)
    requires left > 0 && cursor < end && From(records, cursor) + page > |records|
    ensures Pages(server, page, cursor, left, start, end)
         == KeptRange(records, From(records, cursor), |records|, start, end)
  {
    LastPage(records, page, cursor);
    KeptOfSlice(records, From(records, cursor), |records|, start, end);
    NothingMore(Kept(PageAt(records, page, cursor), start, end));
  }

  lemma ReachOfFull(records: seq<Record>, page: nat, cursor: int, left: nat, end: int)
    requires page > 1 && left > 0 && cursor < end && From(records, cursor) + page <= |records|
    ensures var i := From(records, cursor);
      Reach(records, page, i, cursor, left, end)
      == Reach(records, page, i + page, records[i+page-1].time + 1, left - 1, end)
  {
  }

  lemma ReachOfLast(records: seq<Record>, page: nat, cursor: int, left: nat, end: int)
    requires page > 1 && left > 0 && cursor < end && From(records, cursor) + page > |records|
    ensures Reach(records, page, From(records, cursor), cursor, left, end) == |records|
  {
  }

  lemma NoPages(server: int -> seq<Record>, page: nat, cursor: int, left: nat, start: int, end: int)
    requires left == 0 || cursor >= end
    ensures Pages(server, page, cursor, left, start, end) == []
  {
  }

  /** The pages bring exactly the records up to the reach, in order, each once. */
  ghost predicate BringReach(
    server: int -> seq<Record>, records: seq<Record>, page: nat, cursor: int, left: nat, start: int, end: int)
    requires page > 1
  {
    var i := From(records, cursor);
    Pages(server, page, cursor, left, start, end)
    == KeptRange(records, i, Reach(records, page, i, cursor, left, end), start, end)
  }

  lemma LastBringsReach(
    server: int -> seq<Record>, records: seq<Record>, page: nat, cursor: int, left: nat, start: int, end: int)
    requires server(cursor) == PageAt(records, page, cursor)
    requires page > 1 && left > 0 && cursor < end && From(records, cursor) + page > |records|
    ensures BringReach(server, records, page, cursor, left, start, end)
  {
    ReachOfLast(records, page, cursor, left, end);
    PagesOfLast(server, records, page, cursor, left, start, end);
  }

  lemma RestBrings(
    server: int -> seq<Record>, records: seq<Record>, page: nat, k: nat, left: nat, start: int, end: int)
    returns (j: nat)
    requires InOrder(records) && page > 1 && k < |records|
    requires BringReach(server, records, page, records[k].time + 1, left, start, end)
    ensures j == Reach(records, page, k + 1, records[k].time + 1, left, end)
    ensures Pages(server, page, records[k].time + 1, left, start, end) == KeptRange(records, k + 1, j, start, end)
  {
    FromNext(records, k);
    j := Reach(records, page, k + 1, records[k].time + 1, left, end);
  }

  lemma FullBringsReach(
    server: int -> seq<Record>, records: seq<Record>, page: nat, cursor: int, left: nat, start: int, end: int)
    requires server(cursor) == PageAt(records, page, cursor)
    requires InOrder(records) && page > 1 && left > 0 && cursor < end && From(records, cursor) + page <= |records|
    requires BringReach(server, records, page, records[From(records, cursor)+page-1].time + 1, left - 1, start, end)
    ensures BringReach(server, records, page, cursor, left, start, end)
  {
    var i := From(records, cursor);
    var j := RestBrings(server, records, page, i + page - 1, left - 1, start, end);
    ReachOfFull(records, page, cursor, left, end);
    FullJoins(server, records, page, cursor, left, start, end, j);
  }

  lemma FullJoins(
    server: int -> seq<Record>, records: seq<Record>, page: nat, cursor: int, left: nat, start: int, end: int, j: nat)
    requires server(cursor) == PageAt(records, page, cursor)
    requires InOrder(records) && page > 1 && left > 0 && cursor < end
    requires From(records, cursor) + page <= j <= |records|
    requires var m := From(records, cursor) + page;
      Pages(server, page, records[m-1].time + 1, left - 1, start, end) == KeptRange(records, m, j, start, end)
    ensures Pages(server, page, cursor, left, start, end)
         == KeptRange(records, From(records, cursor), j, start, end)
  {
    var i := From(records, cursor);
    PagesOfFull(server, records, page, cursor, left, start, end);
    RangesJoin(records, i, i + page, j, start, end);
  }

  lemma {:induction false} PagesAreReach(
    server: int -> seq<Record>, records: seq<Record>, page: nat, cursor: int, left: nat, start: int, end: int)
    requires Serves(server, records, page) && InOrder(records) && page > 1
    ensures BringReach(server, records, page, cursor, left, start, end)
    decreases left
  {
    if left == 0 || cursor >= end {
      NoPages(server, page, cursor, left, start, end);
    } else if From(records, cursor) + page <= |records| {
      PagesAreReach(server, records, page, records[From(records, cursor)+page-1].time + 1, left - 1, start, end);
      FullBringsReach(server, records, page, cursor, left, start, end);
    } else {
      LastBringsReach(server, records, page, cursor, left, start, end);
    }
  }

  /** The fetch ends with nothing left before the end of the window, or after all its pages. */
  lemma {:induction false} ReachEnds(records: seq<Record>, page: nat, cursor: int, left: nat, end: int)
    requires InOrder(records) && page > 1
    ensures var i := From(records, cursor); var j := Reach(records, page, i, cursor, left, end);
      && j <= i + left * page
      && ((forall k :: j <= k < |records| ==> records[k].time >= end)
          || (j == i + left * page && forall k :: i <= k < j ==> records[k].time < end))
    decreases left
  {
    var i := From(records, cursor);
    FromSplits(records, cursor);
    OneMorePage(left, page);
    if left > 0 && cursor < end && i + page <= |records| {
      var next := records[i+page-1].time + 1;
      FromNext(records, i + page - 1);
      ReachEnds(records, page, next, left - 1, end);
      var j := Reach(records, page, i + page, next, left - 1, end);
      if j > i + page {
        assert records[i+page-1].time < records[j-1].time;
      }
    }
  }

  lemma OneMorePage(left: nat, page: nat)
    ensures left > 0 ==> left * page == (left - 1) * page + page
    ensures left * page >= 0
  {
  }

  ghost predicate Seen(records: seq<Record>, limits: Limits, start: int, end: int, k: nat)
    requires limits.page > 1
  {
    var i := From(records, start);
    i <= k < Reach(records, limits.page, i, start, limits.pages, end)
  }

  /** Every record of the window [start, end) is seen exactly when there are at most as many as the pages hold. */
  lemma SeesAllExactlyWhen(records: seq<Record>, limits: Limits, start: int, end: int)
    requires InOrder(records) && start <= end && limits.page > 1
    ensures (forall k: nat :: k < |records| && start <= records[k].time < end ==> Seen(records, limits, start, end, k))
       <==> From(records, end) - From(records, start) <= limits.pages * limits.page
  {
    var i, most := From(records, start), limits.pages * limits.page;
    FromSplits(records, start);
    FromSplits(records, end);
    ReachEnds(records, limits.page, start, limits.pages, end);
    OneMorePage(limits.pages, limits.page);
    if From(records, end) - i > most {
      assert records[i+most].time < end && !Seen(records, limits, start, end, i + most);
    } else {
      forall k: nat | k < |records| && start <= records[k].time < end ensures Seen(records, limits, start, end, k) {
        assert i <= k < From(records, end);
      }
    }
  }

  /** For Hyperliquid that is 200,000 records. */
  lemma HyperliquidSeesAllExactlyWhen(records: seq<Record>, start: int, end: int)
    requires InOrder(records) && start <= end
    ensures (forall k: nat :: k < |records| && start <= records[k].time < end ==>
               Seen(records, HYPERLIQUID, start, end, k))
       <==> From(records, end) - From(records, start) <= 200000
  {
    SeesAllExactlyWhen(records, HYPERLIQUID, start, end);
  }

  lemma {:induction false} RangeHas(records: seq<Record>, i: nat, j: nat, start: int, end: int, k: nat)
    requires i <= k < j <= |records| && start <= records[k].time <= end
    ensures RowOf(records[k]) in KeptRange(records, i, j, start, end)
    decreases j
  {
    if k < j - 1 {
      RangeHas(records, i, j - 1, start, end, k);
    }
  }

  lemma {:induction false} HasFirst(rows: seq<Row>, row: Row)
    requires row in rows
    ensures FirstWith(rows, row.t).Some?
    decreases |rows|
  {
    var init := rows[..|rows|-1];
    if row in init {
      HasFirst(init, row);
    }
  }

  lemma {:induction false} RangeFrom(records: seq<Record>, i: nat, j: nat, start: int, end: int, row: Row)
    requires i <= j <= |records| && row in KeptRange(records, i, j, start, end)
    ensures exists r :: r in records && start <= r.time <= end && row == RowOf(r)
    decreases j
  {
    if row in KeptRange(records, i, j - 1, start, end) {
      RangeFrom(records, i, j - 1, start, end, row);
    } else {
      assert records[j-1] in records;
    }
  }

  lemma {:induction false} FirstIsOnly(rows: seq<Row>, k: nat)
    requires Increasing(rows) && k < |rows|
    ensures FirstWith(rows, rows[k].t) == Some(rows[k])
    decreases |rows|
  {
    var init := rows[..|rows|-1];
    if k < |init| {
      FirstIsOnly(init, k);
    } else {
      assert forall r :: r in init ==> r.t != rows[k].t;
      NoneBefore(init, rows[k].t);
    }
  }

  /** Against such a server, with no more records in the window than the pages hold: the hours of the result strictly
      increase, and every record of the window has its hour in it. */
  lemma EveryHourIsCovered(
    server: int -> seq<Record>, records: seq<Record>, limits: Limits, start: int, end: int, rows: seq<Row>, k: nat)
    requires Serves(server, records, limits.page) && InOrder(records) && start <= end && limits.page > 1
    requires From(records, end) - From(records, start) <= limits.pages * limits.page
    requires rows == Fetched(server, limits, start, end)
    requires k < |records| && start <= records[k].time < end
    ensures Increasing(rows) && FirstWith(rows, HourOf(records[k].time)).Some?
  {
    var i := From(records, start);
    var j := Reach(records, limits.page, i, start, limits.pages, end);
    PagesAreReach(server, records, limits.page, start, limits.pages, start, end);
    SeesAllExactlyWhen(records, limits, start, end);
    assert Seen(records, limits, start, end, k);
    HourIsCovered(records, i, j, start, end, k);
  }

  lemma HourIsCovered(records: seq<Record>, i: nat, j: nat, start: int, end: int, k: nat)
    requires i <= k < j <= |records| && start <= records[k].time <= end
    ensures var rows := Dedupe(KeptRange(records, i, j, start, end));
      Increasing(rows) && FirstWith(rows, HourOf(records[k].time)).Some?
  {
    RangeHas(records, i, j, start, end, k);
    HasFirst(KeptRange(records, i, j, start, end), RowOf(records[k]));
    DedupeKeepsFirst(KeptRange(records, i, j, start, end), HourOf(records[k].time));
  }

  /** And nothing comes from outside the window. */
  lemma EveryRowIsFromWindow(
    server: int -> seq<Record>, records: seq<Record>, limits: Limits, start: int, end: int, rows: seq<Row>, k: nat)
    requires Serves(server, records, limits.page) && InOrder(records) && limits.page > 1
    requires rows == Fetched(server, limits, start, end) && k < |rows|
    ensures exists r :: r in records && start <= r.time <= end && rows[k] == RowOf(r)
  {
    var i := From(records, start);
    var j := Reach(records, limits.page, i, start, limits.pages, end);
    var given := KeptRange(records, i, j, start, end);
    PagesAreReach(server, records, limits.page, start, limits.pages, start, end);
    RowWasGiven(given, k);
    RangeFrom(records, i, j, start, end, rows[k]);
  }

  lemma RowWasGiven(given: seq<Row>, k: nat)
    requires k < |Dedupe(given)|
    ensures Dedupe(given)[k] in given
  {
    var rows := Dedupe(given);
    DedupeKeepsFirst(given, rows[k].t);
    FirstIsOnly(rows, k);
  }
}
