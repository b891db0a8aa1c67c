/** Keyset pagination: pages of rows below a (created_at, id) key, newest first, and whole walks
    of pages over a table that may be written between any two of them. */
module Pagination {
  import opened Wrappers

  /** The sort key: a timestamp in microseconds, and the id that breaks ties. */
  datatype Key = Key(ts: int, id: nat)

  /** The row comparison (a.ts, a.id) < (b.ts, b.id). */
  predicate Below(a: Key, b: Key) {
    a.ts < b.ts || (a.ts == b.ts && a.id < b.id)
  }

  datatype Entry<+D> = Entry(key: Key, data: D)

  /** A page request's result; `next` is the decoded cursor it hands out. */
  datatype Page<+D> = Page(items: seq<Entry<D>>, next: Option<Key>)

  /** ORDER BY created_at DESC, id DESC; ids are unique, so keys are. */
  predicate Descending<D>(rows: seq<Entry<D>>) {
    forall i, j :: 0 <= i < j < |rows| ==> Below(rows[j].key, rows[i].key)
  }

  // ---- The limit ----

  const DEFAULT_LIMIT: int := 20
  const MAX_LIMIT: int := 100

  /** Rust clamps what it is given into [1, 100]. */
  function ClampRust(limit: Option<int>): (r: int)
    ensures 1 <= r <= MAX_LIMIT
  {
    match limit
    case None => DEFAULT_LIMIT
    case Some(n) => if n < 1 then 1 else if n > MAX_LIMIT then MAX_LIMIT else n
  }

  /** Go and Python use the default for zero and below. */
  function ClampGo(limit: Option<int>): (r: int)
    ensures 1 <= r <= MAX_LIMIT
  {
    match limit
    case None => DEFAULT_LIMIT
    case Some(n) => if n <= 0 then DEFAULT_LIMIT else if n > MAX_LIMIT then MAX_LIMIT else n
  }

  /** Within [1, 100] both take the limit as it is, above it 100, and 20 for none; they differ exactly
      on zero and below, where Rust takes 1 and Go 20. */
  lemma ClampsAgreeIff(limit: Option<int>)
    ensures ClampRust(limit) == ClampGo(limit) <==> limit.None? || limit.value > 0
    ensures limit.None? || limit.value > 0 ==>
              ClampRust(limit) == if limit.None? then 20 else if limit.value <= 100 then limit.value else 100
    ensures limit.Some? && limit.value <= 0 ==> ClampRust(limit) == 1 && ClampGo(limit) == 20
  {
  }

  // ---- One page ----

  predicate InRange(k: Key, cursor: Option<Key>) {
    cursor.None? || Below(k, cursor.value)
  }

  /** The rows of a table that pass the filter and lie below the cursor, in table order. */
  function Matching<D>(table: seq<Entry<D>>, filter: Entry<D> -> bool, cursor: Option<Key>): seq<Entry<D>> {
    if table == [] then []
    else
      var rest := Matching(table[1..], filter, cursor);
      if filter(table[0]) && InRange(table[0].key, cursor) then [table[0]] + rest else rest
  }

  /** The query of `list_products` and `list_orders`, with LIMIT n. */
  function Select<D>(table: seq<Entry<D>>, filter: Entry<D> -> bool, cursor: Option<Key>, n: nat): seq<Entry<D>> {
    var rows := Matching(table, filter, cursor);
    if |rows| > n then rows[..n] else rows
  }

  /** How the cursor text renders a timestamp: what reading it back yields. */
  ghost predicate RoundsDown(round: int -> int) {
    forall ts :: round(ts) <= ts
  }

  /** Rust's to_rfc3339 and Python's isoformat keep the microseconds. */
  function Exact(ts: int): int {
    ts
  }

  /** Go's time.RFC3339 has no fraction: whole seconds remain. */
  function WholeSeconds(ts: int): int {
    ts - ts % 1_000_000
  }

  function PageOf<D>(table: seq<Entry<D>>, filter: Entry<D> -> bool, limit: nat, round: int -> int, cursor: Option<Key>): Page<D>
    requires limit >= 1
  {
    var rows := Select(table, filter, cursor, limit + 1);
    if |rows| > limit then Page(rows[..limit], Some(Key(round(rows[limit - 1].key.ts), rows[limit - 1].key.id)))
    else Page(rows, None)
  }

  /** The list handlers: fetch one row too many, cut it off, and point the cursor at the last one kept. */
  method ListRows<D>(table: seq<Entry<D>>, filter: Entry<D> -> bool, limit: nat, round: int -> int, cursor: Option<Key>)
    returns (page: Page<D>)
    requires limit >= 1 && Descending(table)
    ensures page == PageOf(table, filter, limit, round, cursor)
    ensures |page.items| <= limit && Descending(page.items)
    ensures forall i :: 0 <= i < |page.items| ==>
              page.items[i] in table && filter(page.items[i]) && InRange(page.items[i].key, cursor)
    ensures page.next.None? <==> |Matching(table, filter, cursor)| <= limit
  {
    hide Matching, Descending, InRange;
    var rows := Select(table, filter, cursor, limit + 1);
    var next := None;
    if |rows| > limit {
      rows := rows[..limit];
      var last := rows[|rows| - 1];
      next := Some(Key(round(last.key.ts), last.key.id));
    }
    page := Page(rows, next);
    ShownRows(table, filter, cursor, |rows|);
    assert rows == Matching(table, filter, cursor)[..|rows|];
  }

  // ---- Walks ----

  /** The pages a client reads by following cursors, page i being read from tables[i]. The walk stops
      when a page has no cursor, or unfinished when the client does. */
  function Walk<D>(tables: seq<seq<Entry<D>>>, filter: Entry<D> -> bool, limit: nat, round: int -> int, cursor: Option<Key>)
    : seq<Page<D>>
    requires limit >= 1
  {
    if tables == [] then []
    else
      var page := PageOf(tables[0], filter, limit, round, cursor);
      [page] + if page.next.None? then [] else Walk(tables[1..], filter, limit, round, page.next)
  }

  predicate Finished<D>(pages: seq<Page<D>>) {
    pages != [] && pages[|pages| - 1].next.None?
  }

  function Rows<D>(pages: seq<Page<D>>): seq<Entry<D>> {
    if pages == [] then [] else pages[0].items + Rows(pages[1..])
  }

  predicate HasKey<D>(rows: seq<Entry<D>>, k: Key) {
    exists i :: 0 <= i < |rows| && rows[i].key == k
  }

  /** This table holds a row with key k that passes the filter. */
  predicate Present<D>(table: seq<Entry<D>>, filter: Entry<D> -> bool, k: Key) {
    exists i :: 0 <= i < |table| && table[i].key == k && filter(table[i])
  }

  /** Key k lies in the gap between the cursor a page hands out and the last row it shows. */
  predicate InGap<D>(page: Page<D>, k: Key) {
    && page.next.Some? && page.items != []
    && !Below(k, page.next.value)
    && Below(k, page.items[|page.items| - 1].key)
  }

  predicate Skipped<D>(pages: seq<Page<D>>, k: Key) {
    exists i :: 0 <= i < |pages| && InGap(pages[i], k)
  }

  // ---- Lemmas about one page ----

  lemma {:induction false} MatchingMeaning<D>(table: seq<Entry<D>>, filter: Entry<D> -> bool, cursor: Option<Key>)
    requires Descending(table)
    ensures var m := Matching(table, filter, cursor);
            && Descending(m)
            && (forall i :: 0 <= i < |m| ==> m[i] in table && filter(m[i]) && InRange(m[i].key, cursor))
            && (forall e | e in table && filter(e) && InRange(e.key, cursor) :: e in m)
  {
    if table != [] {
      var rest := table[1..];
      var m := Matching(rest, filter, cursor);
      assert table == [table[0]] + rest;
      MatchingMeaning(rest, filter, cursor);
      forall i | 0 <= i < |m|
        ensures Below(m[i].key, table[0].key)
      {
        var j :| 0 <= j < |rest| && rest[j] == m[i];
        assert table[j + 1] == m[i];
      }
    }
  }

  lemma ShownRows<D>(table: seq<Entry<D>>, filter: Entry<D> -> bool, cursor: Option<Key>, n: nat)
    requires Descending(table) && n <= |Matching(table, filter, cursor)|
    ensures var shown := Matching(table, filter, cursor)[..n];
            && Descending(shown)
            && forall i :: 0 <= i < |shown| ==> shown[i] in table && filter(shown[i]) && InRange(shown[i].key, cursor)
  {
    MatchingMeaning(table, filter, cursor);
  }

  lemma DescendingTail<D>(table: seq<Entry<D>>)
    requires Descending(table) && table != []
    ensures Descending(table[1..]) && forall e | e in table[1..] :: Below(e.key, table[0].key)
  {
    forall e | e in table[1..]
      ensures Below(e.key, table[0].key)
    {
      var j :| 0 <= j < |table[1..]| && table[1..][j] == e;
      assert table[j + 1] == e;
    }
  }

  /** A table's first row, when in range, is above all the rows after it. */
  lemma MatchingBelowHead<D>(table: seq<Entry<D>>, filter: Entry<D> -> bool, cursor: Option<Key>)
    requires Descending(table) && table != [] && InRange(table[0].key, cursor)
    ensures Matching(table[1..], filter, Some(table[0].key)) == Matching(table[1..], filter, cursor)
  {
    DescendingTail(table);
    hide Descending, Matching;
    SameSelection(table[1..], filter, Some(table[0].key), cursor);
  }

  /** Row number i of a result is in range, and table rows above it are not below it. */
  lemma RowInRange<D>(table: seq<Entry<D>>, filter: Entry<D> -> bool, cursor: Option<Key>, i: nat)
    requires Descending(table) && i < |Matching(table, filter, cursor)|
    ensures var m := Matching(table, filter, cursor);
            m[i] in table && InRange(m[i].key, cursor) && !Below(table[0].key, m[i].key)
  {
    MatchingMeaning(table, filter, cursor);
    hide Matching;
    var m := Matching(table, filter, cursor);
    assert m[i] in table;
    var j :| 0 <= j < |table| && table[j] == m[i];
    assert j > 0 ==> Below(table[j].key, table[0].key);
  }

  /** Below row number i of a result lie exactly the rows after it. */
  lemma {:induction false} MatchingBelowRow<D>(table: seq<Entry<D>>, filter: Entry<D> -> bool, cursor: Option<Key>, i: nat)
    requires Descending(table) && i < |Matching(table, filter, cursor)|
    ensures var m := Matching(table, filter, cursor);
            Matching(table, filter, Some(m[i].key)) == m[i + 1..]
  {
    hide Descending, Below;
    var m := Matching(table, filter, cursor);
    RowInRange(table, filter, cursor, i);
    DescendingTail(table);
    if filter(table[0]) && InRange(table[0].key, cursor) {
      assert m[1..] == Matching(table[1..], filter, cursor);
      if i == 0 {
        MatchingBelowHead(table, filter, cursor);
      } else {
        assert m[1..][i - 1] == m[i] && m[1..][i - 1 + 1..] == m[i + 1..];
        MatchingBelowRow(table[1..], filter, cursor, i - 1);
      }
    } else {
      MatchingBelowRow(table[1..], filter, cursor, i);
    }
  }

  /** Two cursors that no matching row can tell apart select the same rows. */
  lemma {:induction false} SameSelection<D>(table: seq<Entry<D>>, filter: Entry<D> -> bool, a: Option<Key>, b: Option<Key>)
    requires forall e | e in table && filter(e) :: InRange(e.key, a) <==> InRange(e.key, b)
    ensures Matching(table, filter, a) == Matching(table, filter, b)
  {
    if table != [] {
      assert forall e | e in table[1..] :: e in table;
      assert table[0] in table;
      SameSelection(table[1..], filter, a, b);
    }
  }

  /** A cursor at or below row i, but above row i + 1, selects exactly the rows after row i. */
  lemma MatchingBelowCut<D>(table: seq<Entry<D>>, filter: Entry<D> -> bool, cursor: Option<Key>, i: nat, cut: Key)
    requires Descending(table) && i < |Matching(table, filter, cursor)|
    requires var m := Matching(table, filter, cursor);
             !Below(m[i].key, cut) && (i + 1 < |m| ==> Below(m[i + 1].key, cut))
    ensures Matching(table, filter, Some(cut)) == Matching(table, filter, cursor)[i + 1..]
  {
    var m := Matching(table, filter, cursor);
    var row := Some(m[i].key);
    MatchingBelowRow(table, filter, cursor, i);
    MatchingMeaning(table, filter, cursor);
    MatchingMeaning(table, filter, row);
    forall e | e in table && filter(e)
      ensures InRange(e.key, row) <==> InRange(e.key, Some(cut))
    {
      if InRange(e.key, row) {
        assert e in m[i + 1..];
        var j :| 0 <= j < |m[i + 1..]| && m[i + 1..][j] == e;
        assert m[i + 1 + j] == e;
      }
    }
    SameSelection(table, filter, row, Some(cut));
  }

  /** What one page shows: rows in order and in range, and a cursor at or below the last of them. */
  lemma PageMeaning<D>(table: seq<Entry<D>>, filter: Entry<D> -> bool, limit: nat, round: int -> int, cursor: Option<Key>)
    requires limit >= 1 && Descending(table) && RoundsDown(round)
    ensures var page := PageOf(table, filter, limit, round, cursor);
            && Descending(page.items)
            && (forall i :: 0 <= i < |page.items| ==> InRange(page.items[i].key, cursor))
            && (page.next.Some? ==> |page.items| == limit && !Below(page.items[limit - 1].key, page.next.value))
  {
    MatchingMeaning(table, filter, cursor);
    var m := Matching(table, filter, cursor);
    var page := PageOf(table, filter, limit, round, cursor);
    assert page.items == m[..|page.items|];
    if page.next.Some? {
      assert round(m[limit - 1].key.ts) <= m[limit - 1].key.ts;
    }
  }

  /** A matching row in range that a page does not show comes after the last one it shows. */
  lemma PageKeepsForLater<D>(table: seq<Entry<D>>, filter: Entry<D> -> bool, limit: nat, round: int -> int, cursor: Option<Key>, k: Key)
    requires limit >= 1 && Descending(table)
    requires Present(table, filter, k) && InRange(k, cursor)
    ensures var page := PageOf(table, filter, limit, round, cursor);
            !HasKey(page.items, k) ==> page.next.Some? && |page.items| == limit && Below(k, page.items[limit - 1].key)
  {
    MatchingMeaning(table, filter, cursor);
    var m := Matching(table, filter, cursor);
    var page := PageOf(table, filter, limit, round, cursor);
    assert page.items == m[..|page.items|];
    var i :| 0 <= i < |table| && table[i].key == k && filter(table[i]);
    assert table[i] in m;
    var j :| 0 <= j < |m| && m[j] == table[i];
    if j < |page.items| {
      assert page.items[j].key == k;
    }
  }

  predicate AllDescending<D>(tables: seq<seq<Entry<D>>>) {
    forall i :: 0 <= i < |tables| ==> Descending(tables[i])
  }

  /** Whenever a page was read, the table held a matching row with key k. */
  predicate AlwaysPresent<D>(tables: seq<seq<Entry<D>>>, filter: Entry<D> -> bool, k: Key) {
    forall i :: 0 <= i < |tables| ==> Present(tables[i], filter, k)
  }

  lemma LaterTables<D>(tables: seq<seq<Entry<D>>>, filter: Entry<D> -> bool, k: Key)
    requires tables != []
    ensures AllDescending(tables) ==> Descending(tables[0]) && AllDescending(tables[1..])
    ensures AlwaysPresent(tables, filter, k) ==> Present(tables[0], filter, k) && AlwaysPresent(tables[1..], filter, k)
  {
    hide Descending, Present;
  }

  /** The pages after the first one. */
  function Rest<D>(tables: seq<seq<Entry<D>>>, filter: Entry<D> -> bool, limit: nat, round: int -> int, page: Page<D>): seq<Page<D>>
    requires limit >= 1 && tables != []
  {
    if page.next.None? then [] else Walk(tables[1..], filter, limit, round, page.next)
  }

  lemma WalkUnfolds<D>(tables: seq<seq<Entry<D>>>, filter: Entry<D> -> bool, limit: nat, round: int -> int, cursor: Option<Key>)
    requires limit >= 1 && tables != []
    ensures var page := PageOf(tables[0], filter, limit, round, cursor);
            var rest := Rest(tables, filter, limit, round, page);
            var pages := Walk(tables, filter, limit, round, cursor);
            && pages == [page] + rest
            && Rows(pages) == page.items + Rows(rest)
            && (Finished(pages) <==> page.next.None? || Finished(rest))
            && (page.next.None? ==> Rows(rest) == [])
  {
    var page := PageOf(tables[0], filter, limit, round, cursor);
    var rest := Rest(tables, filter, limit, round, page);
    var pages := Walk(tables, filter, limit, round, cursor);
    assert pages == [page] + rest && pages[1..] == rest;
    assert rest != [] ==> pages[|pages| - 1] == rest[|rest| - 1];
  }

  lemma WalkKeys<D>(tables: seq<seq<Entry<D>>>, filter: Entry<D> -> bool, limit: nat, round: int -> int, cursor: Option<Key>,
                    k: Key)
    requires limit >= 1 && tables != []
    ensures var page := PageOf(tables[0], filter, limit, round, cursor);
            var rest := Rest(tables, filter, limit, round, page);
            var pages := Walk(tables, filter, limit, round, cursor);
            && (Skipped(pages, k) <==> InGap(page, k) || Skipped(rest, k))
            && (page.next.None? ==> !Skipped(rest, k))
            && (HasKey(Rows(pages), k) <==> HasKey(page.items, k) || HasKey(Rows(rest), k))
  {
    var page := PageOf(tables[0], filter, limit, round, cursor);
    var rest := Rest(tables, filter, limit, round, page);
    WalkUnfolds(tables, filter, limit, round, cursor);
    SkippedCons(page, rest, k);
    HasKeyAppend(page.items, Rows(rest), k);
  }

  // ---- Theorems about walks ----

  lemma RowsBelow<D>(page: Page<D>, rest: seq<Entry<D>>, cursor: Option<Key>)
    requires Descending(page.items) && Descending(rest)
    requires forall i :: 0 <= i < |page.items| ==> InRange(page.items[i].key, cursor)
    requires rest != [] ==>
               && page.next.Some? && page.items != [] && !Below(page.items[|page.items| - 1].key, page.next.value)
               && forall i :: 0 <= i < |rest| ==> InRange(rest[i].key, page.next)
    ensures Descending(page.items + rest)
    ensures forall i :: 0 <= i < |page.items + rest| ==> InRange((page.items + rest)[i].key, cursor)
  {
  }

  /** Whatever is written between page reads, and however the cursor rounds down, a walk shows
      strictly descending keys: no row twice, no row out of order. */
  lemma {:induction false} WalkDescends<D>(tables: seq<seq<Entry<D>>>, filter: Entry<D> -> bool, limit: nat, round: int -> int,
                                           cursor: Option<Key>)
    requires limit >= 1 && RoundsDown(round)
    requires AllDescending(tables)
    ensures var rows := Rows(Walk(tables, filter, limit, round, cursor));
            Descending(rows) && forall i :: 0 <= i < |rows| ==> InRange(rows[i].key, cursor)
  {
    if tables == [] {
      assert Rows(Walk(tables, filter, limit, round, cursor)) == [];
    } else {
      hide PageOf, Walk, Finished, Rows, Descending, AllDescending, AlwaysPresent, RoundsDown, InRange, Below;
      LaterTables(tables, filter, Key(0, 0));
      var page := PageOf(tables[0], filter, limit, round, cursor);
      PageMeaning(tables[0], filter, limit, round, cursor);
      WalkUnfolds(tables, filter, limit, round, cursor);
      if page.next.Some? {
        WalkDescends(tables[1..], filter, limit, round, page.next);
      }
      RowsBelow(page, Rows(Rest(tables, filter, limit, round, page)), cursor);
    }
  }

  lemma HasKeyAppend<D>(a: seq<Entry<D>>, b: seq<Entry<D>>, k: Key)
    ensures HasKey(a + b, k) <==> HasKey(a, k) || HasKey(b, k)
  {
    if HasKey(a, k) {
      var i :| 0 <= i < |a| && a[i].key == k;
      assert (a + b)[i].key == k;
    }
    if HasKey(b, k) {
      var i :| 0 <= i < |b| && b[i].key == k;
      assert (a + b)[|a| + i].key == k;
    }
    if HasKey(a + b, k) {
      var i :| 0 <= i < |a + b| && (a + b)[i].key == k;
      assert if i < |a| then a[i].key == k else b[i - |a|].key == k;
    }
  }

  lemma SkippedCons<D>(page: Page<D>, rest: seq<Page<D>>, k: Key)
    ensures Skipped([page] + rest, k) <==> InGap(page, k) || Skipped(rest, k)
  {
    var pages := [page] + rest;
    if Skipped(rest, k) {
      var i :| 0 <= i < |rest| && InGap(rest[i], k);
      assert InGap(pages[i + 1], k);
    }
    if InGap(page, k) {
      assert InGap(pages[0], k);
    }
    if Skipped(pages, k) {
      var i :| 0 <= i < |pages| && InGap(pages[i], k);
      assert i > 0 ==> InGap(rest[i - 1], k);
    }
  }

  lemma GapOnPage<D>(table: seq<Entry<D>>, filter: Entry<D> -> bool, limit: nat, round: int -> int, cursor: Option<Key>, k: Key)
    requires limit >= 1 && Descending(table) && RoundsDown(round)
    ensures var page := PageOf(table, filter, limit, round, cursor);
            InGap(page, k) || (page.next.Some? && InRange(k, page.next)) ==> InRange(k, cursor)
  {
    hide PageOf, Descending, RoundsDown;
    PageMeaning(table, filter, limit, round, cursor);
    var page := PageOf(table, filter, limit, round, cursor);
    if page.next.Some? {
      assert InRange(page.items[limit - 1].key, cursor);
    }
  }

  /** A gap at a later page end lies below that page's cursor. */
  lemma {:induction false} GapsInRange<D>(tables: seq<seq<Entry<D>>>, filter: Entry<D> -> bool, limit: nat, round: int -> int,
                                          cursor: Option<Key>, k: Key)
    requires limit >= 1 && RoundsDown(round)
    requires AllDescending(tables)
    requires Skipped(Walk(tables, filter, limit, round, cursor), k)
    ensures InRange(k, cursor)
  {
    assert tables != [];
    hide PageOf, Walk, HasKey, Descending, AllDescending, AlwaysPresent, RoundsDown, Rows, Skipped, InGap, InRange;
    LaterTables(tables, filter, k);
    var page := PageOf(tables[0], filter, limit, round, cursor);
    GapOnPage(tables[0], filter, limit, round, cursor, k);
    WalkKeys(tables, filter, limit, round, cursor, k);
    if Skipped(Rest(tables, filter, limit, round, page), k) {
      GapsInRange(tables[1..], filter, limit, round, page.next, k);
    }
  }

  /** A page that holds a matching row in range either shows it, and its cursor moves past it, or
      leaves it for later or to the gap, as the cursor lies above it or not. */
  lemma StableRowOnPage<D>(table: seq<Entry<D>>, filter: Entry<D> -> bool, limit: nat, round: int -> int, cursor: Option<Key>, k: Key)
    requires limit >= 1 && RoundsDown(round)
    requires Descending(table) && Present(table, filter, k) && InRange(k, cursor)
    ensures var page := PageOf(table, filter, limit, round, cursor);
            if HasKey(page.items, k) then !InGap(page, k) && (page.next.Some? ==> !Below(k, page.next.value))
            else page.next.Some? && (InGap(page, k) <==> !Below(k, page.next.value))
  {
    hide PageOf, RoundsDown, Present;
    PageMeaning(table, filter, limit, round, cursor);
    PageKeepsForLater(table, filter, limit, round, cursor, k);
    var page := PageOf(table, filter, limit, round, cursor);
    if HasKey(page.items, k) {
      var i :| 0 <= i < |page.items| && page.items[i].key == k;
      assert !Below(k, page.items[|page.items| - 1].key);
    }
  }

  /** What is not below a cursor is neither shown nor skipped from there on. */
  lemma BehindTheCursor<D>(tables: seq<seq<Entry<D>>>, filter: Entry<D> -> bool, limit: nat, round: int -> int, cursor: Key, k: Key)
    requires limit >= 1 && RoundsDown(round) && AllDescending(tables) && !Below(k, cursor)
    ensures var pages := Walk(tables, filter, limit, round, Some(cursor));
            !HasKey(Rows(pages), k) && !Skipped(pages, k)
  {
    hide Walk, Rows, Skipped, Descending, AllDescending, RoundsDown;
    WalkDescends(tables, filter, limit, round, Some(cursor));
    if Skipped(Walk(tables, filter, limit, round, Some(cursor)), k) {
      GapsInRange(tables, filter, limit, round, Some(cursor), k);
    }
  }

  /** The stability theorem. Insert, edit and archive at will between page reads: a row that matched
      whenever a page was read is shown by a finished walk exactly when it does not fall into the
      gap between a page's last row and its rounded cursor. */
  lemma {:induction false} StableRowShownIffNotSkipped<D>(tables: seq<seq<Entry<D>>>, filter: Entry<D> -> bool, limit: nat,
                                                          round: int -> int, cursor: Option<Key>, k: Key)
    requires limit >= 1 && RoundsDown(round)
    requires AllDescending(tables) && AlwaysPresent(tables, filter, k)
    requires Finished(Walk(tables, filter, limit, round, cursor)) && InRange(k, cursor)
    ensures var pages := Walk(tables, filter, limit, round, cursor);
            HasKey(Rows(pages), k) <==> !Skipped(pages, k)
  {
    assert tables != [];
    hide PageOf, Walk, Rows, HasKey, InGap, Skipped, Finished, Present, Descending, AllDescending, AlwaysPresent, RoundsDown;
    LaterTables(tables, filter, k);
    var page := PageOf(tables[0], filter, limit, round, cursor);
    StableRowOnPage(tables[0], filter, limit, round, cursor, k);
    WalkUnfolds(tables, filter, limit, round, cursor);
    WalkKeys(tables, filter, limit, round, cursor, k);
    if page.next.Some? {
      if Below(k, page.next.value) {
        StableRowShownIffNotSkipped(tables[1..], filter, limit, round, page.next, k);
      } else {
        BehindTheCursor(tables[1..], filter, limit, round, page.next.value, k);
      }
    }
  }

  lemma ExactLeavesNoGap<D>(table: seq<Entry<D>>, filter: Entry<D> -> bool, limit: nat, cursor: Option<Key>, k: Key)
    requires limit >= 1
    ensures !InGap(PageOf(table, filter, limit, Exact, cursor), k)
  {
    hide Matching;
  }

  /** With an exact cursor no row is ever skipped. */
  lemma ExactNeverSkips<D>(tables: seq<seq<Entry<D>>>, filter: Entry<D> -> bool, limit: nat, cursor: Option<Key>, k: Key)
    requires limit >= 1
    ensures !Skipped(Walk(tables, filter, limit, Exact, cursor), k)
    decreases |tables|
  {
    if tables != [] {
      hide PageOf, Walk, Skipped, Rows, HasKey, InGap;
      var page := PageOf(tables[0], filter, limit, Exact, cursor);
      ExactLeavesNoGap(tables[0], filter, limit, cursor, k);
      WalkKeys(tables, filter, limit, Exact, cursor, k);
      if page.next.Some? {
        ExactNeverSkips(tables[1..], filter, limit, page.next, k);
      }
    }
  }

  /** Rust and Python: a row that matched at every page read is shown exactly once. */
  lemma StableRowShownOnce<D>(tables: seq<seq<Entry<D>>>, filter: Entry<D> -> bool, limit: nat, k: Key)
    requires limit >= 1
    requires AllDescending(tables) && AlwaysPresent(tables, filter, k)
    requires Finished(Walk(tables, filter, limit, Exact, None))
    ensures var rows := Rows(Walk(tables, filter, limit, Exact, None));
            exists i :: 0 <= i < |rows| && rows[i].key == k && forall j :: 0 <= j < |rows| && rows[j].key == k ==> j == i
  {
    StableRowShownIffNotSkipped(tables, filter, limit, Exact, None, k);
    ExactNeverSkips(tables, filter, limit, None, k);
    WalkDescends(tables, filter, limit, Exact, None);
    var rows := Rows(Walk(tables, filter, limit, Exact, None));
    var i :| 0 <= i < |rows| && rows[i].key == k;
    assert forall j :: 0 <= j < |rows| && rows[j].key == k ==> j == i;
  }

  /** ceil(n / limit), but one request even for nothing. */
  function Requests(n: nat, limit: nat): nat
    requires limit >= 1
  {
    if n <= limit then 1 else 1 + Requests(n - limit, limit)
  }

  lemma {:induction false} RequestsIsCeiling(n: nat, limit: nat)
    requires limit >= 1
    ensures Requests(n, limit) >= 1
    ensures n > 0 ==> (Requests(n, limit) - 1) * limit < n <= Requests(n, limit) * limit
  {
    if n > limit {
      RequestsIsCeiling(n - limit, limit);
      var r := Requests(n - limit, limit);
      assert (1 + r) * limit == limit + r * limit && r * limit == limit + (r - 1) * limit;
    }
  }

  /** n reads of a table that does not change. */
  function Unchanged<D>(table: seq<Entry<D>>, n: nat): seq<seq<Entry<D>>> {
    if n == 0 then [] else [table] + Unchanged(table, n - 1)
  }

  function Cut(round: int -> int, k: Key): Key {
    Key(round(k.ts), k.id)
  }

  /** Every row's cursor still lies above the next row: no second row in the same rounded instant,
      unless the ids happen to descend within it. */
  predicate Spread<D>(rows: seq<Entry<D>>, round: int -> int) {
    forall i :: 0 <= i < |rows| - 1 ==> Below(rows[i + 1].key, Cut(round, rows[i].key))
  }

  lemma FirstPage<D>(table: seq<Entry<D>>, filter: Entry<D> -> bool, limit: nat, round: int -> int, cursor: Option<Key>)
    requires limit >= 1 && Descending(table) && RoundsDown(round) && Spread(Matching(table, filter, cursor), round)
    ensures var m := Matching(table, filter, cursor);
            var page := PageOf(table, filter, limit, round, cursor);
            && (|m| <= limit ==> page == Page(m, None))
            && (|m| > limit ==>
                  && page == Page(m[..limit], Some(Cut(round, m[limit - 1].key)))
                  && Matching(table, filter, page.next) == m[limit..] && Spread(m[limit..], round))
  {
    hide Matching, Descending, RoundsDown, Spread, Below;
    var m := Matching(table, filter, cursor);
    if |m| > limit {
      SpreadTail(m, round, limit);
      MatchingBelowCut(table, filter, cursor, limit - 1, Cut(round, m[limit - 1].key));
    }
  }

  lemma SpreadTail<D>(m: seq<Entry<D>>, round: int -> int, limit: nat)
    requires Spread(m, round) && RoundsDown(round) && 1 <= limit < |m|
    ensures Spread(m[limit..], round)
    ensures var cut := Cut(round, m[limit - 1].key); !Below(m[limit - 1].key, cut) && Below(m[limit].key, cut)
  {
    assert Below(m[limit - 1 + 1].key, Cut(round, m[limit - 1].key));
    assert round(m[limit - 1].key.ts) <= m[limit - 1].key.ts;
    forall i | 0 <= i < |m[limit..]| - 1
      ensures Below(m[limit..][i + 1].key, Cut(round, m[limit..][i].key))
    {
      assert Below(m[limit + i + 1].key, Cut(round, m[limit + i].key));
    }
  }

  /** On a table that does not change, following cursors to the end yields the filtered table in
      order, in max(1, ceil(n / limit)) requests, as long as rounding keeps the rows apart. */
  lemma {:induction false} QuietWalkIsTheWholeList<D>(table: seq<Entry<D>>, filter: Entry<D> -> bool, limit: nat,
                                                      round: int -> int, cursor: Option<Key>, n: nat)
    requires limit >= 1 && Descending(table) && RoundsDown(round) && Spread(Matching(table, filter, cursor), round)
    requires n >= Requests(|Matching(table, filter, cursor)|, limit)
    ensures var pages := Walk(Unchanged(table, n), filter, limit, round, cursor);
            && Finished(pages)
            && Rows(pages) == Matching(table, filter, cursor)
            && |pages| == Requests(|Matching(table, filter, cursor)|, limit)
    decreases n
  {
    hide PageOf, Walk, Matching, Descending, Rows, Finished, Spread, RoundsDown;
    var tables := Unchanged(table, n);
    var m := Matching(table, filter, cursor);
    var page := PageOf(table, filter, limit, round, cursor);
    assert n >= 1;
    assert tables[1..] == Unchanged(table, n - 1);
    WalkUnfolds(tables, filter, limit, round, cursor);
    FirstPage(table, filter, limit, round, cursor);
    if |m| > limit {
      QuietWalkIsTheWholeList(table, filter, limit, round, page.next, n - 1);
      assert m == m[..limit] + m[limit..];
    }
  }

  /** An exact cursor keeps all rows apart: Rust and Python list a quiet table completely. */
  lemma ExactWalkIsTheWholeList<D>(table: seq<Entry<D>>, filter: Entry<D> -> bool, limit: nat, n: nat)
    requires limit >= 1 && Descending(table)
    requires n >= Requests(|Matching(table, filter, None)|, limit)
    ensures var pages := Walk(Unchanged(table, n), filter, limit, Exact, None);
            && Finished(pages)
            && Rows(pages) == Matching(table, filter, None)
            && |pages| == Requests(|Matching(table, filter, None)|, limit)
  {
    MatchingMeaning(table, filter, None);
    QuietWalkIsTheWholeList(table, filter, limit, Exact, None, n);
  }

  /** Given time, a walk from this cursor with this page size lists all the matching rows below it. */
  ghost predicate CompleteFrom<D>(table: seq<Entry<D>>, filter: Entry<D> -> bool, limit: nat, round: int -> int, cursor: Option<Key>)
    requires limit >= 1
  {
    var m := Matching(table, filter, cursor);
    Rows(Walk(Unchanged(table, Requests(|m|, limit)), filter, limit, round, cursor)) == m
  }

  /** The same for the whole table. */
  ghost predicate Complete<D>(table: seq<Entry<D>>, filter: Entry<D> -> bool, limit: nat, round: int -> int)
    requires limit >= 1
  {
    CompleteFrom(table, filter, limit, round, None)
  }

  /** Row i's cursor still lies above row i + 1. */
  predicate ApartAt<D>(rows: seq<Entry<D>>, round: int -> int, i: int) {
    0 <= i < |rows| - 1 ==> Below(rows[i + 1].key, Cut(round, rows[i].key))
  }

  /** So it is wherever a page of this size ends: at rows limit - 1, 2 * limit - 1, and so on. */
  predicate PagesApart<D>(rows: seq<Entry<D>>, limit: nat, round: int -> int)
    requires limit >= 1
    decreases |rows|
  {
    |rows| <= limit || (ApartAt(rows, round, limit - 1) && PagesApart(rows[limit..], limit, round))
  }

  /** The last row of page number k. */
  function PageEnd(k: nat, limit: nat): int {
    (k + 1) * limit - 1
  }

  lemma PageEndMoves(k: nat, limit: nat)
    ensures PageEnd(0, limit) == limit - 1
    ensures PageEnd(k + 1, limit) == PageEnd(k, limit) + limit && PageEnd(k, limit) >= limit - 1
  {
    assert (k + 2) * limit == (k + 1) * limit + limit;
  }

  lemma {:induction false} PagesApartMeaning<D>(rows: seq<Entry<D>>, limit: nat, round: int -> int)
    requires limit >= 1
    ensures PagesApart(rows, limit, round) <==> forall k: nat :: ApartAt(rows, round, PageEnd(k, limit))
    decreases |rows|
  {
    if |rows| <= limit {
      forall k: nat
        ensures ApartAt(rows, round, PageEnd(k, limit))
      {
        PageEndMoves(k, limit);
      }
    } else {
      var rest := rows[limit..];
      PagesApartMeaning(rest, limit, round);
      PagesApartUnfolds(rows, limit, round);
      PageEndMoves(0, limit);
      hide PagesApart, PageEnd, Below, Cut;
      if forall k: nat :: ApartAt(rows, round, PageEnd(k, limit)) {
        forall k: nat
          ensures ApartAt(rest, round, PageEnd(k, limit))
        {
          PageEndMoves(k, limit);
          assert ApartAt(rows, round, PageEnd(k + 1, limit));
        }
        assert ApartAt(rows, round, PageEnd(0, limit));
      }
      if ApartAt(rows, round, limit - 1) && forall k: nat :: ApartAt(rest, round, PageEnd(k, limit)) {
        forall k: nat
          ensures ApartAt(rows, round, PageEnd(k, limit))
        {
          if k > 0 {
            PageEndMoves(k - 1, limit);
            assert ApartAt(rest, round, PageEnd(k - 1, limit));
          }
        }
      }
    }
  }

  lemma PagesApartUnfolds<D>(rows: seq<Entry<D>>, limit: nat, round: int -> int)
    requires limit >= 1
    ensures |rows| <= limit ==> PagesApart(rows, limit, round)
    ensures |rows| > limit ==>
              (PagesApart(rows, limit, round) <==> ApartAt(rows, round, limit - 1) && PagesApart(rows[limit..], limit, round))
  {
  }

  /** With this page size, the walk lists everything exactly when every page's cursor lies above the
      first row of the next page. */
  lemma {:induction false} CompleteFromIff<D>(table: seq<Entry<D>>, filter: Entry<D> -> bool, limit: nat, round: int -> int,
                                              cursor: Option<Key>)
    requires limit >= 1 && Descending(table) && RoundsDown(round)
    ensures CompleteFrom(table, filter, limit, round, cursor) <==> PagesApart(Matching(table, filter, cursor), limit, round)
    decreases |Matching(table, filter, cursor)|
  {
    hide Walk, Matching, Descending, Rows, RoundsDown, Unchanged, PagesApart, ApartAt, Requests, Cut;
    var m := Matching(table, filter, cursor);
    PagesApartUnfolds(m, limit, round);
    if |m| > limit {
      FirstPageDecides(table, filter, limit, round, cursor);
      var cut := Some(Cut(round, m[limit - 1].key));
      if ApartAt(m, round, limit - 1) {
        CutMatches(table, filter, limit, round, cursor);
        CompleteFromIff(table, filter, limit, round, cut);
      } else {
        LaterPagesMissRow(table, filter, limit, round, cursor, Requests(|m| - limit, limit));
      }
    } else {
      OnePageIsComplete(table, filter, limit, round, cursor);
    }
  }

  lemma OnePageIsComplete<D>(table: seq<Entry<D>>, filter: Entry<D> -> bool, limit: nat, round: int -> int, cursor: Option<Key>)
    requires limit >= 1 && |Matching(table, filter, cursor)| <= limit
    ensures CompleteFrom(table, filter, limit, round, cursor)
  {
    UnchangedTail(table, 1);
    WalkUnfolds(Unchanged(table, 1), filter, limit, round, cursor);
    PageIs(table, filter, limit, round, cursor);
    hide PageOf, Walk, Matching, Rows, Unchanged;
  }

  /** After a full first page, the later pages decide. */
  lemma FirstPageDecides<D>(table: seq<Entry<D>>, filter: Entry<D> -> bool, limit: nat, round: int -> int, cursor: Option<Key>)
    requires limit >= 1 && |Matching(table, filter, cursor)| > limit
    ensures var m := Matching(table, filter, cursor);
            var later := Walk(Unchanged(table, Requests(|m| - limit, limit)), filter, limit, round, Some(Cut(round, m[limit - 1].key)));
            CompleteFrom(table, filter, limit, round, cursor) <==> Rows(later) == m[limit..]
  {
    hide PageOf, Walk, Matching, Rows, Unchanged, Cut;
    var m := Matching(table, filter, cursor);
    var n := Requests(|m|, limit);
    assert n == 1 + Requests(|m| - limit, limit);
    hide Requests;
    UnchangedTail(table, n);
    WalkUnfolds(Unchanged(table, n), filter, limit, round, cursor);
    PageIs(table, filter, limit, round, cursor);
    var rest := Rest(Unchanged(table, n), filter, limit, round, PageOf(table, filter, limit, round, cursor));
    PrefixDecides(m, limit, Rows(rest));
  }

  lemma PrefixDecides<D>(m: seq<Entry<D>>, n: nat, tail: seq<Entry<D>>)
    requires n <= |m|
    ensures m[..n] + tail == m <==> tail == m[n..]
  {
    assert m == m[..n] + m[n..];
    if m[..n] + tail == m {
      assert (m[..n] + tail)[n..] == tail;
    }
  }

  lemma UnchangedTail<D>(table: seq<Entry<D>>, n: nat)
    requires n >= 1
    ensures Unchanged(table, n) != [] && Unchanged(table, n)[0] == table && Unchanged(table, n)[1..] == Unchanged(table, n - 1)
  {
  }

  lemma PageIs<D>(table: seq<Entry<D>>, filter: Entry<D> -> bool, limit: nat, round: int -> int, cursor: Option<Key>)
    requires limit >= 1
    ensures var m := Matching(table, filter, cursor);
            PageOf(table, filter, limit, round, cursor)
            == if |m| > limit then Page(m[..limit], Some(Cut(round, m[limit - 1].key))) else Page(m, None)
  {
  }

  lemma CutMatches<D>(table: seq<Entry<D>>, filter: Entry<D> -> bool, limit: nat, round: int -> int, cursor: Option<Key>)
    requires limit >= 1 && Descending(table) && RoundsDown(round)
    requires |Matching(table, filter, cursor)| > limit && ApartAt(Matching(table, filter, cursor), round, limit - 1)
    ensures var m := Matching(table, filter, cursor);
            Matching(table, filter, Some(Cut(round, m[limit - 1].key))) == m[limit..]
  {
    hide Matching, Descending;
    var m := Matching(table, filter, cursor);
    assert round(m[limit - 1].key.ts) <= m[limit - 1].key.ts;
    MatchingBelowCut(table, filter, cursor, limit - 1, Cut(round, m[limit - 1].key));
  }

  /** A row at or above the cursor is on no later page. */
  lemma LaterPagesMissRow<D>(table: seq<Entry<D>>, filter: Entry<D> -> bool, limit: nat, round: int -> int, cursor: Option<Key>,
                             n: nat)
    requires limit >= 1 && Descending(table) && RoundsDown(round)
    requires |Matching(table, filter, cursor)| > limit && !ApartAt(Matching(table, filter, cursor), round, limit - 1)
    ensures var m := Matching(table, filter, cursor);
            Rows(Walk(Unchanged(table, n), filter, limit, round, Some(Cut(round, m[limit - 1].key)))) != m[limit..]
  {
    UnchangedStays(table, n);
    hide Walk, Rows, Matching, Unchanged, Descending, RoundsDown;
    var m := Matching(table, filter, cursor);
    var cut := Cut(round, m[limit - 1].key);
    WalkDescends(Unchanged(table, n), filter, limit, round, Some(cut));
    var rows := Rows(Walk(Unchanged(table, n), filter, limit, round, Some(cut)));
    if rows != [] {
      assert InRange(rows[0].key, Some(cut));
    }
  }

  /** With pages of this size, a quiet table is listed completely exactly when the cursor at the end of
      every page, after limit rows, 2 * limit, and so on, lies above the row that follows. */
  lemma CompleteForLimitIff<D>(table: seq<Entry<D>>, filter: Entry<D> -> bool, limit: nat, round: int -> int)
    requires limit >= 1 && Descending(table) && RoundsDown(round)
    ensures Complete(table, filter, limit, round)
       <==> forall k: nat :: ApartAt(Matching(table, filter, None), round, PageEnd(k, limit))
  {
    hide CompleteFrom, Matching, Descending, RoundsDown, PagesApart, ApartAt;
    CompleteFromIff(table, filter, limit, round, None);
    PagesApartMeaning(Matching(table, filter, None), limit, round);
  }

  lemma SpreadIsApartEverywhere<D>(rows: seq<Entry<D>>, round: int -> int)
    ensures Spread(rows, round) <==> forall i: nat :: ApartAt(rows, round, i)
  {
    hide Below, Cut;
    if forall i: nat :: ApartAt(rows, round, i) {
      forall i | 0 <= i < |rows| - 1
        ensures Below(rows[i + 1].key, Cut(round, rows[i].key))
      {
        assert ApartAt(rows, round, i);
      }
    }
  }

  /** A rounded cursor is harmless, for every page size, exactly when it keeps the rows apart. */
  lemma CompleteForEveryLimitIff<D>(table: seq<Entry<D>>, filter: Entry<D> -> bool, round: int -> int)
    requires Descending(table) && RoundsDown(round)
    ensures Spread(Matching(table, filter, None), round) <==> forall limit: nat | limit >= 1 :: Complete(table, filter, limit, round)
  {
    hide Complete, Matching, Descending, RoundsDown, Spread, ApartAt;
    var m := Matching(table, filter, None);
    SpreadIsApartEverywhere(m, round);
    if Spread(m, round) {
      forall limit: nat | limit >= 1
        ensures Complete(table, filter, limit, round)
      {
        CompleteForLimitIff(table, filter, limit, round);
      }
    } else {
      var i: nat :| !ApartAt(m, round, i);
      PageEndMoves(0, i + 1);
      assert !ApartAt(m, round, PageEnd(0, i + 1));
      CompleteForLimitIff(table, filter, i + 1, round);
    }
  }

  /** Go lists a quiet table completely, for every page size, exactly when of any two neighbouring rows
      the later one is in a later second, or the earlier one falls on the second and has the lower id. */
  lemma WholeSecondsCompleteIff<D>(table: seq<Entry<D>>, filter: Entry<D> -> bool)
    requires Descending(table)
    ensures var m := Matching(table, filter, None);
            (forall limit: nat | limit >= 1 :: Complete(table, filter, limit, WholeSeconds)) <==>
            (forall i :: 0 <= i < |m| - 1 ==>
               || m[i + 1].key.ts / 1_000_000 < m[i].key.ts / 1_000_000
               || (m[i + 1].key.ts == m[i].key.ts / 1_000_000 * 1_000_000 && m[i + 1].key.id < m[i].key.id))
  {
    hide Complete, Matching, Descending;
    CompleteForEveryLimitIff(table, filter, WholeSeconds);
    var m := Matching(table, filter, None);
    forall i | 0 <= i < |m| - 1
      ensures Below(m[i + 1].key, Cut(WholeSeconds, m[i].key)) <==>
              || m[i + 1].key.ts / 1_000_000 < m[i].key.ts / 1_000_000
              || (m[i + 1].key.ts == m[i].key.ts / 1_000_000 * 1_000_000 && m[i + 1].key.id < m[i].key.id)
    {
    }
  }

  lemma {:induction false} UnchangedStays<D>(table: seq<Entry<D>>, n: nat)
    ensures |Unchanged(table, n)| == n && forall j :: 0 <= j < n ==> Unchanged(table, n)[j] == table
  {
    if n > 0 {
      UnchangedStays(table, n - 1);
    }
  }

  /** Two rows of the same second: below the first row's whole-second cursor there is nothing. */
  lemma SameSecondPages(all: Entry<int> -> bool)
    requires forall e :: all(e)
    ensures var a, b := Entry(Key(1_500_000, 1), 0), Entry(Key(1_200_000, 2), 0);
            var cut := Some(Key(1_000_000, 1));
            && Descending([a, b])
            && PageOf([a, b], all, 1, WholeSeconds, None) == Page([a], cut)
            && PageOf([a, b], all, 1, WholeSeconds, cut) == Page([], None)
  {
    var a, b := Entry(Key(1_500_000, 1), 0), Entry(Key(1_200_000, 2), 0);
    var cut := Some(Key(1_000_000, 1));
    var tail: seq<Entry<int>> := [b];
    assert [a, b][1..] == tail && |tail[1..]| == 0;
    assert Matching(tail, all, None) == [b];
    assert !InRange(b.key, cut) && !InRange(a.key, cut);
    assert |Matching(tail, all, cut)| == 0;
    assert Matching([a, b], all, None) == [a, b] && |Matching([a, b], all, cut)| == 0;
  }

  /** Go: two rows of the same second on different pages, nothing written in between. The walk
      finishes after one row; the second falls into the gap. */
  lemma WholeSecondsSkipsARow(all: Entry<int> -> bool)
    requires forall e :: all(e)
    ensures var table := [Entry(Key(1_500_000, 1), 0), Entry(Key(1_200_000, 2), 0)];
            var pages := Walk([table, table], all, 1, WholeSeconds, None);
            Descending(table) && Finished(pages) && Rows(pages) == [table[0]] && Skipped(pages, table[1].key)
  {
    hide PageOf, Walk, Finished, Rows, Skipped, Descending, HasKey;
    var a, b := Entry(Key(1_500_000, 1), 0), Entry(Key(1_200_000, 2), 0);
    var cut := Some(Key(1_000_000, 1));
    SameSecondPages(all);
    WalkUnfolds([[a, b], [a, b]], all, 1, WholeSeconds, None);
    WalkKeys([[a, b], [a, b]], all, 1, WholeSeconds, None, b.key);
    assert [[a, b], [a, b]][1..] == [[a, b]];
    WalkUnfolds([[a, b]], all, 1, WholeSeconds, cut);
    assert InGap(Page([a], cut), b.key);
  }
}
