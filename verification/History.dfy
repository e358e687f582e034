/**
 Cursor pagination of a conversation. The query keeps rows strictly older than the cursor's
 timestamp, yet orders by (created_at, id) descending, so rows tied with a cursor can be lost.
*/
module History {
  import opened Text
  import opened Recipients

  datatype Row = Row(
    id: string, conversation: string, sender: string,
    recipient: Option<string>, group: Option<string>, body: string, createdAt: int)

  ghost predicate DistinctIds(rows: seq<Row>) {
    forall i, j :: 0 <= i < j < |rows| ==> rows[i].id != rows[j].id
  }

  /** The primary key: ids are unique; generated ids are non-empty and have no outer white space. */
  ghost predicate ValidTable(table: seq<Row>) {
    && DistinctIds(table)
    && (forall r :: r in table ==> r.id != "" && Trimmed(r.id))
  }

  // ---------------------------------------------------------------- the query

  function Lookup(table: seq<Row>, id: string): Option<Row> {
    if table == [] then None
    else if table[0].id == id then Some(table[0])
    else Lookup(table[1..], id)
  }

  /** created_at < cursor_msg.created_at, where an unknown cursor joins to NULL and passes nothing. */
  datatype Cutoff = Everything | Before(time: int) | Nothing

  function CutoffOf(table: seq<Row>, cursor: string): Cutoff {
    if cursor == "" then Everything
    else match Lookup(table, cursor)
      case Some(row) => Before(row.createdAt)
      case None => Nothing
  }

  predicate Passes(row: Row, conversation: string, cutoff: Cutoff) {
    row.conversation == conversation &&
    match cutoff
    case Everything => true
    case Before(t) => row.createdAt < t
    case Nothing => false
  }

  function Select(table: seq<Row>, conversation: string, cutoff: Cutoff): (out: seq<Row>)
    ensures forall r :: r in out <==> r in table && Passes(r, conversation, cutoff)
  {
    if table == [] then []
    else (if Passes(table[0], conversation, cutoff) then [table[0]] else [])
         + Select(table[1..], conversation, cutoff)
  }

  /** ORDER BY created_at DESC, id DESC: a comes before b. */
  predicate Newer(a: Row, b: Row) {
    a.createdAt > b.createdAt || (a.createdAt == b.createdAt && Less(b.id, a.id))
  }

  function Insert(x: Row, rows: seq<Row>): (out: seq<Row>)
    ensures forall r :: r in out <==> r == x || r in rows
  {
    if rows == [] || Newer(x, rows[0]) then [x] + rows
    else [rows[0]] + Insert(x, rows[1..])
  }

  function SortDescending(rows: seq<Row>): (out: seq<Row>)
    ensures forall r :: r in out <==> r in rows
  {
    if rows == [] then [] else Insert(rows[0], SortDescending(rows[1..]))
  }

  function Take(rows: seq<Row>, limit: nat): seq<Row> {
    if |rows| <= limit then rows else rows[..limit]
  }

  function GetMessageHistory(table: seq<Row>, conversation: string, cursor: string, limit: nat): seq<Row> {
    Take(SortDescending(Select(table, conversation, CutoffOf(table, cursor))), limit)
  }

  function ClampLimit(limit: int): (n: nat)
    ensures 1 <= n <= 50 && (1 <= limit <= 50 ==> n == limit) && (limit > 50 ==> n == 50) && (limit <= 0 ==> n == 20)
  {
    if limit <= 0 then 20 else if limit > 50 then 50 else limit
  }

  datatype Page = Page(rows: seq<Row>, next: string)

  /** One history request for a non-blank conversation. */
  function Fetch(table: seq<Row>, conversation: string, cursor: string, limit: int): Page {
    var n := ClampLimit(limit);
    var rows := GetMessageHistory(table, TrimSpace(conversation), TrimSpace(cursor), n);
    Page(rows, if |rows| == n then rows[|rows| - 1].id else "")
  }

  // ---------------------------------------------------------------- descending order

  ghost predicate Descending(rows: seq<Row>) {
    forall i, j :: 0 <= i < j < |rows| ==> Newer(rows[i], rows[j])
  }

  lemma NewerOrder(a: Row, b: Row, c: Row)
    ensures !Newer(a, a)
    ensures a.id != b.id ==> Newer(a, b) || Newer(b, a)
    ensures !(Newer(a, b) && Newer(b, a))
    ensures Newer(a, b) && Newer(b, c) ==> Newer(a, c)
  {
    LessTotal(a.id, b.id);
    if Less(c.id, b.id) && Less(b.id, a.id) { LessTransitive(c.id, b.id, a.id); }
  }

  lemma {:induction false} InsertDescending(x: Row, rows: seq<Row>)
    requires Descending(rows) && forall r :: r in rows ==> r.id != x.id
    ensures Descending(Insert(x, rows))
  {
    hide Newer;
    if rows == [] {
    } else if Newer(x, rows[0]) {
      forall j | 0 <= j < |rows| ensures Newer(x, rows[j]) { NewerOrder(x, rows[0], rows[j]); }
    } else {
      NewerOrder(x, rows[0], x);
      InsertDescending(x, rows[1..]);
      var out := Insert(x, rows[1..]);
      forall j | 0 <= j < |out| ensures Newer(rows[0], out[j]) { assert out[j] in out; }
    }
  }

  lemma {:induction false} SortIsDescending(rows: seq<Row>)
    requires DistinctIds(rows)
    ensures Descending(SortDescending(rows))
  {
    if rows != [] {
      SortIsDescending(rows[1..]);
      InsertDescending(rows[0], SortDescending(rows[1..]));
    }
  }

  lemma {:induction false} SelectDistinct(table: seq<Row>, conversation: string, cutoff: Cutoff)
    requires DistinctIds(table)
    ensures DistinctIds(Select(table, conversation, cutoff))
  {
    hide Passes;
    if table != [] {
      var rest := Select(table[1..], conversation, cutoff);
      SelectDistinct(table[1..], conversation, cutoff);
      if Passes(table[0], conversation, cutoff) {
        forall j | 0 <= j < |rest| ensures rest[j].id != table[0].id { assert rest[j] in table[1..]; }
        assert Select(table, conversation, cutoff) == [table[0]] + rest;
      } else {
        assert Select(table, conversation, cutoff) == rest;
      }
    }
  }

  /** Descending lists with the same rows are the same list: the order of insertion is invisible. */
  lemma {:induction false} DescendingUnique(a: seq<Row>, b: seq<Row>)
    requires Descending(a) && Descending(b) && forall r :: r in a <==> r in b
    ensures a == b
  {
    hide Newer;
    assert a == [] <==> b == [] by {
      if a != [] { var x := a[0]; assert x in a; }
      if b != [] { var x := b[0]; assert x in b; }
    }
    if a != [] {
      assert a[0] in b && b[0] in a;
      NewerOrder(a[0], b[0], a[0]);
      assert a[0] == b[0];
      forall r ensures r in a[1..] <==> r in b[1..] {
        NewerOrder(a[0], r, r);
        assert r in a <==> r == a[0] || r in a[1..];
        assert r in b <==> r == b[0] || r in b[1..];
        TailExcludesHead(a);
        TailExcludesHead(b);
      }
      DescendingUnique(a[1..], b[1..]);
    }
  }

  lemma TailExcludesHead(a: seq<Row>)
    requires a != [] && Descending(a)
    ensures a[0] !in a[1..]
  {
    hide Newer;
    NewerOrder(a[0], a[0], a[0]);
  }

  /** The conversation as a reader would want it: every row, newest first. */
  function Conversation(table: seq<Row>, conversation: string): seq<Row> {
    SortDescending(Select(table, conversation, Everything))
  }

  lemma SelectionDescending(table: seq<Row>, conversation: string, cutoff: Cutoff)
    requires ValidTable(table)
    ensures Descending(SortDescending(Select(table, conversation, cutoff)))
  {
    SelectDistinct(table, conversation, cutoff);
    SortIsDescending(Select(table, conversation, cutoff));
  }

  lemma {:induction false} LookupMisses(table: seq<Row>, id: string)
    requires forall r :: r in table ==> r.id != id
    ensures Lookup(table, id) == None
  {
    if table != [] { LookupMisses(table[1..], id); }
  }

  /** A row passes if it is of the conversation and, with a cursor, strictly older than the row of that id. */
  lemma PassesExact(table: seq<Row>, conversation: string, cursor: string, row: Row)
    requires DistinctIds(table)
    ensures Passes(row, conversation, CutoffOf(table, cursor)) <==>
            row.conversation == conversation
            && (cursor == "" || exists c :: c in table && c.id == cursor && row.createdAt < c.createdAt)
  {
    hide Lookup, DistinctIds;
    if c :| c in table && c.id == cursor {
      LookupFinds(table, c);
      forall d | d in table && d.id == cursor ensures d == c { LookupFinds(table, d); }
    } else {
      LookupMisses(table, cursor);
    }
  }

  /**
   The query returns, newest first, the `limit` newest of the conversation's rows that are
   strictly older than the cursor's row, if there is a cursor; short only if all of them fit.
   */
  lemma QueryIsNewest(table: seq<Row>, conversation: string, cursor: string, limit: nat, row: Row)
    requires ValidTable(table)
    ensures var out := GetMessageHistory(table, conversation, cursor, limit);
            var wanted := row in table && row.conversation == conversation
                          && (cursor == "" || exists c :: c in table && c.id == cursor && row.createdAt < c.createdAt);
            && Descending(out) && |out| <= limit
            && (row in out ==> wanted)
            && (wanted && row !in out ==> |out| == limit && forall i :: 0 <= i < |out| ==> Newer(out[i], row))
  {
    PassesExact(table, conversation, cursor, row);
    hide Newer, Passes, CutoffOf, Lookup;
    var cutoff := CutoffOf(table, cursor);
    var sorted := SortDescending(Select(table, conversation, cutoff));
    SelectionDescending(table, conversation, cutoff);
    if row in sorted && |sorted| > limit {
      var k :| 0 <= k < |sorted| && sorted[k] == row;
      assert k < limit ==> sorted[..limit][k] == row;
    }
  }

  /** The page of a request: the query's rows for the trimmed conversation and cursor, and the last id if the page is full. */
  lemma PageExact(table: seq<Row>, conversation: string, cursor: string, limit: int, row: Row)
    requires ValidTable(table)
    ensures var page, n := Fetch(table, conversation, cursor, limit), if limit <= 0 then 20 else if limit > 50 then 50 else limit;
            var wanted :=
              && row in table && row.conversation == TrimSpace(conversation)
              && (TrimSpace(cursor) == "" || exists c :: c in table && c.id == TrimSpace(cursor) && row.createdAt < c.createdAt);
            && Descending(page.rows) && |page.rows| <= n
            && (row in page.rows ==> wanted)
            && (wanted && row !in page.rows ==> |page.rows| == n && forall i :: 0 <= i < |page.rows| ==> Newer(page.rows[i], row))
            && page.next == if |page.rows| < n then "" else page.rows[n - 1].id
  {
    hide GetMessageHistory, TrimSpace, Newer, Descending, ValidTable;
    QueryIsNewest(table, TrimSpace(conversation), TrimSpace(cursor), ClampLimit(limit), row);
  }

  /** A cursor that names no row ends the walk at once: an empty page with no next cursor. */
  lemma UnknownCursor(table: seq<Row>, conversation: string, cursor: string, limit: int)
    requires ValidTable(table)
    requires TrimSpace(cursor) != "" && forall r :: r in table ==> r.id != TrimSpace(cursor)
    ensures Fetch(table, conversation, cursor, limit) == Page([], "")
  {
    hide TrimSpace, Lookup, Newer;
    LookupMisses(table, TrimSpace(cursor));
    var conv := TrimSpace(conversation);
    var rows := GetMessageHistory(table, conv, TrimSpace(cursor), ClampLimit(limit));
    assert Select(table, conv, Nothing) == [] by {
      if Select(table, conv, Nothing) != [] { assert Select(table, conv, Nothing)[0] in Select(table, conv, Nothing); }
    }
  }

  // ---------------------------------------------------------------- pages of an ordered list

  /** The rows strictly older than t: a suffix of a descending list. */
  function DropUntilBefore(rows: seq<Row>, t: int): (out: seq<Row>)
    ensures |out| <= |rows|
  {
    if rows == [] || rows[0].createdAt < t then rows else DropUntilBefore(rows[1..], t)
  }

  lemma {:induction false} DropUntilBeforeWithin(rows: seq<Row>, t: int)
    ensures forall r :: r in DropUntilBefore(rows, t) ==> r in rows
  {
    if rows != [] && rows[0].createdAt >= t { DropUntilBeforeWithin(rows[1..], t); }
  }

  lemma {:induction false} DropUntilBeforeExact(rows: seq<Row>, t: int)
    requires Descending(rows)
    ensures Descending(DropUntilBefore(rows, t))
    ensures forall r :: r in DropUntilBefore(rows, t) <==> r in rows && r.createdAt < t
  {
    if rows != [] && rows[0].createdAt >= t {
      DropUntilBeforeExact(rows[1..], t);
    }
  }

  /** What the walk should return: pages of `limit`, skipping rows tied with each page's last row. */
  function Pages(rows: seq<Row>, limit: nat): (pages: seq<seq<Row>>)
    requires limit > 0
    ensures |pages| > 0
    decreases |rows|
  {
    if |rows| < limit then [rows]
    else [rows[..limit]] + Pages(DropUntilBefore(rows[limit..], rows[limit - 1].createdAt), limit)
  }

  lemma TakeSplit(rows: seq<Row>, limit: nat, t: int)
    requires 0 < limit <= |rows| && Descending(rows) && t == rows[limit - 1].createdAt
    ensures Descending(rows[limit..]) && Descending(rows[..limit])
    ensures forall r :: r in rows <==> r in rows[..limit] || r in rows[limit..]
    ensures forall r :: r in rows[..limit] ==> r.createdAt >= t && r !in rows[limit..]
    ensures forall r :: r in rows[limit..] ==> r.createdAt <= t
  {
    assert rows == rows[..limit] + rows[limit..];
    forall i, j | 0 <= i < j < |rows| ensures rows[i] != rows[j] {
      NewerOrder(rows[i], rows[j], rows[j]);
    }
  }

  lemma {:induction false} PagesWithin(rows: seq<Row>, limit: nat)
    requires limit > 0
    ensures forall r :: r in Flatten(Pages(rows, limit)) ==> r in rows
    decreases |rows|
  {
    var pages := Pages(rows, limit);
    if |rows| < limit {
      assert pages == [rows] && Flatten(pages) == rows + Flatten<Row>([]);
    } else {
      var rest := DropUntilBefore(rows[limit..], rows[limit - 1].createdAt);
      DropUntilBeforeWithin(rows[limit..], rows[limit - 1].createdAt);
      PagesWithin(rest, limit);
      assert pages[1..] == Pages(rest, limit);
    }
  }

  /** All pages but the last are full. */
  lemma {:induction false} PageSizes(rows: seq<Row>, limit: nat)
    requires limit > 0
    ensures forall k :: 0 <= k < |Pages(rows, limit)| - 1 ==> |Pages(rows, limit)[k]| == limit
    ensures |Pages(rows, limit)[|Pages(rows, limit)| - 1]| < limit
    decreases |rows|
  {
    hide Flatten, DropUntilBefore;
    if |rows| < limit {
      ShortList(rows, limit);
    } else {
      FirstPage(rows, limit);
      PageSizes(DropUntilBefore(rows[limit..], rows[limit - 1].createdAt), limit);
      hide Pages;
    }
  }

  /** A walk of n rows returns at most n rows and asks for at most n / limit + 1 pages. */
  lemma {:induction false} PageCount(rows: seq<Row>, limit: nat)
    requires limit > 0
    ensures |Flatten(Pages(rows, limit))| <= |rows|
    ensures (|Pages(rows, limit)| - 1) * limit <= |rows|
    decreases |rows|
  {
    hide *;
    if |rows| < limit {
      ShortList(rows, limit);
    } else {
      FirstPage(rows, limit);
      var rest := DropUntilBefore(rows[limit..], rows[limit - 1].createdAt);
      PageCount(rest, limit);
      OneMorePage(|Pages(rest, limit)|, |Pages(rows, limit)|, limit, |rest|, |rows|);
    }
  }

  lemma OneMorePage(p: nat, q: nat, limit: nat, rest: nat, n: nat)
    requires q == p + 1 && rest + limit <= n && (p - 1) * limit <= rest
    ensures (q - 1) * limit <= n
  {
    Distribute(p - 1, limit);
  }

  lemma Distribute(a: int, b: int)
    ensures (a + 1) * b == a * b + b
  {
  }

  lemma FirstPage(rows: seq<Row>, limit: nat)
    requires 0 < limit <= |rows|
    ensures var rest := DropUntilBefore(rows[limit..], rows[limit - 1].createdAt);
            && Pages(rows, limit) == [rows[..limit]] + Pages(rest, limit)
            && Flatten(Pages(rows, limit)) == rows[..limit] + Flatten(Pages(rest, limit))
  {
    assert Pages(rows, limit)[1..] == Pages(DropUntilBefore(rows[limit..], rows[limit - 1].createdAt), limit);
  }

  lemma ShortList(rows: seq<Row>, limit: nat)
    requires |rows| < limit
    ensures Pages(rows, limit) == [rows] && Flatten(Pages(rows, limit)) == rows && NoTieAtBoundary(rows, limit)
  {
    assert Flatten([rows]) == rows + Flatten<Row>([]);
    forall j: int ensures 0 < j ==> j * limit >= |rows| {
      if 0 < j { Distribute(j - 1, limit); }
    }
  }

  /** No row is returned twice and the whole walk runs from new to old. */
  lemma {:induction false} WalkDescends(rows: seq<Row>, limit: nat)
    requires limit > 0 && Descending(rows)
    ensures Descending(Flatten(Pages(rows, limit)))
    decreases |rows|
  {
    hide Newer, Pages;
    if |rows| < limit {
      ShortList(rows, limit);
    } else {
      var t := rows[limit - 1].createdAt;
      var rest := DropUntilBefore(rows[limit..], t);
      TakeSplit(rows, limit, t);
      WalkDescends(rest, limit) by { DropUntilBeforeExact(rows[limit..], t); }
      PagesWithin(rest, limit);
      DropUntilBeforeWithin(rows[limit..], t);
      FirstPage(rows, limit);
      PrependPage(rows, limit, Flatten(Pages(rest, limit)));
    }
  }

  lemma PrependPage(rows: seq<Row>, limit: nat, later: seq<Row>)
    requires limit <= |rows| && Descending(rows) && Descending(later)
    requires forall r :: r in later ==> r in rows[limit..]
    ensures Descending(rows[..limit] + later)
  {
    hide Newer;
    forall i, j | 0 <= i < limit && 0 <= j < |later| ensures Newer(rows[i], later[j]) {
      assert later[j] in rows[limit..];
      var k :| 0 <= k < |rows| - limit && rows[limit..][k] == later[j];
      assert rows[limit + k] == later[j];
    }
    ConcatDescending(rows[..limit], later);
  }

  lemma ConcatDescending(a: seq<Row>, b: seq<Row>)
    requires Descending(a) && Descending(b)
    requires forall i, j :: 0 <= i < |a| && 0 <= j < |b| ==> Newer(a[i], b[j])
    ensures Descending(a + b)
  {
    hide Newer;
  }

  /** The cursor hides this row: same timestamp, smaller id. */
  predicate HiddenBy(cursor: Row, row: Row) {
    cursor.createdAt == row.createdAt && Less(row.id, cursor.id)
  }

  /** Page k ended on a cursor that hides the row. */
  predicate HiddenAt(pages: seq<seq<Row>>, k: nat, row: Row) {
    k < |pages| - 1 && pages[k] != [] && HiddenBy(pages[k][|pages[k]| - 1], row)
  }

  ghost predicate Hidden(pages: seq<seq<Row>>, row: Row) {
    exists k: nat :: HiddenAt(pages, k, row)
  }

  /** The rows a full walk omits are exactly those that some used cursor hides. */
  lemma {:induction false} OmittedExactly(rows: seq<Row>, limit: nat, row: Row)
    requires limit > 0 && Descending(rows) && row in rows
    ensures row !in Flatten(Pages(rows, limit)) <==> Hidden(Pages(rows, limit), row)
    decreases |rows|
  {
    hide *;
    if |rows| < limit {
      ShortList(rows, limit);
      SinglePageHidesNothing(rows, row);
    } else {
      var rest := DropUntilBefore(rows[limit..], rows[limit - 1].createdAt);
      RestOfPage(rows, limit);
      PagesWithin(rest, limit);
      FirstPage(rows, limit);
      HiddenByFirst(rows, limit, Pages(rest, limit), row);
      if row in rest { OmittedExactly(rest, limit, row); }
      if row.createdAt >= rows[limit - 1].createdAt { OlderCursorsHideNothing(rest, limit, row); }
      PageOrHidden(rows, limit, row);
    }
  }

  lemma SinglePageHidesNothing(rows: seq<Row>, row: Row)
    ensures !Hidden([rows], row)
  {
  }

  /** What hides the row is the first page's cursor or a later one. */
  lemma HiddenByFirst(rows: seq<Row>, limit: nat, tail: seq<seq<Row>>, row: Row)
    requires 0 < limit <= |rows| && tail != []
    ensures Hidden([rows[..limit]] + tail, row) <==> HiddenBy(rows[limit - 1], row) || Hidden(tail, row)
  {
    hide HiddenBy, Hidden;
    var pages := [rows[..limit]] + tail;
    assert pages[1..] == tail && pages[0][|pages[0]| - 1] == rows[limit - 1];
    HiddenShift(pages, tail, row);
  }

  /** A row of the first page's age or newer is on that page or hidden by its cursor, not both. */
  lemma PageOrHidden(rows: seq<Row>, limit: nat, row: Row)
    requires 0 < limit <= |rows| && Descending(rows) && row in rows
    ensures row.createdAt >= rows[limit - 1].createdAt ==> (row in rows[..limit] <==> !HiddenBy(rows[limit - 1], row))
    ensures row.createdAt < rows[limit - 1].createdAt ==> row !in rows[..limit] && !HiddenBy(rows[limit - 1], row)
  {
    hide Descending, Less;
    TakeSplit(rows, limit, rows[limit - 1].createdAt);
    if row in rows[..limit] {
      NotHiddenInPage(rows, limit, row);
    } else if row.createdAt >= rows[limit - 1].createdAt {
      HiddenAfterPage(rows, limit, row);
    }
  }

  lemma HiddenShift(pages: seq<seq<Row>>, tail: seq<seq<Row>>, row: Row)
    requires |pages| > 0 && pages[1..] == tail && tail != []
    ensures Hidden(pages, row) <==> HiddenAt(pages, 0, row) || Hidden(tail, row)
  {
    if k: nat :| HiddenAt(pages, k, row) {
      if k > 0 { assert HiddenAt(tail, k - 1, row); }
    }
    if k: nat :| HiddenAt(tail, k, row) { assert HiddenAt(pages, k + 1, row); }
  }

  lemma NotHiddenInPage(rows: seq<Row>, limit: nat, row: Row)
    requires 0 < limit <= |rows| && Descending(rows) && row in rows[..limit]
    ensures !HiddenBy(rows[limit - 1], row)
  {
    var i :| 0 <= i < limit && rows[i] == row;
    NewerOrder(row, rows[limit - 1], row);
  }

  lemma HiddenAfterPage(rows: seq<Row>, limit: nat, row: Row)
    requires 0 < limit <= |rows| && Descending(rows) && row in rows[limit..]
    requires row.createdAt >= rows[limit - 1].createdAt
    ensures HiddenBy(rows[limit - 1], row)
  {
    var i :| 0 <= i < |rows| - limit && rows[limit..][i] == row;
    assert Newer(rows[limit - 1], rows[limit + i]);
  }

  /** Later cursors are older than the row, so they cannot hide it. */
  lemma OlderCursorsHideNothing(rest: seq<Row>, limit: nat, row: Row)
    requires limit > 0 && forall r :: r in rest ==> r.createdAt < row.createdAt
    ensures !Hidden(Pages(rest, limit), row)
  {
    hide Pages, Flatten, HiddenAt;
    PagesWithin(rest, limit);
    var pages := Pages(rest, limit);
    forall k: nat ensures !HiddenAt(pages, k, row) {
      OlderCursorHidesNothing(pages, k, row);
    }
  }

  lemma OlderCursorHidesNothing(pages: seq<seq<Row>>, k: nat, row: Row)
    requires forall r :: r in Flatten(pages) ==> r.createdAt < row.createdAt
    ensures !HiddenAt(pages, k, row)
  {
    hide Flatten, Less;
    if k < |pages| - 1 && pages[k] != [] {
      InFlatten(pages, k, |pages[k]| - 1);
    }
  }

  /** No two tied rows fall on either side of a multiple of the page size. */
  ghost predicate NoTieAtBoundary(rows: seq<Row>, limit: nat) {
    forall j :: 0 < j && 0 < j * limit < |rows| ==> rows[j * limit - 1].createdAt != rows[j * limit].createdAt
  }

  lemma BoundaryShift(rows: seq<Row>, limit: nat)
    requires 0 < limit <= |rows|
    ensures NoTieAtBoundary(rows, limit) <==>
            (limit < |rows| ==> rows[limit - 1].createdAt != rows[limit].createdAt)
            && NoTieAtBoundary(rows[limit..], limit)
  {
    var rest := rows[limit..];
    if NoTieAtBoundary(rows, limit) {
      assert 1 * limit == limit;
      forall j | 0 < j && 0 < j * limit < |rest| ensures rest[j * limit - 1].createdAt != rest[j * limit].createdAt {
        assert (j + 1) * limit == j * limit + limit;
        assert rest[j * limit] == rows[(j + 1) * limit];
      }
    }
    if (limit < |rows| ==> rows[limit - 1].createdAt != rows[limit].createdAt) && NoTieAtBoundary(rest, limit) {
      forall j | 0 < j && 0 < j * limit < |rows| ensures rows[j * limit - 1].createdAt != rows[j * limit].createdAt {
        assert (j - 1) * limit == j * limit - limit;
        if j > 1 {
          Positive(j - 1, limit);
          assert rest[(j - 1) * limit] == rows[j * limit];
          assert rest[(j - 1) * limit - 1] == rows[j * limit - 1];
        }
      }
    }
  }

  lemma Positive(a: nat, b: nat)
    requires a > 0 && b > 0
    ensures a * b > 0
  {
  }

  lemma RestIsAll(rows: seq<Row>, limit: nat)
    requires 0 < limit <= |rows| && Descending(rows)
    ensures var rest := DropUntilBefore(rows[limit..], rows[limit - 1].createdAt);
            if limit < |rows| && rows[limit - 1].createdAt == rows[limit].createdAt then |rest| < |rows| - limit
            else rest == rows[limit..]
  {
    var later, t := rows[limit..], rows[limit - 1].createdAt;
    if later != [] {
      assert later[0] == rows[limit] && Newer(rows[limit - 1], rows[limit]);
      hide Descending, Less;
      assert later[0].createdAt < t ==> DropUntilBefore(later, t) == later;
      assert later[0].createdAt >= t ==> DropUntilBefore(later, t) == DropUntilBefore(later[1..], t);
      hide DropUntilBefore;
    }
  }

  /** The walk is complete exactly when no tie straddles a page boundary. */
  lemma {:induction false} CompleteIff(rows: seq<Row>, limit: nat)
    requires limit > 0 && Descending(rows)
    ensures Flatten(Pages(rows, limit)) == rows <==> NoTieAtBoundary(rows, limit)
    decreases |rows|
  {
    hide *;
    if |rows| < limit {
      ShortList(rows, limit);
    } else {
      var rest := DropUntilBefore(rows[limit..], rows[limit - 1].createdAt);
      RestOfPage(rows, limit);
      BoundaryShift(rows, limit);
      CompleteIff(rest, limit);
      PageCount(rest, limit);
      FirstPage(rows, limit);
      RestIsAll(rows, limit);
      assert rows == rows[..limit] + rows[limit..];
      SamePrefix(rows[..limit], Flatten(Pages(rest, limit)), rows[limit..]);
    }
  }

  lemma SamePrefix(a: seq<Row>, x: seq<Row>, y: seq<Row>)
    ensures a + x == a + y <==> x == y
  {
    if a + x == a + y {
      assert (a + x)[|a|..] == x && (a + y)[|a|..] == y;
    }
  }

  /** A complete walk of n rows takes exactly n / limit + 1 calls. */
  lemma CompleteCalls(rows: seq<Row>, limit: nat)
    requires limit > 0 && Flatten(Pages(rows, limit)) == rows
    ensures (|Pages(rows, limit)| - 1) * limit <= |rows| < |Pages(rows, limit)| * limit
  {
    PageSizes(rows, limit);
    PageCount(rows, limit);
    FlattenFull(Pages(rows, limit), limit);
  }

  lemma {:induction false} FlattenFull(pages: seq<seq<Row>>, limit: nat)
    requires |pages| > 0 && |pages[|pages| - 1]| < limit
    requires forall k :: 0 <= k < |pages| - 1 ==> |pages[k]| == limit
    ensures |Flatten(pages)| < |pages| * limit
  {
    if |pages| > 1 {
      FlattenFull(pages[1..], limit);
      assert |pages| * limit == (|pages| - 1) * limit + limit;
    } else {
      assert Flatten(pages) == pages[0] + Flatten(pages[1..]);
    }
  }

  /** Distinct timestamps are enough. */
  lemma DistinctTimesComplete(rows: seq<Row>, limit: nat)
    requires limit > 0 && Descending(rows)
    requires forall i, j :: 0 <= i < j < |rows| ==> rows[i].createdAt != rows[j].createdAt
    ensures Flatten(Pages(rows, limit)) == rows
    ensures (|Pages(rows, limit)| - 1) * limit <= |rows| < |Pages(rows, limit)| * limit
  {
    CompleteIff(rows, limit);
    CompleteCalls(rows, limit);
  }

  // ---------------------------------------------------------------- a client's walk

  lemma {:induction false} LookupFinds(table: seq<Row>, row: Row)
    requires DistinctIds(table) && row in table
    ensures Lookup(table, row.id) == Some(row)
  {
    if table[0] != row {
      assert row in table[1..];
      LookupFinds(table[1..], row);
    }
  }

  /** The cursor a client sends with request k. */
  function Asked(pages: seq<Page>, k: nat): string
    requires k <= |pages|
  {
    if k == 0 then "" else pages[k - 1].next
  }

  /** A client follows next cursors; the table may grow between its requests. */
  ghost predicate Walk(tables: seq<seq<Row>>, conversation: string, limit: int, pages: seq<Page>) {
    && |tables| == |pages| > 0
    && (forall k :: 0 <= k < |pages| ==>
          pages[k] == Fetch(tables[k], conversation, Asked(pages, k), limit))
    && (forall k :: 0 <= k < |pages| - 1 ==> pages[k].next != "")
  }

  /** Rows added to the conversation after a page are not older than the page's last row. */
  ghost predicate Quiet(before: seq<Row>, after: seq<Row>, conversation: string, page: seq<Row>) {
    && (forall r :: r in before ==> r in after)
    && (page != [] ==> forall r :: r in after && r !in before && r.conversation == conversation ==>
                         r.createdAt >= page[|page| - 1].createdAt)
  }

  ghost predicate QuietWalk(tables: seq<seq<Row>>, conversation: string, pages: seq<Page>) {
    && |tables| == |pages|
    && (forall k :: 0 <= k < |tables| ==> ValidTable(tables[k]))
    && (forall k :: 0 <= k < |pages| - 1 ==> Quiet(tables[k], tables[k + 1], conversation, pages[k].rows))
  }

  /** `left` is what remains to be read from `table` below the cursor row, if any. */
  ghost predicate Remaining(table: seq<Row>, conversation: string, cursor: Option<Row>, left: seq<Row>) {
    && Descending(left)
    && (cursor.Some? ==> cursor.value in table)
    && (forall r :: r in left <==> r in table && r.conversation == conversation
                                   && (cursor.Some? ==> r.createdAt < cursor.value.createdAt))
  }

  lemma CutoffOfCursor(table: seq<Row>, cursor: Option<Row>)
    requires ValidTable(table) && (cursor.Some? ==> cursor.value in table)
    ensures CutoffOf(table, TrimSpace(CursorId(cursor))) ==
            if cursor.Some? then Before(cursor.value.createdAt) else Everything
  {
    hide Lookup;
    if cursor.Some? { LookupFinds(table, cursor.value); }
  }

  lemma SelectedIsLeft(table: seq<Row>, conversation: string, cursor: Option<Row>, left: seq<Row>)
    requires ValidTable(table) && Remaining(table, conversation, cursor, left)
    ensures SortDescending(Select(table, conversation, CutoffOf(table, TrimSpace(CursorId(cursor))))) == left
  {
    hide Newer, CutoffOf, Lookup, TrimSpace, Descending, DistinctIds;
    CutoffOfCursor(table, cursor);
    var cutoff := CutoffOf(table, TrimSpace(CursorId(cursor)));
    SelectionDescending(table, conversation, cutoff);
    DescendingUnique(SortDescending(Select(table, conversation, cutoff)), left);
  }

  lemma FetchTakes(table: seq<Row>, conversation: string, limit: int, cursor: Option<Row>, left: seq<Row>)
    requires ValidTable(table) && Remaining(table, TrimSpace(conversation), cursor, left)
    ensures var page := Fetch(table, conversation, CursorId(cursor), limit);
            var n := ClampLimit(limit);
            && page.rows == Take(left, n)
            && page.next == (if |left| < n then "" else left[n - 1].id)
            && (page.next == "" <==> |left| < n)
  {
    hide Newer, CutoffOf, TrimSpace, Descending, DistinctIds, Select, SortDescending;
    SelectedIsLeft(table, TrimSpace(conversation), cursor, left);
    var n := ClampLimit(limit);
    if |left| >= n { assert left[n - 1] in left; }
  }

  lemma RestOfPage(left: seq<Row>, n: nat)
    requires 0 < n <= |left| && Descending(left)
    ensures var last := left[n - 1];
            var rest := DropUntilBefore(left[n..], last.createdAt);
            && Descending(rest)
            && last in left
            && (forall r :: r in rest <==> r in left && r.createdAt < last.createdAt)
  {
    hide Descending;
    TakeSplit(left, n, left[n - 1].createdAt);
    DropUntilBeforeExact(left[n..], left[n - 1].createdAt);
  }

  lemma QuietRow(before: seq<Row>, after: seq<Row>, conversation: string, page: seq<Row>, row: Row)
    requires Quiet(before, after, conversation, page) && page != []
    ensures row in before ==> row in after
    ensures row in after && row !in before && row.conversation == conversation ==>
              row.createdAt >= page[|page| - 1].createdAt
  {
  }

  /** A row below the page's last one is unread after the page exactly if the grown table holds it. */
  lemma RemainingRow(
    before: seq<Row>, after: seq<Row>, conversation: string, cursor: Option<Row>, left: seq<Row>, page: seq<Row>, row: Row)
    requires Remaining(before, conversation, cursor, left) && Quiet(before, after, conversation, page)
    requires page != [] && page[|page| - 1] in left
    ensures page[|page| - 1] in after
    ensures row.createdAt < page[|page| - 1].createdAt ==>
              (row in left <==> row in after && row.conversation == conversation)
  {
    hide Descending, Quiet;
    QuietRow(before, after, conversation, page, row);
    QuietRow(before, after, conversation, page, page[|page| - 1]);
  }

  lemma RemainingBelow(
    before: seq<Row>, after: seq<Row>, conversation: string, cursor: Option<Row>, left: seq<Row>, page: seq<Row>, rest: seq<Row>)
    requires Remaining(before, conversation, cursor, left) && Quiet(before, after, conversation, page)
    requires page != [] && page[|page| - 1] in left && Descending(rest)
    requires forall r :: r in rest <==> r in left && r.createdAt < page[|page| - 1].createdAt
    ensures Remaining(after, conversation, Some(page[|page| - 1]), rest)
  {
    hide Descending, Quiet;
    var last := page[|page| - 1];
    RemainingRow(before, after, conversation, cursor, left, page, last);
    forall r ensures r in rest <==> r in after && r.conversation == conversation && r.createdAt < last.createdAt {
      RemainingRow(before, after, conversation, cursor, left, page, r);
    }
  }

  /** After a full page, the unread rows are the ones the page recursion continues with. */
  lemma RemainingStep(before: seq<Row>, after: seq<Row>, conversation: string, cursor: Option<Row>, left: seq<Row>, n: nat)
    requires 0 < n <= |left| && Remaining(before, conversation, cursor, left)
    requires Quiet(before, after, conversation, left[..n])
    ensures Remaining(after, conversation, Some(left[n - 1]), DropUntilBefore(left[n..], left[n - 1].createdAt))
  {
    assert Descending(left);
    hide *;
    RestOfPage(left, n);
    RemainingBelow(before, after, conversation, cursor, left, left[..n], DropUntilBefore(left[n..], left[n - 1].createdAt));
  }

  function CursorId(cursor: Option<Row>): string {
    if cursor.Some? then cursor.value.id else ""
  }

  /** The walk has reached request k with this cursor, and these rows are unread. */
  ghost predicate Reached(tables: seq<seq<Row>>, conversation: string, pages: seq<Page>, k: nat, cursor: Option<Row>, left: seq<Row>) {
    && k < |pages| == |tables|
    && Asked(pages, k) == CursorId(cursor)
    && Remaining(tables[k], TrimSpace(conversation), cursor, left)
  }

  lemma RequestMade(
    tables: seq<seq<Row>>, conversation: string, limit: int, pages: seq<Page>, k: nat, cursor: Option<Row>, left: seq<Row>)
    requires Walk(tables, conversation, limit, pages) && Reached(tables, conversation, pages, k, cursor, left)
    ensures pages[k] == Fetch(tables[k], conversation, CursorId(cursor), limit)
    ensures k < |pages| - 1 ==> pages[k].next != ""
  {
    hide Fetch, Remaining;
  }

  lemma WalkPage(
    tables: seq<seq<Row>>, conversation: string, limit: int, pages: seq<Page>, k: nat, cursor: Option<Row>, left: seq<Row>)
    requires Walk(tables, conversation, limit, pages) && QuietWalk(tables, TrimSpace(conversation), pages)
    requires Reached(tables, conversation, pages, k, cursor, left)
    ensures var n := ClampLimit(limit);
            && pages[k].rows == Take(left, n)
            && (pages[k].next == "" <==> |left| < n)
            && (|left| < n ==> k == |pages| - 1)
            && (|left| >= n && k + 1 < |pages| ==>
                  Reached(tables, conversation, pages, k + 1, Some(left[n - 1]),
                          DropUntilBefore(left[n..], left[n - 1].createdAt)))
  {
    hide Newer, Fetch, Remaining, Quiet, ValidTable;
    var n := ClampLimit(limit);
    FetchTakes(tables[k], conversation, limit, cursor, left);
    RequestMade(tables, conversation, limit, pages, k, cursor, left);
    assert |left| >= n ==> pages[k].rows == left[..n];
    if |left| >= n && k + 1 < |pages| {
      RemainingStep(tables[k], tables[k + 1], TrimSpace(conversation), cursor, left, n);
    }
  }

  /** From request k on, the walk returns these pages and stops after the last. */
  predicate Follows(pages: seq<Page>, k: nat, expected: seq<seq<Row>>) {
    && k <= |pages| && |pages| - k <= |expected|
    && (forall j :: k <= j < |pages| ==> pages[j].rows == expected[j - k])
    && (forall j :: k <= j < |pages| ==> (pages[j].next == "" <==> j - k == |expected| - 1))
  }

  lemma FollowsCons(pages: seq<Page>, k: nat, first: seq<Row>, rest: seq<seq<Row>>)
    requires k < |pages| && rest != [] && pages[k].rows == first && pages[k].next != ""
    requires k + 1 < |pages| ==> Follows(pages, k + 1, rest)
    ensures Follows(pages, k, [first] + rest)
  {
    var expected := [first] + rest;
    forall j | k <= j < |pages|
      ensures j - k < |expected| && pages[j].rows == expected[j - k]
      ensures pages[j].next == "" <==> j - k == |expected| - 1
    {
      if j > k { assert expected[j - k] == rest[j - (k + 1)]; }
    }
  }

  /** The rest of a walk, from a given page on, depends only on the rows still unread there. */
  lemma {:induction false} WalkFrom(
    tables: seq<seq<Row>>, conversation: string, limit: int, pages: seq<Page>, k: nat, cursor: Option<Row>, left: seq<Row>)
    requires Walk(tables, conversation, limit, pages) && QuietWalk(tables, TrimSpace(conversation), pages)
    requires k < |pages| && Reached(tables, conversation, pages, k, cursor, left)
    ensures Follows(pages, k, Pages(left, ClampLimit(limit)))
    decreases |pages| - k
  {
    hide Newer, Fetch, Remaining, Quiet, ValidTable, Flatten, Walk, QuietWalk, Reached, DropUntilBefore;
    var n := ClampLimit(limit);
    WalkPage(tables, conversation, limit, pages, k, cursor, left);
    if |left| < n {
      ShortList(left, n);
    } else {
      FirstPage(left, n);
      hide Pages, Follows;
      var rest := DropUntilBefore(left[n..], left[n - 1].createdAt);
      if k + 1 < |pages| {
        WalkFrom(tables, conversation, limit, pages, k + 1, Some(left[n - 1]), rest);
      }
      assert Take(left, n) == left[..n];
      FollowsCons(pages, k, left[..n], Pages(rest, n));
    }
  }

  /**
   A walk returns, page by page, the recursion's pages of the conversation as it stood at
   the first request, however many rows arrive meanwhile, and ends within their number.
   */
  lemma WalkIsPages(tables: seq<seq<Row>>, conversation: string, limit: int, pages: seq<Page>)
    requires Walk(tables, conversation, limit, pages) && QuietWalk(tables, TrimSpace(conversation), pages)
    ensures Follows(pages, 0, Pages(Conversation(tables[0], TrimSpace(conversation)), ClampLimit(limit)))
  {
    hide Newer, Pages, Fetch, Descending, Follows;
    var conv := TrimSpace(conversation);
    SelectionDescending(tables[0], conv, Everything);
    WalkFrom(tables, conversation, limit, pages, 0, None, Conversation(tables[0], conv));
  }

  /** The rows a finished walk delivered. */
  function Collected(pages: seq<Page>): seq<Row> {
    if pages == [] then [] else pages[0].rows + Collected(pages[1..])
  }

  lemma {:induction false} DeliveredIsFlatten(pages: seq<Page>, parts: seq<seq<Row>>)
    requires |pages| == |parts| && forall k :: 0 <= k < |pages| ==> pages[k].rows == parts[k]
    ensures Collected(pages) == Flatten(parts)
  {
    if pages != [] {
      DeliveredIsFlatten(pages[1..], parts[1..]);
    }
  }

  /** A walk that reached an empty cursor delivered the recursion's rows, in as many calls as it has pages. */
  lemma FinishedWalk(tables: seq<seq<Row>>, conversation: string, limit: int, pages: seq<Page>)
    requires Walk(tables, conversation, limit, pages) && QuietWalk(tables, TrimSpace(conversation), pages)
    requires pages[|pages| - 1].next == ""
    ensures var expected := Pages(Conversation(tables[0], TrimSpace(conversation)), ClampLimit(limit));
            Collected(pages) == Flatten(expected) && |pages| == |expected|
  {
    hide Newer, Pages, QuietWalk, Flatten, Collected, Fetch;
    WalkIsPages(tables, conversation, limit, pages);
    assert pages[|pages| - 1].next == "";
    DeliveredIsFlatten(pages, Pages(Conversation(tables[0], TrimSpace(conversation)), ClampLimit(limit)));
  }

  function RowsOf(pages: seq<Page>): seq<seq<Row>> {
    seq(|pages|, k requires 0 <= k < |pages| => pages[k].rows)
  }

  /**
   What a finished walk delivers, for every table: nothing twice, from new to old; all of the
   conversation but the rows a used cursor hides; and all of it exactly when no tie straddles
   a page boundary, in n / limit + 1 calls.
   */
  lemma FinishedWalkExact(tables: seq<seq<Row>>, conversation: string, limit: int, pages: seq<Page>, row: Row)
    requires Walk(tables, conversation, limit, pages) && QuietWalk(tables, TrimSpace(conversation), pages)
    requires pages[|pages| - 1].next == ""
    ensures var rows, n := Conversation(tables[0], TrimSpace(conversation)), ClampLimit(limit);
            && Descending(Collected(pages))
            && (row in Collected(pages) <==> row in rows && !Hidden(RowsOf(pages), row))
            && (Collected(pages) == rows <==> NoTieAtBoundary(rows, n))
            && (Collected(pages) == rows ==> (|pages| - 1) * n <= |rows| < |pages| * n)
  {
    assert tables != [];
    hide *;
    var rows, n := Conversation(tables[0], TrimSpace(conversation)), ClampLimit(limit);
    ConversationDescends(tables, conversation, pages);
    FinishedWalk(tables, conversation, limit, pages);
    FinishedRows(tables, conversation, limit, pages);
    WalkDescends(rows, n);
    PagesWithin(rows, n);
    if row in rows { OmittedExactly(rows, n, row); }
    CompleteIff(rows, n);
    if Flatten(Pages(rows, n)) == rows { CompleteCalls(rows, n); }
  }

  lemma ConversationDescends(tables: seq<seq<Row>>, conversation: string, pages: seq<Page>)
    requires QuietWalk(tables, TrimSpace(conversation), pages) && tables != []
    ensures Descending(Conversation(tables[0], TrimSpace(conversation)))
  {
    hide Descending, Newer, ValidTable, Quiet;
    SelectionDescending(tables[0], TrimSpace(conversation), Everything);
  }

  lemma FinishedRows(tables: seq<seq<Row>>, conversation: string, limit: int, pages: seq<Page>)
    requires Walk(tables, conversation, limit, pages) && QuietWalk(tables, TrimSpace(conversation), pages)
    requires pages[|pages| - 1].next == ""
    ensures RowsOf(pages) == Pages(Conversation(tables[0], TrimSpace(conversation)), ClampLimit(limit))
  {
    assert tables != [] && pages != [];
    hide *;
    WalkIsPages(tables, conversation, limit, pages);
    FollowsToTheEnd(pages, Pages(Conversation(tables[0], TrimSpace(conversation)), ClampLimit(limit)));
  }

  lemma FollowsToTheEnd(pages: seq<Page>, expected: seq<seq<Row>>)
    requires pages != [] && Follows(pages, 0, expected) && pages[|pages| - 1].next == ""
    ensures RowsOf(pages) == expected
  {
  }

  function Same(table: seq<Row>, n: nat): (tables: seq<seq<Row>>)
    ensures |tables| == n && forall k :: 0 <= k < n ==> tables[k] == table
  {
    seq(n, _ => table)
  }

  /** A walk over a table that does not change meanwhile. */
  ghost predicate StillWalk(table: seq<Row>, conversation: string, limit: int, pages: seq<Page>) {
    && Walk(Same(table, |pages|), conversation, limit, pages)
    && QuietWalk(Same(table, |pages|), TrimSpace(conversation), pages)
  }

  lemma StillIsQuiet(table: seq<Row>, conversation: string, pages: seq<Page>)
    requires ValidTable(table)
    ensures QuietWalk(Same(table, |pages|), conversation, pages)
  {
    hide ValidTable;
  }

  lemma AskedPrefix(pages: seq<Page>, page: Page, k: nat)
    requires k <= |pages|
    ensures Asked(pages + [page], k) == Asked(pages, k)
  {
  }

  /** The pages answer, in turn, the cursors a client sends about one table. */
  ghost predicate Answers(table: seq<Row>, conversation: string, limit: int, pages: seq<Page>) {
    && (forall k :: 0 <= k < |pages| ==> pages[k] == Fetch(table, conversation, Asked(pages, k), limit))
    && (forall k :: 0 <= k < |pages| - 1 ==> pages[k].next != "")
  }

  lemma StillAnswers(table: seq<Row>, conversation: string, limit: int, pages: seq<Page>)
    requires ValidTable(table)
    ensures StillWalk(table, conversation, limit, pages) <==> pages != [] && Answers(table, conversation, limit, pages)
  {
    hide Fetch, ValidTable, Asked, Quiet;
    StillIsQuiet(table, TrimSpace(conversation), pages);
    hide QuietWalk;
  }

  lemma AnswersOneMore(table: seq<Row>, conversation: string, limit: int, pages: seq<Page>, page: Page)
    requires Answers(table, conversation, limit, pages) && pages != [] && pages[|pages| - 1].next != ""
    requires page == Fetch(table, conversation, Asked(pages, |pages|), limit)
    ensures Answers(table, conversation, limit, pages + [page])
  {
    hide Fetch, Asked;
    var more := pages + [page];
    forall k | 0 <= k < |more| ensures more[k] == Fetch(table, conversation, Asked(more, k), limit) {
      AskedPrefix(pages, page, k);
    }
  }

  lemma NextRequest(table: seq<Row>, conversation: string, limit: int, pages: seq<Page>) returns (more: seq<Page>)
    requires ValidTable(table) && pages != [] && StillWalk(table, conversation, limit, pages) && pages[|pages| - 1].next != ""
    ensures StillWalk(table, conversation, limit, more) && |more| == |pages| + 1 && pages <= more
  {
    hide *;
    var page := Fetch(table, conversation, pages[|pages| - 1].next, limit);
    more := pages + [page];
    LastAsked(pages);
    StillAnswers(table, conversation, limit, pages);
    AnswersOneMore(table, conversation, limit, pages, page);
    StillAnswers(table, conversation, limit, more);
  }

  lemma LastAsked(pages: seq<Page>)
    requires pages != []
    ensures Asked(pages, |pages|) == pages[|pages| - 1].next
  {
  }

  lemma StillWalkLength(table: seq<Row>, conversation: string, limit: int, pages: seq<Page>)
    requires StillWalk(table, conversation, limit, pages)
    ensures 0 < |pages| <= |Pages(Conversation(table, TrimSpace(conversation)), ClampLimit(limit))|
  {
    hide Newer, Pages, Fetch, Descending, Quiet, Conversation;
    WalkIsPages(Same(table, |pages|), conversation, limit, pages);
  }

  /** Any walk begun on a table can be continued to the empty cursor. */
  lemma {:induction false} WalkFinishes(table: seq<Row>, conversation: string, limit: int, pages: seq<Page>) returns (whole: seq<Page>)
    requires ValidTable(table) && StillWalk(table, conversation, limit, pages)
    ensures StillWalk(table, conversation, limit, whole) && pages <= whole
    ensures whole != [] && whole[|whole| - 1].next == ""
    decreases |Pages(Conversation(table, TrimSpace(conversation)), ClampLimit(limit))| - |pages|
  {
    hide *;
    StillWalkLength(table, conversation, limit, pages);
    whole := pages;
    if pages[|pages| - 1].next != "" {
      var more := NextRequest(table, conversation, limit, pages);
      StillWalkLength(table, conversation, limit, more);
      whole := WalkFinishes(table, conversation, limit, more);
    }
  }

  /** Every client reaches the end: on any table the walk from the empty cursor finishes. */
  lemma EveryWalkEnds(table: seq<Row>, conversation: string, limit: int) returns (pages: seq<Page>)
    requires ValidTable(table)
    ensures StillWalk(table, conversation, limit, pages)
    ensures pages != [] && pages[|pages| - 1].next == ""
  {
    pages := [Fetch(table, conversation, "", limit)];
    StillIsQuiet(table, TrimSpace(conversation), pages);
    hide ValidTable, Fetch, QuietWalk;
    assert StillWalk(table, conversation, limit, pages);
    hide StillWalk;
    pages := WalkFinishes(table, conversation, limit, pages);
  }

  // ---------------------------------------------------------------- what ties cost

  lemma FirstOfTwo(first: Row, second: Row)
    requires first.conversation == second.conversation && Newer(first, second)
    requires first.conversation != "" && Trimmed(first.conversation)
    ensures Fetch([first, second], first.conversation, "", 1) == Page([first], first.id)
  {
    hide Newer;
    var table, c := [first, second], first.conversation;
    assert TrimSpace(c) == c && TrimSpace("") == "";
    hide TrimSpace;
    assert table[1..] == [second];
    assert Select([second], c, Everything) == [second];
    assert Select(table, c, Everything) == [first] + [second];
    assert ([first] + [second])[1..] == [second];
    assert SortDescending([second]) == [second];
    assert SortDescending([first] + [second]) == Insert(first, [second]) == [first] + [second];
  }

  lemma NoneAfterTie(first: Row, second: Row, conversation: string)
    requires first.id != "" && Trimmed(first.id) && first.createdAt == second.createdAt
    ensures Fetch([first, second], conversation, first.id, 1) == Page([], "")
  {
    var table, c := [first, second], TrimSpace(conversation);
    assert TrimSpace(first.id) == first.id;
    hide TrimSpace;
    assert Lookup(table, first.id) == Some(first);
    assert table[1..] == [second];
    assert Select([second], c, Before(first.createdAt)) == [];
    assert Select(table, c, Before(first.createdAt)) == [];
  }

  /** Two messages of one instant, read one at a time: the second is never returned. */
  lemma TieLosesMessage()
    ensures var first := Row("b", "c", "s", None, None, "x", 0);
            var second := first.(id := "a");
            var table := [first, second];
            && ValidTable(table)
            && Fetch(table, "c", "", 1) == Page([first], "b")
            && Fetch(table, "c", "b", 1) == Page([], "")
  {
    hide Fetch;
    var first := Row("b", "c", "s", None, None, "x", 0);
    var second := first.(id := "a");
    assert Less("a", "b");
    FirstOfTwo(first, second);
    NoneAfterTie(first, second, "c");
  }
}
