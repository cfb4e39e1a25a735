/** Listing one user's sessions page by page while sessions keep moving. Session keys are their ranks in
    the collation, counted from 1; 0 is the empty key. */
module SessionPaging {
  import opened Wrappers

  /** The three parts of the sort key. */
  datatype Key = Key(pinned: bool, updatedAt: int, session: nat)

  datatype Row = Row(username: string, key: Key, project: string, archived: bool)

  // ---- the order ----

  /** k comes strictly after c in the list: the first part in which they differ is smaller. */
  predicate Below(k: Key, c: Key) {
    if k.pinned != c.pinned then c.pinned
    else if k.updatedAt != c.updatedAt then k.updatedAt < c.updatedAt
    else k.session < c.session
  }

  function Bit(b: bool): int { if b then 1 else 0 }

  /** The clause as it is written out for the database. */
  predicate CursorClause(c: Key, k: Key) {
    || Bit(k.pinned) < Bit(c.pinned)
    || (Bit(k.pinned) == Bit(c.pinned) && k.updatedAt < c.updatedAt)
    || (Bit(k.pinned) == Bit(c.pinned) && k.updatedAt == c.updatedAt && k.session < c.session)
  }

  /** The clause is the strict descending lexicographic order, which is a total order. */
  lemma ClauseIsTheOrder(a: Key, b: Key, c: Key)
    ensures CursorClause(c, a) <==> Below(a, c)
    ensures a == b || Below(a, b) || Below(b, a)
    ensures !(Below(a, b) && Below(b, a))
    ensures Below(a, b) && Below(b, c) ==> Below(a, c)
  {
  }

  // ---- cursors as text ----

  datatype Payload = Payload(p: int, u: Option<int>, k: nat)

  /** The text form of a cursor; text that is no cursor decodes to nothing. */
  datatype Codec = Codec(encode: Payload -> string, decode: string -> Option<Payload>)

  ghost predicate Faithful(c: Codec) { forall p :: c.decode(c.encode(p)) == Some(p) && c.encode(p) != "" }

  function EncodeCursor(c: Codec, row: Option<Row>): string {
    if row.None? then ""
    else c.encode(Payload(Bit(row.value.key.pinned), Some(row.value.key.updatedAt), row.value.key.session))
  }

  function DecodeCursor(c: Codec, raw: string): Option<Key> {
    if raw == "" || c.decode(raw).None? then None
    else
      var v := c.decode(raw).value;
      if v.u.Some? && v.k > 0 then Some(Key(v.p != 0, v.u.value, v.k)) else None
  }

  lemma CursorRoundTrip(c: Codec, row: Row)
    requires Faithful(c) && row.key.session > 0
    ensures DecodeCursor(c, EncodeCursor(c, Some(row))) == Some(row.key)
  {
  }

  // ---- page size ----

  const PAGE_DEFAULT := 50
  const PAGE_MAX := 200

  /** The page size for a query parameter; None when it is not a finite number. */
  function NormalizeLimit(raw: Option<real>): nat {
    if raw.None? || raw.value <= 0.0 then PAGE_DEFAULT
    else if raw.value.Floor <= PAGE_MAX then raw.value.Floor else PAGE_MAX
  }

  /** A page can hold a row exactly unless the parameter is a fraction below one, which rounds to a page of
      nothing. */
  lemma LimitIsPositive(raw: Option<real>)
    ensures NormalizeLimit(raw) <= PAGE_MAX
    ensures NormalizeLimit(raw) >= 1 <==> !(raw.Some? && 0.0 < raw.value < 1.0)
    ensures NormalizeLimit(Some(0.5)) == 0
  {
  }

  /** A whole number from 1 to 200 is taken at its word, a fraction rounded down, more than 200 cut to 200;
      anything else means 50. */
  lemma LimitIsTakenAtItsWord(n: int, part: real)
    requires 0.0 <= part < 1.0
    ensures 1 <= n ==> NormalizeLimit(Some(n as real + part)) == if n <= 200 then n else 200
    ensures NormalizeLimit(None) == 50 && NormalizeLimit(Some(-part)) == 50
    ensures n < 0 ==> NormalizeLimit(Some(n as real)) == 50
  {
  }

  // ---- one page ----

  datatype Query = Query(username: string, project: Option<string>, includeArchived: bool)

  datatype Condition = Mine(username: string) | InProject(project: string) | NotArchived | After(cursor: Key)

  predicate Satisfies(row: Row, c: Condition) {
    match c
    case Mine(u) => row.username == u
    case InProject(p) => row.project == p
    case NotArchived => !row.archived
    case After(cursor) => CursorClause(cursor, row.key)
  }

  predicate SatisfiesAll(row: Row, where: seq<Condition>) { forall c | c in where :: Satisfies(row, c) }

  predicate Listed(row: Row, q: Query) {
    row.username == q.username && (q.project.Some? ==> row.project == q.project.value)
      && (!q.includeArchived ==> !row.archived)
  }

  predicate Ahead(row: Row, cursor: Option<Key>) { cursor.Some? ==> Below(row.key, cursor.value) }

  /** The table as the database would order it. Two rows of one user never have the same key. */
  ghost predicate Snapshot(rows: seq<Row>, username: string) {
    forall i, j | 0 <= i < j < |rows| && rows[i].username == username && rows[j].username == username ::
      Below(rows[j].key, rows[i].key)
  }

  ghost predicate Descending(rows: seq<Row>) { forall i, j | 0 <= i < j < |rows| :: Below(rows[j].key, rows[i].key) }

  function Matching(rows: seq<Row>, q: Query, cursor: Option<Key>): seq<Row> {
    if rows == [] then []
    else
      var init, row := Matching(rows[..|rows| - 1], q, cursor), rows[|rows| - 1];
      if Listed(row, q) && Ahead(row, cursor) then init + [row] else init
  }

  datatype Page = Page(items: seq<Row>, hasMore: bool)

  function PageOf(rows: seq<Row>, q: Query, cursor: Option<Key>, limit: nat): Page {
    var found := Matching(rows, q, cursor);
    if |found| > limit then Page(found[..limit], true) else Page(found, false)
  }

  /** The cursor a page hands on. */
  function NextOf(p: Page): Option<Key> {
    if p.hasMore && p.items != [] then Some(p.items[|p.items| - 1].key) else None
  }

  /** What the database does with the conditions. */
  method Select(rows: seq<Row>, where: seq<Condition>, ghost q: Query, ghost cursor: Option<Key>)
    returns (found: seq<Row>)
    requires forall row :: SatisfiesAll(row, where) <==> Listed(row, q) && Ahead(row, cursor)
    ensures found == Matching(rows, q, cursor)
  {
    hide SatisfiesAll, Listed, Ahead;
    found := [];
    for i := 0 to |rows|
      invariant found == Matching(rows[..i], q, cursor)
    {
      assert rows[..i + 1][..i] == rows[..i];
      if SatisfiesAll(rows[i], where) { found := found + [rows[i]]; }
    }
    assert rows[..|rows|] == rows;
  }

  method List(rows: seq<Row>, q: Query, codec: Codec, raw: string, limit: Option<real>)
    returns (page: Page, next: string)
    ensures page == PageOf(rows, q, DecodeCursor(codec, raw), NormalizeLimit(limit))
    ensures page.hasMore ==> |page.items| == NormalizeLimit(limit)
    ensures Faithful(codec) && page.hasMore && page.items != [] && page.items[|page.items| - 1].key.session > 0
            ==> DecodeCursor(codec, next) == NextOf(page)
    ensures !page.hasMore ==> next == ""
  {
    var where := [Mine(q.username)];
    if q.project.Some? { where := where + [InProject(q.project.value)]; }
    if !q.includeArchived { where := where + [NotArchived]; }
    var cursor := DecodeCursor(codec, raw);
    if cursor.Some? { where := where + [After(cursor.value)]; }
    var size := NormalizeLimit(limit);
    forall row ensures SatisfiesAll(row, where) <==> Listed(row, q) && Ahead(row, cursor) {
      WhereMeans(row, q, cursor, where);
    }
    var found := Select(rows, where, q, cursor);
    var hasMore := |found| > size;
    var items := if hasMore then found[..size] else found;
    page := Page(items, hasMore);
    next := if !hasMore then "" else EncodeCursor(codec, if items == [] then None else Some(items[|items| - 1]));
  }

  lemma WhereMeans(row: Row, q: Query, cursor: Option<Key>, where: seq<Condition>)
    requires where == [Mine(q.username)] + (if q.project.Some? then [InProject(q.project.value)] else [])
                      + (if !q.includeArchived then [NotArchived] else [])
                      + (if cursor.Some? then [After(cursor.value)] else [])
    ensures SatisfiesAll(row, where) <==> Listed(row, q) && Ahead(row, cursor)
  {
    assert Mine(q.username) in where;
    assert q.project.Some? ==> InProject(q.project.value) in where;
    assert !q.includeArchived ==> NotArchived in where;
    assert cursor.Some? ==> After(cursor.value) in where;
  }

  // ---- a traversal over a changing table ----

  /** Each page is read from the table as it is at that moment, until a page says there are no more. */
  function Traversal(tables: seq<seq<Row>>, q: Query, cursor: Option<Key>, limit: nat): seq<seq<Row>> {
    if tables == [] then []
    else
      var p := PageOf(tables[0], q, cursor, limit);
      if p.hasMore then [p.items] + Traversal(tables[1..], q, NextOf(p), limit) else [p.items]
  }

  /** The traversal got to its end. */
  predicate Complete(tables: seq<seq<Row>>, q: Query, cursor: Option<Key>, limit: nat) {
    tables != []
    && var p := PageOf(tables[0], q, cursor, limit);
       p.hasMore ==> Complete(tables[1..], q, NextOf(p), limit)
  }

  /** On how many pages a row is. */
  function Times(pages: seq<seq<Row>>, row: Row): nat {
    if pages == [] then 0 else (if row in pages[0] then 1 else 0) + Times(pages[1..], row)
  }

  lemma {:induction false} MatchingFacts(rows: seq<Row>, q: Query, cursor: Option<Key>)
    requires Snapshot(rows, q.username)
    ensures Descending(Matching(rows, q, cursor))
    ensures forall row :: row in Matching(rows, q, cursor) <==> row in rows && Listed(row, q) && Ahead(row, cursor)
  {
    if rows == [] {
    } else {
      var init, last := rows[..|rows| - 1], rows[|rows| - 1];
      MatchingFacts(init, q, cursor);
      assert rows == init + [last];
      var found := Matching(init, q, cursor);
      forall i | 0 <= i < |found| && Listed(last, q) ensures Below(last.key, found[i].key) {
        assert found[i] in init;
        var k :| 0 <= k < |init| && init[k] == found[i];
        assert rows[k] == found[i] && rows[|init|] == last;
      }
    }
  }

  lemma SplitAt(found: seq<Row>, limit: nat, row: Row)
    requires Descending(found) && row in found && 0 < limit < |found|
    ensures row in found[..limit] <==> !Below(row.key, found[limit - 1].key)
  {
    var i :| 0 <= i < |found| && found[i] == row;
    if i < limit {
      assert found[..limit][i] == row;
    } else {
      assert Below(found[i].key, found[limit - 1].key);
      forall j | 0 <= j < limit ensures found[j] != row { assert Below(found[i].key, found[j].key); }
    }
  }

  /** A page holds exactly the user's own rows, of the project if one was named, without the archived unless
      they were asked for, that lie between its cursor and the next one; and if there are more it is full. */
  lemma PageCoversItsRange(rows: seq<Row>, q: Query, cursor: Option<Key>, limit: nat, row: Row)
    requires Snapshot(rows, q.username) && limit > 0
    ensures var p := PageOf(rows, q, cursor, limit);
            row in p.items <==>
              && row in rows && row.username == q.username && (row.archived ==> q.includeArchived)
              && (q.project.None? || q.project.value == row.project)
              && Ahead(row, cursor) && (p.hasMore ==> !Ahead(row, NextOf(p)))
    ensures PageOf(rows, q, cursor, limit).hasMore ==> |PageOf(rows, q, cursor, limit).items| == limit
  {
    MatchingFacts(rows, q, cursor);
    var found := Matching(rows, q, cursor);
    if row in found && |found| > limit {
      SplitAt(found, limit, row);
    }
  }

  /** The next cursor lies behind the present one. */
  lemma CursorsDescend(rows: seq<Row>, q: Query, cursor: Option<Key>, limit: nat, row: Row)
    requires Snapshot(rows, q.username) && limit > 0 && PageOf(rows, q, cursor, limit).hasMore
    ensures var p := PageOf(rows, q, cursor, limit);
            NextOf(p).Some? && (Ahead(row, NextOf(p)) ==> Ahead(row, cursor))
  {
    MatchingFacts(rows, q, cursor);
    var p := PageOf(rows, q, cursor, limit);
    assert p.items[|p.items| - 1] in Matching(rows, q, cursor);
  }

  ghost predicate Stays(tables: seq<seq<Row>>, q: Query, row: Row) {
    forall t | t in tables :: Snapshot(t, q.username) && row in t
  }

  lemma {:induction false} OnOnePage(tables: seq<seq<Row>>, q: Query, cursor: Option<Key>, limit: nat, row: Row)
    requires Stays(tables, q, row) && Listed(row, q) && limit > 0
    ensures !Ahead(row, cursor) ==> Times(Traversal(tables, q, cursor, limit), row) == 0
    ensures Times(Traversal(tables, q, cursor, limit), row) <= 1
    ensures Ahead(row, cursor) && Complete(tables, q, cursor, limit)
            ==> Times(Traversal(tables, q, cursor, limit), row) == 1
    decreases |tables|
  {
    hide PageOf, Snapshot, Ahead;
    if tables == [] {
    } else {
      var p := PageOf(tables[0], q, cursor, limit);
      assert tables[0] in tables;
      PageCoversItsRange(tables[0], q, cursor, limit, row);
      if p.hasMore {
        CursorsDescend(tables[0], q, cursor, limit, row);
        OnOnePage(tables[1..], q, NextOf(p), limit, row);
        assert ([p.items] + Traversal(tables[1..], q, NextOf(p), limit))[1..]
               == Traversal(tables[1..], q, NextOf(p), limit);
      }
    }
  }

  /** A session that does not change during a traversal is on exactly one of its pages, however the others
      move, appear and vanish between the pages; and a page never lists anything twice. */
  lemma UnchangedSessionAppearsOnce(tables: seq<seq<Row>>, q: Query, limit: nat, row: Row)
    requires Stays(tables, q, row) && Listed(row, q) && limit > 0
    requires Complete(tables, q, None, limit)
    ensures Times(Traversal(tables, q, None, limit), row) == 1
  {
    OnOnePage(tables, q, None, limit, row);
  }

  lemma PageListsNothingTwice(rows: seq<Row>, q: Query, cursor: Option<Key>, limit: nat, i: nat, j: nat)
    requires Snapshot(rows, q.username) && i < j < |PageOf(rows, q, cursor, limit).items|
    ensures PageOf(rows, q, cursor, limit).items[i].key != PageOf(rows, q, cursor, limit).items[j].key
  {
    MatchingFacts(rows, q, cursor);
    assert Matching(rows, q, cursor)[i] in Matching(rows, q, cursor)
           && Matching(rows, q, cursor)[j] in Matching(rows, q, cursor);
  }

  /** A page is in order: pinned sessions first, then by the time of the last change, latest first, then by
      number. */
  lemma PageIsInOrder(rows: seq<Row>, q: Query, cursor: Option<Key>, limit: nat, i: nat, j: nat)
    requires Snapshot(rows, q.username) && i < j < |PageOf(rows, q, cursor, limit).items|
    ensures var a, b := PageOf(rows, q, cursor, limit).items[i].key, PageOf(rows, q, cursor, limit).items[j].key;
            if a.pinned != b.pinned then a.pinned
            else a.updatedAt > b.updatedAt || (a.updatedAt == b.updatedAt && a.session > b.session)
  {
    MatchingFacts(rows, q, cursor);
    var found := Matching(rows, q, cursor);
    assert Below(found[j].key, found[i].key);
  }

  /** With a page size of nothing, a page claims there are more but hands on no cursor: the next page is
      the first one again. */
  lemma EmptyPagesGoNowhere(rows: seq<Row>, q: Query, cursor: Option<Key>)
    requires Matching(rows, q, cursor) != []
    ensures var p := PageOf(rows, q, cursor, 0); p.hasMore && p.items == [] && NextOf(p) == None
  {
  }
}
