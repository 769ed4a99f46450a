/** Keyset pagination of a source's ledger, and what a reader who follows the cursors sees while
    the ledger keeps changing. */
module Pagination {
  import opened Wrappers
  import opened Domain
  import opened LedgerModel
  import opened Cursors

  datatype SortOrder = Asc | Desc

  datatype Query = Query(limit: int, cursor: Option<Cursor>, fromBlock: Option<int>, toBlock: Option<int>,
                         holder: Option<Address>, token: Option<string>, movement: Option<MovementType>)

  datatype Entry = Entry(key: Key, row: Row)

  datatype Page = Page(items: seq<Entry>, next: Option<Cursor>)

  function ClampLimit(limit: int): int {
    Min(Max(limit, 1), 100)
  }

  function Position(e: Entry): Cursor {
    Cursor(e.row.block, e.key.logIndex, e.key.batchIndex)
  }

  predicate CursorLess(a: Cursor, b: Cursor) {
    || a.block < b.block
    || (a.block == b.block && a.logIndex < b.logIndex)
    || (a.block == b.block && a.logIndex == b.logIndex && a.batchIndex < b.batchIndex)
  }

  /** Strictly earlier in the requested order. */
  predicate Earlier(sort: SortOrder, a: Cursor, b: Cursor) {
    match sort
    case Asc => CursorLess(a, b)
    case Desc => CursorLess(b, a)
  }

  /** The filters of the page query, cursor excepted. */
  predicate Matches(row: Row, source: SourceId, query: Query) {
    && row.source == source && !row.orphaned
    && (query.fromBlock.Some? ==> query.fromBlock.value <= row.block)
    && (query.toBlock.Some? ==> row.block <= query.toBlock.value)
    && (query.holder.Some? ==> row.from == query.holder || row.to == query.holder)
    && (query.token.Some? ==> row.token == query.token.value)
    && (query.movement.Some? ==> MovementOf(row) == query.movement.value)
  }

  predicate AfterCursor(sort: SortOrder, cursor: Option<Cursor>, position: Cursor) {
    cursor.Some? ==> Earlier(sort, cursor.value, position)
  }

  /** The rows a page may show. */
  function Selected(rows: Rows, source: SourceId, query: Query, sort: SortOrder): set<Entry> {
    set k | k in rows && Matches(rows[k], source, query)
        && AfterCursor(sort, query.cursor, Position(Entry(k, rows[k]))) :: Entry(k, rows[k])
  }

  predicate Ordered(sort: SortOrder, items: seq<Entry>) {
    forall i, j ::
        0 <= i < j < |items| ==> !Earlier(sort, Position(items[j]), Position(items[i])) && items[i] != items[j]
  }

  /** A page: the first rows of the selection in order, and the position of the last one when
      more rows follow. */
  ghost predicate IsPage(rows: Rows, source: SourceId, query: Query, sort: SortOrder, page: Page) {
    var selected := Selected(rows, source, query, sort);
    var limit := ClampLimit(query.limit);
    && Ordered(sort, page.items)
    && |page.items| <= limit
    && (forall e :: e in page.items ==> e in selected)
    && (forall e, f ::
        e in page.items && f in selected && f !in page.items ==> !Earlier(sort, Position(f), Position(e)))
    && (page.next == None ==> forall e :: e in selected ==> e in page.items)
    && (page.next.Some? ==>
          && |page.items| == limit
          && page.next.value == Position(page.items[limit - 1])
          && exists e :: e in selected && e !in page.items)
  }

  lemma EarlierTotal(sort: SortOrder, a: Cursor, b: Cursor, c: Cursor)
    ensures !Earlier(sort, a, a)
    ensures Earlier(sort, a, b) ==> !Earlier(sort, b, a)
    ensures Earlier(sort, a, b) && !Earlier(sort, c, b) ==> Earlier(sort, a, c)
    ensures !Earlier(sort, b, a) && !Earlier(sort, c, b) ==> !Earlier(sort, c, a)
    ensures a == b || Earlier(sort, a, b) || Earlier(sort, b, a)
  {
  }

  method FirstEntry(entries: set<Entry>, sort: SortOrder) returns (first: Entry)
    requires entries != {}
    ensures first in entries && forall e :: e in entries ==> !Earlier(sort, Position(e), Position(first))
  {
    first :| first in entries;
    var rest := entries - {first};
    EarlierTotal(sort, Position(first), Position(first), Position(first));
    while rest != {}
      invariant rest <= entries && first in entries
      invariant forall e :: e in entries - rest ==> !Earlier(sort, Position(e), Position(first))
      decreases rest
    {
      var e :| e in rest;
      rest := rest - {e};
      if Earlier(sort, Position(e), Position(first)) {
        forall x | x in entries - rest ensures !Earlier(sort, Position(x), Position(e)) {
          EarlierTotal(sort, Position(e), Position(first), Position(x));
          EarlierTotal(sort, Position(x), Position(e), Position(x));
        }
        first := e;
      }
    }
  }

  /** The page shows at most `limit` of the loaded rows. */
  function PageOf(items: seq<Entry>, limit: nat): Page
    requires limit > 0
  {
    if |items| > limit then Page(items[..limit], Some(Position(items[limit - 1]))) else Page(items, None)
  }

  /** These are the first rows of the selection, up to `count` of them. */
  ghost predicate AreFirst(sort: SortOrder, selected: set<Entry>, items: seq<Entry>, count: nat) {
    && |items| <= count && Ordered(sort, items)
    && (forall e :: e in items ==> e in selected)
    && (forall e, f :: e in items && f in selected && f !in items ==> !Earlier(sort, Position(f), Position(e)))
    && (|items| < count ==> forall e :: e in selected ==> e in items)
  }

  lemma FirstExtends(sort: SortOrder, selected: set<Entry>, items: seq<Entry>, next: Entry)
    requires AreFirst(sort, selected, items, |items|)
    requires next in selected && next !in items
    requires forall e :: e in selected && e !in items ==> !Earlier(sort, Position(e), Position(next))
    ensures AreFirst(sort, selected, items + [next], |items| + 1)
  {
    forall i | 0 <= i < |items| ensures items[i] in items {
    }
  }

  /** Loads one row more than the limit to learn whether a next page exists. */
  method LedgerPage(rows: Rows, source: SourceId, query: Query, sort: SortOrder) returns (page: Page)
    ensures IsPage(rows, source, query, sort, page)
  {
    var selected := Selected(rows, source, query, sort);
    var limit := ClampLimit(query.limit);
    var rest := selected;
    var items: seq<Entry> := [];
    while rest != {} && |items| < limit + 1
      invariant |items| <= limit + 1
      invariant forall e :: e in rest <==> e in selected && e !in items
      invariant AreFirst(sort, selected, items, |items|)
      decreases rest
    {
      var first := FirstEntry(rest, sort);
      FirstExtends(sort, selected, items, first);
      items := items + [first];
      rest := rest - {first};
    }
    page := PageOf(items, limit);
    assert AreFirst(sort, selected, items, limit + 1);
    PrefixIsPage(rows, source, query, sort, items);
  }

  lemma PrefixIsPage(rows: Rows, source: SourceId, query: Query, sort: SortOrder, items: seq<Entry>)
    requires AreFirst(sort, Selected(rows, source, query, sort), items, ClampLimit(query.limit) + 1)
    ensures IsPage(rows, source, query, sort, PageOf(items, ClampLimit(query.limit)))
  {
    var limit := ClampLimit(query.limit);
    if |items| > limit {
      var shown, extra := items[..limit], items[limit];
      assert items == shown + [extra] && extra in items;
      assert extra !in shown;
      forall e, f | e in shown && f in Selected(rows, source, query, sort) && f !in shown
        ensures !Earlier(sort, Position(f), Position(e))
      {
        var i :| 0 <= i < limit && items[i] == e;
        assert f in items ==> f == extra;
      }
    }
  }

  // ---------------------------------------------------------------- following the cursors

  /** One request: the ledger it was answered from, and the answer. */
  datatype Visit = Visit(rows: Rows, page: Page)

  /** A reader follows `next_cursor`, through its string form, until there is none; every request
      may see a different ledger. */
  ghost predicate IsWalk(source: SourceId, query: Query, sort: SortOrder, visits: seq<Visit>)
    decreases |visits|
  {
    && visits != []
    && IsPage(visits[0].rows, source, query, sort, visits[0].page)
    && (match visits[0].page.next
        case None => |visits| == 1
        case Some(next) =>
          && ParseCursor(EncodeCursor(next)).Some?
          && IsWalk(source, query.(cursor := ParseCursor(EncodeCursor(next))), sort, visits[1..]))
  }

  /** The same with cursors that are not printed and parsed. */
  ghost predicate IsTrail(source: SourceId, query: Query, sort: SortOrder, visits: seq<Visit>)
    decreases |visits|
  {
    && visits != []
    && IsPage(visits[0].rows, source, query, sort, visits[0].page)
    && (if visits[0].page.next == None then |visits| == 1
        else IsTrail(source, query.(cursor := visits[0].page.next), sort, visits[1..]))
  }

  ghost function Seen(visits: seq<Visit>): seq<Entry> {
    if visits == [] then [] else visits[0].page.items + Seen(visits[1..])
  }

  /** Positions fit their columns. */
  predicate PositionsFit(rows: Rows) {
    forall k :: k in rows ==> InColumns(Position(Entry(k, rows[k])))
  }

  /** The rows that the query selects have distinct positions. */
  predicate DistinctSelection(rows: Rows, source: SourceId, query: Query, sort: SortOrder) {
    forall e, f :: e in Selected(rows, source, query, sort) && f in Selected(rows, source, query, sort) && e != f ==>
      Position(e) != Position(f)
  }

  /** Every ledger of the walk has distinct positions among the selected rows. */
  ghost predicate WellPlaced(visits: seq<Visit>, source: SourceId, query: Query, sort: SortOrder) {
    forall v :: v in visits ==> PositionsFit(v.rows) && DistinctSelection(v.rows, source, query, sort)
  }

  /** What keeps the order of a walk strict: distinct positions, or pages of one row. */
  ghost predicate Orderable(visits: seq<Visit>, source: SourceId, query: Query, sort: SortOrder) {
    forall v :: v in visits ==>
      PositionsFit(v.rows) && (ClampLimit(query.limit) == 1 || DistinctSelection(v.rows, source, query, sort))
  }

  predicate StrictlyOrdered(sort: SortOrder, items: seq<Entry>) {
    forall i, j :: 0 <= i < j < |items| ==> Earlier(sort, Position(items[i]), Position(items[j]))
  }

  lemma PageStrict(rows: Rows, source: SourceId, query: Query, sort: SortOrder, page: Page)
    requires IsPage(rows, source, query, sort, page)
    requires ClampLimit(query.limit) == 1 || DistinctSelection(rows, source, query, sort)
    ensures StrictlyOrdered(sort, page.items)
  {
    forall i, j | 0 <= i < j < |page.items| ensures Earlier(sort, Position(page.items[i]), Position(page.items[j])) {
      var a, b := page.items[i], page.items[j];
      assert a in page.items && b in page.items;
      EarlierTotal(sort, Position(a), Position(b), Position(a));
    }
  }

  lemma NextCursorParses(rows: Rows, source: SourceId, query: Query, sort: SortOrder, page: Page)
    requires IsPage(rows, source, query, sort, page) && PositionsFit(rows) && page.next.Some?
    ensures ParseCursor(EncodeCursor(page.next.value)) == page.next
  {
    var last := page.items[ClampLimit(query.limit) - 1];
    assert last in page.items;
    CursorRoundTrip(Position(last));
  }

  /** Printing and parsing the cursors changes nothing. */
  lemma {:induction false} WalkIsTrail(source: SourceId, query: Query, sort: SortOrder, visits: seq<Visit>)
    requires forall v :: v in visits ==> PositionsFit(v.rows)
    ensures IsWalk(source, query, sort, visits) <==> IsTrail(source, query, sort, visits)
    decreases |visits|
  {
    if visits == [] {
    } else {
      var first := visits[0];
      assert first in visits;
      if IsPage(first.rows, source, query, sort, first.page) && first.page.next.Some? {
        NextCursorParses(first.rows, source, query, sort, first.page);
        WalkIsTrail(source, query.(cursor := first.page.next), sort, visits[1..]);
      }
    }
  }

  /** The next cursor lies after the present one. */
  lemma NextIsLater(rows: Rows, source: SourceId, query: Query, sort: SortOrder, page: Page)
    requires IsPage(rows, source, query, sort, page) && page.next.Some?
    ensures AfterCursor(sort, query.cursor, page.next.value)
  {
    var last := page.items[ClampLimit(query.limit) - 1];
    assert last in page.items;
  }

  /** A later cursor selects less. */
  lemma LaterSelects(rows: Rows, source: SourceId, query: Query, sort: SortOrder, next: Cursor)
    requires AfterCursor(sort, query.cursor, next)
    ensures Selected(rows, source, query.(cursor := Some(next)), sort) <= Selected(rows, source, query, sort)
    ensures DistinctSelection(rows, source, query, sort) ==>
              DistinctSelection(rows, source, query.(cursor := Some(next)), sort)
  {
    forall e | e in Selected(rows, source, query.(cursor := Some(next)), sort)
      ensures e in Selected(rows, source, query, sort)
    {
      if query.cursor.Some? {
        EarlierTrans(sort, query.cursor.value, next, Position(e));
      }
    }
  }

  lemma EarlierTrans(sort: SortOrder, a: Cursor, b: Cursor, c: Cursor)
    requires Earlier(sort, a, b) && Earlier(sort, b, c)
    ensures Earlier(sort, a, c)
  {
  }

  /** What holds of the ledgers of a walk holds of those of its remainder. */
  lemma LaterPlaced(source: SourceId, query: Query, sort: SortOrder, visits: seq<Visit>, next: Cursor)
    requires visits != [] && AfterCursor(sort, query.cursor, next)
    ensures WellPlaced(visits, source, query, sort) ==>
            WellPlaced(visits[1..], source, query.(cursor := Some(next)), sort)
    ensures Orderable(visits, source, query, sort) ==>
            Orderable(visits[1..], source, query.(cursor := Some(next)), sort)
  {
    forall v | v in visits[1..]
      ensures v in visits
      ensures DistinctSelection(v.rows, source, query, sort) ==>
                DistinctSelection(v.rows, source, query.(cursor := Some(next)), sort)
    {
      LaterSelects(v.rows, source, query, sort, next);
    }
  }

  /** What a page contributes to the order of a walk. */
  ghost predicate IsLink(limit: int, sort: SortOrder, cursor: Option<Cursor>, page: Page) {
    && StrictlyOrdered(sort, page.items)
    && (forall e :: e in page.items ==> AfterCursor(sort, cursor, Position(e)))
    && (page.next.Some? ==>
        page.items != [] && |page.items| == limit && page.next.value == Position(page.items[|page.items| - 1]))
  }

  ghost predicate IsChain(limit: int, sort: SortOrder, cursor: Option<Cursor>, visits: seq<Visit>)
    decreases |visits|
  {
    && visits != []
    && IsLink(limit, sort, cursor, visits[0].page)
    && (if visits[0].page.next == None then |visits| == 1
        else IsChain(limit, sort, visits[0].page.next, visits[1..]))
  }

  lemma PageIsLink(rows: Rows, source: SourceId, query: Query, sort: SortOrder, page: Page)
    requires IsPage(rows, source, query, sort, page)
    requires ClampLimit(query.limit) == 1 || DistinctSelection(rows, source, query, sort)
    ensures IsLink(ClampLimit(query.limit), sort, query.cursor, page)
  {
    PageStrict(rows, source, query, sort, page);
  }

  lemma OrderableRest(source: SourceId, query: Query, sort: SortOrder, visits: seq<Visit>)
    requires IsTrail(source, query, sort, visits) && Orderable(visits, source, query, sort)
    ensures IsLink(ClampLimit(query.limit), sort, query.cursor, visits[0].page)
    ensures var next := visits[0].page.next;
            next.Some? ==> Orderable(visits[1..], source, query.(cursor := next), sort)
  {
    var first := visits[0];
    assert first in visits;
    PageIsLink(first.rows, source, query, sort, first.page);
    if first.page.next.Some? {
      NextIsLater(first.rows, source, query, sort, first.page);
      LaterPlaced(source, query, sort, visits, first.page.next.value);
    }
  }

  lemma {:induction false} TrailIsChain(source: SourceId, query: Query, sort: SortOrder, visits: seq<Visit>)
    requires IsTrail(source, query, sort, visits) && Orderable(visits, source, query, sort)
    ensures IsChain(ClampLimit(query.limit), sort, query.cursor, visits)
    decreases |visits|
  {
    OrderableRest(source, query, sort, visits);
    var next := visits[0].page.next;
    if next == None {
    } else {
      TrailIsChain(source, query.(cursor := next), sort, visits[1..]);
    }
  }

  /** Everything a walk shows comes strictly after its cursor, in strict order. */
  lemma {:induction false} ChainOrdered(limit: int, sort: SortOrder, cursor: Option<Cursor>, visits: seq<Visit>)
    requires IsChain(limit, sort, cursor, visits)
    ensures StrictlyOrdered(sort, Seen(visits))
    ensures forall e :: e in Seen(visits) ==> AfterCursor(sort, cursor, Position(e))
    decreases |visits|
  {
    var page := visits[0].page;
    if page.next == None {
      assert Seen(visits) == page.items;
    } else {
      var tail := Seen(visits[1..]);
      ChainOrdered(limit, sort, page.next, visits[1..]);
      OrderedAppend(sort, page.items, tail, page.next.value);
      forall e | e in tail ensures AfterCursor(sort, cursor, Position(e)) {
        BeyondPage(sort, cursor, page.items, e);
      }
    }
  }

  lemma {:induction false} ChainPagesFull(limit: int, sort: SortOrder, cursor: Option<Cursor>, visits: seq<Visit>)
    requires IsChain(limit, sort, cursor, visits)
    ensures (|visits| - 1) * limit <= |Seen(visits)|
    decreases |visits|
  {
    if visits[0].page.next.Some? {
      ChainPagesFull(limit, sort, visits[0].page.next, visits[1..]);
      OneMorePage(|visits| - 1, limit);
    }
  }

  lemma OneMorePage(n: int, limit: int)
    ensures n * limit == (n - 1) * limit + limit
  {
  }

  /** Whatever a walk shows is in strict order: with distinct positions, or with pages of one row. */
  lemma WalkOrdered(source: SourceId, query: Query, sort: SortOrder, visits: seq<Visit>)
    requires IsWalk(source, query, sort, visits) && Orderable(visits, source, query, sort)
    ensures StrictlyOrdered(sort, Seen(visits))
    ensures forall e :: e in Seen(visits) ==> AfterCursor(sort, query.cursor, Position(e))
  {
    WalkIsTrail(source, query, sort, visits);
    TrailIsChain(source, query, sort, visits);
    ChainOrdered(ClampLimit(query.limit), sort, query.cursor, visits);
  }

  lemma BeyondPage(sort: SortOrder, cursor: Option<Cursor>, items: seq<Entry>, e: Entry)
    requires items != [] && forall x :: x in items ==> AfterCursor(sort, cursor, Position(x))
    requires Earlier(sort, Position(items[|items| - 1]), Position(e))
    ensures AfterCursor(sort, cursor, Position(e))
  {
    var last := items[|items| - 1];
    assert last in items;
    if cursor.Some? {
      EarlierTotal(sort, cursor.value, Position(last), Position(e));
      EarlierTotal(sort, Position(last), Position(e), Position(e));
    }
  }

  lemma OrderedAppend(sort: SortOrder, a: seq<Entry>, b: seq<Entry>, bound: Cursor)
    requires a != [] && bound == Position(a[|a| - 1])
    requires StrictlyOrdered(sort, a) && StrictlyOrdered(sort, b)
    requires forall e :: e in b ==> Earlier(sort, bound, Position(e))
    ensures StrictlyOrdered(sort, a + b)
  {
    var all := a + b;
    forall i, j | 0 <= i < j < |all| ensures Earlier(sort, Position(all[i]), Position(all[j])) {
      if i < |a| <= j {
        assert all[j] in b;
        EarlierTotal(sort, bound, Position(all[j]), bound);
        EarlierTotal(sort, Position(all[i]), bound, Position(all[j]));
      }
    }
  }

  /** The row stays stored, active, matching and in place for the whole walk. */
  ghost predicate StaysActive(visits: seq<Visit>, source: SourceId, query: Query, key: Key, position: Cursor) {
    forall v :: v in visits ==>
      && key in v.rows && Matches(v.rows[key], source, query) && Position(Entry(key, v.rows[key])) == position
  }

  /** With distinct positions, a selected row that is not on the page comes after its cursor. */
  lemma NotYetShown(rows: Rows, source: SourceId, query: Query, sort: SortOrder, page: Page, entry: Entry)
    requires IsPage(rows, source, query, sort, page) && DistinctSelection(rows, source, query, sort)
    requires entry in Selected(rows, source, query, sort) && entry !in page.items
    ensures page.next.Some? && Earlier(sort, page.next.value, Position(entry))
  {
    var last := page.items[ClampLimit(query.limit) - 1];
    assert last in page.items;
    EarlierTotal(sort, Position(last), Position(entry), Position(entry));
  }

  lemma StaysLater(source: SourceId, query: Query, visits: seq<Visit>, next: Option<Cursor>, key: Key, position: Cursor)
    requires StaysActive(visits, source, query, key, position) && visits != []
    ensures StaysActive(visits[1..], source, query.(cursor := next), key, position)
  {
  }

  lemma StaysSelected(source: SourceId, query: Query, sort: SortOrder, visits: seq<Visit>, key: Key, position: Cursor)
    requires StaysActive(visits, source, query, key, position) && visits != []
             && AfterCursor(sort, query.cursor, position)
    ensures key in visits[0].rows && Position(Entry(key, visits[0].rows[key])) == position
    ensures Entry(key, visits[0].rows[key]) in Selected(visits[0].rows, source, query, sort)
  {
    assert visits[0] in visits;
  }

  /** The rest of the walk is well placed and lies after the next cursor. */
  lemma PlacedRest(source: SourceId, query: Query, sort: SortOrder, visits: seq<Visit>)
    requires IsTrail(source, query, sort, visits) && WellPlaced(visits, source, query, sort)
    ensures DistinctSelection(visits[0].rows, source, query, sort)
    ensures var next := visits[0].page.next;
            next.Some? ==> WellPlaced(visits[1..], source, query.(cursor := next), sort)
  {
    var first := visits[0];
    assert first in visits;
    if first.page.next.Some? {
      NextIsLater(first.rows, source, query, sort, first.page);
      LaterPlaced(source, query, sort, visits, first.page.next.value);
    }
  }

  /** A row that stays active is shown by the walk. */
  lemma {:induction false} TrailFinds(source: SourceId, query: Query, sort: SortOrder, visits: seq<Visit>,
                                      key: Key, position: Cursor)
    requires IsTrail(source, query, sort, visits) && WellPlaced(visits, source, query, sort)
    requires StaysActive(visits, source, query, key, position) && AfterCursor(sort, query.cursor, position)
    ensures exists e :: e in Seen(visits) && e.key == key && Position(e) == position
    decreases |visits|
  {
    StaysSelected(source, query, sort, visits, key, position);
    PlacedRest(source, query, sort, visits);
    var entry := Entry(key, visits[0].rows[key]);
    if entry in visits[0].page.items {
      assert entry in Seen(visits);
    } else {
      NotYetShown(visits[0].rows, source, query, sort, visits[0].page, entry);
      StaysLater(source, query, visits, visits[0].page.next, key, position);
      TrailFinds(source, query.(cursor := visits[0].page.next), sort, visits[1..], key, position);
    }
  }

  /** In a strictly ordered list that shows a key only in one place, it is shown once. */
  lemma ShownOnce(sort: SortOrder, seen: seq<Entry>, key: Key, position: Cursor)
    requires StrictlyOrdered(sort, seen)
    requires forall e :: e in seen && e.key == key ==> Position(e) == position
    ensures forall i, j :: 0 <= i < j < |seen| && seen[i].key == key ==> seen[j].key != key
  {
    EarlierTotal(sort, position, position, position);
    forall i, j | 0 <= i < j < |seen| && seen[i].key == key ensures seen[j].key != key {
      assert seen[i] in seen && seen[j] in seen;
    }
  }

  /** Exactness under concurrent writes: every row that matches and stays active throughout the
      walk is shown exactly once, at its place in one strictly ordered list. */
  lemma WalkExact(source: SourceId, query: Query, sort: SortOrder, visits: seq<Visit>, key: Key, position: Cursor)
    requires IsWalk(source, query, sort, visits) && WellPlaced(visits, source, query, sort)
    requires StaysActive(visits, source, query, key, position) && AfterCursor(sort, query.cursor, position)
    ensures StrictlyOrdered(sort, Seen(visits))
    ensures exists e :: e in Seen(visits) && e.key == key && Position(e) == position
    ensures forall i, j :: 0 <= i < j < |Seen(visits)| && Seen(visits)[i].key == key ==> Seen(visits)[j].key != key
  {
    WalkOrdered(source, query, sort, visits);
    WalkIsTrail(source, query, sort, visits);
    TrailFinds(source, query, sort, visits, key, position);
    forall e | e in Seen(visits) && e.key == key ensures Position(e) == position {
      SeenSource(source, query, sort, visits, e, key, position);
    }
    ShownOnce(sort, Seen(visits), key, position);
  }

  /** Whatever is shown under the key of such a row is that row, in its place. */
  lemma {:induction false} SeenSource(source: SourceId, query: Query, sort: SortOrder, visits: seq<Visit>, e: Entry,
                                      key: Key, position: Cursor)
    requires IsTrail(source, query, sort, visits) && StaysActive(visits, source, query, key, position)
    requires e in Seen(visits) && e.key == key
    ensures Position(e) == position
    decreases |visits|
  {
    assert visits[0] in visits;
    if visits[0].page.next == None {
      assert visits[1..] == [];
    } else if e !in visits[0].page.items {
      SeenSource(source, query.(cursor := visits[0].page.next), sort, visits[1..], e, key, position);
    }
  }

  /** On one unchanging ledger every walk ends after at most one page more than the matching rows
      fill, so a reader cannot loop. */
  lemma WalkTerminates(rows: Rows, source: SourceId, query: Query, sort: SortOrder, visits: seq<Visit>)
    requires IsWalk(source, query, sort, visits) && Orderable(visits, source, query, sort)
    requires forall v :: v in visits ==> v.rows == rows
    ensures (|visits| - 1) * ClampLimit(query.limit) <= |Selected(rows, source, query, sort)|
    ensures |Seen(visits)| <= |Selected(rows, source, query, sort)|
  {
    WalkOrdered(source, query, sort, visits);
    WalkIsTrail(source, query, sort, visits);
    TrailIsChain(source, query, sort, visits);
    ChainPagesFull(ClampLimit(query.limit), sort, query.cursor, visits);
    SeenSelected(rows, source, query, sort, visits);
    var seen := Seen(visits);
    var shown := set e | e in seen;
    forall i, j | 0 <= i < j < |seen| ensures seen[i] != seen[j] {
      EarlierTotal(sort, Position(seen[i]), Position(seen[j]), Position(seen[i]));
    }
    DistinctCardinality(seen);
    SubsetCardinality(shown, Selected(rows, source, query, sort));
  }

  /** Every next page has strictly less left to select. */
  lemma NextSelectsLess(rows: Rows, source: SourceId, query: Query, sort: SortOrder, page: Page)
    requires IsPage(rows, source, query, sort, page) && page.next.Some?
    ensures |Selected(rows, source, query.(cursor := page.next), sort)| < |Selected(rows, source, query, sort)|
  {
    var all, left := Selected(rows, source, query, sort), Selected(rows, source, query.(cursor := page.next), sort);
    var last := page.items[ClampLimit(query.limit) - 1];
    assert last in page.items && last in all;
    LaterSelects(rows, source, query, sort, page.next.value);
    EarlierTotal(sort, Position(last), Position(last), Position(last));
    assert last !in left;
    SubsetCardinality(left, all - {last});
  }

  /** A reader who follows the cursors over one ledger always comes to the end, ties or not. */
  method FollowCursors(rows: Rows, source: SourceId, query: Query, sort: SortOrder) returns (visits: seq<Visit>)
    requires PositionsFit(rows)
    ensures IsWalkOver(rows, source, query, sort, visits)
    decreases |Selected(rows, source, query, sort)|
  {
    var page := LedgerPage(rows, source, query, sort);
    visits := [Visit(rows, page)];
    if page.next.Some? {
      NextSelectsLess(rows, source, query, sort, page);
      NextCursorParses(rows, source, query, sort, page);
      var rest := FollowCursors(rows, source, query.(cursor := ParseCursor(EncodeCursor(page.next.value))), sort);
      assert (visits + rest)[1..] == rest;
      visits := visits + rest;
    }
  }

  /** A walk over one unchanging ledger. */
  ghost predicate IsWalkOver(rows: Rows, source: SourceId, query: Query, sort: SortOrder, visits: seq<Visit>) {
    IsWalk(source, query, sort, visits) && forall v :: v in visits ==> v.rows == rows
  }

  lemma {:induction false} SeenSelected(rows: Rows, source: SourceId, query: Query, sort: SortOrder, visits: seq<Visit>)
    requires IsTrail(source, query, sort, visits)
    requires forall v :: v in visits ==> v.rows == rows
    ensures forall e :: e in Seen(visits) ==> e in Selected(rows, source, query, sort)
    decreases |visits|
  {
    assert visits[0] in visits;
    if visits[0].page.next == None {
      assert visits[1..] == [];
    } else {
      NextIsLater(rows, source, query, sort, visits[0].page);
      LaterSelects(rows, source, query, sort, visits[0].page.next.value);
      SeenSelected(rows, source, query.(cursor := visits[0].page.next), sort, visits[1..]);
    }
  }

  // ---------------------------------------------------------------- ties

  lemma {:induction false} MinEntry(entries: set<Entry>, sort: SortOrder) returns (first: Entry)
    requires entries != {}
    ensures first in entries && forall e :: e in entries ==> !Earlier(sort, Position(e), Position(first))
    decreases entries
  {
    first :| first in entries;
    EarlierTotal(sort, Position(first), Position(first), Position(first));
    if entries == {first} {
    } else {
      var other := MinEntry(entries - {first}, sort);
      EarlierTotal(sort, Position(other), Position(first), Position(first));
      if Earlier(sort, Position(other), Position(first)) {
        first := other;
      } else {
        forall e | e in entries ensures !Earlier(sort, Position(e), Position(first)) {
          EarlierTotal(sort, Position(e), Position(first), Position(other));
        }
      }
    }
  }

  lemma {:induction false} FirstRows(sort: SortOrder, selected: set<Entry>, count: nat) returns (items: seq<Entry>)
    ensures AreFirst(sort, selected, items, count)
    decreases count
  {
    if count == 0 {
      items := [];
    } else {
      items := FirstRows(sort, selected, count - 1);
      var rest := selected - (set e | e in items);
      if |items| == count - 1 && rest != {} {
        var next := MinEntry(rest, sort);
        FirstExtends(sort, selected, items, next);
        items := items + [next];
      } else if |items| == count - 1 {
        assert forall e :: e in selected ==> e !in rest;
      }
    }
  }

  lemma {:induction false} WalkExists(rows: Rows, source: SourceId, query: Query, sort: SortOrder)
    returns (visits: seq<Visit>)
    requires PositionsFit(rows)
    ensures IsWalkOver(rows, source, query, sort, visits)
    decreases |Selected(rows, source, query, sort)|
  {
    var items := FirstRows(sort, Selected(rows, source, query, sort), ClampLimit(query.limit) + 1);
    var page := PageOf(items, ClampLimit(query.limit));
    PrefixIsPage(rows, source, query, sort, items);
    visits := [Visit(rows, page)];
    if page.next.Some? {
      NextSelectsLess(rows, source, query, sort, page);
      NextCursorParses(rows, source, query, sort, page);
      var rest := WalkExists(rows, source, query.(cursor := page.next), sort);
      assert (visits + rest)[1..] == rest;
      visits := visits + rest;
    }
  }

  /** The walk shows every selected row. */
  ghost predicate ShowsAll(rows: Rows, source: SourceId, query: Query, sort: SortOrder, visits: seq<Visit>) {
    forall e :: e in Selected(rows, source, query, sort) ==> e in Seen(visits)
  }

  /** Every walk over the ledger, whatever its page size, shows every selected row. */
  ghost predicate AlwaysShowsAll(rows: Rows, source: SourceId, query: Query, sort: SortOrder) {
    forall limit, visits :: IsWalkOver(rows, source, query.(limit := limit), sort, visits) ==>
      ShowsAll(rows, source, query, sort, visits)
  }

  lemma LimitSelectsSame(rows: Rows, source: SourceId, query: Query, sort: SortOrder, limit: int)
    ensures Selected(rows, source, query.(limit := limit), sort) == Selected(rows, source, query, sort)
  {
  }

  lemma DistinctShown(rows: Rows, source: SourceId, query: Query, sort: SortOrder, visits: seq<Visit>, e: Entry)
    requires PositionsFit(rows) && IsWalkOver(rows, source, query, sort, visits)
    requires DistinctSelection(rows, source, query, sort) && e in Selected(rows, source, query, sort)
    ensures e in Seen(visits)
  {
    WalkExact(source, query, sort, visits, e.key, Position(e));
    WalkIsTrail(source, query, sort, visits);
    SeenSelected(rows, source, query, sort, visits);
  }

  /** With pages of one row a walk never shows two rows in one position. */
  lemma TiedNotBothShown(rows: Rows, source: SourceId, query: Query, sort: SortOrder, visits: seq<Visit>, e: Entry,
                         f: Entry)
    requires PositionsFit(rows) && IsWalkOver(rows, source, query, sort, visits) && ClampLimit(query.limit) == 1
    requires e != f && Position(e) == Position(f) && e in Seen(visits)
    ensures f !in Seen(visits)
  {
    WalkOrdered(source, query, sort, visits);
    StrictPositions(sort, Seen(visits), e, f);
  }

  lemma StrictPositions(sort: SortOrder, seen: seq<Entry>, e: Entry, f: Entry)
    requires StrictlyOrdered(sort, seen) && e in seen && e != f && Position(e) == Position(f)
    ensures f !in seen
  {
    EarlierTotal(sort, Position(e), Position(f), Position(e));
    var i :| 0 <= i < |seen| && seen[i] == e;
    forall j | 0 <= j < |seen| ensures seen[j] != f {
      assert j < i || i < j || seen[j] == e;
    }
  }

  /** Exactly when pagination skips rows: on one ledger every walk of every page size shows every
      selected row if and only if the selected rows have distinct positions. */
  lemma TiesExact(rows: Rows, source: SourceId, query: Query, sort: SortOrder)
    requires PositionsFit(rows)
    ensures AlwaysShowsAll(rows, source, query, sort) <==> DistinctSelection(rows, source, query, sort)
  {
    if DistinctSelection(rows, source, query, sort) {
      forall limit, visits | IsWalkOver(rows, source, query.(limit := limit), sort, visits)
        ensures ShowsAll(rows, source, query, sort, visits)
      {
        LimitSelectsSame(rows, source, query, sort, limit);
        forall e | e in Selected(rows, source, query, sort) ensures e in Seen(visits) {
          DistinctShown(rows, source, query.(limit := limit), sort, visits, e);
        }
      }
    } else {
      var e, f :| e in Selected(rows, source, query, sort) && f in Selected(rows, source, query, sort) && e != f
                  && Position(e) == Position(f);
      var visits := WalkExists(rows, source, query.(limit := 1), sort);
      if ShowsAll(rows, source, query, sort, visits) {
        TiedNotBothShown(rows, source, query.(limit := 1), sort, visits, e, f);
      }
      assert !ShowsAll(rows, source, query, sort, visits);
    }
  }

  /** Two active rows in one position, as two transactions of one block number can leave them. */
  function Tied(): Rows {
    var meta := Metadata("0xaa", None, None);
    map[Key(1, "0x1", 0, 0) := Row(7, None, Some("A"), "", 5, 100, meta, false),
        Key(1, "0x2", 0, 0) := Row(7, None, Some("B"), "", 5, 100, meta, false)]
  }

  const ONE_ROW := Query(1, None, None, None, None, None, None)

  function TiedEntry(transactionHash: string): Entry
    requires transactionHash == "0x1" || transactionHash == "0x2"
  {
    var k := Key(1, transactionHash, 0, 0);
    Entry(k, Tied()[k])
  }

  lemma TiedSelection()
    ensures Selected(Tied(), 7, ONE_ROW, Asc) == {TiedEntry("0x1"), TiedEntry("0x2")}
    ensures TiedEntry("0x1") != TiedEntry("0x2") && PositionsFit(Tied())
  {
  }

  /** Without distinct positions the walk is not exact: with pages of one row, no walk over this
      ledger shows both rows. */
  lemma TiesAreSkipped(visits: seq<Visit>)
    requires IsWalkOver(Tied(), 7, ONE_ROW, Asc, visits)
    ensures Selected(Tied(), 7, ONE_ROW, Asc) == {TiedEntry("0x1"), TiedEntry("0x2")}
    ensures TiedEntry("0x1") !in Seen(visits) || TiedEntry("0x2") !in Seen(visits)
  {
    TiedSelection();
    if TiedEntry("0x1") in Seen(visits) {
      TiedNotBothShown(Tied(), 7, ONE_ROW, Asc, visits, TiedEntry("0x1"), TiedEntry("0x2"));
    }
  }

  lemma {:induction false} DistinctCardinality<E>(s: seq<E>)
    requires forall i, j :: 0 <= i < j < |s| ==> s[i] != s[j]
    ensures |set e | e in s| == |s|
    decreases |s|
  {
    if s == [] {
    } else {
      var init, last := s[..|s| - 1], s[|s| - 1];
      DistinctCardinality(init);
      assert (set e | e in s) == (set e | e in init) + {last};
      assert last !in init;
    }
  }

  lemma {:induction false} SubsetCardinality<E>(a: set<E>, b: set<E>)
    requires a <= b
    ensures |a| <= |b|
    decreases a
  {
    if a == {} {
    } else {
      var x :| x in a;
      SubsetCardinality(a - {x}, b - {x});
    }
  }
}
