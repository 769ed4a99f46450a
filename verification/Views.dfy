/** What a reader learns from the ledger pages: the filters, stated on the ledger, and how what a
    complete walk shows relates to balances and supply. */
module Views {
  import opened Wrappers
  import opened Domain
  import opened Sums
  import opened Numerals
  import opened LedgerModel
  import opened LedgerTheorems
  import opened Cursors
  import opened Pagination

  // ---------------------------------------------------------------- what is shown

  /** A query for everything of a source, at this page size. */
  function Everything(limit: int): Query {
    Query(limit, None, None, None, None, None, None)
  }

  /** A complete reading of one ledger, page by page, of which every selected row has its own place. */
  ghost predicate IsReading(rows: Rows, source: SourceId, query: Query, sort: SortOrder, visits: seq<Visit>) {
    && query.cursor == None && PositionsFit(rows) && DistinctSelection(rows, source, query, sort)
    && IsWalkOver(rows, source, query, sort, visits)
  }

  /** The row is on the ledger: an active row of the source, that passes every filter there is. */
  predicate IsListed(rows: Rows, source: SourceId, query: Query, e: Entry) {
    && e.key in rows && rows[e.key] == e.row && e.row.source == source && !e.row.orphaned
    && (query.fromBlock.Some? ==> e.row.block >= query.fromBlock.value)
    && (query.toBlock.Some? ==> e.row.block <= query.toBlock.value)
    && (query.token.Some? ==> e.row.token == query.token.value)
    && (query.holder.Some? ==> query.holder in {e.row.from, e.row.to})
    && (query.movement == Some(Mint) ==> e.row.from == None && e.row.to != None)
    && (query.movement == Some(Burn) ==> e.row.from != None && e.row.to == None)
    && (query.movement == Some(Transfer) ==> (e.row.from == None <==> e.row.to == None))
  }

  lemma SelectedExact(rows: Rows, source: SourceId, query: Query, sort: SortOrder, e: Entry)
    requires query.cursor == None
    ensures e in Selected(rows, source, query, sort) <==> IsListed(rows, source, query, e)
  {
  }

  /** A complete reading shows exactly the listed rows, each once. */
  lemma ReadingExact(rows: Rows, source: SourceId, query: Query, sort: SortOrder, visits: seq<Visit>)
    requires IsReading(rows, source, query, sort, visits)
    ensures forall e :: e in Seen(visits) <==> IsListed(rows, source, query, e)
    ensures forall i, j :: 0 <= i < j < |Seen(visits)| ==> Seen(visits)[i] != Seen(visits)[j]
  {
    WalkIsTrail(source, query, sort, visits);
    SeenSelected(rows, source, query, sort, visits);
    forall e ensures e in Seen(visits) <==> IsListed(rows, source, query, e) {
      SelectedExact(rows, source, query, sort, e);
      if e in Selected(rows, source, query, sort) {
        DistinctShown(rows, source, query, sort, visits, e);
      }
    }
    WalkOrdered(source, query, sort, visits);
    forall i, j | 0 <= i < j < |Seen(visits)| ensures Seen(visits)[i] != Seen(visits)[j] {
      EarlierTotal(sort, Position(Seen(visits)[i]), Position(Seen(visits)[j]), Position(Seen(visits)[i]));
    }
  }

  // ---------------------------------------------------------------- order and size of pages

  /** A reading lists rows by block, then by log index, then by batch index, up or down. */
  lemma ReadingAscends(rows: Rows, source: SourceId, query: Query, sort: SortOrder, visits: seq<Visit>, i: nat, j: nat)
    requires IsReading(rows, source, query, sort, visits) && i < j < |Seen(visits)|
    ensures var e, f := Seen(visits)[if sort == Asc then i else j], Seen(visits)[if sort == Asc then j else i];
            Precedes(Place(e.row.block, e.key.logIndex, e.key.batchIndex),
                     Place(f.row.block, f.key.logIndex, f.key.batchIndex))
  {
    WalkOrdered(source, query, sort, visits);
  }

  /** A page has at least one row and at most a hundred of room, and as many as asked for in between;
      only a page that is full has a successor. */
  lemma PageSize(rows: Rows, source: SourceId, query: Query, sort: SortOrder, page: Page)
    requires IsPage(rows, source, query, sort, page)
    ensures |page.items| <= 100
    ensures 1 <= query.limit ==> |page.items| <= query.limit
    ensures page.next.Some? ==>
              |page.items| == if query.limit < 1 then 1 else if query.limit > 100 then 100 else query.limit
  {
  }

  /** The text of a cursor: three numbers, block first, then log index, then batch index. */
  lemma CursorText(block: nat, logIndex: nat, batchIndex: nat)
    ensures var text := Print(block, 10) + ":" + Print(logIndex, 10) + ":" + Print(batchIndex, 10);
            && EncodeCursor(Cursor(block, logIndex, batchIndex)) == text
            && ParseCursor(text) == if block <= I64_MAX && logIndex <= I32_MAX && batchIndex <= I32_MAX
                 then Some(Cursor(block, logIndex, batchIndex)) else None
  {
    CursorRoundTrip(Cursor(block, logIndex, batchIndex));
  }

  /** The next cursor names the place of the last row shown. */
  lemma NextCursorNamesLast(rows: Rows, source: SourceId, query: Query, sort: SortOrder, page: Page)
    requires IsPage(rows, source, query, sort, page) && page.next.Some?
    ensures page.items != []
    ensures var last := page.items[|page.items| - 1];
            EncodeCursor(page.next.value)
            == Print(last.row.block, 10) + ":" + Print(last.key.logIndex, 10) + ":" + Print(last.key.batchIndex, 10)
  {
  }

  // ---------------------------------------------------------------- sums over what is shown

  ghost function SumOver(entries: seq<Entry>, f: Row -> int): int {
    if entries == [] then 0 else SumOver(entries[..|entries| - 1], f) + f(entries[|entries| - 1].row)
  }

  ghost function OfRow(rows: Rows, f: Row -> int): Key -> int {
    k => if k in rows then f(rows[k]) else 0
  }

  lemma {:induction false} SumOverKeys(rows: Rows, entries: seq<Entry>, f: Row -> int)
    requires forall i :: 0 <= i < |entries| ==> entries[i].key in rows && rows[entries[i].key] == entries[i].row
    requires forall i, j :: 0 <= i < j < |entries| ==> entries[i] != entries[j]
    ensures SumOver(entries, f) == Sum((set e | e in entries :: e.key), OfRow(rows, f))
    decreases |entries|
  {
    if entries == [] {
      assert (set e | e in entries :: e.key) == {};
    } else {
      var init, last := entries[..|entries| - 1], entries[|entries| - 1];
      var keys := set e | e in entries :: e.key;
      SumOverKeys(rows, init, f);
      assert last in entries;
      assert keys - {last.key} == set e | e in init :: e.key;
      SumRemove(keys, OfRow(rows, f), last.key);
    }
  }

  /** A sum over the rows of a ledger that only listed rows contribute to is one over what a reading
      shows. */
  lemma ReadingSum(rows: Rows, source: SourceId, query: Query, sort: SortOrder, visits: seq<Visit>, f: Row -> int)
    requires IsReading(rows, source, query, sort, visits)
    requires forall k :: k in rows && !IsListed(rows, source, query, Entry(k, rows[k])) ==> f(rows[k]) == 0
    ensures SumOver(Seen(visits), f) == Sum(rows.Keys, OfRow(rows, f))
  {
    ReadingExact(rows, source, query, sort, visits);
    var seen := Seen(visits);
    forall i | 0 <= i < |seen| ensures seen[i].key in rows && rows[seen[i].key] == seen[i].row {
      assert seen[i] in seen;
    }
    SumOverKeys(rows, seen, f);
    var keys := set e | e in seen :: e.key;
    forall k | k in rows.Keys - keys ensures OfRow(rows, f)(k) == 0 {
      assert Entry(k, rows[k]) !in seen;
    }
    SumSupport(keys, rows.Keys, OfRow(rows, f));
  }

  ghost function FlowInto(slot: Slot): Row -> int {
    row => Flow(row, slot)
  }

  ghost function ActiveFlow(slot: Slot): Row -> int {
    row => Effect(row, slot)
  }

  lemma {:induction false} ActiveSum(entries: seq<Entry>, slot: Slot)
    requires forall i :: 0 <= i < |entries| ==> !entries[i].row.orphaned
    ensures SumOver(entries, ActiveFlow(slot)) == SumOver(entries, FlowInto(slot))
    decreases |entries|
  {
    if entries == [] {
    } else {
      ActiveSum(entries[..|entries| - 1], slot);
    }
  }

  /** Reading the ledger of a holder and a token gives the balance: what comes in less what goes out
      over all rows shown, on any page size and in either order. */
  lemma HolderReading(db: Db, source: SourceId, holder: Address, token: string, limit: int, sort: SortOrder,
                      visits: seq<Visit>)
    requires Consistent(db)
    requires IsReading(db.rows, source, Everything(limit).(holder := Some(holder), token := Some(token)), sort, visits)
    ensures SumOver(Seen(visits), FlowInto(Slot(source, holder, token)))
         == Total(db.rows, Slot(source, holder, token)) == Balance(db.balances, Slot(source, holder, token))
  {
    var slot := Slot(source, holder, token);
    var query := Everything(limit).(holder := Some(holder), token := Some(token));
    ReadingSum(db.rows, source, query, sort, visits, ActiveFlow(slot));
    ReadingExact(db.rows, source, query, sort, visits);
    forall i | 0 <= i < |Seen(visits)| ensures !Seen(visits)[i].row.orphaned {
      assert Seen(visits)[i] in Seen(visits);
    }
    ActiveSum(Seen(visits), slot);
    SumCongruent(db.rows.Keys, OfRow(db.rows, ActiveFlow(slot)), RowEffect(db.rows, slot));
    assert Balance(db.balances, slot) == Total(db.rows, slot);
  }

  // ---------------------------------------------------------------- partitions

  /** The three movement filters split what the query selects without one. */
  lemma MovementsPartition(rows: Rows, source: SourceId, query: Query, sort: SortOrder)
    requires query.movement == None
    ensures var mints := Selected(rows, source, query.(movement := Some(Mint)), sort);
            var burns := Selected(rows, source, query.(movement := Some(Burn)), sort);
            var transfers := Selected(rows, source, query.(movement := Some(Transfer)), sort);
            && mints + burns + transfers == Selected(rows, source, query, sort)
            && mints !! burns !! transfers
  {
  }

  /** Adjacent block ranges split the range they make up. */
  lemma BlocksPartition(rows: Rows, source: SourceId, query: Query, sort: SortOrder, middle: int)
    requires query.fromBlock.Some? ==> query.fromBlock.value <= middle + 1
    requires query.toBlock.Some? ==> middle <= query.toBlock.value
    ensures var lower := Selected(rows, source, query.(toBlock := Some(middle)), sort);
            var upper := Selected(rows, source, query.(fromBlock := Some(middle + 1)), sort);
            lower + upper == Selected(rows, source, query, sort) && lower !! upper
  {
  }

  ghost function AmountOf(): Row -> int {
    (row: Row) => row.amount
  }

  ghost function MintedOf(source: SourceId, token: string): Row -> int {
    row => Minted(row, source, token)
  }

  ghost function BurnedOf(source: SourceId, token: string): Row -> int {
    row => Burned(row, source, token)
  }

  lemma {:induction false} SameSum(entries: seq<Entry>, f: Row -> int, g: Row -> int)
    requires forall i :: 0 <= i < |entries| ==> f(entries[i].row) == g(entries[i].row)
    ensures SumOver(entries, f) == SumOver(entries, g)
    decreases |entries|
  {
    if entries == [] {
    } else {
      SameSum(entries[..|entries| - 1], f, g);
    }
  }

  /** The amounts shown add up to a sum over the ledger to which each listed row contributes its
      amount, and no other row anything. */
  lemma AmountsRead(rows: Rows, source: SourceId, query: Query, sort: SortOrder, visits: seq<Visit>, f: Row -> int)
    requires IsReading(rows, source, query, sort, visits)
    requires forall k :: k in rows ==>
               f(rows[k]) == if IsListed(rows, source, query, Entry(k, rows[k])) then rows[k].amount else 0
    ensures SumOver(Seen(visits), AmountOf()) == Sum(rows.Keys, OfRow(rows, f))
  {
    ReadingSum(rows, source, query, sort, visits, f);
    ReadingExact(rows, source, query, sort, visits);
    var seen := Seen(visits);
    forall i | 0 <= i < |seen| ensures AmountOf()(seen[i].row) == f(seen[i].row) {
      assert seen[i] in seen && IsListed(rows, source, query, Entry(seen[i].key, rows[seen[i].key]));
    }
    SameSum(seen, AmountOf(), f);
  }

  /** A query for all movements of one kind of a token. */
  function MovementsOf(token: string, movement: MovementType, limit: int): Query {
    Query(limit, None, None, None, None, Some(token), Some(movement))
  }

  lemma MintListed(rows: Rows, source: SourceId, token: string, limit: int, k: Key)
    requires k in rows
    ensures Minted(rows[k], source, token)
         == if IsListed(rows, source, MovementsOf(token, Mint, limit), Entry(k, rows[k])) then rows[k].amount else 0
  {
  }

  lemma BurnListed(rows: Rows, source: SourceId, token: string, limit: int, k: Key)
    requires k in rows
    ensures Burned(rows[k], source, token)
         == if IsListed(rows, source, MovementsOf(token, Burn, limit), Entry(k, rows[k])) then rows[k].amount else 0
  {
  }

  lemma MintsRead(rows: Rows, source: SourceId, token: string, limit: int, sort: SortOrder, visits: seq<Visit>)
    requires IsReading(rows, source, MovementsOf(token, Mint, limit), sort, visits)
    ensures SumOver(Seen(visits), AmountOf()) == Sum(rows.Keys, OfRow(rows, MintedOf(source, token)))
  {
    forall k | k in rows
      ensures MintedOf(source, token)(rows[k])
           == if IsListed(rows, source, MovementsOf(token, Mint, limit), Entry(k, rows[k])) then rows[k].amount else 0
    {
      MintListed(rows, source, token, limit, k);
    }
    AmountsRead(rows, source, MovementsOf(token, Mint, limit), sort, visits, MintedOf(source, token));
  }

  lemma BurnsRead(rows: Rows, source: SourceId, token: string, limit: int, sort: SortOrder, visits: seq<Visit>)
    requires IsReading(rows, source, MovementsOf(token, Burn, limit), sort, visits)
    ensures SumOver(Seen(visits), AmountOf()) == Sum(rows.Keys, OfRow(rows, BurnedOf(source, token)))
  {
    forall k | k in rows
      ensures BurnedOf(source, token)(rows[k])
           == if IsListed(rows, source, MovementsOf(token, Burn, limit), Entry(k, rows[k])) then rows[k].amount else 0
    {
      BurnListed(rows, source, token, limit, k);
    }
    AmountsRead(rows, source, MovementsOf(token, Burn, limit), sort, visits, BurnedOf(source, token));
  }

  /** Reading the mints and the burns of a token gives its supply, which is what all its holders
      have together. */
  lemma SupplyReading(db: Db, source: SourceId, token: string, limit: int, sort: SortOrder,
                      mints: seq<Visit>, burns: seq<Visit>)
    requires Consistent(db)
    requires IsReading(db.rows, source, MovementsOf(token, Mint, limit), sort, mints)
    requires IsReading(db.rows, source, MovementsOf(token, Burn, limit), sort, burns)
    ensures SumOver(Seen(mints), AmountOf()) - SumOver(Seen(burns), AmountOf()) == Supply(db.rows, source, token)
    ensures SumOver(Seen(mints), AmountOf()) - SumOver(Seen(burns), AmountOf())
         == Sum(Holders(db.balances, source, token), HeldBy(db.balances, source, token))
  {
    MintsRead(db.rows, source, token, limit, sort, mints);
    BurnsRead(db.rows, source, token, limit, sort, burns);
    SumAdd(db.rows.Keys, RowSupply(db.rows, source, token), OfRow(db.rows, BurnedOf(source, token)),
           OfRow(db.rows, MintedOf(source, token)));
    SupplyConserved(db, source, token);
  }
}
