/**
 The ledger tables as values: `ledger_entries` rows, the `token_balances` index kept beside
 them, and the two transactions that write both (persist and orphan).  The simple thing the
 index must always equal is `Total`, the sum of the effects of all rows that are not orphaned.
 */
module LedgerModel {
  import opened Wrappers
  import opened Domain
  import opened Sums

  type Address = string

  const ZERO_ADDRESS: Address := "0x0000000000000000000000000000000000000000"

  /** The unique key of `ledger_entries`. */
  datatype Key = Key(chain: int, transactionHash: string, logIndex: nat, batchIndex: nat)

  /** The columns that a conflicting upsert refreshes besides the amount. */
  datatype Metadata = Metadata(blockHash: string, timestamp: Option<int>, transactionIndex: Option<nat>)

  datatype Row = Row(source: SourceId, from: Option<Address>, to: Option<Address>, token: string,
                     amount: nat, block: nat, meta: Metadata, orphaned: bool)

  /** The unique key of `token_balances`. */
  datatype Slot = Slot(source: SourceId, holder: Address, token: string)

  datatype BalanceRow = BalanceRow(balance: int, firstReceived: Option<nat>, lastMoved: Option<nat>)

  type Rows = map<Key, Row>
  type Balances = map<Slot, BalanceRow>
  datatype Db = Db(rows: Rows, balances: Balances)

  datatype MovementType = Mint | Burn | Transfer

  function MovementOf(row: Row): MovementType {
    match (row.from, row.to)
    case (None, Some(_)) => Mint
    case (Some(_), None) => Burn
    case _ => Transfer
  }

  function NonZeroAddress(a: Address): Option<Address> {
    if a == ZERO_ADDRESS then None else Some(a)
  }

  // ---------------------------------------------------------------- the simple form

  /** What an active row adds to a slot. */
  function Flow(row: Row, slot: Slot): int {
    if row.source != slot.source || row.token != slot.token then 0
    else (if row.to == Some(slot.holder) then row.amount else 0)
         - (if row.from == Some(slot.holder) then row.amount else 0)
  }

  function Effect(row: Row, slot: Slot): int {
    if row.orphaned then 0 else Flow(row, slot)
  }

  ghost function RowEffect(rows: Rows, slot: Slot): Key -> int {
    k => if k in rows then Effect(rows[k], slot) else 0
  }

  /** Incoming minus outgoing amounts of a slot over all rows that are not orphaned. */
  ghost function Total(rows: Rows, slot: Slot): int {
    Sum(rows.Keys, RowEffect(rows, slot))
  }

  ghost predicate NonNegative(rows: Rows) {
    forall slot :: Total(rows, slot) >= 0
  }

  lemma TotalUpdate(rows: Rows, k: Key, row: Row, slot: Slot)
    ensures Total(rows[k := row], slot)
         == Total(rows, slot) + Effect(row, slot) - (if k in rows then Effect(rows[k], slot) else 0)
  {
    var rows' := rows[k := row];
    var f, g := RowEffect(rows, slot), RowEffect(rows', slot);
    SumRemove(rows'.Keys, g, k);
    SumCongruent(rows'.Keys - {k}, f, g);
    if k in rows {
      SumRemove(rows.Keys, f, k);
      assert rows'.Keys - {k} == rows.Keys - {k};
    } else {
      assert rows'.Keys - {k} == rows.Keys;
    }
  }

  lemma TotalEmpty(slot: Slot)
    ensures Total(map[], slot) == 0
  {
  }

  // ---------------------------------------------------------------- the incremental form

  function Balance(balances: Balances, slot: Slot): int {
    if slot in balances then balances[slot].balance else 0
  }

  function Touched(row: Row): set<Slot> {
    (match row.from case Some(a) => {Slot(row.source, a, row.token)} case None => {})
    + (match row.to case Some(a) => {Slot(row.source, a, row.token)} case None => {})
  }

  function ActiveSlots(previous: Option<Row>, current: Row): set<Slot> {
    (if previous.Some? && !previous.value.orphaned then Touched(previous.value) else {})
    + (if current.orphaned then {} else Touched(current))
  }

  function MinBlock(a: Option<nat>, b: Option<nat>): Option<nat> {
    match (a, b)
    case (Some(x), Some(y)) => Some(if y < x then y else x)
    case (Some(_), None) => a
    case (None, _) => b
  }

  function MaxBlock(a: Option<nat>, b: Option<nat>): Option<nat> {
    match (a, b)
    case (Some(x), Some(y)) => Some(if x < y then y else x)
    case (Some(_), None) => a
    case (None, _) => b
  }

  /** The block at which a row moves a slot, if it does, and if it moves it in. */
  function MovedAt(row: Row, slot: Slot): Option<nat> {
    if slot in Touched(row) then Some(row.block) else None
  }

  function ReceivedAt(row: Row, slot: Slot): Option<nat> {
    if row.to == Some(slot.holder) then MovedAt(row, slot) else None
  }

  function ReceivedMark(current: Row, slot: Slot): Option<nat> {
    if current.orphaned then None else ReceivedAt(current, slot)
  }

  function MovedMark(current: Row, slot: Slot): Option<nat> {
    if current.orphaned then None else MovedAt(current, slot)
  }

  function NetDelta(previous: Option<Row>, current: Row, slot: Slot): int {
    Effect(current, slot) - (if previous.Some? then Effect(previous.value, slot) else 0)
  }

  function StoredFirst(balances: Balances, slot: Slot): Option<nat> {
    if slot in balances then balances[slot].firstReceived else None
  }

  function StoredLast(balances: Balances, slot: Slot): Option<nat> {
    if slot in balances then balances[slot].lastMoved else None
  }

  function NextBalance(balances: Balances, previous: Option<Row>, current: Row, slot: Slot): BalanceRow {
    BalanceRow(Balance(balances, slot) + NetDelta(previous, current, slot),
               MinBlock(StoredFirst(balances, slot), ReceivedMark(current, slot)),
               MaxBlock(StoredLast(balances, slot), MovedMark(current, slot)))
  }

  /** Replacing `previous` by `current`: the new balance index, or None when some balance would
      become negative.  A slot without a row is created only with a balance other than zero. */
  function Post(balances: Balances, previous: Option<Row>, current: Row): Option<Balances> {
    var slots := ActiveSlots(previous, current);
    if exists slot :: slot in slots && NextBalance(balances, previous, current, slot).balance < 0 then None
    else Some(map slot | slot in balances.Keys + slots
                && (slot in balances || NextBalance(balances, previous, current, slot).balance != 0)
                :: if slot in slots then NextBalance(balances, previous, current, slot) else balances[slot])
  }

  /** Rows are always inserted active. */
  type FreshRow = row: Row | !row.orphaned
    witness Row(0, None, Some("0x1"), "", 0, 0, Metadata("", None, None), false)

  /** One row about to be inserted. */
  datatype Item = Item(key: Key, row: FreshRow)

  function Merge(stored: Row, incoming: Row, restore: bool): Row {
    stored.(amount := incoming.amount, meta := incoming.meta, orphaned := stored.orphaned && !restore)
  }

  function Upserted(rows: Rows, item: Item, restore: bool): Row {
    if item.key in rows then Merge(rows[item.key], item.row, restore) else item.row
  }

  /** The table CHECK that one address is present, and the test that a stored row with the same
      key belongs to the same source. */
  predicate Admissible(rows: Rows, item: Item) {
    && (item.row.from.Some? || item.row.to.Some?)
    && (item.key in rows ==> rows[item.key].source == item.row.source)
  }

  function Stored(rows: Rows, k: Key): Option<Row> {
    if k in rows then Some(rows[k]) else None
  }

  function PersistStep(db: Db, item: Item, restore: bool): Option<Db> {
    if !Admissible(db.rows, item) then None else
    var current := Upserted(db.rows, item, restore);
    match Post(db.balances, Stored(db.rows, item.key), current)
    case None => None
    case Some(balances) => Some(Db(db.rows[item.key := current], balances))
  }

  /** A whole persist transaction: None is a rollback. */
  function PersistAll(db: Db, items: seq<Item>, restore: bool): Option<Db> {
    if items == [] then Some(db) else
    match PersistAll(db, items[..|items| - 1], restore)
    case None => None
    case Some(d) => PersistStep(d, items[|items| - 1], restore)
  }

  /** The rows alone after a persist transaction that commits. */
  function RowsAfter(rows: Rows, items: seq<Item>, restore: bool): Rows {
    if items == [] then rows else
    var before := RowsAfter(rows, items[..|items| - 1], restore);
    var item := items[|items| - 1];
    before[item.key := Upserted(before, item, restore)]
  }

  // ---------------------------------------------------------------- orphaning

  predicate InRange(row: Row, source: SourceId, from: int, to: int) {
    row.source == source && from <= row.block <= to
  }

  function Orphaned(row: Row): Row {
    row.(orphaned := true)
  }

  /** The bulk update that ends the orphan transaction. */
  function OrphanRows(rows: Rows, source: SourceId, from: int, to: int): Rows {
    map k | k in rows :: if InRange(rows[k], source, from, to) then Orphaned(rows[k]) else rows[k]
  }

  predicate KeyBefore(rows: Rows, a: Key, b: Key)
    requires a in rows && b in rows
  {
    rows[a].block < rows[b].block
    || (rows[a].block == rows[b].block
        && (a.logIndex < b.logIndex || (a.logIndex == b.logIndex && a.batchIndex <= b.batchIndex)))
  }

  /** `order` lists every active row of the range once, ascending by (block, log, batch). */
  ghost predicate IsOrphanOrder(rows: Rows, source: SourceId, from: int, to: int, order: seq<Key>) {
    && (forall i :: 0 <= i < |order| ==>
          order[i] in rows && InRange(rows[order[i]], source, from, to) && !rows[order[i]].orphaned)
    && (forall i, j :: 0 <= i < j < |order| ==> order[i] != order[j] && KeyBefore(rows, order[i], order[j]))
    && (forall k :: k in rows && InRange(rows[k], source, from, to) && !rows[k].orphaned ==> k in order)
  }

  /** Reversing the listed rows one by one. */
  function ReverseAll(balances: Balances, rows: Rows, order: seq<Key>): Option<Balances>
    requires forall k :: k in order ==> k in rows
  {
    if order == [] then Some(balances) else
    var last := order[|order| - 1];
    match ReverseAll(balances, rows, order[..|order| - 1])
    case None => None
    case Some(b) => Post(b, Some(rows[last]), Orphaned(rows[last]))
  }

  /** The rows with the listed keys orphaned. */
  function OrphanKeys(rows: Rows, order: seq<Key>): Rows {
    map k | k in rows :: if k in order then Orphaned(rows[k]) else rows[k]
  }

  /** A whole orphan transaction for a given reversal order. */
  function OrphanAll(db: Db, source: SourceId, from: int, to: int, order: seq<Key>): Option<Db>
    requires forall k :: k in order ==> k in db.rows
  {
    if from < 0 || to < 0 || from > to then None else
    match ReverseAll(db.balances, db.rows, order)
    case None => None
    case Some(balances) => Some(Db(OrphanRows(db.rows, source, from, to), balances))
  }

  // ---------------------------------------------------------------- the invariant

  /** Every balance equals the fold, an absent balance row means that no row moves the slot, no
      balance is negative and every row has an address. */
  ghost predicate Consistent(db: Db) {
    && (forall slot :: Balance(db.balances, slot) == Total(db.rows, slot))
    && (forall slot :: slot in db.balances ==> db.balances[slot].balance >= 0)
    && (forall slot, k :: slot !in db.balances && k in db.rows ==> Effect(db.rows[k], slot) == 0)
    && (forall k :: k in db.rows ==> db.rows[k].from.Some? || db.rows[k].to.Some?)
  }

  lemma ConsistentNonNegative(db: Db)
    requires Consistent(db)
    ensures NonNegative(db.rows)
  {
    forall slot ensures Total(db.rows, slot) >= 0 {
      assert Balance(db.balances, slot) == Total(db.rows, slot);
    }
  }

  lemma EmptyConsistent()
    ensures Consistent(Db(map[], map[]))
  {
    forall slot ensures Balance(map[], slot) == Total(map[], slot) {
      TotalEmpty(slot);
    }
  }

  /** The balance computed for a slot is the simple form of the updated rows. */
  lemma NextIsTotal(db: Db, k: Key, current: Row, slot: Slot)
    requires Consistent(db)
    ensures Total(db.rows[k := current], slot) == NextBalance(db.balances, Stored(db.rows, k), current, slot).balance
    ensures slot !in ActiveSlots(Stored(db.rows, k), current) ==>
            Total(db.rows[k := current], slot) == Total(db.rows, slot)
  {
    TotalUpdate(db.rows, k, current, slot);
    assert Balance(db.balances, slot) == Total(db.rows, slot);
    if slot !in ActiveSlots(Stored(db.rows, k), current) {
      InactiveEffect(current, slot);
      if k in db.rows {
        InactiveEffect(db.rows[k], slot);
      }
    }
  }

  lemma InactiveEffect(row: Row, slot: Slot)
    requires row.orphaned || slot !in Touched(row)
    ensures Effect(row, slot) == 0
  {
  }

  lemma PostCommits(db: Db, k: Key, current: Row)
    requires Consistent(db)
    ensures Post(db.balances, Stored(db.rows, k), current).Some? <==> NonNegative(db.rows[k := current])
  {
    var previous := Stored(db.rows, k);
    ConsistentNonNegative(db);
    if slot :| slot in ActiveSlots(previous, current) && NextBalance(db.balances, previous, current, slot).balance < 0 {
      NextIsTotal(db, k, current, slot);
    } else {
      var rows' := db.rows[k := current];
      forall slot ensures Total(rows', slot) >= 0 {
        NextIsTotal(db, k, current, slot);
        assert Total(db.rows, slot) >= 0;
      }
    }
  }

  lemma PostAbsent(db: Db, k: Key, current: Row, slot: Slot, j: Key)
    requires Consistent(db)
    requires Post(db.balances, Stored(db.rows, k), current).Some?
    requires slot !in Post(db.balances, Stored(db.rows, k), current).value
    requires j in db.rows[k := current]
    ensures Effect(db.rows[k := current][j], slot) == 0
  {
    var previous := Stored(db.rows, k);
    assert slot !in db.balances;
    if j == k {
      if k in db.rows {
        assert Effect(db.rows[k], slot) == 0;
      }
      if slot !in ActiveSlots(previous, current) {
        InactiveEffect(current, slot);
      } else {
        assert NextBalance(db.balances, previous, current, slot).balance == 0;
      }
    } else {
      assert Effect(db.rows[j], slot) == 0;
    }
  }

  lemma PostBalance(db: Db, k: Key, current: Row, slot: Slot)
    requires Consistent(db)
    requires Post(db.balances, Stored(db.rows, k), current).Some?
    ensures var balances' := Post(db.balances, Stored(db.rows, k), current).value;
            Balance(balances', slot) == Total(db.rows[k := current], slot)
            && (slot in balances' ==> balances'[slot].balance >= 0)
  {
    NextIsTotal(db, k, current, slot);
    assert Balance(db.balances, slot) == Total(db.rows, slot);
  }

  /** The central step: an incremental posting commits exactly when the simple form stays
      non-negative, and then the index again equals the simple form. */
  lemma PostExact(db: Db, k: Key, current: Row)
    requires Consistent(db)
    requires current.from.Some? || current.to.Some?
    ensures Post(db.balances, Stored(db.rows, k), current).Some? <==> NonNegative(db.rows[k := current])
    ensures Post(db.balances, Stored(db.rows, k), current).Some? ==>
              Consistent(Db(db.rows[k := current], Post(db.balances, Stored(db.rows, k), current).value))
  {
    PostCommits(db, k, current);
    if Post(db.balances, Stored(db.rows, k), current).Some? {
      var db' := Db(db.rows[k := current], Post(db.balances, Stored(db.rows, k), current).value);
      forall slot
        ensures Balance(db'.balances, slot) == Total(db'.rows, slot)
        ensures slot in db'.balances ==> db'.balances[slot].balance >= 0
      {
        PostBalance(db, k, current, slot);
      }
      forall slot, j | slot !in db'.balances && j in db'.rows ensures Effect(db'.rows[j], slot) == 0 {
        PostAbsent(db, k, current, slot, j);
      }
    }
  }

  lemma PersistStepExact(db: Db, item: Item, restore: bool)
    requires Consistent(db)
    ensures PersistStep(db, item, restore).Some? <==>
              Admissible(db.rows, item) && NonNegative(db.rows[item.key := Upserted(db.rows, item, restore)])
    ensures PersistStep(db, item, restore).Some? ==>
              && PersistStep(db, item, restore).value.rows == db.rows[item.key := Upserted(db.rows, item, restore)]
              && Consistent(PersistStep(db, item, restore).value)
  {
    if Admissible(db.rows, item) {
      PostExact(db, item.key, Upserted(db.rows, item, restore));
    }
  }

  ghost predicate StepFeasible(rows: Rows, items: seq<Item>, restore: bool, i: nat)
    requires i < |items|
  {
    && Admissible(RowsAfter(rows, items[..i], restore), items[i])
    && NonNegative(RowsAfter(rows, items[..i + 1], restore))
  }

  /** The commit condition of a persist transaction, stated on the rows alone: every step is
      admissible and every intermediate ledger is non-negative. */
  ghost predicate PersistFeasible(rows: Rows, items: seq<Item>, restore: bool) {
    forall i :: 0 <= i < |items| ==> StepFeasible(rows, items, restore, i)
  }

  lemma FeasibleInit(rows: Rows, items: seq<Item>, restore: bool)
    requires items != []
    ensures PersistFeasible(rows, items, restore) <==>
              PersistFeasible(rows, items[..|items| - 1], restore) && StepFeasible(rows, items, restore, |items| - 1)
  {
    var n := |items| - 1;
    var init := items[..n];
    forall i | 0 <= i < n ensures StepFeasible(rows, items, restore, i) == StepFeasible(rows, init, restore, i) {
      assert init[..i] == items[..i] && init[..i + 1] == items[..i + 1];
    }
  }

  /** The incremental persist transaction refines the simple form: it commits exactly when the
      rows-only run is feasible, its rows are that run's, and its index equals the fold. */
  lemma {:induction false} PersistExact(db: Db, items: seq<Item>, restore: bool)
    requires Consistent(db)
    ensures PersistAll(db, items, restore).Some? <==> PersistFeasible(db.rows, items, restore)
    ensures PersistAll(db, items, restore).Some? ==>
              && PersistAll(db, items, restore).value.rows == RowsAfter(db.rows, items, restore)
              && Consistent(PersistAll(db, items, restore).value)
    decreases |items|
  {
    if items == [] {
    } else {
      var n := |items| - 1;
      PersistExact(db, items[..n], restore);
      FeasibleInit(db.rows, items, restore);
      assert items[..n + 1] == items;
      if PersistAll(db, items[..n], restore).Some? {
        PersistStepExact(PersistAll(db, items[..n], restore).value, items[n], restore);
      }
    }
  }
}
