/** Whole-run results about the ledger transactions of LedgerModel. */
module LedgerTheorems {
  import opened Wrappers
  import opened Domain
  import opened Sums
  import opened LedgerModel

  // ---------------------------------------------------------------- orphaning

  ghost predicate ReversalFeasible(rows: Rows, order: seq<Key>, i: nat)
    requires i < |order|
  {
    NonNegative(OrphanKeys(rows, order[..i + 1]))
  }

  /** The commit condition of an orphan transaction, stated on the rows alone: the ledger stays
      non-negative after every single reversal, in ascending order. */
  ghost predicate OrphanFeasible(rows: Rows, order: seq<Key>) {
    forall i :: 0 <= i < |order| ==> ReversalFeasible(rows, order, i)
  }

  lemma OrphanKeysStep(rows: Rows, order: seq<Key>)
    requires order != [] && order[|order| - 1] in rows
    requires order[|order| - 1] !in order[..|order| - 1]
    ensures var n := |order| - 1;
            && OrphanKeys(rows, order) == OrphanKeys(rows, order[..n])[order[n] := Orphaned(rows[order[n]])]
            && Stored(OrphanKeys(rows, order[..n]), order[n]) == Some(rows[order[n]])
  {
    var n := |order| - 1;
    assert order == order[..n] + [order[n]];
  }

  lemma OrphanFeasibleInit(rows: Rows, order: seq<Key>)
    requires order != []
    ensures OrphanFeasible(rows, order) <==>
            OrphanFeasible(rows, order[..|order| - 1]) && NonNegative(OrphanKeys(rows, order))
  {
    var n := |order| - 1;
    var init := order[..n];
    forall i | 0 <= i < n ensures ReversalFeasible(rows, order, i) == ReversalFeasible(rows, init, i) {
      assert init[..i + 1] == order[..i + 1];
    }
    assert order[..n + 1] == order;
    assert ReversalFeasible(rows, order, n) <==> NonNegative(OrphanKeys(rows, order));
    forall i | 0 <= i < n ensures OrphanFeasible(rows, order) ==> ReversalFeasible(rows, init, i) {
      assert ReversalFeasible(rows, order, i) == ReversalFeasible(rows, init, i);
    }
  }

  /** The incremental reversal refines the simple form. */
  lemma {:induction false} ReverseExact(db: Db, order: seq<Key>)
    requires Consistent(db)
    requires forall k :: k in order ==> k in db.rows
    requires forall i, j :: 0 <= i < j < |order| ==> order[i] != order[j]
    ensures ReverseAll(db.balances, db.rows, order).Some? <==> OrphanFeasible(db.rows, order)
    ensures ReverseAll(db.balances, db.rows, order).Some? ==>
              Consistent(Db(OrphanKeys(db.rows, order), ReverseAll(db.balances, db.rows, order).value))
    decreases |order|
  {
    if order == [] {
      assert OrphanKeys(db.rows, order) == db.rows;
    } else {
      var n := |order| - 1;
      var init, last := order[..n], order[n];
      ReverseExact(db, init);
      OrphanFeasibleInit(db.rows, order);
      OrphanKeysStep(db.rows, order);
      if ReverseAll(db.balances, db.rows, init).Some? {
        var d := Db(OrphanKeys(db.rows, init), ReverseAll(db.balances, db.rows, init).value);
        PostExact(d, last, Orphaned(db.rows[last]));
      }
    }
  }

  lemma OrphanKeysAreRange(rows: Rows, source: SourceId, from: int, to: int, order: seq<Key>)
    requires IsOrphanOrder(rows, source, from, to, order)
    ensures OrphanKeys(rows, order) == OrphanRows(rows, source, from, to)
  {
    assert forall k :: k in order ==> exists i :: 0 <= i < |order| && order[i] == k;
  }

  /** An orphan transaction commits exactly when no single reversal makes a balance negative;
      it then leaves exactly the range orphaned and the index equal to the fold. */
  lemma OrphanExact(db: Db, source: SourceId, from: int, to: int, order: seq<Key>)
    requires Consistent(db)
    requires IsOrphanOrder(db.rows, source, from, to, order)
    ensures OrphanAll(db, source, from, to, order).Some? <==> 0 <= from <= to && OrphanFeasible(db.rows, order)
    ensures OrphanAll(db, source, from, to, order).Some? ==>
              && OrphanAll(db, source, from, to, order).value.rows == OrphanRows(db.rows, source, from, to)
              && Consistent(OrphanAll(db, source, from, to, order).value)
  {
    ReverseExact(db, order);
    OrphanKeysAreRange(db.rows, source, from, to, order);
  }

  ghost predicate OnlyBalancesMoved(before: Balances, after: Balances) {
    && after.Keys == before.Keys
    && forall slot :: slot in after ==> after[slot] == before[slot].(balance := after[slot].balance)
  }

  lemma ReversalShape(balances: Balances, row: Row)
    requires Post(balances, Some(row), Orphaned(row)).Some?
    requires forall slot :: slot !in balances ==> Effect(row, slot) == 0
    ensures OnlyBalancesMoved(balances, Post(balances, Some(row), Orphaned(row)).value)
  {
    var b := Post(balances, Some(row), Orphaned(row)).value;
    forall slot | slot in b ensures slot in balances {
      assert slot !in balances ==> NextBalance(balances, Some(row), Orphaned(row), slot).balance == 0;
    }
  }

  /** Reversals keep the set of balance rows and every block mark: nothing but the balances moves. */
  lemma {:induction false} ReverseShape(db: Db, order: seq<Key>)
    requires Consistent(db)
    requires forall k :: k in order ==> k in db.rows
    requires ReverseAll(db.balances, db.rows, order).Some?
    ensures OnlyBalancesMoved(db.balances, ReverseAll(db.balances, db.rows, order).value)
    decreases |order|
  {
    if order == [] {
    } else {
      var n := |order| - 1;
      ReverseShape(db, order[..n]);
      ReversalShape(ReverseAll(db.balances, db.rows, order[..n]).value, db.rows[order[n]]);
    }
  }

  lemma ShapeDetermined(rows: Rows, b0: Balances, b1: Balances, b2: Balances)
    requires OnlyBalancesMoved(b0, b1) && OnlyBalancesMoved(b0, b2)
    requires Consistent(Db(rows, b1)) && Consistent(Db(rows, b2))
    ensures b1 == b2
  {
    forall slot | slot in b0 ensures b1[slot] == b2[slot] {
      assert Balance(b1, slot) == Total(rows, slot) == Balance(b2, slot);
    }
  }

  /** Rows of a source may share a (block, log, batch) position, so the order need not be unique;
      any two orders that commit reach the same tables. */
  lemma OrphanOrderIrrelevant(db: Db, source: SourceId, from: int, to: int, order1: seq<Key>, order2: seq<Key>)
    requires Consistent(db)
    requires IsOrphanOrder(db.rows, source, from, to, order1) && IsOrphanOrder(db.rows, source, from, to, order2)
    requires OrphanAll(db, source, from, to, order1).Some? && OrphanAll(db, source, from, to, order2).Some?
    ensures OrphanAll(db, source, from, to, order1) == OrphanAll(db, source, from, to, order2)
  {
    ReverseShape(db, order1);
    ReverseShape(db, order2);
    OrphanExact(db, source, from, to, order1);
    OrphanExact(db, source, from, to, order2);
    ShapeDetermined(OrphanRows(db.rows, source, from, to), db.balances,
                    ReverseAll(db.balances, db.rows, order1).value, ReverseAll(db.balances, db.rows, order2).value);
  }

  /** A place in the reversal order. */
  datatype Place = Place(block: nat, logIndex: nat, batchIndex: nat)

  predicate Precedes(a: Place, b: Place) {
    if a.block != b.block then a.block < b.block
    else if a.logIndex != b.logIndex then a.logIndex < b.logIndex
    else a.batchIndex < b.batchIndex
  }

  function PlaceOf(rows: Rows, k: Key): Place
    requires k in rows
  {
    Place(rows[k].block, k.logIndex, k.batchIndex)
  }

  /** The reversal order never goes back: by block, then by log, then by batch index. */
  lemma OrderAscends(rows: Rows, source: SourceId, from: int, to: int, order: seq<Key>, i: nat, j: nat)
    requires IsOrphanOrder(rows, source, from, to, order) && i < j < |order|
    ensures !Precedes(PlaceOf(rows, order[j]), PlaceOf(rows, order[i]))
  {
    assert KeyBefore(rows, order[i], order[j]);
  }

  function MintKey(mint: Place): Key {
    Key(1, "0x1", mint.logIndex, mint.batchIndex)
  }

  function SpendKey(spend: Place): Key {
    Key(1, "0x2", spend.logIndex, spend.batchIndex)
  }

  function MintRow(block: nat): Row {
    Row(7, None, Some("A"), "", 5, block, Metadata("0xaa", None, None), false)
  }

  function SpendRow(block: nat): Row {
    Row(7, Some("A"), Some("B"), "", 5, block, Metadata("0xaa", None, None), false)
  }

  /** A mint to A, and a transfer of what it minted from A to B. */
  function MintAndSpend(mint: Place, spend: Place): Rows {
    map[MintKey(mint) := MintRow(mint.block), SpendKey(spend) := SpendRow(spend.block)]
  }

  lemma PairTotal(a: Key, x: Row, b: Key, y: Row, slot: Slot)
    requires a != b
    ensures Total(map[a := x, b := y], slot) == Effect(x, slot) + Effect(y, slot)
  {
    TotalEmpty(slot);
    TotalUpdate(map[], a, x, slot);
    TotalUpdate(map[a := x], b, y, slot);
    assert map[][a := x] == map[a := x] && map[a := x][b := y] == map[a := x, b := y];
  }

  /** A list without repetitions is no longer than the set it is taken from. */
  lemma {:induction false} DistinctWithin(order: seq<Key>, keys: set<Key>)
    requires forall i, j :: 0 <= i < j < |order| ==> order[i] != order[j]
    requires forall i :: 0 <= i < |order| ==> order[i] in keys
    ensures |order| <= |keys|
    decreases |order|
  {
    if order == [] {
    } else {
      DistinctWithin(order[..|order| - 1], keys - {order[|order| - 1]});
    }
  }

  lemma PairOrder(mint: Place, spend: Place, from: int, to: int, order: seq<Key>)
    requires IsOrphanOrder(MintAndSpend(mint, spend), 7, from, to, order)
    requires from <= mint.block <= to && from <= spend.block <= to
    ensures |order| == 2
    ensures Precedes(mint, spend) ==> order == [MintKey(mint), SpendKey(spend)]
    ensures Precedes(spend, mint) ==> order == [SpendKey(spend), MintKey(mint)]
  {
    var rows := MintAndSpend(mint, spend);
    var m, t := MintKey(mint), SpendKey(spend);
    assert m in order && t in order;
    assert m != t;
    DistinctWithin(order, {m, t});
    assert order == [order[0], order[1]];
    OrderAscends(rows, 7, from, to, order, 0, 1);
  }

  lemma PairIsOrder(mint: Place, spend: Place, from: int, to: int)
    requires Precedes(mint, spend) && from <= mint.block <= to && from <= spend.block <= to
    ensures IsOrphanOrder(MintAndSpend(mint, spend), 7, from, to, [MintKey(mint), SpendKey(spend)])
  {
    var rows, order := MintAndSpend(mint, spend), [MintKey(mint), SpendKey(spend)];
    assert order[0] in rows && order[1] in rows;
    assert forall k :: k in rows ==> k == order[0] || k == order[1];
  }

  lemma MintFirstOverdraws(mint: Place, spend: Place)
    ensures !NonNegative(OrphanKeys(MintAndSpend(mint, spend), [MintKey(mint)]))
  {
    var m, t := MintKey(mint), SpendKey(spend);
    var slot := Slot(7, "A", "");
    PairTotal(m, Orphaned(MintRow(mint.block)), t, SpendRow(spend.block), slot);
    assert OrphanKeys(MintAndSpend(mint, spend), [m])
        == map[m := Orphaned(MintRow(mint.block)), t := SpendRow(spend.block)];
    assert Total(OrphanKeys(MintAndSpend(mint, spend), [m]), slot) == -5;
  }

  lemma SpendFirstFits(mint: Place, spend: Place)
    ensures NonNegative(OrphanKeys(MintAndSpend(mint, spend), [SpendKey(spend)]))
    ensures NonNegative(OrphanKeys(MintAndSpend(mint, spend), [SpendKey(spend), MintKey(mint)]))
  {
    var m, t := MintKey(mint), SpendKey(spend);
    var x, y := MintRow(mint.block), SpendRow(spend.block);
    assert OrphanKeys(MintAndSpend(mint, spend), [t]) == map[m := x, t := Orphaned(y)];
    assert OrphanKeys(MintAndSpend(mint, spend), [t, m]) == map[m := Orphaned(x), t := Orphaned(y)];
    forall slot
      ensures Total(map[m := x, t := Orphaned(y)], slot) >= 0
      ensures Total(map[m := Orphaned(x), t := Orphaned(y)], slot) >= 0
    {
      PairTotal(m, x, t, Orphaned(y), slot);
      PairTotal(m, Orphaned(x), t, Orphaned(y), slot);
    }
  }

  lemma FirstStep(rows: Rows, order: seq<Key>)
    requires |order| == 2
    ensures OrphanFeasible(rows, order)
       <==> NonNegative(OrphanKeys(rows, [order[0]])) && NonNegative(OrphanKeys(rows, [order[0], order[1]]))
  {
    var first, both := [order[0]], [order[0], order[1]];
    assert order[..1] == first && order[..2] == both;
    assert ReversalFeasible(rows, order, 0) <==> NonNegative(OrphanKeys(rows, first));
    assert ReversalFeasible(rows, order, 1) <==> NonNegative(OrphanKeys(rows, both));
  }

  /** Orphaning a mint together with the transfer of what it minted aborts if the mint comes first and
      commits if the transfer does, be it by block, by log within a block or by batch index within a
      log. */
  lemma OrphanPairExact(mint: Place, spend: Place, balances: Balances, from: int, to: int, order: seq<Key>)
    requires Consistent(Db(MintAndSpend(mint, spend), balances))
    requires IsOrphanOrder(MintAndSpend(mint, spend), 7, from, to, order)
    requires 0 <= from <= mint.block <= to && from <= spend.block <= to
    ensures Precedes(mint, spend) ==> OrphanAll(Db(MintAndSpend(mint, spend), balances), 7, from, to, order) == None
    ensures Precedes(spend, mint) ==> OrphanAll(Db(MintAndSpend(mint, spend), balances), 7, from, to, order).Some?
  {
    var rows := MintAndSpend(mint, spend);
    PairOrder(mint, spend, from, to, order);
    OrphanExact(Db(rows, balances), 7, from, to, order);
    FirstStep(rows, order);
    MintFirstOverdraws(mint, spend);
    SpendFirstFits(mint, spend);
  }

  /** A mint to A at block 100 followed by a transfer from A to B at block 101. */
  function MintThenTransfer(): Rows {
    MintAndSpend(Place(100, 0, 0), Place(101, 0, 0))
  }

  /** Orphaning a range can abort although the ledger without that range is perfectly legal:
      the ascending order reverses the mint first. */
  lemma OrphanCanAbort(balances: Balances, order: seq<Key>)
    requires Consistent(Db(MintThenTransfer(), balances))
    requires IsOrphanOrder(MintThenTransfer(), 7, 100, 101, order)
    ensures NonNegative(OrphanRows(MintThenTransfer(), 7, 100, 101))
    ensures OrphanAll(Db(MintThenTransfer(), balances), 7, 100, 101, order) == None
  {
    var rows := OrphanRows(MintThenTransfer(), 7, 100, 101);
    forall slot ensures Total(rows, slot) >= 0 {
      SumZero(rows.Keys, RowEffect(rows, slot));
    }
    OrphanPairExact(Place(100, 0, 0), Place(101, 0, 0), balances, 100, 101, order);
  }

  // ---------------------------------------------------------------- every run

  /** The ledger-writing transactions, each of which commits or rolls back. */
  datatype Op =
    | Persist(items: seq<Item>, restore: bool)
    | Orphan(source: SourceId, from: int, to: int, order: seq<Key>)

  ghost function Apply(db: Db, op: Op): Db {
    match op
    case Persist(items, restore) =>
      (match PersistAll(db, items, restore) case Some(d) => d case None => db)
    case Orphan(source, from, to, order) =>
      if !IsOrphanOrder(db.rows, source, from, to, order) then db
      else match OrphanAll(db, source, from, to, order) case Some(d) => d case None => db
  }

  ghost predicate Commits(db: Db, op: Op) {
    match op
    case Persist(items, restore) => PersistAll(db, items, restore).Some?
    case Orphan(source, from, to, order) =>
      IsOrphanOrder(db.rows, source, from, to, order) && OrphanAll(db, source, from, to, order).Some?
  }

  ghost function ApplyAll(db: Db, ops: seq<Op>): Db {
    if ops == [] then db else Apply(ApplyAll(db, ops[..|ops| - 1]), ops[|ops| - 1])
  }

  /** The materialised view invariant, over every run from any consistent ledger. */
  lemma {:induction false} EveryRunConsistent(db: Db, ops: seq<Op>)
    requires Consistent(db)
    ensures Consistent(ApplyAll(db, ops))
    decreases |ops|
  {
    if ops == [] {
    } else {
      var d := ApplyAll(db, ops[..|ops| - 1]);
      EveryRunConsistent(db, ops[..|ops| - 1]);
      match ops[|ops| - 1]
      case Persist(items, restore) => PersistExact(d, items, restore);
      case Orphan(source, from, to, order) =>
        if IsOrphanOrder(d.rows, source, from, to, order) {
          OrphanExact(d, source, from, to, order);
        }
    }
  }

  /** The metadata backfill: all rows of a log get its block and block columns. */
  function Refreshed(rows: Rows, source: SourceId, chain: int, transactionHash: string, logIndex: nat,
                     block: nat, meta: Metadata): Rows
  {
    map k | k in rows ::
      if rows[k].source == source && k.chain == chain && k.transactionHash == transactionHash && k.logIndex == logIndex
      then rows[k].(block := block, meta := meta) else rows[k]
  }

  /** It moves no balance: the index still equals the fold. */
  lemma RefreshKeepsConsistent(db: Db, source: SourceId, chain: int, transactionHash: string, logIndex: nat,
                               block: nat, meta: Metadata)
    requires Consistent(db)
    ensures Consistent(Db(Refreshed(db.rows, source, chain, transactionHash, logIndex, block, meta), db.balances))
  {
    var rows := Refreshed(db.rows, source, chain, transactionHash, logIndex, block, meta);
    forall slot ensures Balance(db.balances, slot) == Total(rows, slot) {
      assert Balance(db.balances, slot) == Total(db.rows, slot);
      RefreshTotal(db.rows, rows, slot);
    }
  }

  lemma RefreshTotal(a: Rows, b: Rows, slot: Slot)
    requires a.Keys == b.Keys && forall k :: k in a ==> b[k] == a[k].(block := b[k].block, meta := b[k].meta)
    ensures Total(a, slot) == Total(b, slot)
  {
    forall k | k in a.Keys ensures RowEffect(a, slot)(k) == RowEffect(b, slot)(k) {
      assert b[k] == a[k].(block := b[k].block, meta := b[k].meta);
    }
    SumCongruent(a.Keys, RowEffect(a, slot), RowEffect(b, slot));
  }

  // ---------------------------------------------------------------- block marks

  /** The row pays the holder of the slot, or it pays or charges them, at this block. */
  predicate Receives(row: Row, slot: Slot, block: nat) {
    row.source == slot.source && row.token == slot.token && row.block == block && row.to == Some(slot.holder)
  }

  predicate Concerns(row: Row, slot: Slot, block: nat) {
    && row.source == slot.source && row.token == slot.token && row.block == block
    && (row.from == Some(slot.holder) || row.to == Some(slot.holder))
  }

  /** The marks of a balance row: each names the block of a stored row that moves the slot, and
      nothing was received after the last movement. */
  ghost predicate Marked(rows: Rows, slot: Slot, b: BalanceRow) {
    && (b.firstReceived.Some? ==> exists k :: k in rows && Receives(rows[k], slot, b.firstReceived.value))
    && (b.lastMoved.Some? ==> exists k :: k in rows && Concerns(rows[k], slot, b.lastMoved.value))
    && (b.firstReceived.Some? ==> b.lastMoved.Some? && b.firstReceived.value <= b.lastMoved.value)
  }

  ghost predicate AllMarked(db: Db) {
    forall slot :: slot in db.balances ==> Marked(db.rows, slot, db.balances[slot])
  }

  /** No transaction deletes a row or changes its addresses, token, source or block. */
  ghost predicate SameMovements(a: Rows, b: Rows) {
    forall k :: k in a ==>
      k in b && b[k] == a[k].(amount := b[k].amount, meta := b[k].meta, orphaned := b[k].orphaned)
  }

  lemma MarkedStays(a: Rows, b: Rows, slot: Slot, row: BalanceRow)
    requires SameMovements(a, b) && Marked(a, slot, row)
    ensures Marked(b, slot, row)
  {
    if row.firstReceived.Some? {
      var k :| k in a && Receives(a[k], slot, row.firstReceived.value);
      assert Receives(b[k], slot, row.firstReceived.value);
    }
    if row.lastMoved.Some? {
      var k :| k in a && Concerns(a[k], slot, row.lastMoved.value);
      assert Concerns(b[k], slot, row.lastMoved.value);
    }
  }

  predicate Wider(before: BalanceRow, after: BalanceRow) {
    && (before.firstReceived.Some? ==>
        after.firstReceived.Some? && after.firstReceived.value <= before.firstReceived.value)
    && (before.lastMoved.Some? ==> after.lastMoved.Some? && before.lastMoved.value <= after.lastMoved.value)
  }

  /** The marks enclose the block of a row that moves the slot. */
  predicate Encloses(b: BalanceRow, row: Row, slot: Slot) {
    && (Receives(row, slot, row.block) ==> b.firstReceived.Some? && b.firstReceived.value <= row.block)
    && (Concerns(row, slot, row.block) ==> b.lastMoved.Some? && row.block <= b.lastMoved.value)
  }

  /** Marks only widen, and they enclose the block of the row just posted, if it is active. */
  ghost predicate MarksWiden(before: Balances, after: Balances, current: Row) {
    && (forall slot :: slot in before ==> slot in after && Wider(before[slot], after[slot]))
    && (forall slot :: slot in after && !current.orphaned ==> Encloses(after[slot], current, slot))
  }

  lemma NextWidens(balances: Balances, previous: Option<Row>, current: Row, slot: Slot)
    ensures slot in balances ==> Wider(balances[slot], NextBalance(balances, previous, current, slot))
    ensures !current.orphaned ==> Encloses(NextBalance(balances, previous, current, slot), current, slot)
  {
    MarkOf(current, slot);
  }

  lemma MarkOf(current: Row, slot: Slot)
    ensures !current.orphaned && Receives(current, slot, current.block) <==> ReceivedMark(current, slot).Some?
    ensures !current.orphaned && Concerns(current, slot, current.block) <==> MovedMark(current, slot).Some?
    ensures ReceivedMark(current, slot).Some? ==> ReceivedMark(current, slot).value == current.block
    ensures MovedMark(current, slot).Some? ==> MovedMark(current, slot).value == current.block
  {
  }

  lemma InactiveUnmarked(previous: Option<Row>, current: Row, slot: Slot)
    requires slot !in ActiveSlots(previous, current) && !current.orphaned
    ensures !Receives(current, slot, current.block) && !Concerns(current, slot, current.block)
  {
  }

  lemma PostWidens(balances: Balances, previous: Option<Row>, current: Row)
    requires Post(balances, previous, current).Some?
    ensures MarksWiden(balances, Post(balances, previous, current).value, current)
  {
    var after := Post(balances, previous, current).value;
    forall slot | slot in after
      ensures slot in balances ==> Wider(balances[slot], after[slot])
      ensures !current.orphaned ==> Encloses(after[slot], current, slot)
    {
      if slot in ActiveSlots(previous, current) {
        assert after[slot] == NextBalance(balances, previous, current, slot);
        NextWidens(balances, previous, current, slot);
      } else if !current.orphaned {
        InactiveUnmarked(previous, current, slot);
      }
    }
  }

  lemma NextMarked(rows: Rows, balances: Balances, k: Key, previous: Option<Row>, current: Row, slot: Slot)
    requires k in rows && rows[k] == current
    requires slot in balances ==> Marked(rows, slot, balances[slot])
    ensures Marked(rows, slot, NextBalance(balances, previous, current, slot))
  {
    MarkOf(current, slot);
    assert MovedMark(current, slot).Some? ==> Concerns(rows[k], slot, current.block);
    assert ReceivedMark(current, slot).Some? ==> Receives(rows[k], slot, current.block);
  }

  lemma PersistStepMarked(db: Db, item: Item, restore: bool)
    requires AllMarked(db) && PersistStep(db, item, restore).Some?
    ensures AllMarked(PersistStep(db, item, restore).value)
    ensures MarksWiden(db.balances, PersistStep(db, item, restore).value.balances, Upserted(db.rows, item, restore))
  {
    var current := Upserted(db.rows, item, restore);
    var after := PersistStep(db, item, restore).value;
    PostWidens(db.balances, Stored(db.rows, item.key), current);
    assert SameMovements(db.rows, after.rows);
    forall slot | slot in after.balances ensures Marked(after.rows, slot, after.balances[slot]) {
      if slot in db.balances {
        MarkedStays(db.rows, after.rows, slot, db.balances[slot]);
      }
      NextMarked(after.rows, db.balances, item.key, Stored(db.rows, item.key), current, slot);
    }
  }

  lemma {:induction false} PersistMarked(db: Db, items: seq<Item>, restore: bool)
    requires AllMarked(db) && PersistAll(db, items, restore).Some?
    ensures AllMarked(PersistAll(db, items, restore).value)
    decreases |items|
  {
    if items == [] {
    } else {
      PersistMarked(db, items[..|items| - 1], restore);
      PersistStepMarked(PersistAll(db, items[..|items| - 1], restore).value, items[|items| - 1], restore);
    }
  }

  /** In every run every block mark is justified by a stored row. */
  lemma {:induction false} EveryRunMarked(db: Db, ops: seq<Op>)
    requires Consistent(db) && AllMarked(db)
    ensures AllMarked(ApplyAll(db, ops))
    decreases |ops|
  {
    if ops == [] {
    } else {
      var init := ops[..|ops| - 1];
      var d := ApplyAll(db, init);
      EveryRunConsistent(db, init);
      EveryRunMarked(db, init);
      match ops[|ops| - 1]
      case Persist(items, restore) =>
        if PersistAll(d, items, restore).Some? {
          PersistMarked(d, items, restore);
        }
      case Orphan(source, from, to, order) =>
        if Commits(d, ops[|ops| - 1]) {
          ReverseShape(d, order);
          var after := Apply(d, ops[|ops| - 1]);
          assert SameMovements(d.rows, after.rows);
          forall slot | slot in after.balances ensures Marked(after.rows, slot, after.balances[slot]) {
            MarkedStays(d.rows, after.rows, slot, d.balances[slot]);
          }
        }
    }
  }

  // ---------------------------------------------------------------- conservation of supply

  function Minted(row: Row, source: SourceId, token: string): int {
    if !row.orphaned && row.source == source && row.token == token && MovementOf(row) == Mint then row.amount else 0
  }

  function Burned(row: Row, source: SourceId, token: string): int {
    if !row.orphaned && row.source == source && row.token == token && MovementOf(row) == Burn then row.amount else 0
  }

  ghost function RowSupply(rows: Rows, source: SourceId, token: string): Key -> int {
    k => if k in rows then Minted(rows[k], source, token) - Burned(rows[k], source, token) else 0
  }

  /** Active mint amounts minus active burn amounts of one token. */
  ghost function Supply(rows: Rows, source: SourceId, token: string): int {
    Sum(rows.Keys, RowSupply(rows, source, token))
  }

  function Holders(balances: Balances, source: SourceId, token: string): set<Address> {
    set slot | slot in balances && slot.source == source && slot.token == token :: slot.holder
  }

  ghost function HeldBy(balances: Balances, source: SourceId, token: string): Address -> int {
    holder => Balance(balances, Slot(source, holder, token))
  }

  function RowHolders(rows: Rows): set<Address> {
    (set k | k in rows && rows[k].from.Some? :: rows[k].from.value)
    + (set k | k in rows && rows[k].to.Some? :: rows[k].to.value)
  }

  /** Summed over a set of holders that contains both ends of a row, its effects leave only the
      mint or the burn. */
  lemma RowEffectsSum(row: Row, source: SourceId, token: string, holders: set<Address>, f: Address -> int)
    requires row.from.Some? || row.to.Some?
    requires row.from.Some? ==> row.from.value in holders
    requires row.to.Some? ==> row.to.value in holders
    requires forall h :: h in holders ==> f(h) == Effect(row, Slot(source, h, token))
    ensures Sum(holders, f) == Minted(row, source, token) - Burned(row, source, token)
  {
    if row.orphaned || row.source != source || row.token != token {
      SumZero(holders, f);
    } else {
      var rest := holders;
      if row.from.Some? {
        SumRemove(rest, f, row.from.value);
        rest := rest - {row.from.value};
      }
      if row.to.Some? && row.to != row.from {
        SumRemove(rest, f, row.to.value);
        rest := rest - {row.to.value};
      }
      SumZero(rest, f);
    }
  }

  ghost function HolderRows(rows: Rows, source: SourceId, token: string): Address -> Key -> int {
    h => RowEffect(rows, Slot(source, h, token))
  }

  ghost function AtKey(rows: Rows, source: SourceId, token: string, k: Key): Address -> int {
    h => if k in rows then Effect(rows[k], Slot(source, h, token)) else 0
  }

  ghost function KeyHolders(rows: Rows, source: SourceId, token: string): Key -> Address -> int {
    k => AtKey(rows, source, token, k)
  }

  lemma RowSupplyOverHolders(rows: Rows, source: SourceId, token: string, holders: set<Address>, k: Key)
    requires k in rows && (rows[k].from.Some? || rows[k].to.Some?)
    requires RowHolders(rows) <= holders
    ensures RowSupply(rows, source, token)(k) == Sum(holders, AtKey(rows, source, token, k))
  {
    RowEffectsSum(rows[k], source, token, holders, AtKey(rows, source, token, k));
  }

  /** Conservation of supply: over all holders of a token the balances add up to active mints
      minus active burns; transfers, self-transfers and orphaned rows cancel. */
  lemma SupplyConserved(db: Db, source: SourceId, token: string)
    requires Consistent(db)
    ensures Sum(Holders(db.balances, source, token), HeldBy(db.balances, source, token))
            == Supply(db.rows, source, token)
  {
    var held := HeldBy(db.balances, source, token);
    var holders := Holders(db.balances, source, token);
    var all := holders + RowHolders(db.rows);
    forall h | h in all - holders ensures held(h) == 0 {
      assert Slot(source, h, token) !in db.balances;
    }
    SumSupport(holders, all, held);
    forall h | h in all ensures held(h) == Sum(db.rows.Keys, HolderRows(db.rows, source, token)(h)) {
      assert Balance(db.balances, Slot(source, h, token)) == Total(db.rows, Slot(source, h, token));
    }
    var supply := RowSupply(db.rows, source, token);
    forall k | k in db.rows.Keys ensures supply(k) == Sum(all, KeyHolders(db.rows, source, token)(k)) {
      RowSupplyOverHolders(db.rows, source, token, all, k);
    }
    SumSwap(all, db.rows.Keys, HolderRows(db.rows, source, token), KeyHolders(db.rows, source, token), held, supply);
  }

  // ---------------------------------------------------------------- rows after a batch

  ghost predicate DistinctKeys(items: seq<Item>) {
    forall i, j :: 0 <= i < j < |items| ==> items[i].key != items[j].key
  }

  lemma {:induction false} RowsAfterOther(rows: Rows, items: seq<Item>, restore: bool, k: Key)
    requires forall i :: 0 <= i < |items| ==> items[i].key != k
    ensures Stored(RowsAfter(rows, items, restore), k) == Stored(rows, k)
    decreases |items|
  {
    if items == [] {
    } else {
      RowsAfterOther(rows, items[..|items| - 1], restore, k);
    }
  }

  lemma {:induction false} RowsAfterAt(rows: Rows, items: seq<Item>, restore: bool, i: nat)
    requires DistinctKeys(items) && i < |items|
    ensures Stored(RowsAfter(rows, items, restore), items[i].key) == Some(Upserted(rows, items[i], restore))
    decreases |items|
  {
    var n := |items| - 1;
    if i < n {
      RowsAfterAt(rows, items[..n], restore, i);
    } else {
      RowsAfterOther(rows, items[..n], restore, items[n].key);
    }
  }

  lemma {:induction false} RowsAfterAppend(rows: Rows, a: seq<Item>, b: seq<Item>, restore: bool)
    ensures RowsAfter(rows, a + b, restore) == RowsAfter(RowsAfter(rows, a, restore), b, restore)
    decreases |b|
  {
    if b == [] {
      assert a + b == a;
    } else {
      var n := |b| - 1;
      assert (a + b)[..|a + b| - 1] == a + b[..n];
      RowsAfterAppend(rows, a, b[..n], restore);
    }
  }

  lemma AppendLast(a: seq<Item>, b: seq<Item>)
    requires b != []
    ensures a + b != [] && (a + b)[..|a + b| - 1] == a + b[..|b| - 1] && (a + b)[|a + b| - 1] == b[|b| - 1]
  {
  }

  lemma {:induction false} PersistAppend(db: Db, a: seq<Item>, b: seq<Item>, restore: bool)
    ensures PersistAll(db, a + b, restore)
         == (match PersistAll(db, a, restore) case None => None case Some(d) => PersistAll(d, b, restore))
    decreases |b|
  {
    if b == [] {
      assert a + b == a;
    } else {
      var n := |b| - 1;
      AppendLast(a, b);
      PersistAppend(db, a, b[..n], restore);
    }
  }

  /** What a list of movements does to a slot, with no tables at all. */
  ghost function ItemsTotal(items: seq<Item>, slot: Slot): int {
    if items == [] then 0 else ItemsTotal(items[..|items| - 1], slot) + Effect(items[|items| - 1].row, slot)
  }

  /** Keys of the batch are new, or hold an orphaned row that the upsert turns into the item's row. */
  ghost predicate Contributes(rows: Rows, items: seq<Item>, restore: bool) {
    forall i :: 0 <= i < |items| ==>
      && Upserted(rows, items[i], restore) == items[i].row
      && (items[i].key in rows ==> rows[items[i].key].orphaned)
  }

  lemma {:induction false} RowsAfterTotal(rows: Rows, items: seq<Item>, restore: bool, slot: Slot)
    requires DistinctKeys(items) && Contributes(rows, items, restore)
    ensures Total(RowsAfter(rows, items, restore), slot) == Total(rows, slot) + ItemsTotal(items, slot)
    decreases |items|
  {
    if items == [] {
    } else {
      var n := |items| - 1;
      var init, last := items[..n], items[n];
      forall i | 0 <= i < n
        ensures Upserted(rows, init[i], restore) == init[i].row
                && (init[i].key in rows ==> rows[init[i].key].orphaned)
      {
        assert init[i] == items[i];
      }
      RowsAfterTotal(rows, init, restore, slot);
      RowsAfterOther(rows, init, restore, last.key);
      TotalUpdate(RowsAfter(rows, init, restore), last.key, last.row, slot);
    }
  }

  // ---------------------------------------------------------------- replay

  /** The canonical logs of a range: distinct keys, rows of this source inside the range. */
  ghost predicate Canonical(items: seq<Item>, source: SourceId, from: int, to: int) {
    && DistinctKeys(items)
    && forall i :: 0 <= i < |items| ==> InRange(items[i].row, source, from, to)
  }

  /** Stored rows with a canonical key agree on everything an upsert does not refresh. */
  ghost predicate Agrees(rows: Rows, items: seq<Item>) {
    forall i :: 0 <= i < |items| && items[i].key in rows ==>
      var row := rows[items[i].key];
      items[i].row == row.(amount := items[i].row.amount, meta := items[i].row.meta, orphaned := false)
  }

  ghost predicate IsCanonicalKey(items: seq<Item>, k: Key) {
    exists i :: 0 <= i < |items| && items[i].key == k
  }

  /** One uninterrupted replay, on the rows. */
  function Replayed(rows: Rows, items: seq<Item>, source: SourceId, from: int, to: int): Rows {
    RowsAfter(OrphanRows(rows, source, from, to), items, true)
  }

  /** The rows of the other ranges and sources. */
  function Outside(rows: Rows, source: SourceId, from: int, to: int): Rows {
    map k | k in rows && !InRange(rows[k], source, from, to) :: rows[k]
  }

  lemma OutsideTotal(rows: Rows, source: SourceId, from: int, to: int, slot: Slot)
    ensures Total(OrphanRows(rows, source, from, to), slot) == Total(Outside(rows, source, from, to), slot)
  {
    var o, x := OrphanRows(rows, source, from, to), Outside(rows, source, from, to);
    SumSupport(x.Keys, o.Keys, RowEffect(o, slot));
    SumCongruent(x.Keys, RowEffect(o, slot), RowEffect(x, slot));
  }

  lemma StoredExtensional(a: Rows, b: Rows)
    requires forall k :: Stored(a, k) == Stored(b, k)
    ensures a == b
  {
    forall k ensures k in a <==> k in b {
      assert Stored(a, k) == Stored(b, k);
    }
    forall k | k in a ensures a[k] == b[k] {
      assert Stored(a, k) == Stored(b, k);
    }
  }

  lemma ReplayedStored(rows: Rows, items: seq<Item>, source: SourceId, from: int, to: int)
    requires Canonical(items, source, from, to) && Agrees(rows, items)
    ensures var after := Replayed(rows, items, source, from, to);
            && (forall i :: 0 <= i < |items| ==> Stored(after, items[i].key) == Some(items[i].row))
            && (forall k :: !IsCanonicalKey(items, k) ==>
                  Stored(after, k) == Stored(OrphanRows(rows, source, from, to), k))
  {
    var cleared := OrphanRows(rows, source, from, to);
    var after := Replayed(rows, items, source, from, to);
    forall i | 0 <= i < |items| ensures Stored(after, items[i].key) == Some(items[i].row) {
      RowsAfterAt(cleared, items, true, i);
    }
    forall k | !IsCanonicalKey(items, k) ensures Stored(after, k) == Stored(cleared, k) {
      RowsAfterOther(cleared, items, true, k);
    }
  }

  lemma ReplayedOutside(rows: Rows, items: seq<Item>, source: SourceId, from: int, to: int)
    requires Canonical(items, source, from, to) && Agrees(rows, items)
    ensures Outside(Replayed(rows, items, source, from, to), source, from, to) == Outside(rows, source, from, to)
  {
    var cleared := OrphanRows(rows, source, from, to);
    var after := Replayed(rows, items, source, from, to);
    ReplayedStored(rows, items, source, from, to);
    forall k ensures Stored(Outside(after, source, from, to), k) == Stored(Outside(rows, source, from, to), k) {
      if IsCanonicalKey(items, k) {
        var i :| 0 <= i < |items| && items[i].key == k;
        assert Stored(after, k) == Some(items[i].row);
        assert InRange(items[i].row, source, from, to);
      } else {
        assert Stored(after, k) == Stored(cleared, k);
      }
    }
    StoredExtensional(Outside(after, source, from, to), Outside(rows, source, from, to));
  }

  /** After one replay the active rows of the range are exactly the canonical rows, nothing
      outside the range moved, and every balance is the outside fold plus the canonical logs. */
  lemma ReplayedExact(rows: Rows, items: seq<Item>, source: SourceId, from: int, to: int)
    requires Canonical(items, source, from, to) && Agrees(rows, items)
    ensures var after := Replayed(rows, items, source, from, to);
            && (forall i :: 0 <= i < |items| ==> items[i].key in after && after[items[i].key] == items[i].row)
            && (forall k ::
                k in after && InRange(after[k], source, from, to) && !after[k].orphaned ==> IsCanonicalKey(items, k))
            && Outside(after, source, from, to) == Outside(rows, source, from, to)
            && forall slot ::
                 Total(after, slot) == Total(Outside(rows, source, from, to), slot) + ItemsTotal(items, slot)
  {
    var cleared := OrphanRows(rows, source, from, to);
    var after := Replayed(rows, items, source, from, to);
    ReplayedStored(rows, items, source, from, to);
    ReplayedOutside(rows, items, source, from, to);
    forall i | 0 <= i < |items| ensures items[i].key in after && after[items[i].key] == items[i].row {
      assert Stored(after, items[i].key) == Some(items[i].row);
    }
    forall k | k in after && InRange(after[k], source, from, to) && !after[k].orphaned
      ensures IsCanonicalKey(items, k)
    {
      assert !IsCanonicalKey(items, k) ==> Stored(after, k) == Stored(cleared, k);
    }
    forall slot ensures Total(after, slot) == Total(Outside(rows, source, from, to), slot) + ItemsTotal(items, slot) {
      RowsAfterTotal(cleared, items, true, slot);
      OutsideTotal(rows, source, from, to, slot);
    }
  }

  /** The transactions of the attempts of one replay job; an attempt may die after either. */
  datatype ReplayTx = OrphanTx(order: seq<Key>) | PersistTx

  ghost function ReplayOp(tx: ReplayTx, items: seq<Item>, source: SourceId, from: int, to: int): Op {
    match tx
    case OrphanTx(order) => Orphan(source, from, to, order)
    case PersistTx => Persist(items, true)
  }

  ghost function RunReplay(db: Db, txs: seq<ReplayTx>, items: seq<Item>, source: SourceId, from: int, to: int): Db {
    if txs == [] then db
    else Apply(RunReplay(db, txs[..|txs| - 1], items, source, from, to),
               ReplayOp(txs[|txs| - 1], items, source, from, to))
  }

  ghost predicate OrphanCommitted(db: Db, txs: seq<ReplayTx>, items: seq<Item>, source: SourceId, from: int, to: int) {
    txs != [] &&
    var init := txs[..|txs| - 1];
    var last := txs[|txs| - 1];
    || OrphanCommitted(db, init, items, source, from, to)
    || (last.OrphanTx?
        && Commits(RunReplay(db, init, items, source, from, to), ReplayOp(last, items, source, from, to)))
  }

  ghost predicate Cleared(rows: Rows, items: seq<Item>, source: SourceId, from: int, to: int) {
    forall k :: k in rows && InRange(rows[k], source, from, to) && !rows[k].orphaned ==> IsCanonicalKey(items, k)
  }

  lemma ReplayedAt(rows: Rows, items: seq<Item>, source: SourceId, from: int, to: int, k: Key)
    requires Canonical(items, source, from, to)
    ensures !IsCanonicalKey(items, k) ==>
              Stored(Replayed(rows, items, source, from, to), k) == Stored(OrphanRows(rows, source, from, to), k)
    ensures forall i :: 0 <= i < |items| && items[i].key == k ==>
              Stored(Replayed(rows, items, source, from, to), k) == Some(Upserted(rows, items[i], true))
  {
    var cleared := OrphanRows(rows, source, from, to);
    if i :| 0 <= i < |items| && items[i].key == k {
      RowsAfterAt(cleared, items, true, i);
    } else {
      RowsAfterOther(cleared, items, true, k);
    }
  }

  /** Replaying forgets an earlier orphaning of the same range. */
  lemma ReplayedAfterOrphan(rows: Rows, items: seq<Item>, source: SourceId, from: int, to: int)
    ensures Replayed(OrphanRows(rows, source, from, to), items, source, from, to)
            == Replayed(rows, items, source, from, to)
  {
    var cleared := OrphanRows(rows, source, from, to);
    assert OrphanRows(cleared, source, from, to) == cleared;
  }

  /** Replaying forgets an earlier persist of the same canonical logs. */
  lemma ReplayedAfterPersist(rows: Rows, items: seq<Item>, source: SourceId, from: int, to: int)
    requires Canonical(items, source, from, to)
    ensures Replayed(RowsAfter(rows, items, true), items, source, from, to) == Replayed(rows, items, source, from, to)
  {
    var p := RowsAfter(rows, items, true);
    var a, b := Replayed(p, items, source, from, to), Replayed(rows, items, source, from, to);
    forall k ensures Stored(a, k) == Stored(b, k) {
      ReplayedAt(p, items, source, from, to, k);
      ReplayedAt(rows, items, source, from, to, k);
      if i :| 0 <= i < |items| && items[i].key == k {
        RowsAfterAt(rows, items, true, i);
        assert Stored(p, k) == Some(Upserted(rows, items[i], true));
        assert Upserted(p, items[i], true) == Upserted(rows, items[i], true);
      } else {
        RowsAfterOther(rows, items, true, k);
        assert Stored(p, k) == Stored(rows, k);
        assert Stored(OrphanRows(p, source, from, to), k) == Stored(OrphanRows(rows, source, from, to), k);
      }
    }
    StoredExtensional(a, b);
  }

  /** On a cleared range a persist of the canonical logs completes the replay. */
  lemma PersistCompletes(rows: Rows, items: seq<Item>, source: SourceId, from: int, to: int)
    requires Canonical(items, source, from, to) && Cleared(rows, items, source, from, to)
    ensures RowsAfter(rows, items, true) == Replayed(rows, items, source, from, to)
  {
    var a, b := RowsAfter(rows, items, true), Replayed(rows, items, source, from, to);
    forall k ensures Stored(a, k) == Stored(b, k) {
      ReplayedAt(rows, items, source, from, to, k);
      if i :| 0 <= i < |items| && items[i].key == k {
        RowsAfterAt(rows, items, true, i);
      } else {
        RowsAfterOther(rows, items, true, k);
        assert Stored(OrphanRows(rows, source, from, to), k) == Stored(rows, k);
      }
    }
    StoredExtensional(a, b);
  }

  lemma PersistKeepsCleared(rows: Rows, items: seq<Item>, source: SourceId, from: int, to: int)
    requires Cleared(rows, items, source, from, to)
    ensures Cleared(RowsAfter(rows, items, true), items, source, from, to)
  {
    var p := RowsAfter(rows, items, true);
    forall k | k in p && InRange(p[k], source, from, to) && !p[k].orphaned ensures IsCanonicalKey(items, k) {
      if !IsCanonicalKey(items, k) {
        RowsAfterOther(rows, items, true, k);
      }
    }
  }

  /** What no transaction of the replay's attempts can change: where a completed replay ends. */
  lemma {:induction false} ReplayInvariant(db: Db, txs: seq<ReplayTx>, items: seq<Item>, source: SourceId, from: int,
                                           to: int)
    requires Consistent(db) && Canonical(items, source, from, to)
    ensures var d := RunReplay(db, txs, items, source, from, to);
            && Consistent(d)
            && Replayed(d.rows, items, source, from, to) == Replayed(db.rows, items, source, from, to)
            && (OrphanCommitted(db, txs, items, source, from, to) ==> Cleared(d.rows, items, source, from, to))
    decreases |txs|
  {
    if txs == [] {
    } else {
      var init, last := txs[..|txs| - 1], txs[|txs| - 1];
      ReplayInvariant(db, init, items, source, from, to);
      var d := RunReplay(db, init, items, source, from, to);
      match last
      case OrphanTx(order) =>
        if Commits(d, ReplayOp(last, items, source, from, to)) {
          OrphanExact(d, source, from, to, order);
          ReplayedAfterOrphan(d.rows, items, source, from, to);
        }
      case PersistTx =>
        PersistExact(d, items, true);
        ReplayedAfterPersist(d.rows, items, source, from, to);
        if OrphanCommitted(db, init, items, source, from, to) {
          PersistKeepsCleared(d.rows, items, source, from, to);
        }
    }
  }

  /** Replay convergence: after any interleaving of the orphan and persist transactions of any
      number of attempts, committed or aborted, once an orphaning committed and then a final
      persist committed the rows are those of a single uninterrupted replay. */
  lemma ReplayConverges(db: Db, txs: seq<ReplayTx>, items: seq<Item>, source: SourceId, from: int, to: int)
    requires Consistent(db) && Canonical(items, source, from, to) && Agrees(db.rows, items)
    requires OrphanCommitted(db, txs, items, source, from, to)
    requires PersistAll(RunReplay(db, txs, items, source, from, to), items, true).Some?
    ensures var d := RunReplay(db, txs + [PersistTx], items, source, from, to);
            && Consistent(d)
            && d.rows == Replayed(db.rows, items, source, from, to)
            && (forall i :: 0 <= i < |items| ==> items[i].key in d.rows && d.rows[items[i].key] == items[i].row)
            && (forall k ::
                k in d.rows && InRange(d.rows[k], source, from, to) && !d.rows[k].orphaned ==> IsCanonicalKey(items, k))
            && (forall slot :: Balance(d.balances, slot)
                             == Total(Outside(db.rows, source, from, to), slot) + ItemsTotal(items, slot))
  {
    var all := txs + [PersistTx];
    assert all[..|all| - 1] == txs;
    ReplayInvariant(db, txs, items, source, from, to);
    ReplayInvariant(db, all, items, source, from, to);
    var before := RunReplay(db, txs, items, source, from, to);
    PersistExact(before, items, true);
    PersistCompletes(before.rows, items, source, from, to);
    ReplayedExact(db.rows, items, source, from, to);
    var d := RunReplay(db, all, items, source, from, to);
    forall slot
      ensures Balance(d.balances, slot) == Total(Outside(db.rows, source, from, to), slot) + ItemsTotal(items, slot)
    {
      assert Balance(d.balances, slot) == Total(d.rows, slot);
    }
  }

  // ---------------------------------------------------------------- replay amid other transactions

  /** A transaction of the replay's attempts, or one of somebody else. */
  datatype AmidTx = Attempt(tx: ReplayTx) | Other(op: Op)

  ghost function AmidOp(tx: AmidTx, items: seq<Item>, source: SourceId, from: int, to: int): Op {
    match tx
    case Attempt(t) => ReplayOp(t, items, source, from, to)
    case Other(op) => op
  }

  ghost function RunAmid(db: Db, txs: seq<AmidTx>, items: seq<Item>, source: SourceId, from: int, to: int): Db {
    if txs == [] then db
    else Apply(RunAmid(db, txs[..|txs| - 1], items, source, from, to), AmidOp(txs[|txs| - 1], items, source, from, to))
  }

  /** The item has no canonical key and concerns no row of the range. */
  ghost predicate IsOff(rows: Rows, item: Item, items: seq<Item>, source: SourceId, from: int, to: int) {
    && !IsCanonicalKey(items, item.key) && !InRange(item.row, source, from, to)
    && (item.key in rows ==> !InRange(rows[item.key], source, from, to))
  }

  /** Other persists store canonical items of the range, or nothing that concerns it.  Other
      orphanings may take any range. */
  ghost predicate Harmless(rows: Rows, others: seq<Item>, items: seq<Item>, source: SourceId, from: int, to: int) {
    forall i :: 0 <= i < |others| ==> others[i] in items || IsOff(rows, others[i], items, source, from, to)
  }

  ghost predicate AllHarmless(db: Db, txs: seq<AmidTx>, items: seq<Item>, source: SourceId, from: int, to: int) {
    txs == [] ||
    var init := txs[..|txs| - 1];
    var last := txs[|txs| - 1];
    && AllHarmless(db, init, items, source, from, to)
    && (last.Other? && last.op.Persist? ==>
          Harmless(RunAmid(db, init, items, source, from, to).rows, last.op.items, items, source, from, to))
  }

  ghost predicate OrphanedAmid(db: Db, txs: seq<AmidTx>, items: seq<Item>, source: SourceId, from: int, to: int) {
    txs != [] &&
    var init := txs[..|txs| - 1];
    var last := txs[|txs| - 1];
    || OrphanedAmid(db, init, items, source, from, to)
    || (last.Attempt? && last.tx.OrphanTx?
        && Commits(RunAmid(db, init, items, source, from, to), AmidOp(last, items, source, from, to)))
  }

  lemma OrphaningAgrees(rows: Rows, items: seq<Item>, source: SourceId, from: int, to: int)
    requires Agrees(rows, items)
    ensures Agrees(OrphanRows(rows, source, from, to), items)
  {
  }

  lemma CanonicalUpsertAgrees(rows: Rows, items: seq<Item>, item: Item, restore: bool)
    requires DistinctKeys(items) && Agrees(rows, items) && item in items
    ensures Agrees(rows[item.key := Upserted(rows, item, restore)], items)
  {
    var j :| 0 <= j < |items| && items[j] == item;
    forall i | 0 <= i < |items| && i != j ensures items[i].key != item.key {
    }
  }

  /** Harmless items leave canonical keys in agreement, and put no row into the range but those. */
  lemma {:induction false} HarmlessKeeps(rows: Rows, others: seq<Item>, restore: bool, items: seq<Item>,
                                         source: SourceId, from: int, to: int)
    requires Canonical(items, source, from, to) && Agrees(rows, items)
    requires Harmless(rows, others, items, source, from, to)
    ensures var after := RowsAfter(rows, others, restore);
            && Agrees(after, items)
            && (forall k :: k in after && InRange(after[k], source, from, to) && !IsCanonicalKey(items, k) ==>
                  Stored(after, k) == Stored(rows, k))
    decreases |others|
  {
    if others == [] {
    } else {
      var n := |others| - 1;
      var init, last := others[..n], others[n];
      assert Harmless(rows, init, items, source, from, to) by {
        forall i | 0 <= i < n ensures init[i] in items || IsOff(rows, init[i], items, source, from, to) {
          assert init[i] == others[i];
        }
      }
      HarmlessKeeps(rows, init, restore, items, source, from, to);
      HarmlessLast(rows, RowsAfter(rows, init, restore), last, restore, items, source, from, to);
    }
  }

  lemma HarmlessLast(rows: Rows, before: Rows, last: Item, restore: bool, items: seq<Item>, source: SourceId, from: int,
                     to: int)
    requires Canonical(items, source, from, to) && Agrees(before, items)
    requires last in items || IsOff(rows, last, items, source, from, to)
    requires forall k :: k in before && InRange(before[k], source, from, to) && !IsCanonicalKey(items, k) ==>
               Stored(before, k) == Stored(rows, k)
    ensures var after := before[last.key := Upserted(before, last, restore)];
            && Agrees(after, items)
            && (forall k :: k in after && InRange(after[k], source, from, to) && !IsCanonicalKey(items, k) ==>
                  Stored(after, k) == Stored(rows, k))
  {
    if last in items {
      CanonicalUpsertAgrees(before, items, last, restore);
      var j :| 0 <= j < |items| && items[j] == last;
      assert IsCanonicalKey(items, last.key);
    } else {
      var after := before[last.key := Upserted(before, last, restore)];
      forall i | 0 <= i < |items| ensures items[i].key != last.key {
        assert items[i].key == last.key ==> IsCanonicalKey(items, last.key);
      }
      assert !InRange(after[last.key], source, from, to);
    }
  }

  lemma HarmlessKeepsCleared(rows: Rows, others: seq<Item>, restore: bool, items: seq<Item>,
                             source: SourceId, from: int, to: int)
    requires Canonical(items, source, from, to) && Agrees(rows, items) && Cleared(rows, items, source, from, to)
    requires Harmless(rows, others, items, source, from, to)
    ensures Cleared(RowsAfter(rows, others, restore), items, source, from, to)
  {
    var after := RowsAfter(rows, others, restore);
    HarmlessKeeps(rows, others, restore, items, source, from, to);
    forall k | k in after && InRange(after[k], source, from, to) && !after[k].orphaned
      ensures IsCanonicalKey(items, k)
    {
      assert !IsCanonicalKey(items, k) ==> Stored(after, k) == Stored(rows, k);
    }
  }

  lemma CanonicalHarmless(rows: Rows, items: seq<Item>, source: SourceId, from: int, to: int)
    ensures Harmless(rows, items, items, source, from, to)
  {
  }

  lemma {:induction false} AmidInvariant(db: Db, txs: seq<AmidTx>, items: seq<Item>, source: SourceId, from: int,
                                         to: int)
    requires Consistent(db) && Canonical(items, source, from, to) && Agrees(db.rows, items)
    requires AllHarmless(db, txs, items, source, from, to)
    ensures var d := RunAmid(db, txs, items, source, from, to);
            && Consistent(d) && Agrees(d.rows, items)
            && (OrphanedAmid(db, txs, items, source, from, to) ==> Cleared(d.rows, items, source, from, to))
    decreases |txs|
  {
    if txs == [] {
    } else {
      var init, last := txs[..|txs| - 1], txs[|txs| - 1];
      AmidInvariant(db, init, items, source, from, to);
      var d := RunAmid(db, init, items, source, from, to);
      var op := AmidOp(last, items, source, from, to);
      AmidStep(d, op, items, source, from, to);
    }
  }

  lemma AmidStep(d: Db, op: Op, items: seq<Item>, source: SourceId, from: int, to: int)
    requires Consistent(d) && Canonical(items, source, from, to) && Agrees(d.rows, items)
    requires op.Persist? && op.items != items ==> Harmless(d.rows, op.items, items, source, from, to)
    ensures Consistent(Apply(d, op)) && Agrees(Apply(d, op).rows, items)
    ensures Cleared(d.rows, items, source, from, to) ==> Cleared(Apply(d, op).rows, items, source, from, to)
    ensures op.Orphan? && Commits(d, op) && (op.source, op.from, op.to) == (source, from, to) ==>
              Cleared(Apply(d, op).rows, items, source, from, to)
  {
    match op
    case Persist(others, restore) =>
      PersistExact(d, others, restore);
      CanonicalHarmless(d.rows, items, source, from, to);
      HarmlessKeeps(d.rows, others, restore, items, source, from, to);
      if Cleared(d.rows, items, source, from, to) {
        HarmlessKeepsCleared(d.rows, others, restore, items, source, from, to);
      }
    case Orphan(s, f, t, order) =>
      if Commits(d, op) {
        OrphanExact(d, s, f, t, order);
        OrphaningAgrees(d.rows, items, s, f, t);
      }
  }

  /** Replay convergence amid other writers: the attempts of a replay interleave with orphanings of
      any range and with persists of canonical rows or of rows elsewhere, committed or aborted.
      Once an orphaning of the replay committed and then its persist commits, the active rows of
      the range are exactly the canonical ones, the rest of the ledger is as that persist found it,
      and every balance is the fold of the rest plus the canonical logs. */
  lemma ReplayConvergesAmid(db: Db, txs: seq<AmidTx>, items: seq<Item>, source: SourceId, from: int, to: int)
    requires Consistent(db) && Canonical(items, source, from, to) && Agrees(db.rows, items)
    requires AllHarmless(db, txs, items, source, from, to) && OrphanedAmid(db, txs, items, source, from, to)
    requires PersistAll(RunAmid(db, txs, items, source, from, to), items, true).Some?
    ensures var before := RunAmid(db, txs, items, source, from, to);
            var after := PersistAll(before, items, true).value;
            && Consistent(after)
            && (forall i :: 0 <= i < |items| ==> items[i].key in after.rows && after.rows[items[i].key] == items[i].row)
            && (forall k :: k in after.rows && InRange(after.rows[k], source, from, to) && !after.rows[k].orphaned ==>
                  IsCanonicalKey(items, k))
            && Outside(after.rows, source, from, to) == Outside(before.rows, source, from, to)
            && (forall slot :: Balance(after.balances, slot)
                             == Total(Outside(before.rows, source, from, to), slot) + ItemsTotal(items, slot))
  {
    AmidInvariant(db, txs, items, source, from, to);
    var before := RunAmid(db, txs, items, source, from, to);
    PersistExact(before, items, true);
    PersistCompletes(before.rows, items, source, from, to);
    ReplayedExact(before.rows, items, source, from, to);
    var after := PersistAll(before, items, true).value;
    forall slot ensures Balance(after.balances, slot)
                     == Total(Outside(before.rows, source, from, to), slot) + ItemsTotal(items, slot)
    {
      assert Balance(after.balances, slot) == Total(after.rows, slot);
    }
  }

  // ---------------------------------------------------------------- ingestion

  ghost predicate HistoryNonNegative(items: seq<Item>) {
    forall i, slot {:trigger ItemsTotal(items[..i], slot)} :: 0 <= i <= |items| ==> ItemsTotal(items[..i], slot) >= 0
  }

  ghost predicate History(items: seq<Item>) {
    && DistinctKeys(items)
    && forall i :: 0 <= i < |items| ==> (items[i].row.from.Some? || items[i].row.to.Some?)
  }

  /** In-order ingestion from an empty ledger commits exactly when no prefix of the history
      overdraws a holder, and its balances are those of the history. */
  lemma InOrderComplete(items: seq<Item>, restore: bool)
    requires History(items)
    ensures PersistAll(Db(map[], map[]), items, restore).Some? <==> HistoryNonNegative(items)
    ensures PersistAll(Db(map[], map[]), items, restore).Some? ==>
              forall slot ::
                  Balance(PersistAll(Db(map[], map[]), items, restore).value.balances, slot) == ItemsTotal(items, slot)
  {
    var empty: Db := Db(map[], map[]);
    EmptyConsistent();
    PersistExact(empty, items, restore);
    forall i: nat, slot | i <= |items|
      ensures Total(RowsAfter(empty.rows, items[..i], restore), slot) == ItemsTotal(items[..i], slot)
    {
      RowsAfterTotal(empty.rows, items[..i], restore, slot);
      TotalEmpty(slot);
    }
    forall i: nat | i < |items|
      ensures StepFeasible(empty.rows, items, restore, i) <==>
              NonNegative(RowsAfter(empty.rows, items[..i + 1], restore))
    {
      RowsAfterOther(empty.rows, items[..i], restore, items[i].key);
      assert Stored(RowsAfter(empty.rows, items[..i], restore), items[i].key) == None;
    }
    if PersistFeasible(empty.rows, items, restore) {
      forall i, slot | 0 <= i <= |items| ensures ItemsTotal(items[..i], slot) >= 0 {
        if i > 0 {
          assert StepFeasible(empty.rows, items, restore, i - 1);
          assert Total(RowsAfter(empty.rows, items[..i], restore), slot) >= 0;
        }
      }
      var d := PersistAll(empty, items, restore).value;
      assert items[..|items|] == items;
      forall slot ensures Balance(d.balances, slot) == ItemsTotal(items, slot) {
        assert Balance(d.balances, slot) == Total(d.rows, slot);
      }
    }
    if HistoryNonNegative(items) {
      forall i: nat | i < |items| ensures StepFeasible(empty.rows, items, restore, i) {
        var after := RowsAfter(empty.rows, items[..i + 1], restore);
        forall slot ensures Total(after, slot) >= 0 {
          assert ItemsTotal(items[..i + 1], slot) >= 0;
        }
      }
    }
  }

  /** The ledger of the counterexample is what two persisted logs leave, and its orphaning aborts. */
  lemma OrphanAbortReached() returns (balances: Balances, order: seq<Key>)
    ensures PersistAll(Db(map[], map[]), MintAndTransfer(), false) == Some(Db(MintThenTransfer(), balances))
    ensures Consistent(Db(MintThenTransfer(), balances))
    ensures IsOrphanOrder(MintThenTransfer(), 7, 100, 101, order)
    ensures OrphanAll(Db(MintThenTransfer(), balances), 7, 100, 101, order) == None
  {
    balances := MintAndTransferCommit();
    order := [MintKey(Place(100, 0, 0)), SpendKey(Place(101, 0, 0))];
    PairIsOrder(Place(100, 0, 0), Place(101, 0, 0), 100, 101);
    OrphanCanAbort(balances, order);
  }

  lemma MintAndTransferCommit() returns (balances: Balances)
    ensures PersistAll(Db(map[], map[]), MintAndTransfer(), false) == Some(Db(MintThenTransfer(), balances))
    ensures Consistent(Db(MintThenTransfer(), balances))
  {
    EmptyConsistent();
    MintFirstNonNegative();
    InOrderComplete(MintAndTransfer(), false);
    PersistExact(Db(map[], map[]), MintAndTransfer(), false);
    MintAndTransferRows();
    balances := PersistAll(Db(map[], map[]), MintAndTransfer(), false).value.balances;
  }

  function MintAndTransfer(): seq<Item> {
    var rows := MintThenTransfer();
    var mint, transfer := Key(1, "0x1", 0, 0), Key(1, "0x2", 0, 0);
    [Item(mint, rows[mint]), Item(transfer, rows[transfer])]
  }

  lemma MintAndTransferRows()
    ensures RowsAfter(map[], MintAndTransfer(), false) == MintThenTransfer()
  {
    var items := MintAndTransfer();
    assert items[..1][..0] == [] && items[..1] == [items[0]];
    assert RowsAfter(map[], items[..1], false) == map[items[0].key := items[0].row];
  }

  lemma MintFirstNonNegative()
    ensures HistoryNonNegative(MintAndTransfer())
  {
    var items := MintAndTransfer();
    forall i, slot | 0 <= i <= |items| ensures ItemsTotal(items[..i], slot) >= 0 {
      assert items[..0] == [] && items[..1] == [items[0]] && items[..2] == items;
      assert [items[0]][..0] == [];
      assert ItemsTotal([items[0]], slot) == Effect(items[0].row, slot) >= 0;
      assert ItemsTotal(items, slot) == Effect(items[0].row, slot) + Effect(items[1].row, slot);
    }
  }

  ghost function Concat(batches: seq<seq<Item>>): seq<Item> {
    if batches == [] then [] else Concat(batches[..|batches| - 1]) + batches[|batches| - 1]
  }

  /** Consecutive transactions, stopping at the first that aborts. */
  ghost function PersistBatches(db: Db, batches: seq<seq<Item>>, restore: bool): Option<Db> {
    if batches == [] then Some(db) else
    match PersistBatches(db, batches[..|batches| - 1], restore)
    case None => None
    case Some(d) => PersistAll(d, batches[|batches| - 1], restore)
  }

  /** Chunking independence: every split into consecutive transactions commits exactly when one
      transaction would, and reaches the same tables. */
  lemma {:induction false} ChunkingIrrelevant(db: Db, batches: seq<seq<Item>>, restore: bool)
    ensures PersistBatches(db, batches, restore) == PersistAll(db, Concat(batches), restore)
    decreases |batches|
  {
    if batches == [] {
    } else {
      var n := |batches| - 1;
      ChunkingIrrelevant(db, batches[..n], restore);
      PersistAppend(db, Concat(batches[..n]), batches[n], restore);
    }
  }

  lemma {:induction false} RowsFixed(rows: Rows, items: seq<Item>, restore: bool)
    requires forall i :: 0 <= i < |items| ==> Stored(rows, items[i].key) == Some(Upserted(rows, items[i], restore))
    ensures RowsAfter(rows, items, restore) == rows
    decreases |items|
  {
    if items == [] {
    } else {
      var n := |items| - 1;
      RowsFixed(rows, items[..n], restore);
      assert Stored(rows, items[n].key) == Some(Upserted(rows, items[n], restore));
      assert rows[items[n].key := rows[items[n].key]] == rows;
    }
  }

  lemma RepersistStep(rows: Rows, items: seq<Item>, restore: bool, i: nat)
    requires DistinctKeys(items) && PersistFeasible(rows, items, restore) && i < |items|
    ensures var once := RowsAfter(rows, items, restore);
            Stored(once, items[i].key) == Some(Upserted(once, items[i], restore)) && Admissible(once, items[i])
  {
    RowsAfterAt(rows, items, restore, i);
    RowsAfterOther(rows, items[..i], restore, items[i].key);
    assert StepFeasible(rows, items, restore, i);
    var before, once := RowsAfter(rows, items[..i], restore), RowsAfter(rows, items, restore);
    assert Stored(before, items[i].key) == Stored(rows, items[i].key);
    assert Stored(once, items[i].key) == Some(Upserted(rows, items[i], restore));
    assert items[i].key in once;
    if items[i].key in rows {
      assert rows[items[i].key] == before[items[i].key];
    }
  }

  /** Persisting a committed batch again commits and changes no row and no balance. */
  lemma RepersistIdempotent(db: Db, items: seq<Item>, restore: bool)
    requires Consistent(db) && DistinctKeys(items)
    requires PersistAll(db, items, restore).Some?
    ensures var once := PersistAll(db, items, restore).value;
            var twice := PersistAll(once, items, restore);
            && twice.Some?
            && twice.value.rows == once.rows
            && forall slot :: Balance(twice.value.balances, slot) == Balance(once.balances, slot)
  {
    PersistExact(db, items, restore);
    var once := PersistAll(db, items, restore).value;
    ConsistentNonNegative(once);
    forall i: nat | i < |items|
      ensures Stored(once.rows, items[i].key) == Some(Upserted(once.rows, items[i], restore))
      ensures Admissible(once.rows, items[i])
    {
      RepersistStep(db.rows, items, restore, i);
    }
    forall i: nat | i < |items| ensures StepFeasible(once.rows, items, restore, i) {
      RowsFixed(once.rows, items[..i], restore);
      RowsFixed(once.rows, items[..i + 1], restore);
    }
    RowsFixed(once.rows, items, restore);
    PersistExact(once, items, restore);
    var twice := PersistAll(once, items, restore).value;
    forall slot ensures Balance(twice.balances, slot) == Balance(once.balances, slot) {
      assert Balance(twice.balances, slot) == Total(twice.rows, slot);
      assert Balance(once.balances, slot) == Total(once.rows, slot);
    }
  }
}
