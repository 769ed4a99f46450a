/** Batches of decoded logs: the rows that a batch asks for, and what persisting it leaves, stated
    on the decoded entries. */
module Batches {
  import opened Wrappers
  import opened Domain
  import opened LedgerModel
  import opened LedgerTheorems

  datatype Source = Source(id: SourceId, chain: int, startBlock: nat)

  datatype DecodedEntry = DecodedEntry(from: Address, to: Address, token: string, amount: nat, batchIndex: nat)

  datatype DecodedLog = DecodedLog(transactionHash: string, logIndex: nat, block: nat, meta: Metadata,
                                   entries: seq<DecodedEntry>)

  function ItemOf(source: Source, log: DecodedLog, entry: DecodedEntry): Item {
    Item(Key(source.chain, log.transactionHash, log.logIndex, entry.batchIndex),
         Row(source.id, NonZeroAddress(entry.from), NonZeroAddress(entry.to), entry.token, entry.amount, log.block,
             log.meta, false))
  }

  function LogItems(source: Source, log: DecodedLog, n: nat): seq<Item>
    requires n <= |log.entries|
  {
    seq(n, j requires 0 <= j < n => ItemOf(source, log, log.entries[j]))
  }

  /** The rows of a batch, log by log and entry by entry. */
  function BatchItems(source: Source, logs: seq<DecodedLog>): seq<Item> {
    if logs == [] then [] else
    var last := logs[|logs| - 1];
    BatchItems(source, logs[..|logs| - 1]) + LogItems(source, last, |last.entries|)
  }

  // ---------------------------------------------------------------- what a batch means

  predicate IsEntry(logs: seq<DecodedLog>, i: int, j: int) {
    0 <= i < |logs| && 0 <= j < |logs[i].entries|
  }

  /** No two logs of the batch are one log of the chain, and a log numbers its entries apart. */
  ghost predicate DistinctLogs(logs: seq<DecodedLog>) {
    && (forall i, j :: 0 <= i < j < |logs| ==>
          logs[i].transactionHash != logs[j].transactionHash || logs[i].logIndex != logs[j].logIndex)
    && (forall i, j, k :: 0 <= i < |logs| && 0 <= j < k < |logs[i].entries| ==>
          logs[i].entries[j].batchIndex != logs[i].entries[k].batchIndex)
  }

  /** The unique key of an entry: its chain, transaction, log and batch index. */
  function EntryKey(source: Source, log: DecodedLog, entry: DecodedEntry): Key {
    Key(source.chain, log.transactionHash, log.logIndex, entry.batchIndex)
  }

  ghost predicate IsEntryKey(source: Source, logs: seq<DecodedLog>, k: Key) {
    exists i, j :: IsEntry(logs, i, j) && k == EntryKey(source, logs[i], logs[i].entries[j])
  }

  /** What a movement of an amount between two stored addresses does to a holder. */
  function Moves(from: Option<Address>, to: Option<Address>, amount: int, holder: Address): int {
    (if to == Some(holder) then amount else 0) - (if from == Some(holder) then amount else 0)
  }

  /** What an entry changes in a slot.  A new entry moves its amount between its two addresses, the
      zero address excepted.  An entry whose key is stored replaces the amount of the stored row,
      whose addresses and token stay; an orphaned row counts again only on request. */
  function EntryChange(rows: Rows, source: Source, log: DecodedLog, entry: DecodedEntry, restore: bool,
                       slot: Slot): int
  {
    var k := EntryKey(source, log, entry);
    if k in rows then
      var row := rows[k];
      if row.source != slot.source || row.token != slot.token then 0
      else (if row.orphaned && !restore then 0 else Moves(row.from, row.to, entry.amount, slot.holder))
           - (if row.orphaned then 0 else Moves(row.from, row.to, row.amount, slot.holder))
    else if source.id != slot.source || entry.token != slot.token || slot.holder == ZERO_ADDRESS then 0
    else (if entry.to == slot.holder then entry.amount else 0) - (if entry.from == slot.holder then entry.amount else 0)
  }

  /** The first n entries of a log. */
  function LogChange(rows: Rows, source: Source, log: DecodedLog, n: nat, restore: bool, slot: Slot): int
    requires n <= |log.entries|
  {
    if n == 0 then 0 else
    LogChange(rows, source, log, n - 1, restore, slot)
    + EntryChange(rows, source, log, log.entries[n - 1], restore, slot)
  }

  function BatchChange(rows: Rows, source: Source, logs: seq<DecodedLog>, restore: bool, slot: Slot): int {
    if logs == [] then 0 else
    var last := logs[|logs| - 1];
    BatchChange(rows, source, logs[..|logs| - 1], restore, slot)
    + LogChange(rows, source, last, |last.entries|, restore, slot)
  }

  function EntryCount(logs: seq<DecodedLog>): nat {
    if logs == [] then 0 else EntryCount(logs[..|logs| - 1]) + |logs[|logs| - 1].entries|
  }

  /** The entry has an address, and its key is not another source's. */
  predicate IsAdmitted(rows: Rows, source: Source, log: DecodedLog, entry: DecodedEntry) {
    var k := EntryKey(source, log, entry);
    (entry.from != ZERO_ADDRESS || entry.to != ZERO_ADDRESS) && (k in rows ==> rows[k].source == source.id)
  }

  /** The entry is admitted, and no balance is negative after it and the entries before it. */
  ghost predicate EntryCommits(db: Db, source: Source, logs: seq<DecodedLog>, restore: bool, i: int, j: int)
    requires IsEntry(logs, i, j)
  {
    && IsAdmitted(db.rows, source, logs[i], logs[i].entries[j])
    && forall slot ::
         Balance(db.balances, slot) + BatchChange(db.rows, source, logs[..i], restore, slot)
             + LogChange(db.rows, source, logs[i], j + 1, restore, slot) >= 0
  }

  ghost predicate BatchCommits(db: Db, source: Source, logs: seq<DecodedLog>, restore: bool) {
    forall i, j :: IsEntry(logs, i, j) ==> EntryCommits(db, source, logs, restore, i, j)
  }

  /** The row of an entry: as the entry says if its key is new, else the stored row with the amount
      and block columns of the log, active again on request. */
  ghost predicate HoldsEntry(before: Rows, source: Source, log: DecodedLog, entry: DecodedEntry, restore: bool,
                             after: Rows)
  {
    var k := EntryKey(source, log, entry);
    k in after && after[k] ==
    if k in before then before[k].(amount := entry.amount, meta := log.meta,
                                   orphaned := before[k].orphaned && !restore)
    else Row(source.id, if entry.from == ZERO_ADDRESS then None else Some(entry.from),
             if entry.to == ZERO_ADDRESS then None else Some(entry.to), entry.token, entry.amount, log.block, log.meta,
             false)
  }

  /** What a committed batch leaves: a row for every entry, every other row as it was, and every
      balance moved by the entries. */
  ghost predicate HoldsBatch(before: Db, source: Source, logs: seq<DecodedLog>, restore: bool, after: Db) {
    && (forall i, j :: IsEntry(logs, i, j) ==>
          HoldsEntry(before.rows, source, logs[i], logs[i].entries[j], restore, after.rows))
    && (forall k :: !IsEntryKey(source, logs, k) ==>
          (k in after.rows <==> k in before.rows) && (k in before.rows ==> after.rows[k] == before.rows[k]))
    && (forall slot ::
          Balance(after.balances, slot)
          == Balance(before.balances, slot) + BatchChange(before.rows, source, logs, restore, slot))
  }

  // ---------------------------------------------------------------- the proof

  lemma {:induction false} BatchPrefix(source: Source, logs: seq<DecodedLog>, i: nat, j: nat)
    requires i < |logs| && j <= |logs[i].entries|
    ensures var done := BatchItems(source, logs[..i]) + LogItems(source, logs[i], j);
            |done| <= |BatchItems(source, logs)| && BatchItems(source, logs)[..|done|] == done
    decreases |logs|
  {
    var n := |logs| - 1;
    if n <= i {
    } else {
      assert logs[..n][..i] == logs[..i];
      BatchPrefix(source, logs[..n], i, j);
    }
  }

  /** Entry j of log i is item number p of the batch. */
  ghost predicate IsAt(source: Source, logs: seq<DecodedLog>, i: int, j: int, p: int) {
    && IsEntry(logs, i, j) && 0 <= p < |BatchItems(source, logs)|
    && BatchItems(source, logs)[..p] == BatchItems(source, logs[..i]) + LogItems(source, logs[i], j)
    && BatchItems(source, logs)[..p + 1] == BatchItems(source, logs[..i]) + LogItems(source, logs[i], j + 1)
    && BatchItems(source, logs)[p] == ItemOf(source, logs[i], logs[i].entries[j])
  }

  lemma EntryPlace(source: Source, logs: seq<DecodedLog>, i: nat, j: nat) returns (p: nat)
    requires IsEntry(logs, i, j)
    ensures IsAt(source, logs, i, j, p)
  {
    BatchPrefix(source, logs, i, j);
    BatchPrefix(source, logs, i, j + 1);
    p := |BatchItems(source, logs[..i]) + LogItems(source, logs[i], j)|;
    assert BatchItems(source, logs)[..p + 1][p] == ItemOf(source, logs[i], logs[i].entries[j]);
  }

  lemma {:induction false} ItemPlace(source: Source, logs: seq<DecodedLog>, p: nat) returns (i: nat, j: nat)
    requires p < |BatchItems(source, logs)|
    ensures IsAt(source, logs, i, j, p)
    decreases |logs|
  {
    var n := |logs| - 1;
    var init := logs[..n];
    var before := |BatchItems(source, init)|;
    if p < before {
      i, j := ItemPlace(source, init, p);
      assert init[..i] == logs[..i];
      assert BatchItems(source, logs)[..p + 1] == BatchItems(source, init)[..p + 1];
    } else {
      i, j := n, p - before;
      var q := EntryPlace(source, logs, i, j);
    }
  }

  /** Distinct logs ask for distinct keys. */
  lemma {:induction false} DistinctLogsKeys(source: Source, logs: seq<DecodedLog>)
    requires DistinctLogs(logs)
    ensures DistinctKeys(BatchItems(source, logs))
    decreases |logs|
  {
    if logs == [] {
    } else {
      var n := |logs| - 1;
      var items, init := BatchItems(source, logs), BatchItems(source, logs[..n]);
      DistinctLogsKeys(source, logs[..n]);
      forall p, q | 0 <= p < q < |items| ensures items[p].key != items[q].key {
        if p < |init| {
          var i, j := ItemPlace(source, logs[..n], p);
          assert items[p] == init[p];
          assert q < |init| ==> items[q] == init[q];
        }
      }
    }
  }

  /** What a list of upserts changes in a slot, each against the rows before the list. */
  ghost function ItemsChange(rows: Rows, items: seq<Item>, restore: bool, slot: Slot): int {
    if items == [] then 0 else
    var last := items[|items| - 1];
    ItemsChange(rows, items[..|items| - 1], restore, slot) + Effect(Upserted(rows, last, restore), slot)
    - (if last.key in rows then Effect(rows[last.key], slot) else 0)
  }

  lemma {:induction false} RowsAfterChange(rows: Rows, items: seq<Item>, restore: bool, slot: Slot)
    requires DistinctKeys(items)
    ensures Total(RowsAfter(rows, items, restore), slot) == Total(rows, slot) + ItemsChange(rows, items, restore, slot)
    decreases |items|
  {
    if items == [] {
    } else {
      var n := |items| - 1;
      var before := RowsAfter(rows, items[..n], restore);
      RowsAfterChange(rows, items[..n], restore, slot);
      RowsAfterOther(rows, items[..n], restore, items[n].key);
      assert Stored(before, items[n].key) == Stored(rows, items[n].key);
      TotalUpdate(before, items[n].key, Upserted(before, items[n], restore), slot);
    }
  }

  lemma ItemChange(rows: Rows, source: Source, log: DecodedLog, entry: DecodedEntry, restore: bool, slot: Slot)
    ensures var item := ItemOf(source, log, entry);
            EntryChange(rows, source, log, entry, restore, slot)
            == Effect(Upserted(rows, item, restore), slot)
               - (if item.key in rows then Effect(rows[item.key], slot) else 0)
  {
  }

  lemma {:induction false} LogItemsChange(rows: Rows, source: Source, before: seq<Item>, log: DecodedLog, n: nat,
                                          restore: bool, slot: Slot)
    requires n <= |log.entries|
    ensures ItemsChange(rows, before + LogItems(source, log, n), restore, slot)
         == ItemsChange(rows, before, restore, slot) + LogChange(rows, source, log, n, restore, slot)
    decreases n
  {
    if n == 0 {
      assert before + LogItems(source, log, 0) == before;
    } else {
      var items := before + LogItems(source, log, n);
      assert items[..|items| - 1] == before + LogItems(source, log, n - 1);
      LogItemsChange(rows, source, before, log, n - 1, restore, slot);
      ItemChange(rows, source, log, log.entries[n - 1], restore, slot);
    }
  }

  lemma {:induction false} BatchItemsChange(rows: Rows, source: Source, logs: seq<DecodedLog>, restore: bool,
                                            slot: Slot)
    ensures ItemsChange(rows, BatchItems(source, logs), restore, slot)
         == BatchChange(rows, source, logs, restore, slot)
    decreases |logs|
  {
    if logs == [] {
    } else {
      var last := logs[|logs| - 1];
      BatchItemsChange(rows, source, logs[..|logs| - 1], restore, slot);
      LogItemsChange(rows, source, BatchItems(source, logs[..|logs| - 1]), last, |last.entries|, restore, slot);
    }
  }

  lemma {:induction false} BatchItemsCount(source: Source, logs: seq<DecodedLog>)
    ensures |BatchItems(source, logs)| == EntryCount(logs)
    decreases |logs|
  {
    if logs == [] {
    } else {
      BatchItemsCount(source, logs[..|logs| - 1]);
    }
  }

  lemma DistinctPrefix(items: seq<Item>, p: nat)
    requires DistinctKeys(items) && p <= |items|
    ensures DistinctKeys(items[..p])
  {
  }

  /** The total of a slot after the entries up to entry j of log i. */
  lemma TotalAt(db: Db, source: Source, logs: seq<DecodedLog>, restore: bool, i: nat, j: nat, p: nat, slot: Slot)
    requires Consistent(db) && DistinctKeys(BatchItems(source, logs)) && IsAt(source, logs, i, j, p)
    ensures Total(RowsAfter(db.rows, BatchItems(source, logs)[..p + 1], restore), slot)
         == Balance(db.balances, slot) + BatchChange(db.rows, source, logs[..i], restore, slot)
            + LogChange(db.rows, source, logs[i], j + 1, restore, slot)
  {
    DistinctPrefix(BatchItems(source, logs), p + 1);
    RowsAfterChange(db.rows, BatchItems(source, logs)[..p + 1], restore, slot);
    LogItemsChange(db.rows, source, BatchItems(source, logs[..i]), logs[i], j + 1, restore, slot);
    BatchItemsChange(db.rows, source, logs[..i], restore, slot);
    assert Balance(db.balances, slot) == Total(db.rows, slot);
  }

  lemma AdmissibleAt(rows: Rows, source: Source, logs: seq<DecodedLog>, restore: bool, i: nat, j: nat, p: nat)
    requires DistinctKeys(BatchItems(source, logs)) && IsAt(source, logs, i, j, p)
    ensures Admissible(RowsAfter(rows, BatchItems(source, logs)[..p], restore), BatchItems(source, logs)[p])
       <==> IsAdmitted(rows, source, logs[i], logs[i].entries[j])
  {
    var items := BatchItems(source, logs);
    RowsAfterOther(rows, items[..p], restore, items[p].key);
    assert Stored(RowsAfter(rows, items[..p], restore), items[p].key) == Stored(rows, items[p].key);
  }

  lemma StepAt(db: Db, source: Source, logs: seq<DecodedLog>, restore: bool, i: nat, j: nat, p: nat)
    requires Consistent(db) && DistinctKeys(BatchItems(source, logs)) && IsAt(source, logs, i, j, p)
    ensures StepFeasible(db.rows, BatchItems(source, logs), restore, p)
            <==> EntryCommits(db, source, logs, restore, i, j)
  {
    AdmissibleAt(db.rows, source, logs, restore, i, j, p);
    var after := RowsAfter(db.rows, BatchItems(source, logs)[..p + 1], restore);
    forall slot
      ensures Total(after, slot)
           == Balance(db.balances, slot) + BatchChange(db.rows, source, logs[..i], restore, slot)
              + LogChange(db.rows, source, logs[i], j + 1, restore, slot)
    {
      TotalAt(db, source, logs, restore, i, j, p, slot);
    }
  }

  lemma FeasibleIsCommits(db: Db, source: Source, logs: seq<DecodedLog>, restore: bool)
    requires Consistent(db) && DistinctLogs(logs)
    ensures PersistFeasible(db.rows, BatchItems(source, logs), restore) <==> BatchCommits(db, source, logs, restore)
  {
    var items := BatchItems(source, logs);
    DistinctLogsKeys(source, logs);
    if PersistFeasible(db.rows, items, restore) {
      forall i, j | IsEntry(logs, i, j) ensures EntryCommits(db, source, logs, restore, i, j) {
        var p := EntryPlace(source, logs, i, j);
        StepAt(db, source, logs, restore, i, j, p);
      }
    }
    if BatchCommits(db, source, logs, restore) {
      forall p | 0 <= p < |items| ensures StepFeasible(db.rows, items, restore, p) {
        var i, j := ItemPlace(source, logs, p);
        StepAt(db, source, logs, restore, i, j, p);
      }
    }
  }

  lemma EntryHeld(rows: Rows, source: Source, logs: seq<DecodedLog>, restore: bool, i: nat, j: nat)
    requires DistinctLogs(logs) && IsEntry(logs, i, j)
    ensures HoldsEntry(rows, source, logs[i], logs[i].entries[j], restore,
                       RowsAfter(rows, BatchItems(source, logs), restore))
  {
    DistinctLogsKeys(source, logs);
    var p := EntryPlace(source, logs, i, j);
    RowsAfterAt(rows, BatchItems(source, logs), restore, p);
  }

  lemma OtherHeld(rows: Rows, source: Source, logs: seq<DecodedLog>, restore: bool, k: Key)
    requires !IsEntryKey(source, logs, k)
    ensures Stored(RowsAfter(rows, BatchItems(source, logs), restore), k) == Stored(rows, k)
  {
    var items := BatchItems(source, logs);
    forall p | 0 <= p < |items| ensures items[p].key != k {
      var i, j := ItemPlace(source, logs, p);
      assert items[p].key == EntryKey(source, logs[i], logs[i].entries[j]);
    }
    RowsAfterOther(rows, items, restore, k);
  }

  lemma RowsHeld(db: Db, source: Source, logs: seq<DecodedLog>, restore: bool, after: Db)
    requires Consistent(db) && Consistent(after) && DistinctLogs(logs)
    requires after.rows == RowsAfter(db.rows, BatchItems(source, logs), restore)
    ensures HoldsBatch(db, source, logs, restore, after)
  {
    forall i, j | IsEntry(logs, i, j)
      ensures HoldsEntry(db.rows, source, logs[i], logs[i].entries[j], restore, after.rows)
    {
      EntryHeld(db.rows, source, logs, restore, i, j);
    }
    forall k | !IsEntryKey(source, logs, k)
      ensures (k in after.rows <==> k in db.rows) && (k in db.rows ==> after.rows[k] == db.rows[k])
    {
      OtherHeld(db.rows, source, logs, restore, k);
      assert Stored(after.rows, k) == Stored(db.rows, k);
    }
    DistinctLogsKeys(source, logs);
    forall slot
      ensures Balance(after.balances, slot)
           == Balance(db.balances, slot) + BatchChange(db.rows, source, logs, restore, slot)
    {
      RowsAfterChange(db.rows, BatchItems(source, logs), restore, slot);
      BatchItemsChange(db.rows, source, logs, restore, slot);
      assert Balance(after.balances, slot) == Total(after.rows, slot);
      assert Balance(db.balances, slot) == Total(db.rows, slot);
    }
  }

  /** Persisting a batch, on the decoded entries: it commits exactly when every entry has an address
      and a key that is not another source's and no balance is negative after any entry; then every
      entry has its row and every balance has moved by what the entries say. */
  lemma BatchExact(db: Db, source: Source, logs: seq<DecodedLog>, restore: bool)
    requires Consistent(db) && DistinctLogs(logs)
    ensures PersistAll(db, BatchItems(source, logs), restore).Some? <==> BatchCommits(db, source, logs, restore)
    ensures PersistAll(db, BatchItems(source, logs), restore).Some? ==>
              HoldsBatch(db, source, logs, restore, PersistAll(db, BatchItems(source, logs), restore).value)
  {
    PersistExact(db, BatchItems(source, logs), restore);
    FeasibleIsCommits(db, source, logs, restore);
    if PersistAll(db, BatchItems(source, logs), restore).Some? {
      RowsHeld(db, source, logs, restore, PersistAll(db, BatchItems(source, logs), restore).value);
    }
  }

  /** What a batch moves between the holders of a token, with no tables at all. */
  function EntryFlow(entry: DecodedEntry, holder: Address, token: string): int {
    if entry.token != token || holder == ZERO_ADDRESS then 0
    else (if entry.to == holder then entry.amount else 0) - (if entry.from == holder then entry.amount else 0)
  }

  function LogFlow(log: DecodedLog, n: nat, holder: Address, token: string): int
    requires n <= |log.entries|
  {
    if n == 0 then 0 else LogFlow(log, n - 1, holder, token) + EntryFlow(log.entries[n - 1], holder, token)
  }

  function BatchFlow(logs: seq<DecodedLog>, holder: Address, token: string): int {
    if logs == [] then 0 else
    var last := logs[|logs| - 1];
    BatchFlow(logs[..|logs| - 1], holder, token) + LogFlow(last, |last.entries|, holder, token)
  }

  lemma {:induction false} FreshLogFlow(source: Source, log: DecodedLog, n: nat, restore: bool, holder: Address,
                                        token: string)
    requires n <= |log.entries|
    ensures LogChange(map[], source, log, n, restore, Slot(source.id, holder, token)) == LogFlow(log, n, holder, token)
    decreases n
  {
    if n == 0 {
    } else {
      FreshLogFlow(source, log, n - 1, restore, holder, token);
    }
  }

  /** On an empty ledger a batch changes every balance by its flow. */
  lemma {:induction false} FreshBatchFlow(source: Source, logs: seq<DecodedLog>, restore: bool, holder: Address,
                                          token: string)
    ensures BatchChange(map[], source, logs, restore, Slot(source.id, holder, token)) == BatchFlow(logs, holder, token)
    decreases |logs|
  {
    if logs == [] {
    } else {
      var last := logs[|logs| - 1];
      FreshBatchFlow(source, logs[..|logs| - 1], restore, holder, token);
      FreshLogFlow(source, last, |last.entries|, restore, holder, token);
    }
  }

  /** The ledger holds exactly the entries: each under its own key, as it says, and nothing else; a
      holder has what the entries give it less what they take. */
  ghost predicate HoldsExactly(source: Source, logs: seq<DecodedLog>, after: Db) {
    && (forall i, j :: IsEntry(logs, i, j) ==>
          HoldsEntry(map[], source, logs[i], logs[i].entries[j], false, after.rows))
    && (forall k :: k in after.rows <==> IsEntryKey(source, logs, k))
    && (forall holder, token ::
          Balance(after.balances, Slot(source.id, holder, token)) == BatchFlow(logs, holder, token))
  }

  lemma FreshBatch(source: Source, logs: seq<DecodedLog>, restore: bool)
    requires DistinctLogs(logs) && PersistAll(Db(map[], map[]), BatchItems(source, logs), restore).Some?
    ensures HoldsExactly(source, logs, PersistAll(Db(map[], map[]), BatchItems(source, logs), restore).value)
  {
    EmptyConsistent();
    var empty: Db := Db(map[], map[]);
    BatchExact(empty, source, logs, restore);
    var after := PersistAll(empty, BatchItems(source, logs), restore).value;
    forall i, j | IsEntry(logs, i, j)
      ensures HoldsEntry(map[], source, logs[i], logs[i].entries[j], false, after.rows)
    {
      assert HoldsEntry(map[], source, logs[i], logs[i].entries[j], restore, after.rows);
    }
    forall k ensures k in after.rows <==> IsEntryKey(source, logs, k) {
      if IsEntryKey(source, logs, k) {
        var i, j :| IsEntry(logs, i, j) && k == EntryKey(source, logs[i], logs[i].entries[j]);
        assert HoldsEntry(map[], source, logs[i], logs[i].entries[j], restore, after.rows);
      }
    }
    forall holder, token
      ensures Balance(after.balances, Slot(source.id, holder, token)) == BatchFlow(logs, holder, token)
    {
      FreshBatchFlow(source, logs, restore, holder, token);
    }
  }
}
