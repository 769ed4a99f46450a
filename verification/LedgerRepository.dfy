/** The ledger repository: the ledger tables and the checkpoints, updated in place by transactions
    that commit or roll back. */
module LedgerRepositories {
  import opened Wrappers
  import opened Domain
  import opened LedgerModel
  import opened LedgerTheorems
  import opened Batches
  import opened Checkpoints
  import opened Frontier
  import JobQueue

  datatype Delta = Delta(amount: int, firstReceived: Option<nat>, lastMoved: Option<nat>)

  const ZERO_DELTA := Delta(0, None, None)

  function DeltaAt(deltas: map<Slot, Delta>, slot: Slot): Delta {
    if slot in deltas then deltas[slot] else ZERO_DELTA
  }

  /** A delta after one row, or its reversal, has been added: a reversal sets no block mark. */
  function Collected(d: Delta, row: Row, reverse: bool, slot: Slot): Delta {
    if reverse then d.(amount := d.amount - Flow(row, slot))
    else Delta(d.amount + Flow(row, slot), MinBlock(d.firstReceived, ReceivedAt(row, slot)),
               MaxBlock(d.lastMoved, MovedAt(row, slot)))
  }

  function PostedBalance(balances: Balances, slot: Slot, delta: Delta): BalanceRow {
    BalanceRow(Balance(balances, slot) + delta.amount,
               MinBlock(StoredFirst(balances, slot), delta.firstReceived),
               MaxBlock(StoredLast(balances, slot), delta.lastMoved))
  }

  /** The balance rows after posting all deltas of a map. */
  function Posted(balances: Balances, deltas: map<Slot, Delta>): Balances {
    map slot | slot in balances.Keys + deltas.Keys
      && (slot in balances || PostedBalance(balances, slot, deltas[slot]).balance != 0)
      :: if slot in deltas then PostedBalance(balances, slot, deltas[slot]) else balances[slot]
  }

  ghost predicate DeltasOf(deltas: map<Slot, Delta>, previous: Option<Row>, current: Row) {
    && deltas.Keys == ActiveSlots(previous, current)
    && forall slot :: slot in deltas ==>
         deltas[slot] == Delta(NetDelta(previous, current, slot), ReceivedMark(current, slot), MovedMark(current, slot))
  }

  lemma PostedAgrees(balances: Balances, deltas: map<Slot, Delta>, previous: Option<Row>, current: Row, slot: Slot)
    requires DeltasOf(deltas, previous, current)
    ensures slot in deltas ==>
            PostedBalance(balances, slot, deltas[slot]) == NextBalance(balances, previous, current, slot)
  {
  }

  lemma NonNegativeDeltasCommit(balances: Balances, deltas: map<Slot, Delta>, previous: Option<Row>, current: Row)
    requires DeltasOf(deltas, previous, current)
    requires forall slot :: slot in deltas ==> Balance(balances, slot) + deltas[slot].amount >= 0
    ensures Post(balances, previous, current).Some?
  {
    forall slot | slot in deltas ensures NextBalance(balances, previous, current, slot).balance >= 0 {
      PostedAgrees(balances, deltas, previous, current, slot);
    }
  }

  /** Posting the deltas of a replacement is what the model calls `Post`. */
  lemma PostedIsPost(balances: Balances, deltas: map<Slot, Delta>, previous: Option<Row>, current: Row)
    requires DeltasOf(deltas, previous, current)
    requires Post(balances, previous, current).Some?
    ensures Post(balances, previous, current).value == Posted(balances, deltas)
  {
    var a, b := Post(balances, previous, current).value, Posted(balances, deltas);
    forall slot ensures (slot in a <==> slot in b) && (slot in a && slot in b ==> a[slot] == b[slot]) {
      PostedAgrees(balances, deltas, previous, current, slot);
    }
  }

  lemma NegativeDeltaAborts(balances: Balances, deltas: map<Slot, Delta>, previous: Option<Row>, current: Row,
                            slot: Slot)
    requires DeltasOf(deltas, previous, current)
    requires slot in deltas && Balance(balances, slot) + deltas[slot].amount < 0
    ensures Post(balances, previous, current) == None
  {
    assert NextBalance(balances, previous, current, slot).balance < 0;
  }

  /** Posting one more slot touches only that slot. */
  lemma PostedStep(balances: Balances, done: map<Slot, Delta>, slot: Slot, delta: Delta)
    requires slot !in done
    ensures var p := Posted(balances, done);
            && (slot in p <==> slot in balances)
            && (slot in p ==> p[slot] == balances[slot])
            && Posted(balances, done[slot := delta])
               == if slot in balances || delta.amount != 0 then p[slot := PostedBalance(balances, slot, delta)] else p
  {
    var p, q := Posted(balances, done), Posted(balances, done[slot := delta]);
    var r := if slot in balances || delta.amount != 0 then p[slot := PostedBalance(balances, slot, delta)] else p;
    assert q.Keys == r.Keys;
    assert forall x :: x in q ==> q[x] == r[x];
  }

  /** The block columns of a job are bigints. */
  predicate FitsColumns(job: JobQueue.Job) {
    (job.from.Some? ==> IsI64(job.from.value)) && (job.to.Some? ==> IsI64(job.to.value))
  }

  /** The ranges the checkpoint query reads: succeeded ingest jobs of a source that end after the
      frontier. */
  predicate IsSucceededRange(job: JobQueue.Job, source: SourceId, frontier: int) {
    && job.source == Some(source) && job.jobType.IngestRange? && job.status.Succeeded?
    && job.from.Some? && job.to.Some? && job.to.value > frontier && FitsColumns(job)
  }

  predicate IsCoveringRange(job: JobQueue.Job, source: SourceId, frontier: int, block: int) {
    IsSucceededRange(job, source, frontier) && job.from.value <= block <= job.to.value
  }

  /** A block lies in a succeeded ingest range or in the range just completed. */
  ghost predicate CoveredByJobs(jobs: map<JobQueue.JobId, JobQueue.Job>, source: SourceId, frontier: int,
                                completed: Option<(int, int)>, block: int)
  {
    || (exists id :: id in jobs && IsCoveringRange(jobs[id], source, frontier, block))
    || (completed.Some? && completed.value.0 <= block <= completed.value.1)
  }

  /** `end` is the last block of the covered run that starts right after the frontier. */
  ghost predicate IsNextTarget(jobs: map<JobQueue.JobId, JobQueue.Job>, source: SourceId, frontier: int,
                               completed: Option<(int, int)>, end: int)
  {
    && frontier <= end
    && (forall block :: frontier < block <= end ==> CoveredByJobs(jobs, source, frontier, completed, block))
    && !CoveredByJobs(jobs, source, frontier, completed, end + 1)
  }

  /** It is the greatest such block. */
  lemma NextTargetIsGreatest(jobs: map<JobQueue.JobId, JobQueue.Job>, source: SourceId, frontier: int,
                             completed: Option<(int, int)>, end: int, other: int)
    requires IsNextTarget(jobs, source, frontier, completed, end)
    requires forall block :: frontier < block <= other ==> CoveredByJobs(jobs, source, frontier, completed, block)
    ensures other <= end
  {
    assert frontier < end + 1 <= other ==> CoveredByJobs(jobs, source, frontier, completed, end + 1);
  }

  predicate IsIngestedBy(job: JobQueue.Job, source: SourceId, block: int) {
    && job.status == JobQueue.Succeeded && job.jobType == JobQueue.IngestRange && job.source == Some(source)
    && job.from.Some? && job.to.Some? && job.from.value <= block <= job.to.value
  }

  /** A succeeded ingest job of the source holds the block, or the range just completed does. */
  ghost predicate IsDone(jobs: map<JobQueue.JobId, JobQueue.Job>, source: SourceId, completed: Option<(int, int)>,
                         block: int)
  {
    || (exists id :: id in jobs && IsIngestedBy(jobs[id], source, block))
    || (completed.Some? && completed.value.0 <= block <= completed.value.1)
  }

  /** Every block from `first` to the answer is done and the next one is not; None when not even
      `first` is. */
  ghost predicate IsRunOfDone(jobs: map<JobQueue.JobId, JobQueue.Job>, source: SourceId, completed: Option<(int, int)>,
                              first: int, answer: Option<int>)
  {
    match answer
    case None => !IsDone(jobs, source, completed, first)
    case Some(last) =>
      && first <= last && !IsDone(jobs, source, completed, last + 1)
      && forall block :: first <= block <= last ==> IsDone(jobs, source, completed, block)
  }

  lemma DoneIsCovered(jobs: map<JobQueue.JobId, JobQueue.Job>, source: SourceId, frontier: int,
                      completed: Option<(int, int)>, block: int)
    requires frontier < block && forall id :: id in jobs ==> FitsColumns(jobs[id])
    ensures IsDone(jobs, source, completed, block) <==> CoveredByJobs(jobs, source, frontier, completed, block)
  {
    if id :| id in jobs && IsIngestedBy(jobs[id], source, block) {
      assert IsCoveringRange(jobs[id], source, frontier, block);
    }
    if id :| id in jobs && IsCoveringRange(jobs[id], source, frontier, block) {
      assert IsIngestedBy(jobs[id], source, block);
    }
  }

  lemma TargetIsRun(jobs: map<JobQueue.JobId, JobQueue.Job>, source: SourceId, frontier: int,
                    completed: Option<(int, int)>, end: int)
    requires IsNextTarget(jobs, source, frontier, completed, end)
    requires forall id :: id in jobs ==> FitsColumns(jobs[id])
    ensures IsRunOfDone(jobs, source, completed, frontier + 1, if end > frontier then Some(end) else None)
  {
    forall block | frontier < block
      ensures IsDone(jobs, source, completed, block) <==> CoveredByJobs(jobs, source, frontier, completed, block)
    {
      DoneIsCovered(jobs, source, frontier, completed, block);
    }
  }

  class LedgerRepository {
    var rows: Rows
    var balances: Balances
    var checkpoints: map<SourceId, Checkpoint>

    constructor ()
      ensures Contents() == Db(map[], map[]) && checkpoints == map[]
      ensures Consistent(Contents())
    {
      rows, balances, checkpoints := map[], map[], map[];
      new;
      EmptyConsistent();
    }

    ghost function Contents(): Db
      reads this
    {
      Db(rows, balances)
    }

    /** Adds the effect of one row, or its reversal, to a delta map. */
    static method CollectBalanceDelta(deltas: map<Slot, Delta>, row: Row, reverse: bool)
      returns (result: map<Slot, Delta>)
      ensures result.Keys == deltas.Keys + Touched(row)
      ensures forall slot :: DeltaAt(result, slot) == Collected(DeltaAt(deltas, slot), row, reverse, slot)
    {
      result := deltas;
      var amount: int := row.amount;
      if reverse {
        amount := -amount;
      }
      var moved := if reverse then None else Some(row.block);
      if row.from.Some? {
        var slot := Slot(row.source, row.from.value, row.token);
        var d := DeltaAt(result, slot);
        result := result[slot := Delta(d.amount - amount, d.firstReceived, MaxBlock(d.lastMoved, moved))];
      }
      if row.to.Some? {
        var slot := Slot(row.source, row.to.value, row.token);
        var d := DeltaAt(result, slot);
        result := result[slot :=
                         Delta(d.amount + amount, MinBlock(d.firstReceived, moved), MaxBlock(d.lastMoved, moved))];
      }
    }

    /** One slot of a posting; false is the bail-out on a negative balance. */
    method ApplyHolderBalanceDelta(slot: Slot, delta: Delta) returns (ok: bool)
      modifies this`balances
      ensures ok <==> Balance(old(balances), slot) + delta.amount >= 0
      ensures !ok ==> balances == old(balances)
      ensures ok && slot !in old(balances) && delta.amount == 0 ==> balances == old(balances)
      ensures ok && (slot in old(balances) || delta.amount != 0) ==>
                balances == old(balances)[slot := BalanceRow(Balance(old(balances), slot) + delta.amount,
                                                             MinBlock(StoredFirst(old(balances), slot),
                                                                      delta.firstReceived),
                                                             MaxBlock(StoredLast(old(balances), slot),
                                                                      delta.lastMoved))]
    {
      var next := Balance(balances, slot) + delta.amount;
      if next < 0 {
        return false;
      }
      var first := MinBlock(StoredFirst(balances, slot), delta.firstReceived);
      var last := MaxBlock(StoredLast(balances, slot), delta.lastMoved);
      if slot in balances {
        balances := balances[slot := BalanceRow(next, first, last)];
        return true;
      }
      if next == 0 {
        return true;
      }
      balances := balances[slot := BalanceRow(next, first, last)];
      return true;
    }

    /** Posts the deltas slot by slot, in an arbitrary order, which covers the sorted order of the
        source; stops at the first balance that would become negative. */
    method PostDeltas(deltas: map<Slot, Delta>) returns (ok: bool)
      modifies this`balances
      ensures ok <==> forall slot :: slot in deltas ==> Balance(old(balances), slot) + deltas[slot].amount >= 0
      ensures ok ==> balances == Posted(old(balances), deltas)
    {
      ghost var before := balances;
      ghost var done: map<Slot, Delta> := map[];
      var rest := deltas.Keys;
      while rest != {}
        invariant rest <= deltas.Keys && done.Keys == deltas.Keys - rest
        invariant forall slot ::
                  slot in done ==> done[slot] == deltas[slot] && Balance(before, slot) + deltas[slot].amount >= 0
        invariant balances == Posted(before, done)
        decreases rest
      {
        var slot :| slot in rest;
        PostedStep(before, done, slot, deltas[slot]);
        var applied := ApplyHolderBalanceDelta(slot, deltas[slot]);
        if !applied {
          return false;
        }
        rest := rest - {slot};
        done := done[slot := deltas[slot]];
      }
      assert done == deltas;
      return true;
    }

    /** Reverses the previous row and posts the current one. */
    method ApplyBalanceDelta(previous: Option<Row>, current: Row) returns (ok: bool)
      modifies this`balances
      ensures ok <==> Post(old(balances), previous, current).Some?
      ensures ok ==> balances == Post(old(balances), previous, current).value
    {
      var deltas: map<Slot, Delta> := map[];
      if previous.Some? && !previous.value.orphaned {
        deltas := CollectBalanceDelta(deltas, previous.value, true);
      }
      ghost var reversed := deltas;
      if !current.orphaned {
        deltas := CollectBalanceDelta(deltas, current, false);
      }
      forall slot | slot in deltas
        ensures deltas[slot]
                == Delta(NetDelta(previous, current, slot), ReceivedMark(current, slot), MovedMark(current, slot))
      {
        assert deltas[slot] == DeltaAt(deltas, slot);
        assert DeltaAt(reversed, slot)
            == Delta(if previous.Some? then -Effect(previous.value, slot) else 0, None, None);
      }
      ghost var before := balances;
      ok := PostDeltas(deltas);
      if ok {
        NonNegativeDeltasCommit(before, deltas, previous, current);
        PostedIsPost(before, deltas, previous, current);
      } else {
        ghost var slot :| slot in deltas && Balance(before, slot) + deltas[slot].amount < 0;
        NegativeDeltaAborts(before, deltas, previous, current, slot);
      }
    }

    /** One entry of a batch; after false the caller rolls back. */
    method PersistEntry(source: Source, item: Item, restore: bool) returns (ok: bool)
      requires item.row.source == source.id
      modifies this`rows, this`balances
      ensures ok <==> PersistStep(old(Contents()), item, restore).Some?
      ensures ok ==> PersistStep(old(Contents()), item, restore) == Some(Contents())
    {
      var previous := Stored(rows, item.key);
      if previous.Some? && previous.value.source != source.id {
        return false;
      }
      if item.row.from == None && item.row.to == None {
        return false;
      }
      var current := UpsertLedgerEntry(item, restore);
      ok := ApplyBalanceDelta(previous, current);
    }

    /** The entries of one log; after false the caller rolls back. */
    method PersistLog(source: Source, log: DecodedLog, restore: bool) returns (ok: bool)
      modifies this`rows, this`balances
      ensures ok <==> PersistAll(old(Contents()), LogItems(source, log, |log.entries|), restore).Some?
      ensures ok ==> PersistAll(old(Contents()), LogItems(source, log, |log.entries|), restore) == Some(Contents())
    {
      ghost var before := Contents();
      for j := 0 to |log.entries|
        invariant PersistAll(before, LogItems(source, log, j), restore) == Some(Contents())
      {
        PersistNext(before, source, log, j, restore);
        ok := PersistEntry(source, ItemOf(source, log, log.entries[j]), restore);
        if !ok {
          LogAborts(before, source, log, j + 1, restore);
          return false;
        }
      }
      return true;
    }

    /** The statements of the transaction below; after Err the caller rolls back. */
    method PersistLogs(source: Source, logs: seq<DecodedLog>, restore: bool) returns (persisted: Result<nat>)
      modifies this`rows, this`balances
      ensures persisted.Ok? <==> PersistAll(old(Contents()), BatchItems(source, logs), restore).Some?
      ensures persisted.Ok? ==> PersistAll(old(Contents()), BatchItems(source, logs), restore) == Some(Contents())
      ensures persisted.Ok? ==> persisted.value == |BatchItems(source, logs)|
    {
      ghost var before := Contents();
      var count := 0;
      for i := 0 to |logs|
        invariant PersistAll(before, BatchItems(source, logs[..i]), restore) == Some(Contents())
        invariant count == |BatchItems(source, logs[..i])|
      {
        var log := logs[i];
        LogNext(before, source, logs, i, restore);
        var ok := PersistLog(source, log, restore);
        if !ok {
          BatchAborts(before, source, logs, i + 1, restore);
          return Err;
        }
        count := count + |log.entries|;
      }
      assert logs[..|logs|] == logs;
      return Ok(count);
    }

    /** One transaction over a batch of decoded logs: everything is stored and posted, or nothing. */
    method PersistDecodedLogs(source: Source, logs: seq<DecodedLog>, restore: bool) returns (persisted: Result<nat>)
      modifies this`rows, this`balances
      ensures persisted.Ok? <==> PersistAll(old(Contents()), BatchItems(source, logs), restore).Some?
      ensures persisted.Ok? ==> PersistAll(old(Contents()), BatchItems(source, logs), restore) == Some(Contents())
      ensures Consistent(old(Contents())) && DistinctLogs(logs) ==>
                && (persisted.Ok? <==> BatchCommits(old(Contents()), source, logs, restore))
                && (persisted.Ok? ==> HoldsBatch(old(Contents()), source, logs, restore, Contents()))
      ensures persisted.Ok? && DistinctLogs(logs) && old(Contents()) == Db(map[], map[]) ==>
                HoldsExactly(source, logs, Contents())
      ensures persisted.Ok? ==> persisted.value == EntryCount(logs)
      ensures persisted == Err ==> Contents() == old(Contents())
      ensures Consistent(old(Contents())) ==> Consistent(Contents())
    {
      var savedRows, savedBalances := rows, balances;
      PersistMeans(Contents(), source, logs, restore);
      persisted := PersistLogs(source, logs, restore);
      if persisted == Err {
        rows, balances := savedRows, savedBalances;
      }
    }

    /** What the transaction of a batch means for the ledger. */
    static lemma PersistMeans(before: Db, source: Source, logs: seq<DecodedLog>, restore: bool)
      ensures |BatchItems(source, logs)| == EntryCount(logs)
      ensures var after := PersistAll(before, BatchItems(source, logs), restore);
              && (Consistent(before) && after.Some? ==> Consistent(after.value))
              && (Consistent(before) && DistinctLogs(logs) ==>
                    && (after.Some? <==> BatchCommits(before, source, logs, restore))
                    && (after.Some? ==> HoldsBatch(before, source, logs, restore, after.value)))
              && (after.Some? && DistinctLogs(logs) && before == Db(map[], map[]) ==>
                    HoldsExactly(source, logs, after.value))
    {
      BatchItemsCount(source, logs);
      if Consistent(before) {
        PersistExact(before, BatchItems(source, logs), restore);
        if DistinctLogs(logs) {
          BatchExact(before, source, logs, restore);
        }
      }
      var empty: Db := Db(map[], map[]);
      if DistinctLogs(logs) && before == empty && PersistAll(empty, BatchItems(source, logs), restore).Some? {
        FreshBatch(source, logs, restore);
      }
    }

    static lemma PersistNext(before: Db, source: Source, log: DecodedLog, j: nat, restore: bool)
      requires j < |log.entries|
      ensures PersistAll(before, LogItems(source, log, j + 1), restore)
           == (match PersistAll(before, LogItems(source, log, j), restore)
               case None => None
               case Some(d) => PersistStep(d, ItemOf(source, log, log.entries[j]), restore))
    {
      var item := ItemOf(source, log, log.entries[j]);
      assert LogItems(source, log, j + 1) == LogItems(source, log, j) + [item];
      PersistOne(before, LogItems(source, log, j), item, restore);
    }

    static lemma PersistOne(before: Db, items: seq<Item>, item: Item, restore: bool)
      ensures PersistAll(before, items + [item], restore)
           == (match PersistAll(before, items, restore) case None => None case Some(d) => PersistStep(d, item, restore))
    {
      var next := items + [item];
      assert next[..|next| - 1] == items;
    }

    /** Insert, or on a key conflict refresh amount and metadata, and optionally un-orphan. */
    method UpsertLedgerEntry(item: Item, restore: bool) returns (row: Row)
      modifies this`rows
      ensures row == Upserted(old(rows), item, restore)
      ensures rows == old(rows)[item.key := row]
    {
      if item.key !in rows {
        row := item.row;
      } else {
        row := rows[item.key].(amount := item.row.amount, meta := item.row.meta);
        if restore && row.orphaned {
          row := row.(orphaned := false);
        }
      }
      rows := rows[item.key := row];
    }

    /** An entry that aborts dooms its log. */
    static lemma LogAborts(before: Db, source: Source, log: DecodedLog, j: nat, restore: bool)
      requires j <= |log.entries| && PersistAll(before, LogItems(source, log, j), restore) == None
      ensures PersistAll(before, LogItems(source, log, |log.entries|), restore) == None
    {
      var all := LogItems(source, log, |log.entries|);
      PersistAppend(before, LogItems(source, log, j), all[j..], restore);
      assert all == LogItems(source, log, j) + all[j..];
    }

    /** One log more. */
    static lemma LogNext(before: Db, source: Source, logs: seq<DecodedLog>, i: nat, restore: bool)
      requires i < |logs| && PersistAll(before, BatchItems(source, logs[..i]), restore).Some?
      ensures PersistAll(before, BatchItems(source, logs[..i + 1]), restore)
           == PersistAll(PersistAll(before, BatchItems(source, logs[..i]), restore).value,
                         LogItems(source, logs[i], |logs[i].entries|), restore)
      ensures |BatchItems(source, logs[..i + 1])| == |BatchItems(source, logs[..i])| + |logs[i].entries|
    {
      assert logs[..i + 1][..i] == logs[..i];
      PersistAppend(before, BatchItems(source, logs[..i]), LogItems(source, logs[i], |logs[i].entries|), restore);
    }

    /** A log that aborts dooms the batch. */
    static lemma {:induction false} BatchAborts(before: Db, source: Source, logs: seq<DecodedLog>, i: nat,
                                                restore: bool)
      requires i <= |logs| && PersistAll(before, BatchItems(source, logs[..i]), restore) == None
      ensures PersistAll(before, BatchItems(source, logs), restore) == None
      decreases |logs|
    {
      if i == |logs| {
        assert logs[..i] == logs;
      } else {
        var init, last := logs[..|logs| - 1], logs[|logs| - 1];
        assert init[..i] == logs[..i];
        BatchAborts(before, source, init, i, restore);
        PersistAppend(before, BatchItems(source, init), LogItems(source, last, |last.entries|), restore);
      }
    }

    /** The rows of the range in ascending order; ties may come in any order. */
    method SelectRange(source: SourceId, from: int, to: int) returns (order: seq<Key>)
      ensures IsOrphanOrder(rows, source, from, to, order)
    {
      var rest := set k | k in rows && InRange(rows[k], source, from, to) && !rows[k].orphaned;
      ghost var all := rest;
      order := [];
      while rest != {}
        invariant rest <= all
        invariant forall k :: k in all <==> k in rest || k in order
        invariant forall i :: 0 <= i < |order| ==> order[i] in all && order[i] !in rest
        invariant forall i, j :: 0 <= i < j < |order| ==> order[i] != order[j] && KeyBefore(rows, order[i], order[j])
        invariant forall i, k :: 0 <= i < |order| && k in rest ==> KeyBefore(rows, order[i], k)
        decreases rest
      {
        var first := FirstKey(rest);
        order := order + [first];
        rest := rest - {first};
      }
    }

    method FirstKey(keys: set<Key>) returns (first: Key)
      requires keys != {} && keys <= rows.Keys
      ensures first in keys && forall k :: k in keys ==> KeyBefore(rows, first, k)
    {
      first :| first in keys;
      var rest := keys - {first};
      while rest != {}
        invariant rest <= keys && first in keys
        invariant forall k :: k in keys - rest ==> KeyBefore(rows, first, k)
        decreases rest
      {
        var k :| k in rest;
        rest := rest - {k};
        if !KeyBefore(rows, first, k) {
          ghost var former := first;
          first := k;
          forall x | x in keys - rest ensures KeyBefore(rows, first, x) {
            assert x != k ==> KeyBefore(rows, former, x);
          }
        }
      }
    }

    method ReverseRows(order: seq<Key>) returns (ok: bool)
      requires forall k :: k in order ==> k in rows
      modifies this`balances
      ensures ok <==> ReverseAll(old(balances), rows, order).Some?
      ensures ok ==> ReverseAll(old(balances), rows, order) == Some(balances)
    {
      for i := 0 to |order|
        invariant ReverseAll(old(balances), rows, order[..i]) == Some(balances)
      {
        assert order[..i + 1][..i] == order[..i];
        var row := rows[order[i]];
        ok := ApplyBalanceDelta(Some(row), row.(orphaned := true));
        if !ok {
          ReversePrefixAborts(old(balances), rows, order, i + 1);
          return false;
        }
      }
      assert order[..|order|] == order;
      return true;
    }

    /** One transaction: reverse every active row of the range, then mark them all orphaned. */
    method OrphanSourceRange(source: SourceId, from: int, to: int)
      returns (orphaned: Result<nat>, ghost order: seq<Key>)
      modifies this`rows, this`balances
      ensures IsOrphanOrder(old(rows), source, from, to, order)
      ensures orphaned.Ok? <==> OrphanAll(old(Contents()), source, from, to, order).Some?
      ensures orphaned.Ok? ==>
              OrphanAll(old(Contents()), source, from, to, order) == Some(Contents()) && orphaned.value == |order|
      ensures orphaned.Ok? ==> rows.Keys == old(rows).Keys && forall k :: k in rows ==>
                rows[k] == if old(rows)[k].source == source && from <= old(rows)[k].block <= to
                  then old(rows)[k].(orphaned := true) else old(rows)[k]
      ensures orphaned == Err ==> Contents() == old(Contents())
      ensures Consistent(old(Contents())) ==> Consistent(Contents())
    {
      ghost var before := Contents();
      var selected := SelectRange(source, from, to);
      order := selected;
      if from < 0 || to < 0 {
        return Err, order;
      }
      if from > to {
        return Err, order;
      }
      var saved := balances;
      var ok := ReverseRows(selected);
      if !ok {
        balances := saved;
        return Err, order;
      }
      rows := map k | k in rows ::
          if InRange(rows[k], source, from, to) && !rows[k].orphaned then rows[k].(orphaned := true) else rows[k];
      assert rows == OrphanRows(before.rows, source, from, to);
      if Consistent(before) {
        OrphanExact(before, source, from, to, order);
      }
      return Ok(|selected|), order;
    }

    static lemma {:induction false} ReversePrefixAborts(b: Balances, rows: Rows, order: seq<Key>, n: nat)
      requires n <= |order| && forall k :: k in order ==> k in rows
      requires ReverseAll(b, rows, order[..n]) == None
      ensures ReverseAll(b, rows, order) == None
      decreases |order|
    {
      if n == |order| {
        assert order[..n] == order;
      } else {
        assert order[..|order| - 1][..n] == order[..n];
        ReversePrefixAborts(b, rows, order[..|order| - 1], n);
      }
    }

    method AdvanceCheckpoint(source: SourceId, processed: int, hash: string, finalized: int)
      returns (result: Result<Checkpoint>)
      modifies this`checkpoints
      ensures var existing := if source in old(checkpoints) then Some(old(checkpoints)[source]) else None;
              result == Advance(existing, processed, hash, finalized)
      ensures checkpoints == if result.Ok? then old(checkpoints)[source := result.value] else old(checkpoints)
    {
      if processed < 0 || finalized < 0 || processed > finalized {
        return Err;
      }
      if source !in checkpoints {
        checkpoints := checkpoints[source := Checkpoint(processed, hash, finalized)];
        return Ok(checkpoints[source]);
      }
      var existing := checkpoints[source];
      if processed == existing.processed && hash != existing.hash {
        return Err;
      }
      if processed < existing.processed && finalized <= existing.finalized {
        assert checkpoints == checkpoints[source := existing];
        return Ok(existing);
      }
      checkpoints := checkpoints[source := Checkpoint(Max(existing.processed, processed),
                                                      if processed > existing.processed then hash else existing.hash,
                                                      Max(existing.finalized, finalized))];
      return Ok(checkpoints[source]);
    }

    /** The first block that the checkpoint has not reached. */
    ghost function NextBlock(source: Source): int
      reads this`checkpoints
    {
      if source.id in checkpoints then checkpoints[source.id].processed + 1 else source.startBlock
    }

    /** How far the checkpoint may advance, given the job table and the range just completed: without
        a checkpoint every block from the start block to the answer is done and the next is not; with
        one, every block after its processed block. */
    method NextContiguousCheckpointTarget(jobs: map<JobQueue.JobId, JobQueue.Job>, source: Source,
                                          completed: Option<(int, int)>)
      returns (target: Result<Option<int>>)
      requires 0 <= NextBlock(source) <= I64_MAX + 1
      requires forall id :: id in jobs ==> FitsColumns(jobs[id])
      requires completed.Some? ==> IsI64(completed.value.0) && IsI64(completed.value.1)
      ensures target.Ok? <==> completed.None? || 0 <= completed.value.0 <= completed.value.1
      ensures target.Ok? ==>
                var end := if target.value.Some? then target.value.value else NextBlock(source) - 1;
                && IsNextTarget(jobs, source.id, NextBlock(source) - 1, completed, end)
                && (target.value.Some? <==> end >= NextBlock(source))
      ensures target.Ok? && source.id !in checkpoints ==>
                IsRunOfDone(jobs, source.id, completed, source.startBlock, target.value)
      ensures target.Ok? && source.id in checkpoints ==>
                IsRunOfDone(jobs, source.id, completed, checkpoints[source.id].processed + 1, target.value)
    {
      if completed.Some? {
        var (from, to) := completed.value;
        if from < 0 || to < 0 || from > to {
          return Err;
        }
      }
      var frontier := if source.id in checkpoints then checkpoints[source.id].processed else source.startBlock - 1;
      var ranges := SucceededRanges(jobs, source.id, frontier);
      ghost var stored := ranges;
      if completed.Some? {
        ranges := ranges + [BlockRange(completed.value.0, completed.value.1)];
      }
      forall block ensures Covered(ranges, block) <==> CoveredByJobs(jobs, source.id, frontier, completed, block) {
        CoverageAgrees(jobs, source.id, frontier, stored, completed, ranges, block);
      }
      var end := Sweep(frontier, ranges);
      TargetIsRun(jobs, source.id, frontier, completed, end);
      return Ok(if end > frontier then Some(end) else None);
    }

    static lemma CoverageAgrees(jobs: map<JobQueue.JobId, JobQueue.Job>, source: SourceId, frontier: int,
                                stored: seq<BlockRange>, completed: Option<(int, int)>, ranges: seq<BlockRange>,
                                block: int)
      requires completed.Some? ==> IsI64(completed.value.0) && IsI64(completed.value.1)
      requires AreSucceededRanges(jobs, jobs.Keys, source, frontier, stored)
      requires ranges == if completed.Some? then stored + [BlockRange(completed.value.0, completed.value.1)] else stored
      ensures Covered(ranges, block) <==> CoveredByJobs(jobs, source, frontier, completed, block)
    {
      if r :| r in ranges && r.from <= block <= r.to {
        assert r in stored || (completed.Some? && r == BlockRange(completed.value.0, completed.value.1));
      }
      if id :| id in jobs && IsCoveringRange(jobs[id], source, frontier, block) {
        assert BlockRange(jobs[id].from.value, jobs[id].to.value) in stored;
      }
      if completed.Some? && completed.value.0 <= block <= completed.value.1 {
        assert BlockRange(completed.value.0, completed.value.1) in ranges;
      }
    }

    /** The rows of the range query, in no particular order: the caller sorts them. */
    method SucceededRanges(jobs: map<JobQueue.JobId, JobQueue.Job>, source: SourceId, frontier: int)
      returns (ranges: seq<BlockRange>)
      ensures AreSucceededRanges(jobs, jobs.Keys, source, frontier, ranges)
    {
      ranges := [];
      var rest := jobs.Keys;
      while rest != {}
        invariant rest <= jobs.Keys
        invariant AreSucceededRanges(jobs, jobs.Keys - rest, source, frontier, ranges)
        decreases rest
      {
        var id :| id in rest;
        rest := rest - {id};
        if IsSucceededRange(jobs[id], source, frontier) {
          ranges := ranges + [BlockRange(jobs[id].from.value, jobs[id].to.value)];
        }
      }
    }
  }

  ghost predicate AreSucceededRanges(jobs: map<JobQueue.JobId, JobQueue.Job>, ids: set<JobQueue.JobId>,
                                     source: SourceId,
                                     frontier: int, ranges: seq<BlockRange>)
    requires ids <= jobs.Keys
  {
    && (forall r :: r in ranges ==> exists id :: id in ids && IsSucceededRange(jobs[id], source, frontier)
                                      && r == BlockRange(jobs[id].from.value, jobs[id].to.value))
    && (forall id :: id in ids && IsSucceededRange(jobs[id], source, frontier) ==>
          BlockRange(jobs[id].from.value, jobs[id].to.value) in ranges)
  }
}
