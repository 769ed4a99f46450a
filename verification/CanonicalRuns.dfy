/** What every run leaves of the canonical rows: which are stored, which are active, and that nothing
    else is stored. */
module CanonicalRuns {
  import opened Wrappers
  import opened Domain
  import opened JobQueue
  import opened Protocol
  import L = LedgerModel
  import T = LedgerTheorems

  /** Canonical rows name their source and block, and a key belongs to one row. */
  ghost predicate WellKeyed(env: Env) {
    && (forall source, block :: IsOwnBlock(env, source, block))
    && (forall a, x, b, y :: (a, x) != (b, y) ==> KeysApart(env.blockItems(a, x), env.blockItems(b, y)))
  }

  ghost predicate IsOwnBlock(env: Env, source: SourceId, block: int) {
    var items := env.blockItems(source, block);
    T.DistinctKeys(items) && forall item :: item in items ==> item.row.source == source && item.row.block == block
  }

  predicate KeysApart(a: seq<L.Item>, b: seq<L.Item>) {
    forall x, y :: x in a && y in b ==> x.key != y.key
  }

  /** The canonical rows of a block are all absent, all active, or all orphaned. */
  datatype BlockState = Absent | Active | Orphaned

  ghost predicate Shows(rows: L.Rows, items: seq<L.Item>, c: BlockState) {
    forall item :: item in items ==>
      L.Stored(rows, item.key) == (match c
                                   case Absent => None
                                   case Active => Some(item.row)
                                   case Orphaned => Some(L.Orphaned(item.row)))
  }

  ghost predicate Concerns(job: Job, source: SourceId, block: int) {
    job.source == Some(source) && job.from.Some? && job.to.Some? && job.from.value <= block <= job.to.value
  }

  /** An orphaning orphans, a persist stores, and only the persist of a replay restores. */
  ghost function BlockStep(s: State, step: Step, source: SourceId, block: int, was: BlockState): BlockState {
    if step.PersistStep? && step.w in s.workers && Concerns(s.workers[step.w].job, source, block) then
      if was.Orphaned? && !s.workers[step.w].job.jobType.ReplayRange? then Orphaned else Active
    else if step.OrphanStep? && step.w in s.workers && Concerns(s.workers[step.w].job, source, block) && was.Active?
        then Orphaned
    else was
  }

  ghost function StateOf(env: Env, clock: int, steps: seq<Step>, source: SourceId, block: int): BlockState
    requires IsTrace(env, Initial(clock), steps)
  {
    if steps == [] then Absent else
    var init := steps[..|steps| - 1];
    BlockStep(After(env, Initial(clock), init), steps[|steps| - 1], source, block,
              StateOf(env, clock, init, source, block))
  }

  ghost predicate IsCanonicalRow(env: Env, k: L.Key) {
    exists source, block, item :: item in env.blockItems(source, block) && item.key == k
  }

  // ---------------------------------------------------------------- ranges

  lemma {:induction false} RangeMembers(env: Env, source: SourceId, from: int, to: int, item: L.Item)
    requires item in RangeItems(env, source, from, to)
    ensures exists block :: from <= block <= to && item in env.blockItems(source, block)
    decreases 1 + to - from
  {
    if from > to {
    } else if item in RangeItems(env, source, from, to - 1) {
      RangeMembers(env, source, from, to - 1, item);
    }
  }

  lemma {:induction false} RangeDistinct(env: Env, source: SourceId, from: int, to: int)
    requires WellKeyed(env)
    ensures T.DistinctKeys(RangeItems(env, source, from, to))
    decreases 1 + to - from
  {
    if from > to {
    } else {
      RangeDistinct(env, source, from, to - 1);
      var head, last := RangeItems(env, source, from, to - 1), env.blockItems(source, to);
      assert IsOwnBlock(env, source, to);
      forall x, y | x in head && y in last ensures x.key != y.key {
        RangeMembers(env, source, from, to - 1, x);
        var block :| from <= block <= to - 1 && x in env.blockItems(source, block);
        assert KeysApart(env.blockItems(source, block), env.blockItems(source, to));
      }
      DistinctAppend(head, last);
    }
  }

  lemma DistinctAppend(a: seq<L.Item>, b: seq<L.Item>)
    requires T.DistinctKeys(a) && T.DistinctKeys(b) && KeysApart(a, b)
    ensures T.DistinctKeys(a + b)
  {
    var all := a + b;
    forall i, j | 0 <= i < j < |all| ensures all[i].key != all[j].key {
      if i < |a| <= j {
        assert a[i] in a && b[j - |a|] in b;
      }
    }
  }

  // ---------------------------------------------------------------- one transaction

  /** Persisting a range: the state of each of its blocks, item by item. */
  lemma PersistedItem(rows: L.Rows, items: seq<L.Item>, restore: bool, item: L.Item, was: BlockState)
    requires T.DistinctKeys(items) && item in items && Shows(rows, [item], was)
    ensures Shows(L.RowsAfter(rows, items, restore), [item], if was.Orphaned? && !restore then Orphaned else Active)
  {
    var i :| 0 <= i < |items| && items[i] == item;
    T.RowsAfterAt(rows, items, restore, i);
    assert L.Stored(rows, item.key) == (match was
                                        case Absent => None
                                        case Active => Some(item.row)
                                        case Orphaned => Some(L.Orphaned(item.row)));
  }

  lemma OtherItem(rows: L.Rows, items: seq<L.Item>, restore: bool, item: L.Item, was: BlockState)
    requires KeysApart([item], items) && Shows(rows, [item], was)
    ensures Shows(L.RowsAfter(rows, items, restore), [item], was)
  {
    assert item in [item];
    T.RowsAfterOther(rows, items, restore, item.key);
  }

  lemma OrphanedItem(rows: L.Rows, source: SourceId, from: int, to: int, item: L.Item, was: BlockState)
    requires Shows(rows, [item], was)
    ensures Shows(L.OrphanRows(rows, source, from, to), [item],
                  if L.InRange(item.row, source, from, to) && was.Active? then Orphaned else was)
  {
    assert item in [item];
  }

  lemma OneByOne(rows: L.Rows, items: seq<L.Item>, c: BlockState)
    requires forall item :: item in items ==> Shows(rows, [item], c)
    ensures Shows(rows, items, c)
  {
    forall item | item in items
      ensures L.Stored(rows, item.key) == (match c
                                           case Absent => None
                                           case Active => Some(item.row)
                                           case Orphaned => Some(L.Orphaned(item.row)))
    {
      assert Shows(rows, [item], c) && item in [item];
    }
  }

  lemma PersistedBlock(env: Env, rows: L.Rows, restore: bool, own: SourceId, from: int, to: int,
                       source: SourceId, block: int, was: BlockState)
    requires WellKeyed(env) && Shows(rows, env.blockItems(source, block), was)
    ensures var inside := source == own && from <= block <= to;
            Shows(L.RowsAfter(rows, RangeItems(env, own, from, to), restore), env.blockItems(source, block),
                  if !inside then was else if was.Orphaned? && !restore then Orphaned else Active)
  {
    var items := RangeItems(env, own, from, to);
    var inside := source == own && from <= block <= to;
    var c := if !inside then was else if was.Orphaned? && !restore then Orphaned else Active;
    RangeDistinct(env, own, from, to);
    forall item | item in env.blockItems(source, block) ensures Shows(L.RowsAfter(rows, items, restore), [item], c) {
      if inside {
        RangeItemsComplete(env, own, from, to, block, item);
        PersistedItem(rows, items, restore, item, was);
      } else {
        forall y | y in items ensures item.key != y.key {
          RangeMembers(env, own, from, to, y);
          var other :| from <= other <= to && y in env.blockItems(own, other);
          assert KeysApart(env.blockItems(source, block), env.blockItems(own, other));
        }
        OtherItem(rows, items, restore, item, was);
      }
    }
    OneByOne(L.RowsAfter(rows, items, restore), env.blockItems(source, block), c);
  }

  lemma OrphanedBlock(env: Env, rows: L.Rows, own: SourceId, from: int, to: int, source: SourceId, block: int,
                      was: BlockState)
    requires WellKeyed(env) && Shows(rows, env.blockItems(source, block), was)
    ensures var inside := source == own && from <= block <= to;
            Shows(L.OrphanRows(rows, own, from, to), env.blockItems(source, block),
                  if inside && was.Active? then Orphaned else was)
  {
    var c := if source == own && from <= block <= to && was.Active? then Orphaned else was;
    assert IsOwnBlock(env, source, block);
    forall item | item in env.blockItems(source, block) ensures Shows(L.OrphanRows(rows, own, from, to), [item], c) {
      OrphanedItem(rows, own, from, to, item, was);
    }
    OneByOne(L.OrphanRows(rows, own, from, to), env.blockItems(source, block), c);
  }

  // ---------------------------------------------------------------- every run

  /** The ledger of the next state, by the kind of step. */
  lemma LedgerRows(env: Env, s: State, step: Step)
    requires L.Consistent(s.ledger) && CanTake(env, s, step)
    ensures step.PersistStep? ==>
              var job := s.workers[step.w].job;
              && IsRangeJob(env, job)
              && Take(env, s, step).ledger.rows
                 == L.RowsAfter(s.ledger.rows, RangeItems(env, job.source.value, job.from.value, job.to.value),
                                job.jobType.ReplayRange?)
    ensures step.OrphanStep? ==>
              var job := s.workers[step.w].job;
              && IsRangeJob(env, job)
              && Take(env, s, step).ledger.rows
                 == L.OrphanRows(s.ledger.rows, job.source.value, job.from.value, job.to.value)
    ensures !step.PersistStep? && !step.OrphanStep? ==> Take(env, s, step).ledger == s.ledger
  {
    if step.OrphanStep? {
      var job := s.workers[step.w].job;
      T.OrphanExact(s.ledger, job.source.value, job.from.value, job.to.value, step.order);
    } else if step.PersistStep? {
      var job := s.workers[step.w].job;
      L.PersistExact(s.ledger, RangeItems(env, job.source.value, job.from.value, job.to.value),
                     job.jobType.ReplayRange?);
    }
  }

  lemma BlockStepShows(env: Env, s: State, step: Step, source: SourceId, block: int, was: BlockState)
    requires WellKeyed(env) && L.Consistent(s.ledger) && CanTake(env, s, step)
    requires Shows(s.ledger.rows, env.blockItems(source, block), was)
    ensures Shows(Take(env, s, step).ledger.rows, env.blockItems(source, block), BlockStep(s, step, source, block, was))
  {
    LedgerRows(env, s, step);
    if step.PersistStep? {
      var job := s.workers[step.w].job;
      PersistedBlock(env, s.ledger.rows, job.jobType.ReplayRange?, job.source.value, job.from.value, job.to.value,
                     source, block, was);
    } else if step.OrphanStep? {
      var job := s.workers[step.w].job;
      OrphanedBlock(env, s.ledger.rows, job.source.value, job.from.value, job.to.value, source, block, was);
    }
  }

  /** In every run the canonical rows of a block are exactly what its state says. */
  lemma {:induction false} StateExact(env: Env, clock: int, steps: seq<Step>, source: SourceId, block: int)
    requires WellKeyed(env) && IsTrace(env, Initial(clock), steps)
    ensures Shows(After(env, Initial(clock), steps).ledger.rows, env.blockItems(source, block),
                  StateOf(env, clock, steps, source, block))
    decreases |steps|
  {
    if steps == [] {
    } else {
      var init := steps[..|steps| - 1];
      StateExact(env, clock, init, source, block);
      EveryRunInvariant(env, clock, init);
      BlockStepShows(env, After(env, Initial(clock), init), steps[|steps| - 1], source, block,
                     StateOf(env, clock, init, source, block));
    }
  }

  lemma {:induction false} OnlyBatchKeys(rows: L.Rows, items: seq<L.Item>, restore: bool, k: L.Key)
    requires k in L.RowsAfter(rows, items, restore)
    ensures k in rows || exists item :: item in items && item.key == k
    decreases |items|
  {
    if items == [] {
    } else {
      var n := |items| - 1;
      assert items == items[..n] + [items[n]];
      if k == items[n].key {
        assert items[n] in items;
      } else {
        OnlyBatchKeys(rows, items[..n], restore, k);
      }
    }
  }

  /** Nothing but canonical rows is ever stored. */
  lemma {:induction false} OnlyCanonical(env: Env, clock: int, steps: seq<Step>, k: L.Key)
    requires IsTrace(env, Initial(clock), steps)
    requires k in After(env, Initial(clock), steps).ledger.rows
    ensures IsCanonicalRow(env, k)
    decreases |steps|
  {
    if steps == [] {
      assert false;
    } else {
      var init, step := steps[..|steps| - 1], steps[|steps| - 1];
      var s := After(env, Initial(clock), init);
      EveryRunInvariant(env, clock, init);
      LedgerRows(env, s, step);
      if k in s.ledger.rows {
        OnlyCanonical(env, clock, init, k);
      } else {
        var job := s.workers[step.w].job;
        NewKey(env, s.ledger.rows, job.source.value, job.from.value, job.to.value, job.jobType.ReplayRange?, k);
      }
    }
  }

  lemma NewKey(env: Env, rows: L.Rows, source: SourceId, from: int, to: int, restore: bool, k: L.Key)
    requires k !in rows && k in L.RowsAfter(rows, RangeItems(env, source, from, to), restore)
    ensures IsCanonicalRow(env, k)
  {
    OnlyBatchKeys(rows, RangeItems(env, source, from, to), restore, k);
    var item :| item in RangeItems(env, source, from, to) && item.key == k;
    RangeMembers(env, source, from, to, item);
  }

  /** Up to the checkpoint every canonical row is stored as it is canonical, and it is active exactly
      when its block is: unless a replay orphaned the block and no replay has persisted it since. */
  lemma CheckpointedRows(env: Env, clock: int, steps: seq<Step>, source: SourceId, block: int, item: L.Item)
    requires WellKeyed(env) && IsTrace(env, Initial(clock), steps)
    requires source in After(env, Initial(clock), steps).checkpoints && source in env.sources
    requires env.sources[source].startBlock <= block <= After(env, Initial(clock), steps).checkpoints[source].processed
    requires item in env.blockItems(source, block)
    ensures var rows := After(env, Initial(clock), steps).ledger.rows;
            && item.key in rows
            && rows[item.key].(orphaned := false) == item.row
            && (rows[item.key].orphaned <==> StateOf(env, clock, steps, source, block).Orphaned?)
  {
    CheckpointSafety(env, clock, steps, source);
    StateExact(env, clock, steps, source, block);
    var s := After(env, Initial(clock), steps);
    assert ItemsStored(env, s.ledger.rows, source, block);
  }
}
