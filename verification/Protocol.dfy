/**
 The whole indexer as one state machine: several workers lease jobs, run them, write the ledger,
 advance the checkpoint and mark the job.  Every step is one transaction or one local action;
 steps of different workers interleave arbitrarily, workers crash, leases expire and stale
 workers keep going.
 */
module Protocol {
  import opened Wrappers
  import opened Domain
  import opened JobQueue
  import opened Checkpoints
  import L = LedgerModel
  import T = LedgerTheorems
  import opened LedgerRepositories
  import opened Batches

  /** Configuration and canonical chain, fixed for a run. */
  datatype Env = Env(sources: map<SourceId, Source>, blockItems: (SourceId, int) -> seq<L.Item>)

  /** The canonical rows of a block range, in block order. */
  ghost function RangeItems(env: Env, source: SourceId, from: int, to: int): seq<L.Item>
    decreases 1 + to - from
  {
    if from > to then [] else RangeItems(env, source, from, to - 1) + env.blockItems(source, to)
  }

  /** Where a worker stands with its job. */
  datatype Phase =
    | JustLeased
    | Started
    | Validated(finalized: int)
    | Cleared(finalized: int)
    | Persisted(finalized: int)
    | Targeted(finalized: int, target: int)
    | Finished
    | Failing

  datatype Task = Task(id: JobId, job: Job, expires: int, attempt: nat, phase: Phase)

  /** An ingest transaction that committed. */
  datatype Ingest = Ingest(source: SourceId, from: int, to: int)

  datatype State = State(queue: Queue, ledger: L.Db, checkpoints: map<SourceId, Checkpoint>,
                         workers: map<WorkerId, Task>, committed: set<Ingest>, clock: int)

  datatype Step =
    | Tick(to: int)
    | Plan(id: JobId, job: Job)
    | LeaseStep(w: WorkerId, id: JobId, filterTime: int, leaseFor: int)
    | StartStep(w: WorkerId)
    | ValidateStep(w: WorkerId, observedFinalized: int)
    | OrphanStep(w: WorkerId, order: seq<L.Key>)
    | PersistStep(w: WorkerId)
    | TargetStep(w: WorkerId, end: int)
    | AdvanceStep(w: WorkerId, hash: string)
    | SucceedStep(w: WorkerId)
    | GiveUpStep(w: WorkerId)
    | FailStep(w: WorkerId)
    | InterruptStep(w: WorkerId)
    | CrashStep(w: WorkerId)

  /** A job that a worker may execute: a range job of a configured source. */
  ghost predicate IsRangeJob(env: Env, job: Job) {
    && (job.jobType.IngestRange? || job.jobType.ReplayRange?)
    && job.source.Some? && job.source.value in env.sources && env.sources[job.source.value].chain == job.chain
    && job.from.Some? && job.to.Some? && 0 <= job.from.value && 0 <= job.to.value
  }

  ghost function StoredFrontier(env: Env, s: State, source: SourceId): int
    requires source in env.sources
  {
    if source in s.checkpoints then s.checkpoints[source].processed else env.sources[source].startBlock - 1
  }

  function StoredCheckpoint(s: State, source: SourceId): Option<Checkpoint> {
    if source in s.checkpoints then Some(s.checkpoints[source]) else None
  }

  ghost function PersistResult(env: Env, s: State, job: Job): Option<L.Db>
    requires IsRangeJob(env, job)
  {
    L.PersistAll(s.ledger, RangeItems(env, job.source.value, job.from.value, job.to.value), job.jobType.ReplayRange?)
  }

  ghost function OrphanResult(env: Env, s: State, job: Job, order: seq<L.Key>): Option<L.Db>
    requires IsRangeJob(env, job)
    requires L.IsOrphanOrder(s.ledger.rows, job.source.value, job.from.value, job.to.value, order)
  {
    L.OrphanAll(s.ledger, job.source.value, job.from.value, job.to.value, order)
  }

  /** The queue transaction of a step, if it has one. */
  ghost function QueueCall(s: State, step: Step): Option<Call> {
    match step
    case Plan(id, job) => Some(Enqueue(id, job))
    case LeaseStep(w, id, filterTime, leaseFor) => Some(Lease(id, w, filterTime, s.clock, leaseFor))
    case StartStep(w) => if w in s.workers then Some(MarkRunning(s.workers[w].id, s.clock)) else None
    case SucceedStep(w) => if w in s.workers then Some(MarkSucceeded(s.workers[w].id, s.clock)) else None
    case FailStep(w) => if w in s.workers then Some(MarkFailed(s.workers[w].id, IngestJobError, s.clock)) else None
    case InterruptStep(w) => if w in s.workers then Some(MarkInterrupted(s.workers[w].id, s.clock)) else None
    case _ => None
  }

  ghost predicate CanQueue(s: State, step: Step) {
    QueueCall(s, step).Some? ==> Enabled(s.queue, QueueCall(s, step).value)
  }

  ghost predicate CanTake(env: Env, s: State, step: Step) {
    CanQueue(s, step) &&
    match step
    case Tick(to) => s.clock <= to
    case Plan(_, _) => true
    case LeaseStep(w, _, filterTime, _) => w !in s.workers
    case StartStep(w) => w in s.workers && s.workers[w].phase.JustLeased?
    case ValidateStep(w, finalized) =>
      && w in s.workers && s.workers[w].phase.Started?
      && IsRangeJob(env, s.workers[w].job) && s.workers[w].job.to.value <= finalized
    case OrphanStep(w, order) =>
      && w in s.workers && s.workers[w].phase.Validated? && IsRangeJob(env, s.workers[w].job)
      && s.workers[w].job.jobType.ReplayRange?
      && L.IsOrphanOrder(s.ledger.rows, s.workers[w].job.source.value, s.workers[w].job.from.value,
                         s.workers[w].job.to.value, order)
      && OrphanResult(env, s, s.workers[w].job, order).Some?
    case PersistStep(w) =>
      && w in s.workers && IsRangeJob(env, s.workers[w].job)
      && (if s.workers[w].job.jobType.ReplayRange? then s.workers[w].phase.Cleared? else s.workers[w].phase.Validated?)
      && s.workers[w].job.from.value <= s.workers[w].job.to.value
      && PersistResult(env, s, s.workers[w].job).Some?
    case TargetStep(w, end) =>
      && w in s.workers && s.workers[w].phase.Persisted? && IsRangeJob(env, s.workers[w].job)
      && s.workers[w].job.jobType.IngestRange?
      && IsNextTarget(s.queue.jobs, s.workers[w].job.source.value,
                      StoredFrontier(env, s, s.workers[w].job.source.value),
                      Some((s.workers[w].job.from.value, s.workers[w].job.to.value)), end)
    case AdvanceStep(w, hash) =>
      && w in s.workers && s.workers[w].phase.Targeted? && IsRangeJob(env, s.workers[w].job)
      && Advance(StoredCheckpoint(s, s.workers[w].job.source.value), s.workers[w].phase.target, hash,
                 s.workers[w].phase.finalized).Ok?
    case SucceedStep(w) =>
      && w in s.workers
      && (s.workers[w].phase.Finished? || (s.workers[w].phase.Persisted? && s.workers[w].job.jobType.ReplayRange?))
    case GiveUpStep(w) => w in s.workers && !s.workers[w].phase.JustLeased? && !s.workers[w].phase.Finished?
    case FailStep(w) => w in s.workers && s.workers[w].phase.Failing?
    case InterruptStep(w) => w in s.workers && !s.workers[w].phase.JustLeased?
    case CrashStep(w) => w in s.workers
  }

  ghost function Enter(s: State, w: WorkerId, phase: Phase): State
    requires w in s.workers
  {
    s.(workers := s.workers[w := s.workers[w].(phase := phase)])
  }

  ghost function QueueAfter(s: State, step: Step): Queue
    requires CanQueue(s, step)
  {
    match QueueCall(s, step)
    case Some(call) => Exec(s.queue, call)
    case None => s.queue
  }

  ghost function Take(env: Env, s: State, step: Step): State
    requires CanTake(env, s, step)
  {
    var q := QueueAfter(s, step);
    match step
    case Tick(to) => s.(clock := to)
    case Plan(_, _) => s.(queue := q)
    case LeaseStep(w, id, _, leaseFor) =>
      var task := Task(id, q.jobs[id], s.clock + leaseFor, q.jobs[id].attempts, JustLeased);
      s.(queue := q, workers := s.workers[w := task])
    case StartStep(w) =>
      s.(queue := q, workers := s.workers[w := s.workers[w].(job := q.jobs[s.workers[w].id], phase := Started)])
    case ValidateStep(w, finalized) => Enter(s, w, Validated(finalized))
    case OrphanStep(w, order) =>
      Enter(s, w, Cleared(s.workers[w].phase.finalized)).(ledger := OrphanResult(env, s, s.workers[w].job, order).value)
    case PersistStep(w) =>
      var job := s.workers[w].job;
      Enter(s, w, Persisted(s.workers[w].phase.finalized))
        .(ledger := PersistResult(env, s, job).value,
          committed := if job.jobType.IngestRange? then s.committed + {JobIngest(job)} else s.committed)
    case TargetStep(w, end) =>
      var finalized := s.workers[w].phase.finalized;
      var moves := end > StoredFrontier(env, s, s.workers[w].job.source.value);
      Enter(s, w, if moves && end <= finalized then Targeted(finalized, end) else Finished)
    case AdvanceStep(w, hash) =>
      var source := s.workers[w].job.source.value;
      var c := Advance(StoredCheckpoint(s, source), s.workers[w].phase.target, hash,
                       s.workers[w].phase.finalized).value;
      Enter(s, w, Finished).(checkpoints := s.checkpoints[source := c])
    case SucceedStep(w) => s.(queue := q, workers := s.workers - {w})
    case GiveUpStep(w) => Enter(s, w, Failing)
    case FailStep(w) => s.(queue := q, workers := s.workers - {w})
    case InterruptStep(w) => s.(queue := q, workers := s.workers - {w})
    case CrashStep(w) => s.(workers := s.workers - {w})
  }

  // ---------------------------------------------------------------- the invariant

  ghost predicate Ingested(committed: set<Ingest>, source: SourceId, block: int) {
    exists d :: d in committed && d.source == source && d.from <= block <= d.to
  }

  /** Every block from the start block up to `block` lies in some committed ingest range. */
  ghost predicate IngestedUpTo(env: Env, committed: set<Ingest>, source: SourceId, block: int)
    requires source in env.sources
  {
    forall b :: env.sources[source].startBlock <= b <= block ==> Ingested(committed, source, b)
  }

  ghost function JobIngest(job: Job): Ingest
    requires job.source.Some? && job.from.Some? && job.to.Some?
  {
    Ingest(job.source.value, job.from.value, job.to.value)
  }

  ghost predicate TaskOk(env: Env, s: State, task: Task) {
    && task.id in s.queue.jobs && SameJob(s.queue.jobs[task.id], task.job)
    && 1 <= task.attempt <= s.queue.jobs[task.id].attempts
    && (task.phase.Validated? || task.phase.Cleared? || task.phase.Persisted? || task.phase.Targeted?
        || task.phase.Finished? ==>
          IsRangeJob(env, task.job))
    && (task.phase.Persisted? || task.phase.Targeted? || task.phase.Finished? ==>
          task.job.jobType.IngestRange? ==> JobIngest(task.job) in s.committed)
    && (task.phase.Targeted? ==>
          && task.job.jobType.IngestRange?
          && task.phase.target <= task.phase.finalized
          && IngestedUpTo(env, s.committed, task.job.source.value, task.phase.target))
  }

  ghost predicate TasksOk(env: Env, s: State) {
    forall w :: w in s.workers ==> TaskOk(env, s, s.workers[w])
  }

  ghost predicate SucceededJobsIngested(env: Env, s: State) {
    forall id :: id in s.queue.jobs && s.queue.jobs[id].status.Succeeded? && s.queue.jobs[id].jobType.IngestRange? ==>
      IsRangeJob(env, s.queue.jobs[id]) && JobIngest(s.queue.jobs[id]) in s.committed
  }

  ghost predicate CheckpointSafe(env: Env, s: State, source: SourceId) {
    && source in env.sources
    && (source in s.checkpoints ==>
          && WellFormed(s.checkpoints[source])
          && IngestedUpTo(env, s.committed, source, s.checkpoints[source].processed))
  }

  ghost predicate CheckpointsSafe(env: Env, s: State) {
    forall source :: source in s.checkpoints ==> CheckpointSafe(env, s, source)
  }

  /** Every canonical row of a committed ingest range is stored. */
  ghost predicate ItemsStored(env: Env, rows: L.Rows, source: SourceId, block: int) {
    forall item :: item in env.blockItems(source, block) ==> item.key in rows
  }

  ghost predicate CommittedStored(env: Env, s: State) {
    forall d, block :: d in s.committed && d.from <= block <= d.to ==> ItemsStored(env, s.ledger.rows, d.source, block)
  }

  ghost predicate Invariant(env: Env, s: State) {
    && Audited(s.queue)
    && L.Consistent(s.ledger)
    && TasksOk(env, s)
    && SucceededJobsIngested(env, s)
    && CheckpointsSafe(env, s)
    && CommittedStored(env, s)
  }

  function Initial(clock: int): State {
    State(Queue(map[], []), L.Db(map[], map[]), map[], map[], {}, clock)
  }

  lemma InitialInvariant(env: Env, clock: int)
    ensures Invariant(env, Initial(clock))
  {
    L.EmptyConsistent();
  }

  // ---------------------------------------------------------------- one step

  lemma QueueOfStep(env: Env, s: State, step: Step)
    requires CanTake(env, s, step)
    ensures Take(env, s, step).queue == QueueAfter(s, step)
  {
  }

  lemma QueueStepAudited(env: Env, s: State, step: Step)
    requires Audited(s.queue) && CanTake(env, s, step)
    ensures Audited(Take(env, s, step).queue) && Extends(s.queue, Take(env, s, step).queue)
    ensures Take(env, s, step).queue == QueueAfter(s, step)
  {
    QueueOfStep(env, s, step);
    QueueAfterAudited(s, step);
  }

  lemma QueueAfterAudited(s: State, step: Step)
    requires Audited(s.queue) && CanQueue(s, step)
    ensures Audited(QueueAfter(s, step)) && Extends(s.queue, QueueAfter(s, step))
  {
    if QueueCall(s, step).Some? {
      CallKeepsAudit(s.queue, QueueCall(s, step).value);
    }
  }

  lemma {:induction false} RowsAfterKeys(rows: L.Rows, items: seq<L.Item>, restore: bool)
    ensures rows.Keys <= L.RowsAfter(rows, items, restore).Keys
    ensures forall item :: item in items ==> item.key in L.RowsAfter(rows, items, restore)
    decreases |items|
  {
    if items == [] {
    } else {
      var n := |items| - 1;
      RowsAfterKeys(rows, items[..n], restore);
      assert items == items[..n] + [items[n]];
    }
  }

  lemma {:induction false} RangeItemsComplete(env: Env, source: SourceId, from: int, to: int, block: int, item: L.Item)
    requires from <= block <= to && item in env.blockItems(source, block)
    ensures item in RangeItems(env, source, from, to)
    decreases 1 + to - from
  {
    if to <= block {
    } else {
      RangeItemsComplete(env, source, from, to - 1, block, item);
    }
  }

  /** The ledger stays consistent and never forgets a key; a persist stores its whole range. */
  lemma LedgerStep(env: Env, s: State, step: Step)
    requires L.Consistent(s.ledger) && CanTake(env, s, step)
    ensures L.Consistent(Take(env, s, step).ledger)
    ensures s.ledger.rows.Keys <= Take(env, s, step).ledger.rows.Keys
    ensures step.PersistStep? ==> forall block ::
            s.workers[step.w].job.from.value <= block <= s.workers[step.w].job.to.value ==>
              ItemsStored(env, Take(env, s, step).ledger.rows, s.workers[step.w].job.source.value, block)
  {
    match step
    case OrphanStep(w, order) =>
      var job := s.workers[w].job;
      T.OrphanExact(s.ledger, job.source.value, job.from.value, job.to.value, order);
    case PersistStep(w) =>
      var job := s.workers[w].job;
      var items := RangeItems(env, job.source.value, job.from.value, job.to.value);
      L.PersistExact(s.ledger, items, job.jobType.ReplayRange?);
      RowsAfterKeys(s.ledger.rows, items, job.jobType.ReplayRange?);
      forall block, item | job.from.value <= block <= job.to.value && item in env.blockItems(job.source.value, block)
        ensures item.key in Take(env, s, step).ledger.rows
      {
        RangeItemsComplete(env, job.source.value, job.from.value, job.to.value, block, item);
      }
    case _ =>
  }

  lemma CommittedStep(env: Env, s: State, step: Step)
    requires L.Consistent(s.ledger) && CommittedStored(env, s) && CanTake(env, s, step)
    ensures CommittedStored(env, Take(env, s, step)) && s.committed <= Take(env, s, step).committed
  {
    LedgerStep(env, s, step);
    var t := Take(env, s, step);
    forall d, block | d in t.committed && d.from <= block <= d.to
      ensures ItemsStored(env, t.ledger.rows, d.source, block)
    {
      if d in s.committed {
        assert ItemsStored(env, s.ledger.rows, d.source, block);
      }
    }
  }

  lemma IngestedMonotone(env: Env, a: set<Ingest>, b: set<Ingest>, source: SourceId, block: int)
    requires a <= b && source in env.sources && IngestedUpTo(env, a, source, block)
    ensures IngestedUpTo(env, b, source, block)
  {
    forall x | env.sources[source].startBlock <= x <= block ensures Ingested(b, source, x) {
      assert Ingested(a, source, x);
    }
  }

  /** The computed target is covered from the start block on, by committed ingests. */
  lemma TargetIngested(env: Env, s: State, w: WorkerId, end: int)
    requires Invariant(env, s) && CanTake(env, s, TargetStep(w, end))
    ensures IngestedUpTo(env, s.committed, s.workers[w].job.source.value, end)
  {
    var job := s.workers[w].job;
    var source := job.source.value;
    var frontier := StoredFrontier(env, s, source);
    assert TaskOk(env, s, s.workers[w]);
    assert source in s.checkpoints ==> CheckpointSafe(env, s, source);
    forall b | env.sources[source].startBlock <= b <= end ensures Ingested(s.committed, source, b) {
      if b > frontier {
        assert CoveredByJobs(s.queue.jobs, source, frontier, Some((job.from.value, job.to.value)), b);
        if id :| id in s.queue.jobs && IsSucceededRange(s.queue.jobs[id], source, frontier)
                   && s.queue.jobs[id].from.value <= b <= s.queue.jobs[id].to.value {
          assert JobIngest(s.queue.jobs[id]) in s.committed;
        } else {
          assert JobIngest(job) in s.committed;
        }
      }
    }
  }

  predicate Acts(step: Step, w: WorkerId) {
    !step.Tick? && !step.Plan? && step.w == w
  }

  /** A step changes the task of its own worker only. */
  lemma OtherTasksUnchanged(env: Env, s: State, step: Step, w: WorkerId)
    requires CanTake(env, s, step) && !Acts(step, w)
    ensures w in Take(env, s, step).workers <==> w in s.workers
    ensures w in s.workers ==> Take(env, s, step).workers[w] == s.workers[w]
  {
  }

  lemma TaskStaysOk(env: Env, s: State, t: State, task: Task)
    requires TaskOk(env, s, task) && Extends(s.queue, t.queue) && s.committed <= t.committed
    ensures TaskOk(env, t, task)
  {
    if task.phase.Targeted? {
      IngestedMonotone(env, s.committed, t.committed, task.job.source.value, task.phase.target);
    }
  }

  lemma LeasedTaskOk(env: Env, s: State, step: Step)
    requires Audited(s.queue) && CanTake(env, s, step) && step.LeaseStep?
    ensures TaskOk(env, Take(env, s, step), Take(env, s, step).workers[step.w])
  {
  }

  lemma TargetedTaskOk(env: Env, s: State, step: Step)
    requires Invariant(env, s) && CanTake(env, s, step) && step.TargetStep?
    ensures TaskOk(env, Take(env, s, step), Take(env, s, step).workers[step.w])
  {
    assert TaskOk(env, s, s.workers[step.w]);
    TargetIngested(env, s, step.w, step.end);
  }

  lemma StartedTaskOk(env: Env, s: State, step: Step)
    requires Invariant(env, s) && CanTake(env, s, step) && step.StartStep?
    requires Extends(s.queue, Take(env, s, step).queue)
    ensures TaskOk(env, Take(env, s, step), Take(env, s, step).workers[step.w])
  {
    assert TaskOk(env, s, s.workers[step.w]);
  }

  lemma OwnTaskOk(env: Env, s: State, step: Step)
    requires Invariant(env, s) && CanTake(env, s, step) && !step.Tick? && !step.Plan?
    requires Extends(s.queue, Take(env, s, step).queue) && s.committed <= Take(env, s, step).committed
    requires step.w in Take(env, s, step).workers
    ensures TaskOk(env, Take(env, s, step), Take(env, s, step).workers[step.w])
  {
    if step.LeaseStep? {
      LeasedTaskOk(env, s, step);
    } else if step.TargetStep? {
      TargetedTaskOk(env, s, step);
    } else if step.StartStep? {
      StartedTaskOk(env, s, step);
    } else {
      TaskStaysOk(env, s, Take(env, s, step), s.workers[step.w]);
    }
  }

  lemma TasksStep(env: Env, s: State, step: Step)
    requires Invariant(env, s) && CanTake(env, s, step)
    ensures TasksOk(env, Take(env, s, step))
  {
    QueueStepAudited(env, s, step);
    CommittedStep(env, s, step);
    var t := Take(env, s, step);
    forall w | w in t.workers ensures TaskOk(env, t, t.workers[w]) {
      if Acts(step, w) {
        OwnTaskOk(env, s, step);
      } else {
        OtherTasksUnchanged(env, s, step, w);
        TaskStaysOk(env, s, t, s.workers[w]);
      }
    }
  }

  /** A job is succeeded because it was before or because its worker just marked it. */
  lemma SucceededBefore(env: Env, s: State, step: Step, id: JobId)
    requires CanTake(env, s, step)
    requires id in Take(env, s, step).queue.jobs && Take(env, s, step).queue.jobs[id].status.Succeeded?
    requires !(step.SucceedStep? && s.workers[step.w].id == id)
    ensures id in s.queue.jobs && s.queue.jobs[id].status.Succeeded?
  {
  }

  lemma SucceededStep(env: Env, s: State, step: Step)
    requires Invariant(env, s) && CanTake(env, s, step)
    ensures SucceededJobsIngested(env, Take(env, s, step))
  {
    QueueStepAudited(env, s, step);
    CommittedStep(env, s, step);
    var t := Take(env, s, step);
    forall id | id in t.queue.jobs && t.queue.jobs[id].status.Succeeded? && t.queue.jobs[id].jobType.IngestRange?
      ensures IsRangeJob(env, t.queue.jobs[id]) && JobIngest(t.queue.jobs[id]) in t.committed
    {
      if step.SucceedStep? && s.workers[step.w].id == id {
        assert TaskOk(env, s, s.workers[step.w]);
        assert SameJob(s.queue.jobs[id], t.queue.jobs[id]);
      } else {
        SucceededBefore(env, s, step, id);
        assert SameJob(s.queue.jobs[id], t.queue.jobs[id]);
      }
    }
  }

  lemma CheckpointsKept(env: Env, s: State, step: Step)
    requires CanTake(env, s, step) && !step.AdvanceStep?
    ensures Take(env, s, step).checkpoints == s.checkpoints
  {
  }

  lemma CheckpointAdvanced(env: Env, s: State, step: Step) returns (c: Checkpoint)
    requires Invariant(env, s) && CanTake(env, s, step) && step.AdvanceStep?
    ensures var task := s.workers[step.w];
            && task.phase.Targeted? && task.job.source.Some? && task.job.source.value in env.sources
            && task.job.jobType.IngestRange?
            && var own := task.job.source.value;
            && Take(env, s, step).checkpoints == s.checkpoints[own := c]
            && WellFormed(c) && IngestedUpTo(env, s.committed, own, c.processed)
            && (own in s.checkpoints ==>
                  s.checkpoints[own].processed <= c.processed && s.checkpoints[own].finalized <= c.finalized)
    ensures Take(env, s, step).committed == s.committed
  {
    var task := s.workers[step.w];
    var own := task.job.source.value;
    assert TaskOk(env, s, task);
    assert own in s.checkpoints ==> CheckpointSafe(env, s, own);
    AdvanceMonotone(StoredCheckpoint(s, own), task.phase.target, step.hash, task.phase.finalized);
    c := Advance(StoredCheckpoint(s, own), task.phase.target, step.hash, task.phase.finalized).value;
  }

  lemma CheckpointsStep(env: Env, s: State, step: Step)
    requires Invariant(env, s) && CanTake(env, s, step)
    ensures CheckpointsSafe(env, Take(env, s, step))
  {
    CommittedStep(env, s, step);
    if step.AdvanceStep? {
      var c := CheckpointAdvanced(env, s, step);
      AdvancedSafe(env, s, Take(env, s, step), s.workers[step.w].job.source.value, c);
    } else {
      CheckpointsKept(env, s, step);
      KeptSafe(env, s, Take(env, s, step));
    }
  }

  lemma AdvancedSafe(env: Env, s: State, t: State, own: SourceId, c: Checkpoint)
    requires CheckpointsSafe(env, s) && own in env.sources && t.checkpoints == s.checkpoints[own := c]
    requires t.committed == s.committed && WellFormed(c) && IngestedUpTo(env, s.committed, own, c.processed)
    ensures CheckpointsSafe(env, t)
  {
    forall source | source in t.checkpoints ensures CheckpointSafe(env, t, source) {
      assert source != own ==> CheckpointSafe(env, s, source);
    }
  }

  lemma KeptSafe(env: Env, s: State, t: State)
    requires CheckpointsSafe(env, s) && t.checkpoints == s.checkpoints && s.committed <= t.committed
    ensures CheckpointsSafe(env, t)
  {
    forall source | source in t.checkpoints ensures CheckpointSafe(env, t, source) {
      assert CheckpointSafe(env, s, source);
      IngestedMonotone(env, s.committed, t.committed, source, s.checkpoints[source].processed);
    }
  }

  lemma StepKeepsInvariant(env: Env, s: State, step: Step)
    requires Invariant(env, s) && CanTake(env, s, step)
    ensures Invariant(env, Take(env, s, step))
  {
    QueueStepAudited(env, s, step);
    LedgerStep(env, s, step);
    CommittedStep(env, s, step);
    TasksStep(env, s, step);
    SucceededStep(env, s, step);
    CheckpointsStep(env, s, step);
  }

  /** Checkpoints only move forward, only in advance steps, and never for a replay job. */
  lemma CheckpointMoves(env: Env, s: State, step: Step, source: SourceId)
    requires Invariant(env, s) && CanTake(env, s, step)
    ensures source in s.checkpoints ==>
              && source in Take(env, s, step).checkpoints
              && s.checkpoints[source].processed <= Take(env, s, step).checkpoints[source].processed
              && s.checkpoints[source].finalized <= Take(env, s, step).checkpoints[source].finalized
    ensures StoredCheckpoint(Take(env, s, step), source) != StoredCheckpoint(s, source) ==>
              step.AdvanceStep? && s.workers[step.w].job.jobType.IngestRange?
                  && s.workers[step.w].job.source == Some(source)
  {
    if step.AdvanceStep? {
      var c := CheckpointAdvanced(env, s, step);
    } else {
      CheckpointsKept(env, s, step);
    }
  }

  // ---------------------------------------------------------------- every run

  ghost predicate IsTrace(env: Env, s: State, steps: seq<Step>)
    decreases |steps|, 0
  {
    steps == [] ||
    (IsTrace(env, s, steps[..|steps| - 1]) && CanTake(env, After(env, s, steps[..|steps| - 1]), steps[|steps| - 1]))
  }

  ghost function After(env: Env, s: State, steps: seq<Step>): State
    requires IsTrace(env, s, steps)
    decreases |steps|, 1
  {
    if steps == [] then s else Take(env, After(env, s, steps[..|steps| - 1]), steps[|steps| - 1])
  }

  lemma {:induction false} EveryRunInvariant(env: Env, clock: int, steps: seq<Step>)
    requires IsTrace(env, Initial(clock), steps)
    ensures Invariant(env, After(env, Initial(clock), steps))
    decreases |steps|
  {
    if steps == [] {
      InitialInvariant(env, clock);
    } else {
      EveryRunInvariant(env, clock, steps[..|steps| - 1]);
      StepKeepsInvariant(env, After(env, Initial(clock), steps[..|steps| - 1]), steps[|steps| - 1]);
    }
  }

  /** Checkpoint safety over whole runs: in every reachable state every block from the start block
      to the processed block lies in a committed ingest range, its canonical rows are stored, the
      processed block is finalized, and the ledger's balances conserve supply. */
  lemma CheckpointSafety(env: Env, clock: int, steps: seq<Step>, source: SourceId)
    requires IsTrace(env, Initial(clock), steps)
    requires source in After(env, Initial(clock), steps).checkpoints
    ensures var s := After(env, Initial(clock), steps);
            && source in env.sources
            && s.checkpoints[source].processed <= s.checkpoints[source].finalized
            && (forall b :: env.sources[source].startBlock <= b <= s.checkpoints[source].processed ==>
                  Ingested(s.committed, source, b) && ItemsStored(env, s.ledger.rows, source, b))
            && (forall slot :: L.Balance(s.ledger.balances, slot) == L.Total(s.ledger.rows, slot) >= 0)
  {
    EveryRunInvariant(env, clock, steps);
    var s := After(env, Initial(clock), steps);
    assert CheckpointSafe(env, s, source);
    forall b | env.sources[source].startBlock <= b <= s.checkpoints[source].processed
      ensures Ingested(s.committed, source, b) && ItemsStored(env, s.ledger.rows, source, b)
    {
      assert Ingested(s.committed, source, b);
      var d :| d in s.committed && d.source == source && d.from <= b <= d.to;
      assert ItemsStored(env, s.ledger.rows, d.source, b);
    }
    L.ConsistentNonNegative(s.ledger);
  }

  // ---------------------------------------------------------------- finality and order of a worker's steps

  /** From its validation on, a worker's range lies within what that worker saw as final. */
  predicate RangeIsFinal(task: Task) {
    task.phase.Validated? || task.phase.Cleared? || task.phase.Persisted? || task.phase.Targeted? ==>
      task.job.to.Some? && task.job.to.value <= task.phase.finalized
  }

  lemma FinalStep(env: Env, s: State, step: Step, w: WorkerId)
    requires CanTake(env, s, step) && w in Take(env, s, step).workers
    requires w in s.workers ==> RangeIsFinal(s.workers[w])
    ensures RangeIsFinal(Take(env, s, step).workers[w])
  {
    if !Acts(step, w) {
      OtherTasksUnchanged(env, s, step, w);
    }
  }

  lemma {:induction false} EveryRangeFinal(env: Env, clock: int, steps: seq<Step>, w: WorkerId)
    requires IsTrace(env, Initial(clock), steps) && w in After(env, Initial(clock), steps).workers
    ensures RangeIsFinal(After(env, Initial(clock), steps).workers[w])
    decreases |steps|
  {
    if steps == [] {
    } else {
      var init := steps[..|steps| - 1];
      if w in After(env, Initial(clock), init).workers {
        EveryRangeFinal(env, clock, init, w);
      }
      FinalStep(env, After(env, Initial(clock), init), steps[|steps| - 1], w);
    }
  }

  /** No block is ever orphaned or persisted by a worker that has not seen it as final. */
  lemma OnlyFinalBlocks(env: Env, clock: int, steps: seq<Step>, step: Step, block: int)
    requires IsTrace(env, Initial(clock), steps) && CanTake(env, After(env, Initial(clock), steps), step)
    requires step.OrphanStep? || step.PersistStep?
    requires var job := After(env, Initial(clock), steps).workers[step.w].job;
             job.from.value <= block <= job.to.value
    ensures block <= After(env, Initial(clock), steps).workers[step.w].phase.finalized
  {
    EveryRangeFinal(env, clock, steps, step.w);
  }

  /** The worker's last step so far was an orphaning. */
  ghost predicate JustOrphaned(steps: seq<Step>, w: WorkerId) {
    exists i :: 0 <= i < |steps| && steps[i].OrphanStep? && steps[i].w == w && IsQuietAfter(steps, w, i)
  }

  ghost predicate IsQuietAfter(steps: seq<Step>, w: WorkerId, i: int) {
    forall j :: i < j < |steps| && 0 <= j ==> !Acts(steps[j], w)
  }

  lemma ClearedByOrphan(env: Env, s: State, step: Step, w: WorkerId)
    requires CanTake(env, s, step) && Acts(step, w) && w in Take(env, s, step).workers
    requires Take(env, s, step).workers[w].phase.Cleared?
    ensures step.OrphanStep?
  {
  }

  /** A cleared range was orphaned by the same worker's last step. */
  lemma {:induction false} ClearedRun(env: Env, clock: int, steps: seq<Step>, w: WorkerId)
    requires IsTrace(env, Initial(clock), steps) && w in After(env, Initial(clock), steps).workers
    requires After(env, Initial(clock), steps).workers[w].phase.Cleared?
    ensures JustOrphaned(steps, w)
    decreases |steps|
  {
    if steps == [] {
    } else {
      var n := |steps| - 1;
      var before, last := After(env, Initial(clock), steps[..n]), steps[n];
      if Acts(last, w) {
        ClearedByOrphan(env, before, last, w);
        assert IsQuietAfter(steps, w, n);
      } else {
        OtherTasksUnchanged(env, before, last, w);
        ClearedRun(env, clock, steps[..n], w);
        var i :| 0 <= i < n && steps[..n][i].OrphanStep? && steps[..n][i].w == w && IsQuietAfter(steps[..n], w, i);
        assert IsQuietAfter(steps, w, i) by {
          forall j | i < j < |steps| ensures !Acts(steps[j], w) {
            assert j < n ==> steps[..n][j] == steps[j];
          }
        }
      }
    }
  }

  /** A replay persists its range only when its own last step was to orphan it. */
  lemma ReplayOrphansFirst(env: Env, clock: int, steps: seq<Step>, step: Step)
    requires IsTrace(env, Initial(clock), steps) && CanTake(env, After(env, Initial(clock), steps), step)
    requires step.PersistStep? && After(env, Initial(clock), steps).workers[step.w].job.jobType == ReplayRange
    ensures JustOrphaned(steps, step.w)
  {
    ClearedRun(env, clock, steps, step.w);
  }

  // ---------------------------------------------------------------- lease exclusivity

  predicate IsMark(step: Step) {
    step.StartStep? || step.SucceedStep? || step.FailStep? || step.InterruptStep?
  }

  /** A mark is timely when the worker's own lease has not expired. */
  predicate IsTimely(s: State, step: Step) {
    IsMark(step) && step.w in s.workers ==> s.clock <= s.workers[step.w].expires
  }

  ghost predicate TimelyTrace(env: Env, s: State, steps: seq<Step>)
    requires IsTrace(env, s, steps)
  {
    steps == [] ||
    (TimelyTrace(env, s, steps[..|steps| - 1]) && IsTimely(After(env, s, steps[..|steps| - 1]), steps[|steps| - 1]))
  }

  predicate Holds(s: State, w: WorkerId, id: JobId) {
    w in s.workers && s.workers[w].id == id && s.clock <= s.workers[w].expires
  }

  /** The attempt row that a worker was given names that worker, for ever. */
  ghost predicate AttemptIsOwn(s: State, w: WorkerId, task: Task) {
    forall i ::
        0 <= i < |s.queue.attempts| && s.queue.attempts[i].job == task.id
            && s.queue.attempts[i].number == task.attempt ==>
      s.queue.attempts[i].worker == w
  }

  /** While a lease lasts, the job row belongs to its worker. */
  ghost predicate LeaseOk(s: State, w: WorkerId, task: Task) {
    && task.id in s.queue.jobs
    && var job := s.queue.jobs[task.id];
       InFlight(job.status) && job.leasedBy == Some(w) && job.leaseExpires == Some(task.expires)
           && job.attempts == task.attempt
  }

  ghost predicate LeasesOk(s: State) {
    forall w :: w in s.workers ==>
      AttemptIsOwn(s, w, s.workers[w]) && (s.clock <= s.workers[w].expires ==> LeaseOk(s, w, s.workers[w]))
  }

  /** A kept task keeps its job and attempt number; the attempt rows it could mean do not grow. */
  lemma KeptTask(env: Env, s: State, step: Step, w: WorkerId)
    requires CanTake(env, s, step) && w in s.workers && w in Take(env, s, step).workers
    ensures var a, b := s.workers[w], Take(env, s, step).workers[w];
            b.id == a.id && b.attempt == a.attempt && b.expires == a.expires
  {
    if !Acts(step, w) {
      OtherTasksUnchanged(env, s, step, w);
    }
  }

  /** Only a lease appends an attempt row, and its number is new for the job. */
  lemma AppendedAttempt(env: Env, s: State, step: Step, i: nat)
    requires CanTake(env, s, step)
    requires |s.queue.attempts| <= i < |Take(env, s, step).queue.attempts|
    ensures var a := Take(env, s, step).queue.attempts[i];
            step.LeaseStep? && a.job == step.id && a.number == s.queue.jobs[step.id].attempts + 1 && a.worker == step.w
  {
  }

  lemma AttemptOwnership(env: Env, s: State, step: Step, w: WorkerId)
    requires Invariant(env, s) && CanTake(env, s, step)
    requires w in Take(env, s, step).workers
    requires w in s.workers ==> AttemptIsOwn(s, w, s.workers[w])
    ensures AttemptIsOwn(Take(env, s, step), w, Take(env, s, step).workers[w])
  {
    var t := Take(env, s, step);
    var task := t.workers[w];
    QueueStepAudited(env, s, step);
    if w in s.workers {
      KeptTask(env, s, step, w);
      assert TaskOk(env, s, s.workers[w]);
    } else if !Acts(step, w) {
      OtherTasksUnchanged(env, s, step, w);
    }
    forall i | 0 <= i < |t.queue.attempts| && t.queue.attempts[i].job == task.id
        && t.queue.attempts[i].number == task.attempt
      ensures t.queue.attempts[i].worker == w
    {
      if i < |s.queue.attempts| {
        assert SameIdentity(s.queue.attempts[i], t.queue.attempts[i]);
        assert AttemptOk(s.queue, s.queue.attempts[i]);
      } else {
        AppendedAttempt(env, s, step, i);
      }
    }
  }

  /** A step that does not mark or lease a job leaves its lease columns alone. */
  lemma LeaseUndisturbed(env: Env, s: State, step: Step, id: JobId)
    requires CanTake(env, s, step) && id in s.queue.jobs
    requires IsMark(step) ==> s.workers[step.w].id != id
    requires step.LeaseStep? ==> step.id != id
    ensures id in Take(env, s, step).queue.jobs && Take(env, s, step).queue.jobs[id] == s.queue.jobs[id]
  {
  }

  lemma LeaseStepOk(env: Env, s: State, step: Step, w: WorkerId)
    requires LeasesOk(s) && CanTake(env, s, step) && IsTimely(s, step)
    requires w in Take(env, s, step).workers && Take(env, s, step).clock <= Take(env, s, step).workers[w].expires
    ensures LeaseOk(Take(env, s, step), w, Take(env, s, step).workers[w])
  {
    var t := Take(env, s, step);
    if w in s.workers {
      KeptTask(env, s, step, w);
      assert LeaseOk(s, w, s.workers[w]);
      var id := s.workers[w].id;
      if IsMark(step) && s.workers[step.w].id == id {
        assert LeaseOk(s, step.w, s.workers[step.w]);
        assert step.w == w && step.StartStep?;
      } else {
        LeaseUndisturbed(env, s, step, id);
      }
    } else {
      assert Acts(step, w) && step.LeaseStep? by {
        if !Acts(step, w) {
          OtherTasksUnchanged(env, s, step, w);
        }
      }
    }
  }

  lemma TimelyStepKeepsLeases(env: Env, s: State, step: Step)
    requires Invariant(env, s) && LeasesOk(s) && CanTake(env, s, step) && IsTimely(s, step)
    ensures LeasesOk(Take(env, s, step))
  {
    var t := Take(env, s, step);
    forall w | w in t.workers
      ensures AttemptIsOwn(t, w, t.workers[w]) && (t.clock <= t.workers[w].expires ==> LeaseOk(t, w, t.workers[w]))
    {
      AttemptOwnership(env, s, step, w);
      if t.clock <= t.workers[w].expires {
        LeaseStepOk(env, s, step, w);
      }
    }
  }

  lemma {:induction false} TimelyRunLeases(env: Env, clock: int, steps: seq<Step>)
    requires IsTrace(env, Initial(clock), steps) && TimelyTrace(env, Initial(clock), steps)
    ensures LeasesOk(After(env, Initial(clock), steps))
    decreases |steps|
  {
    if steps == [] {
    } else {
      var init := steps[..|steps| - 1];
      EveryRunInvariant(env, clock, init);
      TimelyRunLeases(env, clock, init);
      TimelyStepKeepsLeases(env, After(env, Initial(clock), init), steps[|steps| - 1]);
    }
  }

  /** Lease exclusivity: if marks are timely, no two workers hold one job, and every mark is made
      by the worker the job is leased to and closes or updates only that worker's own attempt. */
  lemma LeaseExclusive(env: Env, clock: int, steps: seq<Step>, v: WorkerId, w: WorkerId, id: JobId)
    requires IsTrace(env, Initial(clock), steps) && TimelyTrace(env, Initial(clock), steps)
    requires Holds(After(env, Initial(clock), steps), v, id) && Holds(After(env, Initial(clock), steps), w, id)
    ensures v == w
  {
    TimelyRunLeases(env, clock, steps);
    var s := After(env, Initial(clock), steps);
    assert LeaseOk(s, v, s.workers[v]) && LeaseOk(s, w, s.workers[w]);
  }

  lemma MarksOwnAttempt(env: Env, clock: int, steps: seq<Step>, mark: Step, i: nat)
    requires IsTrace(env, Initial(clock), steps) && TimelyTrace(env, Initial(clock), steps)
    requires IsMark(mark) && CanTake(env, After(env, Initial(clock), steps), mark)
             && IsTimely(After(env, Initial(clock), steps), mark)
    requires i < |After(env, Initial(clock), steps).queue.attempts|
    ensures var s := After(env, Initial(clock), steps);
            var t := Take(env, s, mark);
            && s.queue.jobs[s.workers[mark.w].id].leasedBy == Some(mark.w)
            && |t.queue.attempts| == |s.queue.attempts|
            && (t.queue.attempts[i] != s.queue.attempts[i] ==> s.queue.attempts[i].worker == mark.w)
  {
    TimelyRunLeases(env, clock, steps);
    var s := After(env, Initial(clock), steps);
    var task := s.workers[mark.w];
    assert LeaseOk(s, mark.w, task) && AttemptIsOwn(s, mark.w, task);
  }
}
