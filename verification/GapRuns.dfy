/** Two runs after which every planned job has succeeded and the stored checkpoint is stuck behind. */
module GapRuns {
  import opened Wrappers
  import opened Domain
  import opened JobQueue
  import opened Checkpoints
  import opened LedgerRepositories
  import opened Batches
  import opened Backfill
  import opened Protocol
  import L = LedgerModel

  const SOURCE: Source := Source(7, 1, 0)

  /** One source on a chain without transfers. */
  ghost function Quiet(): Env {
    Env(map[7 := SOURCE], (source, block) => [])
  }

  ghost predicate Reaches(s: State) {
    exists steps :: IsTrace(Quiet(), Initial(0), steps) && After(Quiet(), Initial(0), steps) == s
  }

  lemma StartReached()
    ensures Reaches(Initial(0))
  {
    assert IsTrace(Quiet(), Initial(0), []) && After(Quiet(), Initial(0), []) == Initial(0);
  }

  lemma NextReached(s: State, step: Step)
    requires Reaches(s) && CanTake(Quiet(), s, step)
    ensures Reaches(Take(Quiet(), s, step))
  {
    var steps :| IsTrace(Quiet(), Initial(0), steps) && After(Quiet(), Initial(0), steps) == s;
    var longer := steps + [step];
    assert longer[..|longer| - 1] == steps;
    assert IsTrace(Quiet(), Initial(0), longer) && After(Quiet(), Initial(0), longer) == Take(Quiet(), s, step);
  }

  // ---------------------------------------------------------------- what one worker does

  ghost predicate IsOwnJob(job: Job) {
    IsRangeJob(Quiet(), job) && job.jobType.IngestRange? && job.from.value <= job.to.value
  }

  ghost function Taken(s: State, w: WorkerId, id: JobId): State
    requires id in s.queue.jobs
  {
    var q := RunJob(LeaseJob(s.queue, id, w, s.clock, 10), id, s.clock);
    s.(queue := q, workers := s.workers[w := Task(id, q.jobs[id], s.clock + 10, q.jobs[id].attempts, Started)])
  }

  lemma TakenReached(s: State, w: WorkerId, id: JobId)
    requires Reaches(s) && w !in s.workers && id in s.queue.jobs && s.queue.jobs[id].status.Queued?
    ensures Reaches(Taken(s, w, id))
  {
    NextReached(s, LeaseStep(w, id, s.clock, 10));
    StartReaches(s, w, id, Take(Quiet(), s, LeaseStep(w, id, s.clock, 10)));
  }

  lemma StartReaches(s: State, w: WorkerId, id: JobId, leased: State)
    requires id in s.queue.jobs && Reaches(leased)
    requires var q := LeaseJob(s.queue, id, w, s.clock, 10);
             leased == s.(queue := q, workers :=
                          s.workers[w := Task(id, q.jobs[id], s.clock + 10, q.jobs[id].attempts, JustLeased)])
    ensures Reaches(Taken(s, w, id))
  {
    NextReached(leased, StartStep(w));
    assert Take(Quiet(), leased, StartStep(w)).workers == Taken(s, w, id).workers;
  }

  lemma {:induction false} NoItems(source: SourceId, from: int, to: int)
    ensures RangeItems(Quiet(), source, from, to) == []
    decreases 1 + to - from
  {
    if to < from {
    } else {
      NoItems(source, from, to - 1);
    }
  }

  ghost function Stored(s: State, w: WorkerId, finalized: int): State
    requires w in s.workers && IsOwnJob(s.workers[w].job)
  {
    Enter(s, w, Persisted(finalized)).(committed := s.committed + {JobIngest(s.workers[w].job)})
  }

  lemma StoredReached(s: State, w: WorkerId, finalized: int)
    requires Reaches(s) && w in s.workers && s.workers[w].phase.Started? && IsOwnJob(s.workers[w].job)
    requires s.workers[w].job.to.value <= finalized
    ensures Reaches(Stored(s, w, finalized))
  {
    var job := s.workers[w].job;
    NoItems(job.source.value, job.from.value, job.to.value);
    NextReached(s, ValidateStep(w, finalized));
    var v := Take(Quiet(), s, ValidateStep(w, finalized));
    assert PersistResult(Quiet(), v, job) == Some(s.ledger);
    NextReached(v, PersistStep(w));
    assert Take(Quiet(), v, PersistStep(w)).workers == Stored(s, w, finalized).workers;
  }

  lemma TargetReached(s: State, w: WorkerId, end: int)
    requires Reaches(s) && CanTake(Quiet(), s, TargetStep(w, end))
    ensures var source := s.workers[w].job.source.value;
            var finalized := s.workers[w].phase.finalized;
            Reaches(Enter(s, w, if end > StoredFrontier(Quiet(), s, source) && end <= finalized
                                then Targeted(finalized, end) else Finished))
  {
    NextReached(s, TargetStep(w, end));
  }

  ghost function Marked(s: State, w: WorkerId): State
    requires w in s.workers && s.workers[w].id in s.queue.jobs
  {
    s.(queue := SucceedJob(s.queue, s.workers[w].id, s.clock), workers := s.workers - {w})
  }

  lemma MarkedReached(s: State, w: WorkerId)
    requires Reaches(s) && w in s.workers && s.workers[w].phase.Finished?
    requires s.workers[w].id in s.queue.jobs && s.queue.jobs[s.workers[w].id].attempts >= 1
    ensures Reaches(Marked(s, w))
  {
    NextReached(s, SucceedStep(w));
  }

  // ---------------------------------------------------------------- the plan

  const CHUNKS: seq<Chunk> := [Chunk(0, 0), Chunk(1, 1)]

  function ChunkJob(block: U64): Job {
    PlannedJob(7, 1, Chunk(block, block), 3, 0)
  }

  ghost function PlannedState(): State {
    Initial(0).(queue := Queue(map[0 := ChunkJob(0), 1 := ChunkJob(1)], []))
  }

  lemma PlanReached()
    ensures Reaches(PlannedState())
    ensures IsPlan(None, SOURCE.startBlock, 0, 1, 1, CHUNKS)
  {
    StartReached();
    NextReached(Initial(0), Plan(0, ChunkJob(0)));
    var s := Take(Quiet(), Initial(0), Plan(0, ChunkJob(0)));
    NextReached(s, Plan(1, ChunkJob(1)));
    assert Take(Quiet(), s, Plan(1, ChunkJob(1))).queue.jobs == PlannedState().queue.jobs;
  }

  /** Both chunks persisted, neither job marked. */
  ghost function BothStored(first: int, second: int): State {
    var s := Taken(PlannedState(), 1, 0);
    var t := Stored(s, 1, first);
    var u := Taken(t, 2, 1);
    Stored(u, 2, second)
  }

  lemma BothStoredReached(first: nat, second: int)
    requires 1 <= second
    ensures Reaches(BothStored(first, second))
  {
    PlanReached();
    TakenReached(PlannedState(), 1, 0);
    var s := Taken(PlannedState(), 1, 0);
    StoredReached(s, 1, first);
    var t := Stored(s, 1, first);
    TakenReached(t, 2, 1);
    StoredReached(Taken(t, 2, 1), 2, second);
  }

  /** The plan has succeeded, no worker is left, planning the missing block again would insert
      nothing, and still the stored checkpoint is behind. */
  ghost predicate IsStuck(s: State, frontier: int) {
    && s.workers == map[] && ChunksDone(s.queue.jobs, 7, CHUNKS, None)
    && StoredFrontier(Quiet(), s, 7) == frontier < 1
    && forall chunk :: chunk in CHUNKS ==> IsTaken(s.queue.jobs, PlannedJob(7, 1, chunk, 3, 0))
  }

  // ---------------------------------------------------------------- the two runs

  ghost predicate IsChunkJob(job: Job, block: U64) {
    IsIngestOf(job, 7, Chunk(block, block)) && job.chain == 1 && job.key == BackfillKey(7, block, block)
        && job.attempts >= 1
  }

  /** The two jobs, each running or succeeded, and the workers that are left. */
  ghost predicate HasChunks(s: State, first: JobStatus, second: JobStatus)
  {
    && s.queue.jobs.Keys == {0, 1}
    && IsChunkJob(s.queue.jobs[0], 0) && IsChunkJob(s.queue.jobs[1], 1)
    && s.queue.jobs[0].status == first && s.queue.jobs[1].status == second
  }

  ghost predicate HasTask(s: State, w: WorkerId, id: JobId, phase: Phase) {
    w in s.workers && s.workers[w].id == id <= U64_MAX && IsChunkJob(s.workers[w].job, id)
        && s.workers[w].phase == phase
  }

  /** Both workers hold their jobs, in these phases. */
  ghost predicate Both(s: State, first: Phase, second: Phase) {
    && HasChunks(s, Running, Running) && s.workers.Keys == {1, 2}
    && HasTask(s, 1, 0, first) && HasTask(s, 2, 1, second)
  }

  lemma BothStoredFacts(first: int, second: int)
    ensures var s := BothStored(first, second);
            Both(s, Persisted(first), Persisted(second)) && s.checkpoints == map[]
  {
  }

  /** Only block 1 is covered when the second worker computes its target. */
  lemma NothingYet(s: State)
    requires HasChunks(s, Running, Running)
    ensures IsNextTarget(s.queue.jobs, 7, -1, Some((1, 1)), -1)
  {
  }

  lemma OnlyFirst(s: State)
    requires HasChunks(s, Running, Running)
    ensures IsNextTarget(s.queue.jobs, 7, -1, Some((0, 0)), 0)
  {
  }

  lemma BothBlocks(s: State)
    requires HasChunks(s, Running, Succeeded)
    ensures IsNextTarget(s.queue.jobs, 7, -1, Some((0, 0)), 1)
  {
    var jobs := s.queue.jobs;
    assert IsSucceededRange(jobs[1], 7, -1);
    forall block | -1 < block <= 1 ensures CoveredByJobs(jobs, 7, -1, Some((0, 0)), block) {
    }
  }

  lemma MarkedFacts(s: State, w: WorkerId, id: JobId, first: JobStatus, second: JobStatus)
    requires HasChunks(s, first, second) && HasTask(s, w, id, Finished) && id <= 1
    ensures HasChunks(Marked(s, w), if id == 0 then Succeeded else first, if id == 1 then Succeeded else second)
  {
  }

  lemma StuckAtEnd(s: State, frontier: int)
    requires HasChunks(s, Succeeded, Succeeded) && s.workers == map[]
    requires StoredFrontier(Quiet(), s, 7) == frontier < 1
    ensures IsStuck(s, frontier)
  {
    var jobs := s.queue.jobs;
    forall chunk | chunk in CHUNKS
      ensures HasSucceeded(jobs, 7, chunk) && IsTaken(jobs, PlannedJob(7, 1, chunk, 3, 0))
    {
      var id: JobId := if chunk == Chunk(0, 0) then 0 else 1;
      assert IsIngestOf(jobs[id], 7, chunk) && Conflicts(PlannedJob(7, 1, chunk, 3, 0), jobs[id]);
    }
  }

  /** The second worker finds block 0 open and is finished without an advance. */
  lemma SecondFinishes(s: State, first: Phase)
    requires Reaches(s) && Both(s, first, Persisted(1)) && s.checkpoints == map[]
    ensures Reaches(Enter(s, 2, Finished)) && Both(Enter(s, 2, Finished), first, Finished)
  {
    NothingYet(s);
    TargetReached(s, 2, -1);
  }

  /** The first worker sees only its own block covered. */
  lemma FirstTargets(s: State)
    requires Reaches(s) && Both(s, Persisted(1), Finished) && s.checkpoints == map[]
    ensures Reaches(Enter(s, 1, Targeted(1, 0))) && Both(Enter(s, 1, Targeted(1, 0)), Targeted(1, 0), Finished)
  {
    OnlyFirst(s);
    TargetReached(s, 1, 0);
  }

  lemma FirstAdvances(s: State) returns (t: State)
    requires Reaches(s) && Both(s, Targeted(1, 0), Finished) && s.checkpoints == map[]
    ensures Reaches(t) && Both(t, Finished, Finished) && StoredFrontier(Quiet(), t, 7) == 0
  {
    var step := AdvanceStep(1, "0xaa");
    NextReached(s, step);
    t := Take(Quiet(), s, step);
  }

  /** Overlapping targets: the second worker finds block 0 open, the first one does not see the
      second one's job succeeded yet, and then both mark success. */
  lemma OverlapLeavesGap()
    ensures exists s :: Reaches(s) && IsStuck(s, 0)
    ensures IsPlan(None, SOURCE.startBlock, 0, 1, 1, CHUNKS)
  {
    PlanReached();
    BothStoredReached(1, 1);
    BothStoredFacts(1, 1);
    var s := BothStored(1, 1);
    SecondFinishes(s, Persisted(1));
    var t := Enter(s, 2, Finished);
    FirstTargets(t);
    var u := FirstAdvances(Enter(t, 1, Targeted(1, 0)));
    BothMarked(u, 0);
  }

  lemma SecondSucceeds(s: State, first: Phase)
    requires Reaches(s) && Both(s, first, Finished)
    ensures Reaches(Marked(s, 2)) && HasChunks(Marked(s, 2), Running, Succeeded)
    ensures Marked(s, 2).workers.Keys == {1} && HasTask(Marked(s, 2), 1, 0, first)
  {
    MarkedReached(s, 2);
    MarkedFacts(s, 2, 1, Running, Running);
  }

  /** The first worker's target is not final for it. */
  lemma FirstFinishes(s: State)
    requires Reaches(s) && HasChunks(s, Running, Succeeded) && HasTask(s, 1, 0, Persisted(0)) && s.checkpoints == map[]
    ensures Reaches(Enter(s, 1, Finished))
  {
    BothBlocks(s);
    TargetReached(s, 1, 1);
  }

  lemma FirstSucceeds(s: State)
    requires Reaches(s) && HasChunks(s, Running, Succeeded) && HasTask(s, 1, 0, Finished)
    requires s.workers.Keys == {1} && s.checkpoints == map[]
    ensures Reaches(Marked(s, 1)) && IsStuck(Marked(s, 1), -1)
  {
    MarkedReached(s, 1);
    MarkedFacts(s, 1, 0, Running, Succeeded);
    StuckAtEnd(Marked(s, 1), -1);
  }

  /** Lagging finality: the first worker validated its job when only block 0 was final, and computes
      a target that is not final for it; nobody computes one again. */
  lemma FinalityLeavesGap()
    ensures exists s :: Reaches(s) && IsStuck(s, -1)
  {
    BothStoredReached(0, 1);
    BothStoredFacts(0, 1);
    var s := BothStored(0, 1);
    SecondFinishes(s, Persisted(0));
    var t := Enter(s, 2, Finished);
    SecondSucceeds(t, Persisted(0));
    FirstFinishes(Marked(t, 2));
    FirstSucceeds(Enter(Marked(t, 2), 1, Finished));
  }

  lemma BothMarked(v: State, frontier: int)
    requires Reaches(v) && Both(v, Finished, Finished)
    requires StoredFrontier(Quiet(), v, 7) == frontier < 1
    ensures exists s :: Reaches(s) && IsStuck(s, frontier)
  {
    MarkedReached(v, 1);
    MarkedFacts(v, 1, 0, Running, Running);
    var w := Marked(v, 1);
    MarkedReached(w, 2);
    MarkedFacts(w, 2, 1, Succeeded, Running);
    StuckAtEnd(Marked(w, 2), frontier);
  }
}
