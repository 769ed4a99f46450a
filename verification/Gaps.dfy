/** When the stored checkpoint has caught up with the succeeded jobs, and when it has not. */
module Gaps {
  import opened Wrappers
  import opened Domain
  import opened JobQueue
  import opened Checkpoints
  import opened LedgerRepositories
  import opened Backfill
  import opened Protocol
  import L = LedgerModel

  /** A succeeded ingest job, or the range just completed, covers the block. */
  ghost predicate Covers(jobs: map<JobId, Job>, source: SourceId, completed: Option<(int, int)>, block: int) {
    CoveredByJobs(jobs, source, block - 1, completed, block)
  }

  lemma FrontierIrrelevant(jobs: map<JobId, Job>, source: SourceId, frontier: int, completed: Option<(int, int)>,
                           block: int)
    requires frontier < block
    ensures CoveredByJobs(jobs, source, frontier, completed, block) <==> Covers(jobs, source, completed, block)
  {
    forall id | id in jobs && jobs[id].from.Some? && jobs[id].to.Some?
        && jobs[id].from.value <= block <= jobs[id].to.value
      ensures IsSucceededRange(jobs[id], source, frontier) <==> IsSucceededRange(jobs[id], source, block - 1)
    {
    }
  }

  /** The block after the frontier is not covered: the checkpoint is as far as it can be. */
  ghost predicate Settled(env: Env, s: State, source: SourceId)
    requires source in env.sources
  {
    !Covers(s.queue.jobs, source, None, StoredFrontier(env, s, source) + 1)
  }

  /** A settled checkpoint has passed the end of every plan whose jobs have all succeeded. */
  lemma SettledPlan(env: Env, s: State, source: SourceId, planned: Option<Checkpoint>, from: U64, to: U64, size: int,
                    ranges: seq<Chunk>)
    requires source in env.sources && Settled(env, s, source)
    requires IsPlan(planned, env.sources[source].startBlock, from, to, size, ranges)
    requires PlannedFrontier(planned, env.sources[source].startBlock) <= StoredFrontier(env, s, source)
    requires ChunksDone(s.queue.jobs, source, ranges, None)
    ensures to <= StoredFrontier(env, s, source)
  {
    var frontier := StoredFrontier(env, s, source);
    FrontierIrrelevant(s.queue.jobs, source, frontier, None, frontier + 1);
    BackfillClosesGap(s.queue.jobs, source, planned, env.sources[source].startBlock, from, to, size, ranges,
                      frontier, None, frontier);
  }

  // ---------------------------------------------------------------- one step

  ghost predicate IsIngestTask(task: Task, source: SourceId) {
    task.job.jobType.IngestRange? && task.job.source == Some(source)
  }

  /** The worker has computed its target but has not yet marked its job. */
  ghost predicate InWindow(s: State, w: WorkerId, source: SourceId) {
    && w in s.workers && IsIngestTask(s.workers[w], source)
    && (s.workers[w].phase.Targeted? || s.workers[w].phase.Finished?)
  }

  function RangeOf(job: Job): Option<(int, int)> {
    if job.from.Some? && job.to.Some? then Some((job.from.value, job.to.value)) else None
  }

  /** No job succeeds in this step. */
  lemma UncoveredStays(jobs: map<JobId, Job>, later: map<JobId, Job>, source: SourceId, completed: Option<(int, int)>,
                       block: int)
    requires forall id ::
             id in later && later[id].status.Succeeded? ==>
                 id in jobs && jobs[id].status.Succeeded? && SameJob(jobs[id], later[id])
    requires !Covers(jobs, source, completed, block)
    ensures !Covers(later, source, completed, block)
  {
    if id :| id in later && IsCoveringRange(later[id], source, block - 1, block) {
      assert IsSucceededRange(jobs[id], source, block - 1);
    }
  }

  lemma OldSuccesses(env: Env, s: State, step: Step)
    requires Invariant(env, s) && CanTake(env, s, step) && !step.SucceedStep?
    ensures var later := Take(env, s, step).queue.jobs;
            forall id :: id in later && later[id].status.Succeeded? ==>
              id in s.queue.jobs && s.queue.jobs[id].status.Succeeded? && SameJob(s.queue.jobs[id], later[id])
  {
    QueueStepAudited(env, s, step);
    var later := Take(env, s, step).queue.jobs;
    forall id | id in later && later[id].status.Succeeded?
      ensures id in s.queue.jobs && s.queue.jobs[id].status.Succeeded? && SameJob(s.queue.jobs[id], later[id])
    {
      SucceededBefore(env, s, step, id);
    }
  }

  predicate CoversBlock(job: Job, block: int) {
    job.from.Some? && job.to.Some? && FitsColumns(job) && job.from.value <= block <= job.to.value
  }

  /** What marking one job succeeded adds to the cover: its range, if it is an ingest of the source. */
  lemma MarkAdds(jobs: map<JobId, Job>, later: map<JobId, Job>, id: JobId, source: SourceId, block: int)
    requires id in jobs && later.Keys == jobs.Keys && SameJob(jobs[id], later[id]) && later[id].status.Succeeded?
    requires forall k :: k in jobs && k != id ==> later[k] == jobs[k]
    ensures Covers(later, source, None, block) <==>
              || Covers(jobs, source, None, block)
              || (jobs[id].jobType.IngestRange? && jobs[id].source == Some(source) && CoversBlock(jobs[id], block))
  {
    if k :| k in later && IsCoveringRange(later[k], source, block - 1, block) {
      assert k != id ==> IsSucceededRange(jobs[k], source, block - 1);
    }
    if k :| k in jobs && IsCoveringRange(jobs[k], source, block - 1, block) {
      assert IsSucceededRange(later[k], source, block - 1);
    }
    if jobs[id].jobType.IngestRange? && jobs[id].source == Some(source) && CoversBlock(jobs[id], block) {
      assert IsSucceededRange(later[id], source, block - 1);
    }
  }

  lemma SuccessMarks(env: Env, s: State, step: Step)
    requires Invariant(env, s) && step.SucceedStep? && CanTake(env, s, step)
    ensures var jobs, later, task := s.queue.jobs, Take(env, s, step).queue.jobs, s.workers[step.w];
            && task.id in jobs && later.Keys == jobs.Keys && SameJob(jobs[task.id], later[task.id])
            && later[task.id].status.Succeeded? && SameJob(jobs[task.id], task.job)
            && forall k :: k in jobs && k != task.id ==> later[k] == jobs[k]
  {
    assert TaskOk(env, s, s.workers[step.w]);
  }

  /** Exactly what a success adds to the cover. */
  lemma SuccessAdds(env: Env, s: State, step: Step, source: SourceId, block: int)
    requires Invariant(env, s) && step.SucceedStep? && CanTake(env, s, step)
    ensures Covers(Take(env, s, step).queue.jobs, source, None, block) <==>
              || Covers(s.queue.jobs, source, None, block)
              || (IsIngestTask(s.workers[step.w], source) && CoversBlock(s.workers[step.w].job, block))
  {
    SuccessMarks(env, s, step);
    MarkAdds(s.queue.jobs, Take(env, s, step).queue.jobs, s.workers[step.w].id, source, block);
  }

  lemma SuccessCovers(env: Env, s: State, step: Step, source: SourceId, block: int)
    requires Invariant(env, s) && step.SucceedStep? && CanTake(env, s, step)
    ensures var task := s.workers[step.w];
            var completed := if IsIngestTask(task, source) then RangeOf(task.job) else None;
            Covers(Take(env, s, step).queue.jobs, source, None, block) ==>
                Covers(s.queue.jobs, source, completed, block)
  {
    SuccessAdds(env, s, step, source, block);
  }

  predicate Advances(s: State, step: Step, source: SourceId) {
    step.AdvanceStep? && step.w in s.workers && s.workers[step.w].phase.Targeted?
        && s.workers[step.w].job.source == Some(source)
  }

  lemma FrontierStays(env: Env, s: State, step: Step, source: SourceId)
    requires CanTake(env, s, step) && source in env.sources && !Advances(s, step, source)
    ensures StoredFrontier(env, Take(env, s, step), source) == StoredFrontier(env, s, source)
  {
  }

  lemma FrontierAdvances(env: Env, s: State, step: Step, source: SourceId)
    requires CanTake(env, s, step) && source in env.sources && Advances(s, step, source)
    ensures StoredFrontier(env, Take(env, s, step), source)
         == (if source in s.checkpoints then Max(StoredFrontier(env, s, source), s.workers[step.w].phase.target)
             else s.workers[step.w].phase.target)
  {
  }

  lemma FrontierMoves(env: Env, s: State, step: Step, source: SourceId)
    requires Invariant(env, s) && CanTake(env, s, step) && source in env.sources
    ensures if Advances(s, step, source) then
              StoredFrontier(env, Take(env, s, step), source)
                == (if source in s.checkpoints then Max(StoredFrontier(env, s, source), s.workers[step.w].phase.target)
                    else s.workers[step.w].phase.target)
            else StoredFrontier(env, Take(env, s, step), source) == StoredFrontier(env, s, source)
  {
    if Advances(s, step, source) {
      FrontierAdvances(env, s, step, source);
    } else {
      FrontierStays(env, s, step, source);
    }
  }

  /** A step after which a settled checkpoint is behind: a success of the block after the frontier,
      or an advance to a target that others have covered beyond since it was computed. */
  ghost predicate LeavesGap(env: Env, s: State, step: Step, source: SourceId)
    requires source in env.sources && CanTake(env, s, step)
  {
    var next := StoredFrontier(env, Take(env, s, step), source) + 1;
    || (step.SucceedStep? && IsIngestTask(s.workers[step.w], source) && CoversBlock(s.workers[step.w].job, next))
    || (Advances(s, step, source) && Covers(s.queue.jobs, source, None, next))
  }

  lemma SuccessSettled(env: Env, s: State, step: Step, source: SourceId)
    requires Invariant(env, s) && step.SucceedStep? && CanTake(env, s, step) && source in env.sources
             && Settled(env, s, source)
    ensures Settled(env, Take(env, s, step), source) <==> !LeavesGap(env, s, step, source)
  {
    FrontierMoves(env, s, step, source);
    SuccessAdds(env, s, step, source, StoredFrontier(env, s, source) + 1);
  }

  lemma AdvanceSettled(env: Env, s: State, step: Step, source: SourceId)
    requires Advances(s, step, source) && CanTake(env, s, step) && source in env.sources
    ensures Settled(env, Take(env, s, step), source) <==> !LeavesGap(env, s, step, source)
  {
    assert Take(env, s, step).queue.jobs == s.queue.jobs;
  }

  lemma QuietSettled(env: Env, s: State, step: Step, source: SourceId)
    requires Invariant(env, s) && CanTake(env, s, step) && source in env.sources && Settled(env, s, source)
    requires !step.SucceedStep? && !Advances(s, step, source)
    ensures Settled(env, Take(env, s, step), source)
  {
    FrontierMoves(env, s, step, source);
    OldSuccesses(env, s, step);
    UncoveredStays(s.queue.jobs, Take(env, s, step).queue.jobs, source, None, StoredFrontier(env, s, source) + 1);
  }

  /** One step keeps the checkpoint settled exactly when it leaves no gap. */
  lemma SettledExact(env: Env, s: State, step: Step, source: SourceId)
    requires Invariant(env, s) && CanTake(env, s, step) && source in env.sources && Settled(env, s, source)
    ensures Settled(env, Take(env, s, step), source) <==> !LeavesGap(env, s, step, source)
  {
    if step.SucceedStep? {
      SuccessSettled(env, s, step, source);
    } else if Advances(s, step, source) {
      AdvanceSettled(env, s, step, source);
    } else {
      QuietSettled(env, s, step, source);
    }
  }

  /** What a window still owes: once its job is marked, and its target stored, nothing is covered
      after the frontier. */
  ghost predicate WindowOk(env: Env, s: State, w: WorkerId, source: SourceId)
    requires source in env.sources && w in s.workers
  {
    var task := s.workers[w];
    && (task.phase.Finished? ==> !Covers(s.queue.jobs, source, RangeOf(task.job), StoredFrontier(env, s, source) + 1))
    && (task.phase.Targeted? ==>
          && StoredFrontier(env, s, source) < task.phase.target
          && !Covers(s.queue.jobs, source, RangeOf(task.job), task.phase.target + 1))
  }

  /** Windows of the source do not overlap, and the checkpoint is settled all the time. */
  ghost predicate Serial(env: Env, s: State, source: SourceId) {
    && source in env.sources
    && (forall v, w :: InWindow(s, v, source) && InWindow(s, w, source) ==> v == w)
    && (forall w :: InWindow(s, w, source) ==> WindowOk(env, s, w, source))
    && Settled(env, s, source)
  }

  /** A target is computed while no other worker is in its window, and it is final for the worker. */
  ghost predicate IsSerialStep(env: Env, s: State, step: Step, source: SourceId)
    requires source in env.sources
  {
    step.TargetStep? && step.w in s.workers && IsIngestTask(s.workers[step.w], source)
        && s.workers[step.w].phase.Persisted? ==>
      && (forall w :: InWindow(s, w, source) ==> w == step.w)
      && (step.end <= StoredFrontier(env, s, source) || step.end <= s.workers[step.w].phase.finalized)
  }

  lemma WindowKept(env: Env, s: State, step: Step, source: SourceId, w: WorkerId)
    requires Invariant(env, s) && CanTake(env, s, step) && Serial(env, s, source)
    requires InWindow(Take(env, s, step), w, source) && !(step.TargetStep? && step.w == w)
    ensures InWindow(s, w, source) && Take(env, s, step).workers[w].job == s.workers[w].job
    ensures Take(env, s, step).workers[w].phase != s.workers[w].phase ==> step.AdvanceStep? && step.w == w
  {
    if !Acts(step, w) {
      OtherTasksUnchanged(env, s, step, w);
    }
  }

  /** A step that neither marks success nor moves the frontier keeps every open window in order. */
  lemma QuietStep(env: Env, s: State, step: Step, source: SourceId)
    requires Invariant(env, s) && CanTake(env, s, step) && Serial(env, s, source)
    requires !step.SucceedStep? && !step.AdvanceStep? && !step.TargetStep?
    ensures Serial(env, Take(env, s, step), source)
  {
    var t := Take(env, s, step);
    OldSuccesses(env, s, step);
    FrontierMoves(env, s, step, source);
    UncoveredStays(s.queue.jobs, t.queue.jobs, source, None, StoredFrontier(env, s, source) + 1);
    forall w | InWindow(t, w, source) ensures InWindow(s, w, source) && WindowOk(env, t, w, source) {
      WindowKept(env, s, step, source, w);
      WindowStays(env, s, t, w, source);
    }
  }

  lemma WindowStays(env: Env, s: State, t: State, w: WorkerId, source: SourceId)
    requires source in env.sources && w in s.workers && WindowOk(env, s, w, source)
    requires w in t.workers && t.workers[w].job == s.workers[w].job && t.workers[w].phase == s.workers[w].phase
    requires StoredFrontier(env, t, source) == StoredFrontier(env, s, source)
    requires forall id :: id in t.queue.jobs && t.queue.jobs[id].status.Succeeded? ==>
               id in s.queue.jobs && s.queue.jobs[id].status.Succeeded? && SameJob(s.queue.jobs[id], t.queue.jobs[id])
    ensures WindowOk(env, t, w, source)
  {
    var task := s.workers[w];
    if task.phase.Finished? {
      UncoveredStays(s.queue.jobs, t.queue.jobs, source, RangeOf(task.job), StoredFrontier(env, s, source) + 1);
    }
    if task.phase.Targeted? {
      UncoveredStays(s.queue.jobs, t.queue.jobs, source, RangeOf(task.job), task.phase.target + 1);
    }
  }

  /** A worker enters a phase; queue and checkpoints stay as they are. */
  ghost predicate Enters(s: State, t: State, w: WorkerId, phase: Phase) {
    && w in s.workers && t.workers == s.workers[w := s.workers[w].(phase := phase)]
    && t.queue.jobs == s.queue.jobs
  }

  lemma EnterKeepsOthers(env: Env, s: State, t: State, w: WorkerId, phase: Phase, source: SourceId)
    requires Serial(env, s, source) && Enters(s, t, w, phase)
    requires StoredFrontier(env, t, source) == StoredFrontier(env, s, source)
    requires InWindow(t, w, source) ==> WindowOk(env, t, w, source) && forall v :: InWindow(s, v, source) ==> v == w
    ensures Serial(env, t, source)
  {
    forall v | InWindow(t, v, source) ensures WindowOk(env, t, v, source) && (InWindow(s, v, source) || v == w) {
      if v != w {
        assert InWindow(s, v, source) && WindowOk(env, s, v, source);
      }
    }
  }

  lemma TargetEffect(env: Env, s: State, step: Step, source: SourceId)
    requires step.TargetStep? && CanTake(env, s, step) && source in env.sources
    ensures var task := s.workers[step.w];
            var own := task.job.source.value;
            && (Enters(s, Take(env, s, step), step.w, Targeted(task.phase.finalized, step.end))
                || Enters(s, Take(env, s, step), step.w, Finished))
            && (Take(env, s, step).workers[step.w].phase.Targeted? <==>
                  StoredFrontier(env, s, own) < step.end <= task.phase.finalized)
            && IsNextTarget(s.queue.jobs, own, StoredFrontier(env, s, own), RangeOf(task.job), step.end)
    ensures Take(env, s, step).checkpoints == s.checkpoints
  {
  }

  lemma TargetOpensWindow(env: Env, s: State, step: Step, source: SourceId)
    requires Invariant(env, s) && step.TargetStep? && CanTake(env, s, step) && Serial(env, s, source)
    requires IsSerialStep(env, s, step, source)
    ensures Serial(env, Take(env, s, step), source)
  {
    TargetEffect(env, s, step, source);
    var t := Take(env, s, step);
    if IsIngestTask(s.workers[step.w], source) {
      FrontierIrrelevant(s.queue.jobs, source, StoredFrontier(env, s, source), RangeOf(s.workers[step.w].job),
                         step.end + 1);
      assert WindowOk(env, t, step.w, source);
    }
    EnterKeepsOthers(env, s, t, step.w, t.workers[step.w].phase, source);
  }

  lemma AdvanceEffect(env: Env, s: State, step: Step)
    requires step.AdvanceStep? && CanTake(env, s, step)
    ensures Enters(s, Take(env, s, step), step.w, Finished)
    ensures s.workers[step.w].phase.Targeted? && s.workers[step.w].job.source.Some?
  {
  }

  lemma AdvanceMovesWindow(env: Env, s: State, step: Step, source: SourceId)
    requires Invariant(env, s) && step.AdvanceStep? && CanTake(env, s, step) && Serial(env, s, source)
    ensures Serial(env, Take(env, s, step), source)
  {
    var t := Take(env, s, step);
    AdvanceEffect(env, s, step);
    FrontierMoves(env, s, step, source);
    assert TaskOk(env, s, s.workers[step.w]);
    if s.workers[step.w].job.source == Some(source) {
      AdvancedWindow(env, s, t, step.w, source);
    } else {
      EnterKeepsOthers(env, s, t, step.w, Finished, source);
    }
  }

  lemma AdvancedWindow(env: Env, s: State, t: State, w: WorkerId, source: SourceId)
    requires Serial(env, s, source) && Enters(s, t, w, Finished)
    requires s.workers[w].phase.Targeted? && IsIngestTask(s.workers[w], source)
    requires StoredFrontier(env, t, source) == (if source in s.checkpoints
               then Max(StoredFrontier(env, s, source), s.workers[w].phase.target) else s.workers[w].phase.target)
    ensures Serial(env, t, source)
  {
    assert InWindow(s, w, source) && WindowOk(env, s, w, source);
    forall v | InWindow(t, v, source) ensures v == w {
      assert v != w ==> InWindow(s, v, source);
    }
  }

  lemma SuccessClosesWindow(env: Env, s: State, step: Step, source: SourceId)
    requires Invariant(env, s) && step.SucceedStep? && CanTake(env, s, step) && Serial(env, s, source)
    ensures Serial(env, Take(env, s, step), source)
  {
    var w := step.w;
    var t := Take(env, s, step);
    var frontier := StoredFrontier(env, s, source);
    FrontierMoves(env, s, step, source);
    SuccessCovers(env, s, step, source, frontier + 1);
    if IsIngestTask(s.workers[w], source) {
      assert InWindow(s, w, source) && WindowOk(env, s, w, source);
      forall v ensures !InWindow(t, v, source) {
        if InWindow(t, v, source) {
          WindowKept(env, s, step, source, v);
        }
      }
    } else {
      forall v | InWindow(t, v, source) ensures WindowOk(env, t, v, source) && InWindow(s, v, source) {
        WindowKept(env, s, step, source, v);
        OtherSuccess(env, s, step, source, v);
      }
    }
  }

  /** Marking a job that is no ingest of the source covers nothing new. */
  lemma OtherSuccess(env: Env, s: State, step: Step, source: SourceId, v: WorkerId)
    requires Invariant(env, s) && step.SucceedStep? && CanTake(env, s, step) && source in env.sources
    requires !IsIngestTask(s.workers[step.w], source)
    requires v in s.workers && v in Take(env, s, step).workers && WindowOk(env, s, v, source)
    ensures WindowOk(env, Take(env, s, step), v, source)
  {
    var t := Take(env, s, step);
    OtherTasksUnchanged(env, s, step, v);
    FrontierMoves(env, s, step, source);
    forall block ensures Covers(t.queue.jobs, source, None, block) ==> Covers(s.queue.jobs, source, None, block) {
      SuccessAdds(env, s, step, source, block);
    }
    WindowUncovered(env, s, t, v, source);
  }

  lemma WindowUncovered(env: Env, s: State, t: State, v: WorkerId, source: SourceId)
    requires source in env.sources && v in s.workers && WindowOk(env, s, v, source)
    requires v in t.workers && t.workers[v] == s.workers[v]
    requires StoredFrontier(env, t, source) == StoredFrontier(env, s, source)
    requires forall block :: Covers(t.queue.jobs, source, None, block) ==> Covers(s.queue.jobs, source, None, block)
    ensures WindowOk(env, t, v, source)
  {
    var range := RangeOf(s.workers[v].job);
    forall block ensures Covers(t.queue.jobs, source, range, block) ==> Covers(s.queue.jobs, source, range, block) {
      assert Covers(t.queue.jobs, source, None, block) ==> Covers(s.queue.jobs, source, None, block);
    }
  }

  lemma SerialStepSettles(env: Env, s: State, step: Step, source: SourceId)
    requires Invariant(env, s) && CanTake(env, s, step) && Serial(env, s, source)
    requires IsSerialStep(env, s, step, source)
    ensures Serial(env, Take(env, s, step), source)
  {
    if step.TargetStep? {
      TargetOpensWindow(env, s, step, source);
    } else if step.AdvanceStep? {
      AdvanceMovesWindow(env, s, step, source);
    } else if step.SucceedStep? {
      SuccessClosesWindow(env, s, step, source);
    } else {
      QuietStep(env, s, step, source);
    }
  }

  ghost predicate IsSerialRun(env: Env, clock: int, steps: seq<Step>, source: SourceId)
    requires IsTrace(env, Initial(clock), steps) && source in env.sources
  {
    steps == [] ||
    var init := steps[..|steps| - 1];
    IsSerialRun(env, clock, init, source)
        && IsSerialStep(env, After(env, Initial(clock), init), steps[|steps| - 1], source)
  }

  lemma {:induction false} SerialRunSettles(env: Env, clock: int, steps: seq<Step>, source: SourceId)
    requires IsTrace(env, Initial(clock), steps) && source in env.sources && IsSerialRun(env, clock, steps, source)
    ensures Serial(env, After(env, Initial(clock), steps), source)
    decreases |steps|
  {
    if steps == [] {
    } else {
      var init := steps[..|steps| - 1];
      SerialRunSettles(env, clock, init, source);
      EveryRunInvariant(env, clock, init);
      SerialStepSettles(env, After(env, Initial(clock), init), steps[|steps| - 1], source);
    }
  }

  /** A backfill reaches the stored checkpoint: if targets are computed one worker at a time and are
      final for the worker that computes them, then as soon as every planned job has succeeded the
      stored checkpoint has reached the end of the request, in every state of every such run. */
  lemma SerialBackfillReaches(env: Env, clock: int, steps: seq<Step>, source: SourceId, planned: Option<Checkpoint>,
                              from: U64, to: U64, size: int, ranges: seq<Chunk>)
    requires IsTrace(env, Initial(clock), steps) && source in env.sources && IsSerialRun(env, clock, steps, source)
    requires IsPlan(planned, env.sources[source].startBlock, from, to, size, ranges)
    requires PlannedFrontier(planned, env.sources[source].startBlock)
             <= StoredFrontier(env, After(env, Initial(clock), steps), source)
    requires ChunksDone(After(env, Initial(clock), steps).queue.jobs, source, ranges, None)
    ensures to <= StoredFrontier(env, After(env, Initial(clock), steps), source)
  {
    SerialRunSettles(env, clock, steps, source);
    SettledPlan(env, After(env, Initial(clock), steps), source, planned, from, to, size, ranges);
  }
}
