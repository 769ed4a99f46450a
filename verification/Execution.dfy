/** The execution of one job by a worker, as a program on the ledger repository, and that it takes
    the steps of the protocol: whatever is proved of the protocol's runs holds of this program. */
module Executions {
  import opened Wrappers
  import opened Domain
  import opened JobQueue
  import opened Checkpoints
  import opened Frontier
  import opened Backfill
  import opened Batches
  import opened Evm
  import opened Protocol
  import opened LedgerRepositories
  import L = LedgerModel
  import I = Ingests

  /** What the RPC answers during one execution. */
  datatype Answers = Answers(history: I.History, timestamps: nat -> int, blockHash: int -> Option<string>,
                             finalized: int)

  /** The configuration of the worker and of the source's standard. */
  datatype Settings = Settings(standard: TokenStandard, chunkSize: U64)

  /** The canonical rows of the job's range are those that its logs decode to. */
  ghost predicate IsCanonical(env: Env, source: Source, settings: Settings, answers: Answers, from: nat, to: int) {
    forall standard :: I.Resolves(answers.history, settings.standard, from, to, settings.chunkSize, standard) ==>
      BlocksCanonical(env, source, standard, answers, from, to)
  }

  ghost predicate BlocksCanonical(env: Env, source: Source, standard: TokenStandard, answers: Answers, from: nat,
                                  to: int) {
    forall block: nat ::
      from <= block <= to
      && I.RangeItems(answers.history, source, standard, answers.timestamps, block, block).Ok? ==>
        env.blockItems(source.id, block)
        == I.RangeItems(answers.history, source, standard, answers.timestamps, block, block).value
  }

  /** The repository holds the tables of the protocol state. */
  ghost predicate Mirrors(repository: LedgerRepository, s: State)
    reads repository
  {
    repository.Contents() == s.ledger && repository.checkpoints == s.checkpoints
  }

  /** Sources go by their identifiers, and start blocks, checkpoints and ranges fit their columns. */
  ghost predicate Fits(env: Env, s: State) {
    && (forall id :: id in env.sources ==> env.sources[id].id == id && env.sources[id].startBlock <= I64_MAX)
    && (forall id :: id in s.checkpoints ==> 0 <= s.checkpoints[id].processed <= I64_MAX)
    && (forall id :: id in s.queue.jobs ==> FitsColumns(s.queue.jobs[id]))
  }

  /** The worker is at this phase of this job. */
  ghost predicate IsAt(s: State, w: WorkerId, job: Job, phase: Phase) {
    w in s.workers && s.workers[w].job == job && s.workers[w].phase == phase
  }

  // ---------------------------------------------------------------- what the steps do

  lemma ValidateEffect(env: Env, s: State, step: Step)
    requires CanTake(env, s, step) && step.ValidateStep?
    ensures var t := Take(env, s, step);
            && t.ledger == s.ledger && t.checkpoints == s.checkpoints && t.queue == s.queue
            && IsAt(t, step.w, s.workers[step.w].job, Validated(step.observedFinalized))
  {
  }

  lemma OrphanEffect(env: Env, s: State, step: Step)
    requires CanTake(env, s, step) && step.OrphanStep?
    ensures var t := Take(env, s, step);
            && OrphanResult(env, s, s.workers[step.w].job, step.order) == Some(t.ledger)
            && t.checkpoints == s.checkpoints && t.queue == s.queue
            && IsAt(t, step.w, s.workers[step.w].job, Cleared(s.workers[step.w].phase.finalized))
  {
  }

  lemma PersistEffect(env: Env, s: State, step: Step)
    requires CanTake(env, s, step) && step.PersistStep?
    ensures var t := Take(env, s, step);
            && PersistResult(env, s, s.workers[step.w].job) == Some(t.ledger)
            && t.checkpoints == s.checkpoints && t.queue == s.queue
            && IsAt(t, step.w, s.workers[step.w].job, Persisted(s.workers[step.w].phase.finalized))
  {
  }

  lemma TargetEffect(env: Env, s: State, step: Step)
    requires CanTake(env, s, step) && step.TargetStep?
    ensures var t := Take(env, s, step);
            var finalized := s.workers[step.w].phase.finalized;
            var moves := step.end > StoredFrontier(env, s, s.workers[step.w].job.source.value);
            && t.ledger == s.ledger && t.checkpoints == s.checkpoints && t.queue == s.queue
            && IsAt(t, step.w, s.workers[step.w].job,
                    if moves && step.end <= finalized then Targeted(finalized, step.end) else Finished)
  {
  }

  lemma AdvanceEffect(env: Env, s: State, step: Step)
    requires CanTake(env, s, step) && step.AdvanceStep?
    ensures var t := Take(env, s, step);
            var source := s.workers[step.w].job.source.value;
            && t.ledger == s.ledger && t.queue == s.queue
            && t.checkpoints == s.checkpoints[source :=
                 Advance(StoredCheckpoint(s, source), s.workers[step.w].phase.target, step.hash,
                         s.workers[step.w].phase.finalized).value]
            && IsAt(t, step.w, s.workers[step.w].job, Finished)
  {
  }

  // ---------------------------------------------------------------- when they may be taken

  lemma CanValidate(env: Env, s: State, step: Step, job: Job)
    requires step.ValidateStep? && IsAt(s, step.w, job, Started) && IsRangeJob(env, job)
    requires job.to.value <= step.observedFinalized
    ensures CanTake(env, s, step)
  {
  }

  lemma CanPersist(env: Env, s: State, step: Step, job: Job, finalized: int)
    requires step.PersistStep? && IsRangeJob(env, job) && job.from.value <= job.to.value
    requires IsAt(s, step.w, job, if job.jobType.ReplayRange? then Cleared(finalized) else Validated(finalized))
    requires PersistResult(env, s, job).Some?
    ensures CanTake(env, s, step)
  {
  }

  lemma CanTarget(env: Env, s: State, step: Step, job: Job, finalized: int)
    requires step.TargetStep? && IsAt(s, step.w, job, Persisted(finalized)) && IsRangeJob(env, job)
    requires job.jobType.IngestRange?
    requires IsNextTarget(s.queue.jobs, job.source.value, StoredFrontier(env, s, job.source.value),
                          Some((job.from.value, job.to.value)), step.end)
    ensures CanTake(env, s, step)
  {
  }

  lemma CanAdvance(env: Env, s: State, step: Step, job: Job, target: int, finalized: int)
    requires step.AdvanceStep? && IsAt(s, step.w, job, Targeted(finalized, target)) && IsRangeJob(env, job)
    requires Advance(StoredCheckpoint(s, job.source.value), target, step.hash, finalized).Ok?
    ensures CanTake(env, s, step)
  {
  }

  // ---------------------------------------------------------------- the parts of an execution

  /** A range job of a configured source, and its range is final. */
  method ValidateJob(job: Job, sources: map<SourceId, Source>, finalized: int, ghost env: Env)
    returns (source: Result<Source>)
    requires sources == env.sources
    ensures source.Ok? <==> IsRangeJob(env, job) && job.to.value <= finalized
    ensures source.Ok? ==> source.value == sources[job.source.value]
  {
    if !job.jobType.IngestRange? && !job.jobType.ReplayRange? {
      return Err;
    }
    if job.source == None || job.from == None || job.to == None {
      return Err;
    }
    if job.from.value < 0 || job.to.value < 0 {
      return Err;
    }
    if job.source.value !in sources {
      return Err;
    }
    var found := sources[job.source.value];
    if found.chain != job.chain {
      return Err;
    }
    if job.to.value > finalized {
      return Err;
    }
    return Ok(found);
  }

  /** The reversal of a replayed range is the orphan step. */
  method OrphanRange(repository: LedgerRepository, source: Source, job: Job, ghost env: Env, ghost s: State,
                     ghost w: WorkerId, ghost finalized: int)
    returns (orphaned: Result<nat>, ghost step: Step)
    requires Mirrors(repository, s) && Fits(env, s) && IsAt(s, w, job, Validated(finalized))
    requires IsRangeJob(env, job) && job.jobType.ReplayRange? && source == env.sources[job.source.value]
    modifies repository`rows, repository`balances
    ensures step.OrphanStep? && step.w == w
    ensures orphaned.Ok? ==> CanTake(env, s, step) && Mirrors(repository, Take(env, s, step))
    ensures orphaned == Err ==> Mirrors(repository, s)
  {
    ghost var order;
    orphaned, order := repository.OrphanSourceRange(source.id, job.from.value, job.to.value);
    step := OrphanStep(w, order);
    if orphaned.Ok? {
      OrphanEffect(env, s, step);
    }
  }

  /** A transaction that persists the rows of the range is the persist step. */
  lemma RangePersisted(env: Env, s: State, step: Step, job: Job, source: Source, standard: TokenStandard,
                       answers: Answers, ledger: L.Db, finalized: int)
    requires step.PersistStep? && IsRangeJob(env, job) && source == env.sources[job.source.value]
    requires source.id == job.source.value && job.from.value <= job.to.value
    requires IsAt(s, step.w, job, if job.jobType.ReplayRange? then Cleared(finalized) else Validated(finalized))
    requires BlocksCanonical(env, source, standard, answers, job.from.value, job.to.value)
    requires var items := I.RangeItems(answers.history, source, standard, answers.timestamps, job.from.value,
                                       job.to.value);
             items.Ok? && L.PersistAll(s.ledger, items.value, job.jobType.ReplayRange?) == Some(ledger)
    ensures CanTake(env, s, step)
    ensures Take(env, s, step).ledger == ledger && Take(env, s, step).checkpoints == s.checkpoints
  {
    I.CanonicalRows(env, answers.history, source, standard, answers.timestamps, job.from.value, job.to.value);
    assert PersistResult(env, s, job) == Some(ledger);
    CanPersist(env, s, step, job, finalized);
    PersistEffect(env, s, step);
  }

  /** Fetching, decoding and persisting the range is the persist step. */
  method PersistRange(repository: LedgerRepository, source: Source, job: Job, settings: Settings, answers: Answers,
                      ghost env: Env, ghost s: State, ghost w: WorkerId, ghost finalized: int)
    returns (persisted: Result<nat>)
    requires Mirrors(repository, s) && Fits(env, s)
    requires IsRangeJob(env, job) && source == env.sources[job.source.value] && FitsColumns(job)
    requires IsAt(s, w, job, if job.jobType.ReplayRange? then Cleared(finalized) else Validated(finalized))
    requires IsCanonical(env, source, settings, answers, job.from.value, job.to.value)
    modifies repository`rows, repository`balances
    ensures persisted.Ok? ==> CanTake(env, s, PersistStep(w)) && Mirrors(repository, Take(env, s, PersistStep(w)))
    ensures persisted == Err ==> Mirrors(repository, s)
  {
    var from: U64, to: U64 := job.from.value, job.to.value;
    persisted := I.IngestSourceRange(repository, source, settings.standard, answers.history, answers.timestamps, from,
                                     to, settings.chunkSize, None, job.jobType.ReplayRange?);
    if persisted.Ok? {
      ghost var standard :|
        I.Resolves(answers.history, settings.standard, from, to, settings.chunkSize, standard);
      RangePersisted(env, s, PersistStep(w), job, source, standard, answers, repository.Contents(), finalized);
    }
  }

  /** The target that the repository computes is one that the target step may take, so every block
      up to it lies in a committed ingest. */
  method ComputeTarget(repository: LedgerRepository, jobs: map<JobId, Job>, source: Source, job: Job,
                       ghost env: Env, ghost s: State, ghost w: WorkerId, ghost finalized: int)
    returns (target: Result<Option<int>>, ghost step: Step)
    requires Invariant(env, s) && Mirrors(repository, s) && Fits(env, s) && jobs == s.queue.jobs
    requires IsRangeJob(env, job) && job.jobType.IngestRange? && source == env.sources[job.source.value]
    requires IsAt(s, w, job, Persisted(finalized)) && FitsColumns(job)
    ensures target.Ok? <==> job.from.value <= job.to.value
    ensures target.Ok? ==> step.TargetStep? && step.w == w && CanTake(env, s, step)
    ensures target.Ok? ==> IngestedUpTo(env, s.committed, source.id, step.end)
    ensures target.Ok? ==>
              if target.value.Some? then step.end == target.value.value > StoredFrontier(env, s, source.id)
              else step.end == StoredFrontier(env, s, source.id)
  {
    target := repository.NextContiguousCheckpointTarget(jobs, source, Some((job.from.value, job.to.value)));
    step := TargetStep(w, if target.Ok? && target.value.Some? then target.value.value
                          else StoredFrontier(env, s, source.id));
    if target.Ok? {
      CanTarget(env, s, step, job, finalized);
      TargetIngested(env, s, w, step.end);
    }
  }

  // ---------------------------------------------------------------- a whole execution

  /** The steps lead from one state to another, and all are the worker's own. */
  ghost predicate Leads(env: Env, s: State, steps: seq<Step>, t: State, w: WorkerId) {
    && IsTrace(env, s, steps) && After(env, s, steps) == t && Invariant(env, t)
    && forall i :: 0 <= i < |steps| ==> Acts(steps[i], w)
  }

  lemma LeadsOn(env: Env, s: State, steps: seq<Step>, t: State, w: WorkerId, step: Step)
    requires Leads(env, s, steps, t, w) && CanTake(env, t, step) && Acts(step, w)
    ensures Leads(env, s, steps + [step], Take(env, t, step), w)
  {
    var all := steps + [step];
    assert all[..|all| - 1] == steps;
    StepKeepsInvariant(env, t, step);
  }

  /** The worker holds the job and may mark it succeeded, or else give it up. */
  ghost predicate IsOver(env: Env, s: State, w: WorkerId, job: Job, ok: bool) {
    && w in s.workers && s.workers[w].job == job
    && if ok then CanTake(env, s, SucceedStep(w)) else CanTake(env, s, GiveUpStep(w))
  }

  lemma OverAt(env: Env, s: State, w: WorkerId, job: Job, phase: Phase, ok: bool)
    requires Invariant(env, s) && IsAt(s, w, job, phase)
    requires ok ==> phase.Finished? || (phase.Persisted? && job.jobType.ReplayRange?)
    requires !ok ==> !phase.JustLeased? && !phase.Finished?
    ensures IsOver(env, s, w, job, ok)
  {
    assert TaskOk(env, s, s.workers[w]);
  }

  /** A checkpoint that has moved carries the hash that the chain gives for its processed block. */
  ghost predicate HashesGenuine(before: map<SourceId, Checkpoint>, after: map<SourceId, Checkpoint>, answers: Answers) {
    forall source :: source in after && (source in before ==> before[source].processed != after[source].processed) ==>
      answers.blockHash(after[source].processed) == Some(after[source].hash)
  }

  lemma MovedHash(before: map<SourceId, Checkpoint>, source: SourceId, target: int, hash: string, answers: Answers)
    requires answers.blockHash(target) == Some(hash)
    requires var existing := if source in before then Some(before[source]) else None;
             Advance(existing, target, hash, answers.finalized).Ok?
    ensures var existing := if source in before then Some(before[source]) else None;
            HashesGenuine(before, before[source := Advance(existing, target, hash, answers.finalized).value], answers)
  {
    var existing := if source in before then Some(before[source]) else None;
    AdvanceHash(existing, target, hash, answers.finalized);
  }

  /** The checkpoint moves to a final target under the hash of that block. */
  method MoveCheckpoint(repository: LedgerRepository, source: Source, job: Job, target: int, answers: Answers,
                        ghost env: Env, ghost s: State, ghost w: WorkerId, ghost before: seq<Step>, ghost now: State)
    returns (ok: bool, ghost steps: seq<Step>, ghost t: State)
    requires Leads(env, s, before, now, w) && Mirrors(repository, now)
    requires IsRangeJob(env, job) && source == env.sources[job.source.value] && source.id == job.source.value
    requires IsAt(now, w, job, Targeted(answers.finalized, target))
    modifies repository`checkpoints
    ensures Leads(env, s, steps, t, w) && Mirrors(repository, t) && IsOver(env, t, w, job, ok) && before <= steps
    ensures HashesGenuine(old(repository.checkpoints), repository.checkpoints, answers)
  {
    steps, t := before, now;
    OverAt(env, t, w, job, Targeted(answers.finalized, target), false);
    var hash := answers.blockHash(target);
    if hash == None {
      return false, steps, t;
    }
    var advanced := repository.AdvanceCheckpoint(source.id, target, hash.value, answers.finalized);
    if advanced == Err {
      return false, steps, t;
    }
    MovedHash(old(repository.checkpoints), source.id, target, hash.value, answers);
    ghost var step := AdvanceStep(w, hash.value);
    CanAdvance(env, t, step, job, target, answers.finalized);
    LeadsOn(env, s, steps, t, w, step);
    AdvanceEffect(env, t, step);
    steps, t := steps + [step], Take(env, t, step);
    OverAt(env, t, w, job, Finished, true);
    return true, steps, t;
  }

  /** After the target step the job is finished, or the target is final and awaits the checkpoint. */
  lemma TargetTaken(env: Env, s: State, steps: seq<Step>, now: State, w: WorkerId, step: Step, job: Job,
                    finalized: int)
    requires Leads(env, s, steps, now, w) && IsAt(now, w, job, Persisted(finalized)) && IsRangeJob(env, job)
    requires step.TargetStep? && step.w == w && CanTake(env, now, step)
    ensures var t := Take(env, now, step);
            && Leads(env, s, steps + [step], t, w)
            && t.ledger == now.ledger && t.checkpoints == now.checkpoints
            && if StoredFrontier(env, now, job.source.value) < step.end <= finalized
               then IsAt(t, w, job, Targeted(finalized, step.end))
               else IsAt(t, w, job, Finished) && IsOver(env, t, w, job, true)
  {
    LeadsOn(env, s, steps, now, w, step);
    TargetEffect(env, now, step);
    if IsAt(Take(env, now, step), w, job, Finished) {
      OverAt(env, Take(env, now, step), w, job, Finished, true);
    }
  }

  /** The end of an ingest job: the target is computed, and if it is final the checkpoint moves. */
  method AdvanceRange(repository: LedgerRepository, jobs: map<JobId, Job>, source: Source, job: Job, answers: Answers,
                      ghost env: Env, ghost s: State, ghost w: WorkerId, ghost before: seq<Step>, ghost now: State)
    returns (ok: bool, ghost steps: seq<Step>, ghost t: State)
    requires Leads(env, s, before, now, w) && Mirrors(repository, now) && Fits(env, now) && jobs == now.queue.jobs
    requires IsRangeJob(env, job) && job.jobType.IngestRange? && source == env.sources[job.source.value]
    requires IsAt(now, w, job, Persisted(answers.finalized)) && FitsColumns(job)
    modifies repository`checkpoints
    ensures Leads(env, s, steps, t, w) && Mirrors(repository, t) && IsOver(env, t, w, job, ok) && before <= steps
    ensures HashesGenuine(old(repository.checkpoints), repository.checkpoints, answers)
  {
    steps, t := before, now;
    var target, step := ComputeTarget(repository, jobs, source, job, env, t, w, answers.finalized);
    if target == Err {
      OverAt(env, t, w, job, Persisted(answers.finalized), false);
      return false, steps, t;
    }
    TargetTaken(env, s, steps, t, w, step, job, answers.finalized);
    steps, t := steps + [step], Take(env, t, step);
    if target.value == None || target.value.value > answers.finalized {
      return true, steps, t;
    }
    ok, steps, t := MoveCheckpoint(repository, source, job, target.value.value, answers, env, s, w, steps, t);
  }

  /** A replay reverses its range before it persists it again. */
  method ClearRange(repository: LedgerRepository, source: Source, job: Job, ghost env: Env, ghost s: State,
                    ghost w: WorkerId, ghost finalized: int, ghost before: seq<Step>, ghost now: State)
    returns (ok: bool, ghost steps: seq<Step>, ghost t: State)
    requires Leads(env, s, before, now, w) && Mirrors(repository, now) && Fits(env, now)
    requires IsRangeJob(env, job) && source == env.sources[job.source.value]
    requires IsAt(now, w, job, Validated(finalized))
    modifies repository`rows, repository`balances
    ensures Leads(env, s, steps, t, w) && Mirrors(repository, t) && before <= steps
    ensures t.checkpoints == now.checkpoints && t.queue == now.queue
    ensures ok ==> IsAt(t, w, job, if job.jobType.ReplayRange? then Cleared(finalized) else Validated(finalized))
    ensures !ok ==> IsOver(env, t, w, job, false)
  {
    steps, t := before, now;
    if job.jobType.IngestRange? {
      return true, steps, t;
    }
    OverAt(env, t, w, job, Validated(finalized), false);
    var orphaned, step := OrphanRange(repository, source, job, env, t, w, finalized);
    if orphaned == Err {
      return false, steps, t;
    }
    LeadsOn(env, s, steps, t, w, step);
    OrphanEffect(env, t, step);
    steps, t := steps + [step], Take(env, t, step);
    return true, steps, t;
  }

  /** The ledger part of an execution. */
  method StoreRange(repository: LedgerRepository, source: Source, job: Job, settings: Settings, answers: Answers,
                    ghost env: Env, ghost s: State, ghost w: WorkerId, ghost before: seq<Step>, ghost now: State)
    returns (ok: bool, ghost steps: seq<Step>, ghost t: State)
    requires Leads(env, s, before, now, w) && Mirrors(repository, now) && Fits(env, now)
    requires IsRangeJob(env, job) && source == env.sources[job.source.value] && FitsColumns(job)
    requires IsAt(now, w, job, Validated(answers.finalized))
    requires IsCanonical(env, source, settings, answers, job.from.value, job.to.value)
    modifies repository`rows, repository`balances
    ensures Leads(env, s, steps, t, w) && Mirrors(repository, t) && before <= steps
    ensures t.checkpoints == now.checkpoints && t.queue == now.queue
    ensures if ok then IsAt(t, w, job, Persisted(answers.finalized)) else IsOver(env, t, w, job, false)
  {
    ok, steps, t := ClearRange(repository, source, job, env, s, w, answers.finalized, before, now);
    if !ok {
      return false, steps, t;
    }
    OverAt(env, t, w, job, t.workers[w].phase, false);
    var persisted := PersistRange(repository, source, job, settings, answers, env, t, w, answers.finalized);
    if persisted == Err {
      return false, steps, t;
    }
    ghost var step := PersistStep(w);
    LeadsOn(env, s, steps, t, w, step);
    PersistEffect(env, t, step);
    steps, t := steps + [step], Take(env, t, step);
    return true, steps, t;
  }

  /** The rest of an execution, once the job has been validated. */
  method RunRange(repository: LedgerRepository, jobs: map<JobId, Job>, source: Source, job: Job, settings: Settings,
                  answers: Answers, ghost env: Env, ghost s: State, ghost w: WorkerId, ghost before: seq<Step>,
                  ghost now: State)
    returns (ok: bool, ghost steps: seq<Step>, ghost t: State)
    requires Leads(env, s, before, now, w) && Mirrors(repository, now) && Fits(env, now) && jobs == now.queue.jobs
    requires IsRangeJob(env, job) && source == env.sources[job.source.value] && FitsColumns(job)
    requires IsAt(now, w, job, Validated(answers.finalized))
    requires IsCanonical(env, source, settings, answers, job.from.value, job.to.value)
    modifies repository
    ensures Leads(env, s, steps, t, w) && Mirrors(repository, t) && IsOver(env, t, w, job, ok) && before <= steps
    ensures HashesGenuine(old(repository.checkpoints), repository.checkpoints, answers)
  {
    ok, steps, t := StoreRange(repository, source, job, settings, answers, env, s, w, before, now);
    if !ok {
      return false, steps, t;
    }
    if job.jobType.ReplayRange? {
      OverAt(env, t, w, job, Persisted(answers.finalized), true);
      return true, steps, t;
    }
    ok, steps, t := AdvanceRange(repository, jobs, source, job, answers, env, s, w, steps, t);
  }

  /** An ingest or replay job with a range of blocks that is final, of a configured source of the same
      chain. */
  predicate IsExecutable(job: Job, sources: map<SourceId, Source>, finalized: int) {
    && job.jobType in {IngestRange, ReplayRange}
    && job.source.Some? && job.from.Some? && job.to.Some?
    && job.from.value >= 0 && 0 <= job.to.value <= finalized
    && job.source.value in sources && sources[job.source.value].chain == job.chain
  }

  lemma ExecutableMeans(env: Env, job: Job, finalized: int)
    ensures IsExecutable(job, env.sources, finalized) <==> IsRangeJob(env, job) && job.to.value <= finalized
  {
  }

  lemma ValidateTaken(env: Env, s: State, step: Step, job: Job)
    requires Invariant(env, s) && step.ValidateStep? && IsAt(s, step.w, job, Started) && IsRangeJob(env, job)
    requires job.to.value <= step.observedFinalized
    ensures CanTake(env, s, step)
    ensures var t := Take(env, s, step);
            && Leads(env, s, [step], t, step.w) && IsAt(t, step.w, job, Validated(step.observedFinalized))
            && t.ledger == s.ledger && t.checkpoints == s.checkpoints && t.queue == s.queue
  {
    CanValidate(env, s, step, job);
    LeadsOn(env, s, [], s, step.w, step);
    ValidateEffect(env, s, step);
    assert [] + [step] == [step];
  }

  /** Executes one job.  Uninterrupted, the program takes steps of the protocol, and the repository
      holds what the protocol says after every exit; on success the worker may mark the job
      succeeded, and on failure it may give it up. */
  method ExecuteJob(repository: LedgerRepository, jobs: map<JobId, Job>, sources: map<SourceId, Source>, job: Job,
                    settings: Settings, answers: Answers, ghost env: Env, ghost s: State, ghost w: WorkerId)
    returns (ok: bool, ghost steps: seq<Step>, ghost t: State)
    requires Invariant(env, s) && Mirrors(repository, s) && Fits(env, s)
    requires jobs == s.queue.jobs && sources == env.sources && IsAt(s, w, job, Started) && FitsColumns(job)
    requires IsRangeJob(env, job) ==>
               IsCanonical(env, sources[job.source.value], settings, answers, job.from.value, job.to.value)
    modifies repository
    ensures Leads(env, s, steps, t, w) && Mirrors(repository, t) && IsOver(env, t, w, job, ok)
    ensures steps != [] ==> steps[0] == ValidateStep(w, answers.finalized)
    ensures ok ==> IsExecutable(job, sources, answers.finalized)
    ensures !IsExecutable(job, sources, answers.finalized) ==> steps == [] && t == s
    ensures HashesGenuine(old(repository.checkpoints), repository.checkpoints, answers)
  {
    steps, t := [], s;
    ExecutableMeans(env, job, answers.finalized);
    var source := ValidateJob(job, sources, answers.finalized, env);
    if source == Err {
      OverAt(env, t, w, job, Started, false);
      return false, steps, t;
    }
    ghost var step := ValidateStep(w, answers.finalized);
    ValidateTaken(env, s, step, job);
    steps, t := [step], Take(env, s, step);
    ok, steps, t := RunRange(repository, jobs, source.value, job, settings, answers, env, s, w, steps, t);
  }
}
