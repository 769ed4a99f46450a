/** The worker loop: lease one job, run it, mark it, until the queue is idle. */
module Workers {
  import opened Wrappers
  import opened Sums
  import opened JobQueue
  import opened JobRepositories

  datatype WorkerOutcome = NoJob | ProcessedJob(id: JobId) | FailedJob(id: JobId, status: JobStatus)

  function TakenJob(outcome: WorkerOutcome): Option<JobId> {
    if outcome.NoJob? then None else Some(outcome.id)
  }

  datatype StopReason = Idle | MaxJobsReached

  datatype WorkerRunSummary = WorkerRunSummary(processed: nat, failed: nat, stopReason: StopReason) {
    function Attempted(): nat {
      processed + failed
    }
  }

  // ---------------------------------------------------------------- the measure

  /** How often a lone worker may still have to take a job. */
  function Weight(job: Job): nat {
    if job.status.Queued? || InFlight(job.status)
    then 1 + (if job.attempts < job.maxAttempts then job.maxAttempts - job.attempts else 0)
    else 0
  }

  ghost function WeightAt(q: Queue): JobId -> int {
    id => if id in q.jobs then Weight(q.jobs[id]) else 0
  }

  ghost function UnfinishedWork(q: Queue): int {
    Sum(q.jobs.Keys, WeightAt(q))
  }

  lemma {:induction false} SumNonNegative<K(!new)>(s: set<K>, f: K -> int)
    requires forall k :: k in s ==> f(k) >= 0
    ensures Sum(s, f) >= 0
    decreases s
  {
    if s == {} {
    } else {
      var k :| k in s;
      SumRemove(s, f, k);
      SumNonNegative(s - {k}, f);
    }
  }

  lemma WorkNonNegative(q: Queue)
    ensures UnfinishedWork(q) >= 0
  {
    SumNonNegative(q.jobs.Keys, WeightAt(q));
  }

  lemma WorkChanges(q: Queue, r: Queue, id: JobId)
    requires id in q.jobs && r.jobs.Keys == q.jobs.Keys
    requires forall k :: k in q.jobs && k != id ==> r.jobs[k] == q.jobs[k]
    ensures UnfinishedWork(r) - UnfinishedWork(q) == Weight(r.jobs[id]) - Weight(q.jobs[id])
  {
    SumRemove(q.jobs.Keys, WeightAt(q), id);
    SumRemove(r.jobs.Keys, WeightAt(r), id);
    SumCongruent(q.jobs.Keys - {id}, WeightAt(q), WeightAt(r));
  }

  /** One complete execution of a job, the way a lone worker does it. */
  ghost function Executed(q: Queue, id: JobId, worker: WorkerId, leasedAt: int, leaseFor: int, runAt: int,
                          success: bool, doneAt: int): Queue
    requires id in q.jobs
  {
    var running := RunJob(LeaseJob(q, id, worker, leasedAt, leaseFor), id, runAt);
    if success then SucceedJob(running, id, doneAt) else FailJob(running, id, IngestJobError, doneAt)
  }

  /** Whatever its outcome and the time of each step, an execution uses up work. */
  lemma ExecutionProgress(q: Queue, id: JobId, worker: WorkerId, filterTime: int, leasedAt: int, leaseFor: int,
                          runAt: int, success: bool, doneAt: int)
    requires id in q.jobs && Eligible(q.jobs[id], filterTime)
    ensures UnfinishedWork(Executed(q, id, worker, leasedAt, leaseFor, runAt, success, doneAt)) < UnfinishedWork(q)
  {
    WorkChanges(q, Executed(q, id, worker, leasedAt, leaseFor, runAt, success, doneAt), id);
  }

  /** The results of the first passes. */
  ghost function Results(succeeds: nat -> bool, passes: nat): seq<bool> {
    seq(passes, i requires 0 <= i < passes => succeeds(i))
  }

  /** The counters count the successes and the failures of the passes so far. */
  ghost predicate Tallied(succeeds: nat -> bool, processed: nat, failed: nat) {
    var results := multiset(Results(succeeds, processed + failed));
    results[true] == processed && results[false] == failed
  }

  lemma TallyNext(succeeds: nat -> bool, processed: nat, failed: nat)
    requires Tallied(succeeds, processed, failed)
    ensures if succeeds(processed + failed) then Tallied(succeeds, processed + 1, failed)
            else Tallied(succeeds, processed, failed + 1)
  {
    var n := processed + failed;
    assert Results(succeeds, n + 1) == Results(succeeds, n) + [succeeds(n)];
    assert processed + 1 + failed == n + 1;
  }

  // ---------------------------------------------------------------- the worker

  /** The clock readings of one pass, in order: each lease query reads the clock for its filter and
      again for its update, and each mark reads it once more. */
  datatype Reading = Reading(firstFilter: int, firstLease: int, secondFilter: int, secondLease: int, started: int,
                             finished: int)

  type Readings = r: Reading |
    r.firstFilter <= r.firstLease <= r.secondFilter <= r.secondLease <= r.started <= r.finished
    witness Reading(0, 0, 0, 0, 0, 0)

  /** Some job of this type is free at this time, on the worker's chain if it has one. */
  ghost predicate HasFree(jobs: map<JobId, Job>, jobType: JobType, chain: Option<int>, time: int) {
    exists id :: id in jobs && IsPick(jobs, jobType, chain, time, id)
  }

  predicate IsPick(jobs: map<JobId, Job>, jobType: JobType, chain: Option<int>, time: int, id: JobId) {
    && id in jobs && jobs[id].jobType == jobType && (chain.Some? ==> jobs[id].chain == chain.value)
    && IsFree(jobs[id], time)
  }

  /** A pass takes a free job of the first type if there is one when it asks for it, otherwise one of
      the second type if there is one when it asks for that, otherwise none. */
  ghost predicate Prefers(jobs: map<JobId, Job>, first: JobType, second: JobType, chain: Option<int>, clock: Readings,
                          taken: Option<JobId>)
  {
    if HasFree(jobs, first, chain, clock.firstFilter)
    then taken.Some? && IsPick(jobs, first, chain, clock.firstFilter, taken.value)
    else if HasFree(jobs, second, chain, clock.secondFilter)
        then taken.Some? && IsPick(jobs, second, chain, clock.secondFilter, taken.value)
    else taken == None
  }

  class IngestWorker {
    const repository: JobRepository
    const workerId: WorkerId
    const leaseFor: int
    const chunkSize: nat
    const chain: Option<int>
    var replayFirst: bool

    constructor (repository: JobRepository, workerId: WorkerId, leaseFor: int, chunkSize: nat, chain: Option<int>)
      ensures this.repository == repository && this.workerId == workerId && this.leaseFor == leaseFor
      ensures this.chunkSize == chunkSize && this.chain == chain && replayFirst
    {
      this.repository := repository;
      this.workerId := workerId;
      this.leaseFor := leaseFor;
      this.chunkSize := chunkSize;
      this.chain := chain;
      this.replayFirst := true;
    }

    ghost function Contents(): Queue
      reads repository
    {
      repository.Contents()
    }

    function FirstType(): JobType
      reads this
    {
      if replayFirst then ReplayRange else IngestRange
    }

    function SecondType(): JobType
      reads this
    {
      if replayFirst then IngestRange else ReplayRange
    }

    ghost predicate NoneOf(jobType: JobType, time: int)
      reads repository
    {
      forall id :: id in repository.jobs ==> !IsCandidate(repository.jobs, {}, Some(jobType), chain, time, id)
    }

    /** When the filter of the lease query for this type of job reads the clock, and its update. */
    function FilterTime(jobType: JobType, clock: Readings): int
      reads this
    {
      if jobType == FirstType() then clock.firstFilter else clock.secondFilter
    }

    function LeaseTime(jobType: JobType, clock: Readings): int
      reads this
    {
      if jobType == FirstType() then clock.firstLease else clock.secondLease
    }

    ghost predicate NothingEligible(clock: Readings)
      reads this, repository
    {
      NoneOf(FirstType(), clock.firstFilter) && NoneOf(SecondType(), clock.secondFilter)
    }

    /** Leases the first eligible job of the preferred type, else of the other type. */
    method LeaseAndMarkRunning(clock: Readings) returns (running: Result<Option<JobId>>)
      modifies repository
      ensures running == Err <==> chunkSize == 0
      ensures running == Err || running.value == None ==> Contents() == old(Contents())
      ensures running.Ok? && running.value == None ==> NothingEligible(clock)
      ensures running.Ok? && old(replayFirst) ==>
                Prefers(old(repository.jobs), ReplayRange, IngestRange, chain, clock, running.value)
      ensures running.Ok? && !old(replayFirst) ==>
                Prefers(old(repository.jobs), IngestRange, ReplayRange, chain, clock, running.value)
      ensures running.Ok? && running.value.Some? ==>
                var id := running.value.value;
                && id in old(repository.jobs)
                && var jobType := old(repository.jobs)[id].jobType;
                && Eligible(old(repository.jobs)[id], FilterTime(jobType, clock))
                && (jobType == FirstType() || (jobType == SecondType() && old(NoneOf(FirstType(), clock.firstFilter))))
                && Contents()
                     == RunJob(LeaseJob(old(Contents()), id, workerId, LeaseTime(jobType, clock), leaseFor), id,
                               clock.started)
    {
      if chunkSize == 0 {
        return Err;
      }
      var leased := LeaseEither(clock);
      if leased == None {
        return Ok(None);
      }
      var row := repository.MarkRunning(leased.value, clock.started);
      return Ok(leased);
    }

    /** One lease query for the first type and, if it finds nothing, one for the second. */
    method LeaseEither(clock: Readings) returns (leased: Option<JobId>)
      modifies repository
      ensures leased == None ==> Contents() == old(Contents()) && NothingEligible(clock)
      ensures Prefers(old(repository.jobs), FirstType(), SecondType(), chain, clock, leased)
      ensures leased.Some? ==>
                && leased.value in old(repository.jobs)
                && var jobType := old(repository.jobs)[leased.value].jobType;
                && Eligible(old(repository.jobs)[leased.value], FilterTime(jobType, clock))
                && (jobType == FirstType() || (jobType == SecondType() && old(NoneOf(FirstType(), clock.firstFilter))))
                && Contents()
                     == LeaseJob(old(Contents()), leased.value, workerId, LeaseTime(jobType, clock), leaseFor)
    {
      leased :=
          repository.LeaseNext({}, workerId, Some(FirstType()), chain, clock.firstFilter, clock.firstLease, leaseFor);
      if leased == None {
        leased := repository.LeaseNext({}, workerId, Some(SecondType()), chain, clock.secondFilter, clock.secondLease,
                                       leaseFor);
      }
    }

    /** The audit trail after an execution. */
    lemma ExecutionAudited(before: Queue, id: JobId, clock: Readings, success: bool)
      requires id in before.jobs && Audited(before)
      requires Eligible(before.jobs[id], FilterTime(before.jobs[id].jobType, clock))
      ensures Audited(Executed(before, id, workerId, LeaseTime(before.jobs[id].jobType, clock), leaseFor, clock.started,
                               success,
                               clock.finished))
    {
      var leased := LeaseJob(before, id, workerId, LeaseTime(before.jobs[id].jobType, clock), leaseFor);
      LeaseKeepsAudit(before, id, workerId, LeaseTime(before.jobs[id].jobType, clock), leaseFor);
      CallKeepsAudit(leased, MarkRunning(id, clock.started));
      var running := RunJob(leased, id, clock.started);
      CallKeepsAudit(running, MarkSucceeded(id, clock.finished));
      CallKeepsAudit(running, MarkFailed(id, IngestJobError, clock.finished));
    }

    /** One pass; `success` is the result of executing the job. */
    method RunOnce(clock: Readings, success: bool) returns (outcome: Result<WorkerOutcome>)
      modifies this`replayFirst, repository
      ensures outcome == Err <==> chunkSize == 0
      ensures outcome == Err || outcome.value.NoJob? ==>
              Contents() == old(Contents()) && replayFirst == old(replayFirst)
      ensures outcome.Ok? && outcome.value.NoJob? ==> NothingEligible(clock)
      ensures outcome.Ok? && old(replayFirst) ==>
                Prefers(old(repository.jobs), ReplayRange, IngestRange, chain, clock, TakenJob(outcome.value))
      ensures outcome.Ok? && !old(replayFirst) ==>
                Prefers(old(repository.jobs), IngestRange, ReplayRange, chain, clock, TakenJob(outcome.value))
      ensures outcome.Ok? && !outcome.value.NoJob? ==>
                var id := outcome.value.id;
                && id in old(repository.jobs)
                && var job := old(repository.jobs)[id];
                && Eligible(job, old(FilterTime(job.jobType, clock)))
                && (job.jobType == old(FirstType()) || old(NoneOf(FirstType(), clock.firstFilter)))
                && (outcome.value.ProcessedJob? <==> success)
                && Contents() == Executed(old(Contents()), id, workerId, old(LeaseTime(job.jobType, clock)), leaseFor,
                                          clock.started, success, clock.finished)
                && (outcome.value.FailedJob? ==> outcome.value.status == repository.jobs[id].status)
                && replayFirst
                     == (if success then true else if job.jobType.ReplayRange? then false else old(replayFirst))
      ensures outcome.Ok? && !outcome.value.NoJob? ==> UnfinishedWork(Contents()) < UnfinishedWork(old(Contents()))
      ensures Audited(old(Contents())) ==> Audited(Contents())
    {
      ghost var before := Contents();
      var leased := LeaseAndMarkRunning(clock);
      if leased == Err {
        return Err;
      }
      if leased.value == None {
        return Ok(NoJob);
      }
      var id := leased.value.value;
      var jobType := repository.jobs[id].jobType;
      if Audited(before) {
        ExecutionAudited(before, id, clock, success);
      }
      ExecutionProgress(before, id, workerId, FilterTime(jobType, clock), LeaseTime(jobType, clock), leaseFor,
                        clock.started, success,
                        clock.finished);
      if success {
        var row := repository.MarkSucceeded(id, clock.finished);
        outcome := Ok(ProcessedJob(id));
      } else {
        var row := repository.MarkFailed(id, IngestJobError, clock.finished);
        outcome := Ok(FailedJob(id, row.value.status));
      }
      UpdatePriorityAfterOutcome(jobType, success);
    }

    /** A success restores the preference for replays; a failed replay gives it up. */
    method UpdatePriorityAfterOutcome(jobType: JobType, success: bool)
      modifies this`replayFirst
      ensures replayFirst == (if success then true else if jobType.ReplayRange? then false else old(replayFirst))
    {
      if success {
        replayFirst := true;
      } else if jobType == ReplayRange {
        replayFirst := false;
      }
    }

    ghost function Work(): nat
      reads repository
    {
      WorkNonNegative(Contents());
      UnfinishedWork(Contents())
    }

    /** One pass and its count; `more` is false when there was no job. */
    method RunPass(clock: nat -> Readings, succeeds: nat -> bool, processed: nat, failed: nat, ghost work: nat)
      returns (more: Result<bool>, processed': nat, failed': nat, ghost left: nat, ghost pass: nat)
      requires work == Work() && Tallied(succeeds, processed, failed)
      modifies this`replayFirst, repository
      ensures more == Err <==> chunkSize == 0
      ensures more == Ok(true) ==> processed' + failed' == processed + failed + 1 && left < work
      ensures more != Ok(true) ==> processed' == processed && failed' == failed && left == work
      ensures pass == processed + failed && (more == Ok(false) ==> NothingEligible(clock(pass)))
      ensures Tallied(succeeds, processed', failed') && left == Work()
      ensures Audited(old(Contents())) ==> Audited(Contents())
    {
      processed', failed' := processed, failed;
      var success, readings := succeeds(processed + failed), clock(processed + failed);
      pass := processed + failed;
      TallyNext(succeeds, processed, failed);
      var outcome := RunOnce(readings, success);
      left := Work();
      if outcome == Err {
        return Err, processed, failed, left, pass;
      }
      match outcome.value
      case NoJob =>
        more := Ok(false);
      case ProcessedJob(_) =>
        more, processed' := Ok(true), processed + 1;
      case FailedJob(_, _) =>
        more, failed' := Ok(true), failed + 1;
    }

    /** Runs alone until nothing is eligible.  `clock` gives the readings of each pass and `succeeds`
        its result: the loop ends for every clock and every sequence of results. */
    method RunUntilIdle(maxJobs: Option<nat>, clock: nat -> Readings, succeeds: nat -> bool)
      returns (result: Result<WorkerRunSummary>, ghost last: nat)
      modifies this`replayFirst, repository
      ensures result == Err <==> chunkSize == 0 && maxJobs != Some(0)
      ensures result.Ok? ==> Tallied(succeeds, result.value.processed, result.value.failed)
      ensures result.Ok? ==> result.value.Attempted() <= old(Work()) - Work()
      ensures result.Ok? && result.value.stopReason.MaxJobsReached? ==> maxJobs == Some(result.value.Attempted())
      ensures result.Ok? && result.value.stopReason.Idle? ==>
                last == result.value.processed + result.value.failed && NothingEligible(clock(last))
      ensures Audited(old(Contents())) ==> Audited(Contents())
    {
      var processed: nat, failed: nat := 0, 0;
      ghost var total, work: nat := Work(), Work();
      last := 0;
      while true
        invariant work == Work() && processed + failed <= total - work
        invariant maxJobs.Some? ==> processed + failed <= maxJobs.value
        invariant Tallied(succeeds, processed, failed)
        invariant processed + failed > 0 ==> chunkSize > 0
        invariant Audited(old(Contents())) ==> Audited(Contents())
        decreases work
      {
        if maxJobs.Some? && processed + failed >= maxJobs.value {
          return Ok(WorkerRunSummary(processed, failed, MaxJobsReached)), last;
        }
        var more;
        more, processed, failed, work, last := RunPass(clock, succeeds, processed, failed, work);
        if more == Err {
          return Err, last;
        }
        if !more.value {
          return Ok(WorkerRunSummary(processed, failed, Idle)), last;
        }
      }
    }
  }
}
