/** The job repository: each method is one transaction on the two tables. */
module JobRepositories {
  import opened Wrappers
  import opened JobQueue

  datatype EnqueueResult = Inserted(id: JobId) | Existing(id: JobId)

  /** The optional filters of the lease query. */
  predicate Matches(job: Job, jobType: Option<JobType>, chain: Option<int>) {
    (jobType == None || jobType == Some(job.jobType)) && (chain == None || chain == Some(job.chain))
  }

  predicate IsCandidate(jobs: map<JobId, Job>, locked: set<JobId>, jobType: Option<JobType>, chain: Option<int>,
                        now: int, id: JobId) {
    id in jobs && id !in locked && Matches(jobs[id], jobType, chain) && Eligible(jobs[id], now)
  }

  /** The same idempotency key, or the same type of work on the same range of the same source. */
  predicate IsSameWork(a: Job, b: Job) {
    || a.key == b.key
    || (a.jobType == b.jobType && a.source.Some? && a.from.Some? && a.to.Some?
        && (a.source, a.from, a.to) == (b.source, b.from, b.to))
  }

  /** What a caller may ask of a lease: a job of one type, of one chain. */
  predicate IsWanted(job: Job, jobType: Option<JobType>, chain: Option<int>) {
    (jobType.Some? ==> job.jobType == jobType.value) && (chain.Some? ==> job.chain == chain.value)
  }

  /** Queued, or leased or running under a lease that has ended. */
  predicate IsFree(job: Job, now: int) {
    match job.status
    case Queued => true
    case Leased => job.leaseExpires != None && job.leaseExpires.value < now
    case Running => job.leaseExpires != None && job.leaseExpires.value < now
    case _ => false
  }

  class JobRepository {
    var jobs: map<JobId, Job>
    var attempts: seq<Attempt>

    constructor ()
      ensures Contents() == Queue(map[], [])
      ensures Audited(Contents())
    {
      jobs := map[];
      attempts := [];
    }

    ghost function Contents(): Queue
      reads this
    {
      Queue(jobs, attempts)
    }

    /** Inserts the row unless a unique index objects; then the row behind the conflict is
        returned, looked up by idempotency key first. */
    method Enqueue(id: JobId, job: Job) returns (result: EnqueueResult)
      requires id !in jobs && IsNewJob(job)
      modifies this
      ensures result.Inserted? <==> Enabled(old(Contents()), JobQueue.Enqueue(id, job))
      ensures result.Inserted? <==> !exists k :: k in old(jobs) && IsSameWork(job, old(jobs)[k])
      ensures result.Inserted? ==> result.id == id && Contents() == Exec(old(Contents()), JobQueue.Enqueue(id, job))
      ensures result.Existing? ==> Contents() == old(Contents()) && result.id in jobs && Conflicts(job, jobs[result.id])
      ensures result.Existing? ==>
              ((exists k :: k in jobs && jobs[k].key == job.key) ==> jobs[result.id].key == job.key)
    {
      if k :| k in jobs && jobs[k].key == job.key {
        assert Conflicts(job, jobs[k]);
        return Existing(k);
      }
      if k :| k in jobs && Conflicts(job, jobs[k]) {
        return Existing(k);
      }
      jobs := jobs[id := job];
      return Inserted(id);
    }

    /** First eligible job by creation time, skipping rows locked by other transactions. */
    method LockNextCandidate(locked: set<JobId>, jobType: Option<JobType>, chain: Option<int>, now: int)
      returns (candidate: Option<JobId>)
      ensures candidate == None <==> forall id :: id in jobs ==> !IsCandidate(jobs, locked, jobType, chain, now, id)
      ensures candidate.Some? ==>
                && IsCandidate(jobs, locked, jobType, chain, now, candidate.value)
                && forall id :: IsCandidate(jobs, locked, jobType, chain, now, id) ==>
                     jobs[candidate.value].created <= jobs[id].created
      ensures candidate.Some? ==>
                && candidate.value in jobs && candidate.value !in locked
                && IsWanted(jobs[candidate.value], jobType, chain) && IsFree(jobs[candidate.value], now)
      ensures candidate == None ==> forall id ::
              id in jobs && id !in locked && IsWanted(jobs[id], jobType, chain) ==> !IsFree(jobs[id], now)
    {
      candidate := None;
      var rest := jobs.Keys;
      while rest != {}
        invariant rest <= jobs.Keys
        invariant candidate == None ==> forall id ::
                  id in jobs.Keys - rest ==> !IsCandidate(jobs, locked, jobType, chain, now, id)
        invariant candidate.Some? ==>
                    && IsCandidate(jobs, locked, jobType, chain, now, candidate.value)
                    && forall id :: id in jobs.Keys - rest && IsCandidate(jobs, locked, jobType, chain, now, id) ==>
                         jobs[candidate.value].created <= jobs[id].created
        decreases rest
      {
        var id :| id in rest;
        rest := rest - {id};
        if IsCandidate(jobs, locked, jobType, chain, now, id)
           && (candidate == None || jobs[id].created < jobs[candidate.value].created) {
          candidate := Some(id);
        }
      }
    }

    method UpdateAttemptStatus(job: JobId, number: nat, status: JobStatus, error: Option<ErrorClass>, now: int)
      modifies this`attempts
      ensures attempts == UpdateAttempt(old(attempts), job, number, status, error, now)
    {
      var i := 0;
      while i < |attempts|
        invariant 0 <= i <= |attempts| == |old(attempts)|
        invariant forall k ::
                  0 <= k < i ==> attempts[k] == UpdateAttempt(old(attempts), job, number, status, error, now)[k]
        invariant forall k :: i <= k < |attempts| ==> attempts[k] == old(attempts)[k]
      {
        var row := attempts[i];
        if row.job == job && row.number == number {
          attempts :=
              attempts[i :=
                       row.(status := status, finishedAt := if IsTerminal(status) then Some(now)
                            else None, error := error)];
        }
        i := i + 1;
      }
    }

    /** The update half of a lease: closes the attempt of an expired lease and opens the next one. */
    method LeaseRow(id: JobId, worker: WorkerId, now: int, leaseFor: int)
      requires id in jobs
      modifies this
      ensures Contents() == LeaseJob(old(Contents()), id, worker, now, leaseFor)
    {
      var job := jobs[id];
      if InFlight(job.status) && job.leaseExpires.Some? && job.leaseExpires.value < now {
        UpdateAttemptStatus(id, job.attempts, Cancelled, Some(LeaseExpired), now);
      }
      jobs := jobs[id := job.(status := Leased, leasedBy := Some(worker), leaseExpires := Some(now + leaseFor),
                              attempts := job.attempts + 1, error := None)];
      attempts := attempts + [Attempt(id, job.attempts + 1, worker, Leased, None, None)];
    }

    /** The clock is read once for the candidate filter and again, later, for the update. */
    method LeaseNext(locked: set<JobId>, worker: WorkerId, jobType: Option<JobType>, chain: Option<int>,
                     filterTime: int, now: int, leaseFor: int)
      returns (leased: Option<JobId>)
      requires filterTime <= now
      modifies this
      ensures leased == None <==> forall id ::
              id in old(jobs) ==> !IsCandidate(old(jobs), locked, jobType, chain, filterTime, id)
      ensures leased == None ==> Contents() == old(Contents())
      ensures leased.Some? ==>
                && leased.value in old(jobs) && leased.value !in locked
                && IsWanted(old(jobs)[leased.value], jobType, chain) && IsFree(old(jobs)[leased.value], filterTime)
      ensures leased == None ==> forall id ::
              id in old(jobs) && id !in locked && IsWanted(old(jobs)[id], jobType, chain) ==>
                !IsFree(old(jobs)[id], filterTime)
      ensures leased.Some? ==>
                && IsCandidate(old(jobs), locked, jobType, chain, filterTime, leased.value)
                && (forall id :: IsCandidate(old(jobs), locked, jobType, chain, filterTime, id) ==>
                      old(jobs)[leased.value].created <= old(jobs)[id].created)
                && Contents() == Exec(old(Contents()), Lease(leased.value, worker, filterTime, now, leaseFor))
      ensures Audited(old(Contents())) ==> Audited(Contents()) && Extends(old(Contents()), Contents())
    {
      ghost var before := Contents();
      leased := LockNextCandidate(locked, jobType, chain, filterTime);
      if leased == None {
        assert Contents() == before;
        return;
      }
      var id := leased.value;
      LeaseRow(id, worker, now, leaseFor);
      if Audited(before) {
        LeaseKeepsAudit(before, id, worker, now, leaseFor);
      }
    }

    method MarkRunning(id: JobId, now: int) returns (row: Result<Job>)
      modifies this
      ensures row.Ok? <==> id in old(jobs)
      ensures row == Err ==> Contents() == old(Contents())
      ensures row.Ok? ==> Contents() == RunJob(old(Contents()), id, now) && row.value == jobs[id]
    {
      if id !in jobs {
        return Err;
      }
      jobs := jobs[id := jobs[id].(status := Running)];
      UpdateAttemptStatus(id, jobs[id].attempts, Running, None, now);
      return Ok(jobs[id]);
    }

    method MarkSucceeded(id: JobId, now: int) returns (row: Result<Job>)
      modifies this
      ensures row.Ok? <==> id in old(jobs)
      ensures row == Err ==> Contents() == old(Contents())
      ensures row.Ok? ==> Contents() == SucceedJob(old(Contents()), id, now) && row.value == jobs[id]
    {
      if id !in jobs {
        return Err;
      }
      jobs := jobs[id := jobs[id].(status := Succeeded, leasedBy := None, leaseExpires := None)];
      UpdateAttemptStatus(id, jobs[id].attempts, Succeeded, None, now);
      return Ok(jobs[id]);
    }

    method MarkFailed(id: JobId, error: ErrorClass, now: int) returns (row: Result<Job>)
      modifies this
      ensures row.Ok? <==> id in old(jobs)
      ensures row == Err ==> Contents() == old(Contents())
      ensures row.Ok? ==> Contents() == FailJob(old(Contents()), id, error, now) && row.value == jobs[id]
    {
      if id !in jobs {
        return Err;
      }
      var next := if jobs[id].attempts >= jobs[id].maxAttempts then DeadLettered else Queued;
      jobs := jobs[id := jobs[id].(status := next, leasedBy := None, leaseExpires := None, error := Some(error))];
      var status := if next == DeadLettered then DeadLettered else Failed;
      UpdateAttemptStatus(id, jobs[id].attempts, status, Some(error), now);
      return Ok(jobs[id]);
    }

    method MarkInterruptedForRetry(id: JobId, now: int) returns (row: Result<Job>)
      modifies this
      ensures row.Ok? <==> id in old(jobs)
      ensures row == Err ==> Contents() == old(Contents())
      ensures row.Ok? ==> Contents() == InterruptJob(old(Contents()), id, now) && row.value == jobs[id]
    {
      if id !in jobs {
        return Err;
      }
      if !InFlight(jobs[id].status) {
        return Ok(jobs[id]);
      }
      jobs := jobs[id :=
                   jobs[id].(status := Queued, leasedBy := None, leaseExpires := None, error :=
                             Some(WorkerInterrupted))];
      UpdateAttemptStatus(id, jobs[id].attempts, Cancelled, Some(WorkerInterrupted), now);
      return Ok(jobs[id]);
    }
  }
}
