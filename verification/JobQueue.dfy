/**
 The `jobs` and `job_attempts` tables as values, one function per repository transaction, and
 what every interleaving of those transactions keeps.  Workers are not trusted: a mark may come
 from a worker whose lease expired long ago.
 */
module JobQueue {
  import opened Wrappers
  import opened Domain

  type JobId = nat
  type WorkerId = nat

  datatype JobType = IngestRange | ReplayRange | VerifyReorg | RepairCheckpoint
  datatype JobStatus = Queued | Leased | Running | Succeeded | Failed | DeadLettered | Cancelled
  datatype ErrorClass = LeaseExpired | WorkerInterrupted | IngestJobError | OtherError(text: string)

  /** The formatted keys of the planners, and any other key. */
  datatype IdempotencyKey =
    | BackfillKey(source: SourceId, from: int, to: int)
    | ReplayKey(source: SourceId, from: int, to: int)
    | OtherKey(text: string)

  datatype Job = Job(jobType: JobType, status: JobStatus, source: Option<SourceId>, chain: int,
                     from: Option<int>, to: Option<int>, key: IdempotencyKey,
                     leasedBy: Option<WorkerId>, leaseExpires: Option<int>,
                     attempts: nat, maxAttempts: nat, error: Option<ErrorClass>, created: int)

  datatype Attempt = Attempt(job: JobId, number: nat, worker: WorkerId, status: JobStatus,
                             finishedAt: Option<int>, error: Option<ErrorClass>)

  datatype Queue = Queue(jobs: map<JobId, Job>, attempts: seq<Attempt>)

  predicate IsTerminal(s: JobStatus) {
    s.Succeeded? || s.Failed? || s.DeadLettered? || s.Cancelled?
  }

  // ---------------------------------------------------------------- the transactions

  /** The unique indexes on the idempotency key and on (source, type, from, to). */
  predicate Conflicts(a: Job, b: Job) {
    || a.key == b.key
    || (a.source.Some? && a.from.Some? && a.to.Some?
        && a.source == b.source && a.jobType == b.jobType && a.from == b.from && a.to == b.to)
  }

  predicate InFlight(s: JobStatus) {
    s.Leased? || s.Running?
  }

  predicate LeaseOver(job: Job, now: int) {
    InFlight(job.status) && job.leaseExpires.Some? && job.leaseExpires.value < now
  }

  predicate Eligible(job: Job, now: int) {
    job.status.Queued? || LeaseOver(job, now)
  }

  function UpdateAttempt(attempts: seq<Attempt>, job: JobId, number: nat, status: JobStatus,
                         error: Option<ErrorClass>, now: int): seq<Attempt>
  {
    seq(|attempts|, i requires 0 <= i < |attempts| =>
      if attempts[i].job == job && attempts[i].number == number
      then attempts[i].(status := status, finishedAt := if IsTerminal(status) then Some(now) else None, error := error)
      else attempts[i])
  }

  function LeaseJob(q: Queue, id: JobId, worker: WorkerId, now: int, leaseFor: int): Queue
    requires id in q.jobs
  {
    var job := q.jobs[id];
    var closed := if LeaseOver(job, now)
        then UpdateAttempt(q.attempts, id, job.attempts, Cancelled, Some(LeaseExpired), now)
                  else q.attempts;
    Queue(q.jobs[id := job.(status := Leased, leasedBy := Some(worker), leaseExpires := Some(now + leaseFor),
                            attempts := job.attempts + 1, error := None)],
          closed + [Attempt(id, job.attempts + 1, worker, Leased, None, None)])
  }

  function RunJob(q: Queue, id: JobId, now: int): Queue
    requires id in q.jobs
  {
    var job := q.jobs[id];
    Queue(q.jobs[id := job.(status := Running)], UpdateAttempt(q.attempts, id, job.attempts, Running, None, now))
  }

  function SucceedJob(q: Queue, id: JobId, now: int): Queue
    requires id in q.jobs
  {
    var job := q.jobs[id];
    Queue(q.jobs[id := job.(status := Succeeded, leasedBy := None, leaseExpires := None)],
          UpdateAttempt(q.attempts, id, job.attempts, Succeeded, None, now))
  }

  function FailJob(q: Queue, id: JobId, error: ErrorClass, now: int): Queue
    requires id in q.jobs
  {
    var job := q.jobs[id];
    var dead := job.attempts >= job.maxAttempts;
    Queue(q.jobs[id := job.(status := if dead then DeadLettered else Queued, leasedBy := None, leaseExpires := None,
                            error := Some(error))],
          UpdateAttempt(q.attempts, id, job.attempts, if dead then DeadLettered else Failed, Some(error), now))
  }

  function InterruptJob(q: Queue, id: JobId, now: int): Queue
    requires id in q.jobs
  {
    var job := q.jobs[id];
    if !InFlight(job.status) then q else
    var queued := job.(status := Queued, leasedBy := None, leaseExpires := None, error := Some(WorkerInterrupted));
    Queue(q.jobs[id := queued],
          UpdateAttempt(q.attempts, id, job.attempts, Cancelled, Some(WorkerInterrupted), now))
  }

  // ---------------------------------------------------------------- every interleaving

  datatype Call =
    | Enqueue(id: JobId, job: Job)
    | Lease(id: JobId, worker: WorkerId, filterTime: int, now: int, leaseFor: int)
    | MarkRunning(id: JobId, now: int)
    | MarkSucceeded(id: JobId, now: int)
    | MarkFailed(id: JobId, error: ErrorClass, now: int)
    | MarkInterrupted(id: JobId, now: int)

  predicate IsNewJob(job: Job) {
    job.status.Queued? && job.attempts == 0 && job.maxAttempts > 0 && job.leasedBy == None && job.leaseExpires == None
  }

  /** A lease reads the clock twice and the clock is monotone; a mark names a job that some worker
      leased at some time. */
  predicate Enabled(q: Queue, call: Call) {
    match call
    case Enqueue(id, job) =>
      id !in q.jobs && IsNewJob(job) && forall k :: k in q.jobs ==> !Conflicts(job, q.jobs[k])
    case Lease(id, _, filterTime, now, _) =>
      id in q.jobs && Eligible(q.jobs[id], filterTime) && filterTime <= now
    case _ => call.id in q.jobs && q.jobs[call.id].attempts >= 1
  }

  function Exec(q: Queue, call: Call): Queue
    requires Enabled(q, call)
  {
    match call
    case Enqueue(id, job) => q.(jobs := q.jobs[id := job])
    case Lease(id, worker, _, now, leaseFor) => LeaseJob(q, id, worker, now, leaseFor)
    case MarkRunning(id, now) => RunJob(q, id, now)
    case MarkSucceeded(id, now) => SucceedJob(q, id, now)
    case MarkFailed(id, error, now) => FailJob(q, id, error, now)
    case MarkInterrupted(id, now) => InterruptJob(q, id, now)
  }

  /** The job status that goes with the status of the last attempt. */
  predicate Pairs(job: JobStatus, attempt: JobStatus) {
    match job
    case Queued => attempt.Failed? || attempt.Cancelled?
    case Failed => false
    case Cancelled => false
    case _ => attempt == job
  }

  predicate HasAttempt(attempts: seq<Attempt>, id: JobId, number: nat) {
    exists i :: 0 <= i < |attempts| && attempts[i].job == id && attempts[i].number == number
  }

  ghost predicate AttemptOk(q: Queue, a: Attempt) {
    && a.job in q.jobs
    && 1 <= a.number <= q.jobs[a.job].attempts
    && (a.number < q.jobs[a.job].attempts ==> IsTerminal(a.status))
    && (a.number == q.jobs[a.job].attempts ==> Pairs(q.jobs[a.job].status, a.status))
    && (a.finishedAt.Some? <==> IsTerminal(a.status))
  }

  ghost predicate RowsOk(q: Queue) {
    forall i :: 0 <= i < |q.attempts| ==> AttemptOk(q, q.attempts[i])
  }

  ghost predicate Increasing(attempts: seq<Attempt>) {
    forall i, j ::
        0 <= i < j < |attempts| && attempts[i].job == attempts[j].job ==> attempts[i].number < attempts[j].number
  }

  ghost predicate Complete(q: Queue) {
    forall id, n :: id in q.jobs && 1 <= n <= q.jobs[id].attempts ==> HasAttempt(q.attempts, id, n)
  }

  ghost predicate UnleasedAreQueued(q: Queue) {
    forall id :: id in q.jobs && q.jobs[id].attempts == 0 ==> q.jobs[id].status.Queued?
  }

  /** The audit trail: the attempts of a job are numbered exactly 1..attempts, all but the last
      are closed, the last one matches the job, and `finished_at` is set exactly on closed ones. */
  ghost predicate Audited(q: Queue) {
    RowsOk(q) && Increasing(q.attempts) && Complete(q) && UnleasedAreQueued(q)
  }

  predicate SameJob(a: Job, b: Job) {
    && a.jobType == b.jobType && a.source == b.source && a.chain == b.chain && a.from == b.from && a.to == b.to
    && a.key == b.key && a.maxAttempts == b.maxAttempts && a.created == b.created
  }

  predicate IsSuperseded(q: Queue, a: Attempt) {
    a.job in q.jobs && a.number < q.jobs[a.job].attempts
  }

  /** Jobs keep their identity, attempt rows keep theirs, and every attempt that was not the last
      one of its job is frozen. */
  ghost predicate Extends(q: Queue, r: Queue) {
    && (forall id ::
        id in q.jobs ==> id in r.jobs && SameJob(q.jobs[id], r.jobs[id]) && q.jobs[id].attempts <= r.jobs[id].attempts)
    && SameIdentities(q.attempts, r.attempts)
    && (forall i :: 0 <= i < |q.attempts| && IsSuperseded(q, q.attempts[i]) ==> r.attempts[i] == q.attempts[i])
  }

  lemma ExtendsTransitive(q: Queue, r: Queue, s: Queue)
    requires Extends(q, r) && Extends(r, s)
    ensures Extends(q, s)
  {
  }

  predicate SameIdentity(a: Attempt, b: Attempt) {
    a.job == b.job && a.number == b.number && a.worker == b.worker
  }

  /** An update of attempt `number` of a job leaves all other attempt rows alone. */
  lemma UpdateShape(attempts: seq<Attempt>, job: JobId, number: nat, status: JobStatus, error: Option<ErrorClass>,
                    now: int)
    ensures var u := UpdateAttempt(attempts, job, number, status, error, now);
            && |u| == |attempts|
            && (forall i :: 0 <= i < |u| ==> SameIdentity(attempts[i], u[i]))
            && (forall i ::
                0 <= i < |u| && !(attempts[i].job == job && attempts[i].number == number) ==> u[i] == attempts[i])
            && (forall i :: 0 <= i < |u| && attempts[i].job == job && attempts[i].number == number ==>
                  u[i].status == status && (u[i].finishedAt.Some? <==> IsTerminal(status)))
  {
  }

  ghost predicate SameIdentities(a: seq<Attempt>, b: seq<Attempt>) {
    |a| <= |b| && forall i :: 0 <= i < |a| ==> SameIdentity(a[i], b[i])
  }

  lemma IdentityKeepsAttempts(a: seq<Attempt>, b: seq<Attempt>, id: JobId, n: nat)
    requires SameIdentities(a, b) && HasAttempt(a, id, n)
    ensures HasAttempt(b, id, n)
  {
    var i :| 0 <= i < |a| && a[i].job == id && a[i].number == n;
    assert SameIdentity(a[i], b[i]);
  }

  lemma IdentityKeepsOrder(a: seq<Attempt>, b: seq<Attempt>)
    requires SameIdentities(a, b) && |a| == |b| && Increasing(a)
    ensures Increasing(b)
  {
    forall i, j | 0 <= i < j < |b| && b[i].job == b[j].job ensures b[i].number < b[j].number {
      assert SameIdentity(a[i], b[i]) && SameIdentity(a[j], b[j]);
    }
  }

  /** Every mark has this shape: the job changes status and its last attempt follows. */
  lemma MarkKeepsAudit(q: Queue, id: JobId, job: Job, status: JobStatus, error: Option<ErrorClass>, now: int)
    requires Audited(q) && id in q.jobs && q.jobs[id].attempts >= 1
    requires SameJob(q.jobs[id], job) && job.attempts == q.jobs[id].attempts
    requires Pairs(job.status, status)
    ensures var r := Queue(q.jobs[id := job], UpdateAttempt(q.attempts, id, job.attempts, status, error, now));
            Audited(r) && Extends(q, r)
  {
    var u := UpdateAttempt(q.attempts, id, job.attempts, status, error, now);
    var r := Queue(q.jobs[id := job], u);
    UpdateShape(q.attempts, id, job.attempts, status, error, now);
    assert RowsOk(r) by {
      forall i | 0 <= i < |u| ensures AttemptOk(r, u[i]) {
        assert AttemptOk(q, q.attempts[i]) && SameIdentity(q.attempts[i], u[i]);
      }
    }
    IdentityKeepsOrder(q.attempts, u);
    assert Complete(r) by {
      forall k, n | k in r.jobs && 1 <= n <= r.jobs[k].attempts ensures HasAttempt(u, k, n) {
        IdentityKeepsAttempts(q.attempts, u, k, n);
      }
    }
    assert Extends(q, r) by {
      assert forall i :: 0 <= i < |u| ==> SameIdentity(q.attempts[i], u[i]);
    }
  }

  /** A new attempt may be opened once the last one is closed. */
  lemma OpenKeepsAudit(q: Queue, id: JobId, job: Job, worker: WorkerId)
    requires Increasing(q.attempts) && Complete(q) && UnleasedAreQueued(q) && id in q.jobs
    requires SameJob(q.jobs[id], job) && job.attempts == q.jobs[id].attempts + 1 && job.status.Leased?
    requires forall i :: 0 <= i < |q.attempts| ==>
               if q.attempts[i].job == id
               then 1 <= q.attempts[i].number < job.attempts && IsTerminal(q.attempts[i].status)
                   && q.attempts[i].finishedAt.Some?
               else AttemptOk(q, q.attempts[i])
    ensures Audited(Queue(q.jobs[id := job], q.attempts + [Attempt(id, job.attempts, worker, Leased, None, None)]))
  {
    var attempts := q.attempts + [Attempt(id, job.attempts, worker, Leased, None, None)];
    var r := Queue(q.jobs[id := job], attempts);
    assert RowsOk(r) by {
      forall i | 0 <= i < |attempts| ensures AttemptOk(r, attempts[i]) {
        assert i < |q.attempts| ==> attempts[i] == q.attempts[i];
      }
    }
    assert Complete(r) by {
      assert attempts[|q.attempts|].job == id && attempts[|q.attempts|].number == job.attempts;
      forall k, n | k in r.jobs && 1 <= n <= r.jobs[k].attempts ensures HasAttempt(attempts, k, n) {
        if !(k == id && n == job.attempts) {
          IdentityKeepsAttempts(q.attempts, attempts, k, n);
        }
      }
    }
  }

  lemma LeaseKeepsAudit(q: Queue, id: JobId, worker: WorkerId, now: int, leaseFor: int)
    requires Audited(q) && id in q.jobs && Eligible(q.jobs[id], now)
    ensures Audited(LeaseJob(q, id, worker, now, leaseFor))
    ensures Extends(q, LeaseJob(q, id, worker, now, leaseFor))
  {
    var job := q.jobs[id];
    var r := LeaseJob(q, id, worker, now, leaseFor);
    var closed := r.attempts[..|q.attempts|];
    UpdateShape(q.attempts, id, job.attempts, Cancelled, Some(LeaseExpired), now);
    forall i | 0 <= i < |closed|
      ensures SameIdentity(q.attempts[i], closed[i])
      ensures !(q.attempts[i].job == id && q.attempts[i].number == job.attempts) ==> closed[i] == q.attempts[i]
      ensures if closed[i].job == id
              then 1 <= closed[i].number < job.attempts + 1 && IsTerminal(closed[i].status)
                  && closed[i].finishedAt.Some?
              else AttemptOk(Queue(q.jobs, closed), closed[i])
    {
      assert AttemptOk(q, q.attempts[i]);
    }
    IdentityKeepsOrder(q.attempts, closed);
    forall k, n | k in q.jobs && 1 <= n <= q.jobs[k].attempts ensures HasAttempt(closed, k, n) {
      IdentityKeepsAttempts(q.attempts, closed, k, n);
    }
    OpenKeepsAudit(Queue(q.jobs, closed), id, r.jobs[id], worker);
    assert r.attempts == closed + [Attempt(id, job.attempts + 1, worker, Leased, None, None)];
    forall i | 0 <= i < |q.attempts| ensures SameIdentity(q.attempts[i], r.attempts[i]) {
      assert r.attempts[i] == closed[i];
    }
  }

  lemma CallKeepsAudit(q: Queue, call: Call)
    requires Audited(q) && Enabled(q, call)
    ensures Audited(Exec(q, call)) && Extends(q, Exec(q, call))
  {
    match call
    case Enqueue(id, job) =>
      var r := Exec(q, call);
      forall i | 0 <= i < |r.attempts| ensures AttemptOk(r, r.attempts[i]) {
        assert AttemptOk(q, q.attempts[i]);
      }
    case Lease(id, worker, filterTime, now, leaseFor) =>
      LeaseKeepsAudit(q, id, worker, now, leaseFor);
    case MarkRunning(id, now) =>
      MarkKeepsAudit(q, id, RunJob(q, id, now).jobs[id], Running, None, now);
    case MarkSucceeded(id, now) =>
      MarkKeepsAudit(q, id, SucceedJob(q, id, now).jobs[id], Succeeded, None, now);
    case MarkFailed(id, error, now) =>
      var job := FailJob(q, id, error, now).jobs[id];
      MarkKeepsAudit(q, id, job, if job.status.DeadLettered? then DeadLettered else Failed, Some(error), now);
    case MarkInterrupted(id, now) =>
      if InFlight(q.jobs[id].status) {
        MarkKeepsAudit(q, id, InterruptJob(q, id, now).jobs[id], Cancelled, Some(WorkerInterrupted), now);
      }
  }

  ghost predicate IsRun(q: Queue, calls: seq<Call>)
    decreases |calls|, 0
  {
    calls == [] ||
    (IsRun(q, calls[..|calls| - 1]) && Enabled(ExecAll(q, calls[..|calls| - 1]), calls[|calls| - 1]))
  }

  ghost function ExecAll(q: Queue, calls: seq<Call>): Queue
    requires IsRun(q, calls)
    decreases |calls|, 1
  {
    if calls == [] then q else Exec(ExecAll(q, calls[..|calls| - 1]), calls[|calls| - 1])
  }

  /** Audit consistency in every interleaving, stale workers included. */
  lemma {:induction false} EveryRunAudited(q: Queue, calls: seq<Call>)
    requires Audited(q) && IsRun(q, calls)
    ensures Audited(ExecAll(q, calls)) && Extends(q, ExecAll(q, calls))
    decreases |calls|
  {
    if calls == [] {
    } else {
      var init := calls[..|calls| - 1];
      EveryRunAudited(q, init);
      CallKeepsAudit(ExecAll(q, init), calls[|calls| - 1]);
      ExtendsTransitive(q, ExecAll(q, init), ExecAll(q, calls));
    }
  }

  /** The audit trail in plain words: a job with n attempts has exactly the attempt rows 1..n, one of
      each; a row has an end time exactly when it is not leased or running; all but the last are closed,
      and the last shows what became of the job. */
  lemma TrailExact(q: Queue, calls: seq<Call>, id: JobId, n: nat)
    requires Audited(q) && IsRun(q, calls) && id in ExecAll(q, calls).jobs
    ensures var r := ExecAll(q, calls);
            && (1 <= n <= r.jobs[id].attempts
                <==> exists i :: 0 <= i < |r.attempts| && r.attempts[i].job == id && r.attempts[i].number == n)
            && (forall i, j :: 0 <= i < j < |r.attempts| && r.attempts[i].job == r.attempts[j].job ==>
                  r.attempts[i].number != r.attempts[j].number)
            && (forall i :: 0 <= i < |r.attempts| && r.attempts[i].job == id && r.attempts[i].number == n ==>
                  IsTrailRow(r.jobs[id], r.attempts[i]))
  {
    EveryRunAudited(q, calls);
    var r := ExecAll(q, calls);
    if 1 <= n <= r.jobs[id].attempts {
      assert HasAttempt(r.attempts, id, n);
    }
    forall i | 0 <= i < |r.attempts| && r.attempts[i].job == id && r.attempts[i].number == n
      ensures 1 <= n <= r.jobs[id].attempts && IsTrailRow(r.jobs[id], r.attempts[i])
    {
      assert AttemptOk(r, r.attempts[i]);
    }
  }

  predicate IsTrailRow(job: Job, a: Attempt) {
    && (a.finishedAt.Some? <==> a.status != Leased && a.status != Running)
    && a.status != Queued
    && (a.number < job.attempts ==> a.status != Leased && a.status != Running)
    && (a.number == job.attempts ==>
          if job.status == Queued then a.status == Failed || a.status == Cancelled else a.status == job.status)
  }

  /** What a call writes into the last attempt row of the job it names, and into the job's error. */
  lemma CallWrites(q: Queue, call: Call, i: nat)
    requires Enabled(q, call) && !call.Enqueue? && i < |q.attempts|
    requires q.attempts[i].job == call.id && q.attempts[i].number == q.jobs[call.id].attempts
    ensures var before := q.jobs[call.id];
            var after := Exec(q, call).jobs[call.id];
            var row := q.attempts[i];
            var written := Exec(q, call).attempts[i];
            match call
            case Lease(_, _, _, now, _) =>
              && after.error == None
              && written == (if before.status == Queued || before.leaseExpires == None
                                || now <= before.leaseExpires.value then row
                             else row.(status := Cancelled, finishedAt := Some(now), error := Some(LeaseExpired)))
            case MarkRunning(_, now) =>
              after.error == before.error && written == row.(status := Running, finishedAt := None, error := None)
            case MarkSucceeded(_, now) =>
              && after.error == before.error
              && written == row.(status := Succeeded, finishedAt := Some(now), error := None)
            case MarkFailed(_, error, now) =>
              && after.error == Some(error)
              && written == row.(status := if after.status == Queued then Failed else DeadLettered,
                                 finishedAt := Some(now), error := Some(error))
            case MarkInterrupted(_, now) =>
              if before.status != Leased && before.status != Running then after == before && written == row
              else && after.error == Some(WorkerInterrupted)
                   && written == row.(status := Cancelled, finishedAt := Some(now), error := Some(WorkerInterrupted))
  {
  }

  // ---------------------------------------------------------------- lease columns

  /** A job carries a lease only while it is in flight, and the lease names the worker of the job's
      last attempt. */
  ghost predicate LeasesNamed(q: Queue) {
    forall id :: id in q.jobs ==> IsLeaseNamed(q, id)
  }

  ghost predicate IsLeaseNamed(q: Queue, id: JobId)
    requires id in q.jobs
  {
    var job := q.jobs[id];
    && (job.leasedBy.Some? <==> job.leaseExpires.Some?)
    && (job.leasedBy.Some? ==>
          && (job.status == Leased || job.status == Running)
          && exists i :: 0 <= i < |q.attempts| && IsAttemptOf(q.attempts[i], id, job.attempts, job.leasedBy.value))
  }

  predicate IsAttemptOf(a: Attempt, id: JobId, number: nat, worker: WorkerId) {
    a.job == id && a.number == number && a.worker == worker
  }

  lemma NamedStays(q: Queue, r: Queue, id: JobId)
    requires id in q.jobs && IsLeaseNamed(q, id) && SameIdentities(q.attempts, r.attempts)
    requires id in r.jobs && r.jobs[id].attempts == q.jobs[id].attempts
    requires r.jobs[id].leasedBy == q.jobs[id].leasedBy && r.jobs[id].leaseExpires == q.jobs[id].leaseExpires
    requires r.jobs[id].leasedBy.Some? ==> r.jobs[id].status == Leased || r.jobs[id].status == Running
    ensures IsLeaseNamed(r, id)
  {
    if q.jobs[id].leasedBy.Some? {
      var i :| 0 <= i < |q.attempts|
               && IsAttemptOf(q.attempts[i], id, q.jobs[id].attempts, q.jobs[id].leasedBy.value);
      assert SameIdentity(q.attempts[i], r.attempts[i]);
      assert IsAttemptOf(r.attempts[i], id, r.jobs[id].attempts, r.jobs[id].leasedBy.value);
    }
  }

  lemma CallIdentities(q: Queue, call: Call)
    requires Enabled(q, call)
    ensures SameIdentities(q.attempts, Exec(q, call).attempts)
  {
  }

  lemma CallKeepsNamed(q: Queue, call: Call)
    requires LeasesNamed(q) && Enabled(q, call)
    ensures LeasesNamed(Exec(q, call))
  {
    var r := Exec(q, call);
    CallIdentities(q, call);
    forall id | id in r.jobs ensures IsLeaseNamed(r, id) {
      if id !in q.jobs {
      } else if call.Lease? && call.id == id {
        assert IsAttemptOf(r.attempts[|q.attempts|], id, r.jobs[id].attempts, call.worker);
      } else if r.jobs[id].leasedBy.Some? {
        NamedStays(q, r, id);
      }
    }
  }

  /** Over whole runs, stale workers included. */
  lemma {:induction false} EveryLeaseNamed(q: Queue, calls: seq<Call>)
    requires LeasesNamed(q) && IsRun(q, calls)
    ensures LeasesNamed(ExecAll(q, calls))
    decreases |calls|
  {
    if calls == [] {
    } else {
      EveryLeaseNamed(q, calls[..|calls| - 1]);
      CallKeepsNamed(ExecAll(q, calls[..|calls| - 1]), calls[|calls| - 1]);
    }
  }

  // ---------------------------------------------------------------- uniqueness

  /** No two jobs have one idempotency key, and no two range jobs have one source, type and range. */
  ghost predicate UniqueJobs(q: Queue) {
    forall a, b :: a in q.jobs && b in q.jobs && a != b ==> AreDistinct(q.jobs[a], q.jobs[b])
  }

  predicate AreDistinct(a: Job, b: Job) {
    && a.key != b.key
    && (a.source == None || a.from == None || a.to == None || a.source != b.source || a.jobType != b.jobType
        || a.from != b.from || a.to != b.to)
  }

  lemma DistinctAfter(q: Queue, call: Call, a: JobId, b: JobId)
    requires UniqueJobs(q) && Enabled(q, call) && a in Exec(q, call).jobs && b in Exec(q, call).jobs && a != b
    ensures AreDistinct(Exec(q, call).jobs[a], Exec(q, call).jobs[b])
  {
    if call.Enqueue? {
      assert a in q.jobs ==> !Conflicts(call.job, q.jobs[a]);
      assert b in q.jobs ==> !Conflicts(call.job, q.jobs[b]);
    }
    assert a in q.jobs && b in q.jobs ==> AreDistinct(q.jobs[a], q.jobs[b]);
  }

  lemma CallKeepsUnique(q: Queue, call: Call)
    requires UniqueJobs(q) && Enabled(q, call)
    ensures UniqueJobs(Exec(q, call))
  {
    forall a, b | a in Exec(q, call).jobs && b in Exec(q, call).jobs && a != b
      ensures AreDistinct(Exec(q, call).jobs[a], Exec(q, call).jobs[b])
    {
      DistinctAfter(q, call, a, b);
    }
  }

  /** Deduplication over whole runs. */
  lemma {:induction false} EveryRunUnique(q: Queue, calls: seq<Call>)
    requires UniqueJobs(q) && IsRun(q, calls)
    ensures UniqueJobs(ExecAll(q, calls))
    decreases |calls|
  {
    if calls == [] {
    } else {
      EveryRunUnique(q, calls[..|calls| - 1]);
      CallKeepsUnique(ExecAll(q, calls[..|calls| - 1]), calls[|calls| - 1]);
    }
  }

  /** A call that can move a job out of a succeeded state: marks check neither owner nor status. */
  predicate Reopens(call: Call, id: JobId) {
    call.id == id && (call.MarkRunning? || call.MarkFailed?)
  }

  lemma SucceededStays(q: Queue, call: Call, id: JobId)
    requires Enabled(q, call) && id in q.jobs && q.jobs[id].status.Succeeded?
    ensures Exec(q, call).jobs[id].status.Succeeded? <==> !Reopens(call, id)
  {
  }

  /** Over a whole run, a succeeded job stays succeeded if no such call is made. */
  lemma {:induction false} SucceededForGood(q: Queue, calls: seq<Call>, id: JobId)
    requires IsRun(q, calls) && id in q.jobs && q.jobs[id].status.Succeeded?
    requires forall i :: 0 <= i < |calls| ==> !Reopens(calls[i], id)
    ensures id in ExecAll(q, calls).jobs && ExecAll(q, calls).jobs[id].status.Succeeded?
    decreases |calls|
  {
    if calls == [] {
    } else {
      var n := |calls| - 1;
      SucceededForGood(q, calls[..n], id);
      SucceededStays(ExecAll(q, calls[..n]), calls[n], id);
    }
  }

  lemma NextCall(q: Queue, calls: seq<Call>, call: Call)
    requires IsRun(q, calls) && Enabled(ExecAll(q, calls), call)
    ensures IsRun(q, calls + [call]) && ExecAll(q, calls + [call]) == Exec(ExecAll(q, calls), call)
  {
    assert (calls + [call])[..|calls|] == calls;
  }

  function Fresh(maxAttempts: nat): Queue {
    var job := Job(IngestRange, Queued, Some(0), 1, Some(0), Some(9), OtherKey("k"),
                   None, None, 0, maxAttempts, None, 0);
    Queue(map[0 := job], [])
  }

  /** A second worker leases a job after the first one's lease expired. */
  const TAKEOVER: seq<Call> := [Lease(0, 1, 0, 0, 10), Lease(0, 2, 11, 11, 10)]

  lemma TakenOver(maxAttempts: nat)
    ensures var q := Fresh(maxAttempts);
            && Audited(q) && IsRun(q, TAKEOVER)
            && 0 in ExecAll(q, TAKEOVER).jobs
            && ExecAll(q, TAKEOVER).jobs[0].attempts == 2
            && ExecAll(q, TAKEOVER).jobs[0].maxAttempts == maxAttempts
            && ExecAll(q, TAKEOVER).jobs[0].status.Leased?
  {
    var q := Fresh(maxAttempts);
    var first, second := TAKEOVER[0], TAKEOVER[1];
    NextCall(q, [], first);
    NextCall(q, [first], second);
    assert [] + [first] == [first] && [first] + [second] == TAKEOVER;
  }

  /** The second worker completes the job and then the first, whose lease expired long ago, marks it
      failed: the succeeded job is queued again. */
  lemma SucceededCanReopen()
    ensures exists q, calls :: Audited(q) && IsRun(q, calls) && 0 in ExecAll(q, calls).jobs
              && ExecAll(q, calls).jobs[0].status.Succeeded?
              && Enabled(ExecAll(q, calls), MarkFailed(0, IngestJobError, 12))
              && Exec(ExecAll(q, calls), MarkFailed(0, IngestJobError, 12)).jobs[0].status.Queued?
  {
    var q := Fresh(3);
    TakenOver(3);
    NextCall(q, TAKEOVER, MarkSucceeded(0, 12));
    var end := ExecAll(q, TAKEOVER + [MarkSucceeded(0, 12)]);
    assert end.jobs[0].status.Succeeded? && end.jobs[0].attempts == 2;
  }

  // ---------------------------------------------------------------- the bound on attempts

  /** Leases of `id` that took over an expired lease. */
  ghost function Reclaims(q: Queue, calls: seq<Call>, id: JobId): nat
    requires IsRun(q, calls)
  {
    if calls == [] then 0 else
    var init := calls[..|calls| - 1];
    var last := calls[|calls| - 1];
    Reclaims(q, init, id)
    + (if last.Lease? && last.id == id && !ExecAll(q, init).jobs[id].status.Queued? then 1 else 0)
  }

  /** Interruptions of `id` that found it in flight. */
  ghost function Interruptions(q: Queue, calls: seq<Call>, id: JobId): nat
    requires IsRun(q, calls)
  {
    if calls == [] then 0 else
    var init := calls[..|calls| - 1];
    var last := calls[|calls| - 1];
    Interruptions(q, init, id)
    + (if last.MarkInterrupted? && last.id == id && InFlight(ExecAll(q, init).jobs[id].status) then 1 else 0)
  }

  predicate WithinBudget(job: Job, extra: nat) {
    job.attempts + (if job.status.Queued? then 1 else 0) <= job.maxAttempts + extra
  }

  /** Attempts never exceed the configured maximum plus expired reclaims plus interruptions, in
      every interleaving. */
  lemma {:induction false} AttemptsBounded(q: Queue, calls: seq<Call>, id: JobId)
    requires IsRun(q, calls) && id in ExecAll(q, calls).jobs
    requires id in q.jobs ==> WithinBudget(q.jobs[id], 0)
    ensures WithinBudget(ExecAll(q, calls).jobs[id], Reclaims(q, calls, id) + Interruptions(q, calls, id))
    decreases |calls|
  {
    if calls == [] {
    } else {
      var init := calls[..|calls| - 1];
      if id in ExecAll(q, init).jobs {
        AttemptsBounded(q, init, id);
      }
    }
  }

  /** A lease of a job that has used up its attempts; leasing does not look at the maximum. */
  predicate Overruns(q: Queue, call: Call, id: JobId) {
    call.Lease? && call.id == id && id in q.jobs && q.jobs[id].attempts >= q.jobs[id].maxAttempts
  }

  predicate WithinMaximum(q: Queue, id: JobId) {
    id in q.jobs ==> q.jobs[id].attempts <= q.jobs[id].maxAttempts
  }

  /** One call respects the maximum exactly when it is no such lease. */
  lemma MaximumKept(q: Queue, call: Call, id: JobId)
    requires Enabled(q, call) && WithinMaximum(q, id)
    ensures WithinMaximum(Exec(q, call), id) <==> !Overruns(q, call, id)
  {
  }

  /** Attempts and the maximum never move back. */
  lemma AttemptsGrow(q: Queue, call: Call, id: JobId)
    requires Enabled(q, call) && id in q.jobs
    ensures id in Exec(q, call).jobs
    ensures q.jobs[id].attempts <= Exec(q, call).jobs[id].attempts
    ensures q.jobs[id].maxAttempts == Exec(q, call).jobs[id].maxAttempts
  {
  }

  ghost predicate EverOverruns(q: Queue, calls: seq<Call>, id: JobId)
    requires IsRun(q, calls)
  {
    calls != [] &&
    var init := calls[..|calls| - 1];
    EverOverruns(q, init, id) || Overruns(ExecAll(q, init), calls[|calls| - 1], id)
  }

  /** A run ends within the maximum exactly when no lease of the job was made after its attempts
      had reached the maximum. */
  lemma {:induction false} MaximumExact(q: Queue, calls: seq<Call>, id: JobId)
    requires IsRun(q, calls) && WithinMaximum(q, id)
    ensures WithinMaximum(ExecAll(q, calls), id) <==> !EverOverruns(q, calls, id)
    decreases |calls|
  {
    if calls == [] {
    } else {
      var init, last := calls[..|calls| - 1], calls[|calls| - 1];
      MaximumExact(q, init, id);
      var before := ExecAll(q, init);
      if WithinMaximum(before, id) {
        MaximumKept(before, last, id);
      } else {
        AttemptsGrow(before, last, id);
      }
    }
  }

  /** Leasing alone does not respect the maximum: a reclaimed last attempt exceeds it. */
  lemma MaximumCanBeExceeded()
    ensures exists q, calls, id :: Audited(q) && IsRun(q, calls) && id in ExecAll(q, calls).jobs
              && ExecAll(q, calls).jobs[id].attempts > ExecAll(q, calls).jobs[id].maxAttempts
  {
    TakenOver(1);
  }
}
