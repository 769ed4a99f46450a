/** When a job can be leased again: exactly, call by call, over whole runs, and after a crash. */
module Leases {
  import opened Wrappers
  import opened Domain
  import opened JobQueue
  import opened JobRepositories
  import opened Protocol

  /** An unfiltered lease query at this time may return the job. */
  predicate IsLeasable(q: Queue, id: JobId, time: int) {
    IsCandidate(q.jobs, {}, None, None, time, id)
  }

  /** What each call makes of the job it names: a new job, an interrupted one and a failed one below
      its maximum can be leased at once; a leased or running one after its lease has ended, if it has
      a lease; a succeeded one and one that failed at its maximum never. */
  lemma LeasableExact(q: Queue, call: Call, time: int)
    requires Enabled(q, call)
    ensures match call
            case Enqueue(id, _) => IsLeasable(Exec(q, call), id, time)
            case Lease(id, _, _, now, leaseFor) => IsLeasable(Exec(q, call), id, time) <==> now + leaseFor < time
            case MarkRunning(id, _) =>
              IsLeasable(Exec(q, call), id, time)
              <==> q.jobs[id].leaseExpires.Some? && q.jobs[id].leaseExpires.value < time
            case MarkSucceeded(id, _) => !IsLeasable(Exec(q, call), id, time)
            case MarkFailed(id, _, _) =>
              IsLeasable(Exec(q, call), id, time) <==> q.jobs[id].attempts < q.jobs[id].maxAttempts
            case MarkInterrupted(id, _) =>
              q.jobs[id].status == Leased || q.jobs[id].status == Running ==> IsLeasable(Exec(q, call), id, time)
  {
  }

  /** No call makes a difference to a job it does not name, nor does an interruption to one that is not
      in flight. */
  lemma LeasableFrame(q: Queue, call: Call, id: JobId, time: int)
    requires Enabled(q, call) && id in q.jobs
    requires call.id != id || (call.MarkInterrupted? && q.jobs[id].status != Leased && q.jobs[id].status != Running)
    ensures IsLeasable(Exec(q, call), id, time) <==> IsLeasable(q, id, time)
  {
  }

  // ---------------------------------------------------------------- jobs that nobody can lease

  predicate IsOpen(job: Job) {
    job.status == Queued || job.status == Leased || job.status == Running
  }

  /** Marked as in flight without a lease that could end. */
  predicate IsStranded(q: Queue, id: JobId) {
    id in q.jobs && (q.jobs[id].status == Leased || q.jobs[id].status == Running) && q.jobs[id].leaseExpires == None
  }

  /** A stale worker marks a job running that has no lease any more. */
  predicate Strands(q: Queue, call: Call, id: JobId) {
    call.MarkRunning? && call.id == id && id in q.jobs && q.jobs[id].leaseExpires == None
  }

  predicate Frees(call: Call, id: JobId) {
    call.id == id && (call.MarkSucceeded? || call.MarkFailed? || call.MarkInterrupted?)
  }

  /** An open job can be leased at some time exactly when it is not stranded: at any time if it is
      queued, otherwise at every time after its lease has ended. */
  lemma StrandedMeans(q: Queue, id: JobId)
    requires id in q.jobs && IsOpen(q.jobs[id])
    ensures IsStranded(q, id) <==> forall time :: !IsLeasable(q, id, time)
    ensures !IsStranded(q, id) ==> forall time ::
              IsLeasable(q, id, time)
              <==> q.jobs[id].status == Queued
                   || (q.jobs[id].leaseExpires.Some? && q.jobs[id].leaseExpires.value < time)
  {
    if !IsStranded(q, id) {
      var time := if q.jobs[id].status == Queued then 0 else q.jobs[id].leaseExpires.value + 1;
      assert IsLeasable(q, id, time);
    }
  }

  /** One call leaves a job stranded exactly when it strands it, or finds it stranded and does not
      free it. */
  lemma StrandedExact(q: Queue, call: Call, id: JobId)
    requires Enabled(q, call)
    ensures IsStranded(Exec(q, call), id) <==> Strands(q, call, id) || (IsStranded(q, id) && !Frees(call, id))
  {
  }

  /** Some call stranded the job and none has freed it since. */
  ghost predicate LeftStranded(q: Queue, calls: seq<Call>, id: JobId)
    requires IsRun(q, calls)
  {
    calls != [] &&
    var init := calls[..|calls| - 1];
    var last := calls[|calls| - 1];
    Strands(ExecAll(q, init), last, id) || (LeftStranded(q, init, id) && !Frees(last, id))
  }

  /** Over whole runs, stale workers included: an open job is queued, or carries a lease end and can be
      leased at every time after it, exactly unless the run left it stranded. */
  lemma {:induction false} StrandedRuns(q: Queue, calls: seq<Call>, id: JobId)
    requires IsRun(q, calls) && !IsStranded(q, id)
    ensures IsStranded(ExecAll(q, calls), id) <==> LeftStranded(q, calls, id)
    decreases |calls|
  {
    if calls == [] {
    } else {
      StrandedRuns(q, calls[..|calls| - 1], id);
      StrandedExact(ExecAll(q, calls[..|calls| - 1]), calls[|calls| - 1], id);
    }
  }

  lemma OpenLeasable(q: Queue, calls: seq<Call>, id: JobId)
    requires IsRun(q, calls) && !IsStranded(q, id)
    requires id in ExecAll(q, calls).jobs && IsOpen(ExecAll(q, calls).jobs[id])
    ensures var r := ExecAll(q, calls);
            var job := r.jobs[id];
            (job.status == Queued && forall time :: IsLeasable(r, id, time))
            || (job.leaseExpires.Some? && forall time :: job.leaseExpires.value < time ==> IsLeasable(r, id, time))
            <==> !LeftStranded(q, calls, id)
  {
    StrandedRuns(q, calls, id);
    var r := ExecAll(q, calls);
    StrandedMeans(r, id);
    if IsStranded(r, id) {
      assert !IsLeasable(r, id, 0);
    }
  }

  lemma CompletedByOther()
    ensures var calls := TAKEOVER + [MarkSucceeded(0, 12)];
            && Audited(Fresh(3)) && IsRun(Fresh(3), calls) && 0 in ExecAll(Fresh(3), calls).jobs
            && ExecAll(Fresh(3), calls).jobs[0].attempts == 2 && ExecAll(Fresh(3), calls).jobs[0].leaseExpires == None
  {
    TakenOver(3);
    NextCall(Fresh(3), TAKEOVER, MarkSucceeded(0, 12));
  }

  /** A worker whose lease had expired before it came to mark its job running does so after the worker
      that took over has completed it: the job is running for ever, under no lease. */
  lemma StrandedReached()
    ensures exists q, calls :: Audited(q) && IsRun(q, calls) && 0 in ExecAll(q, calls).jobs
              && IsOpen(ExecAll(q, calls).jobs[0])
              && forall time :: !IsLeasable(ExecAll(q, calls), 0, time)
  {
    CompletedByOther();
    var q, calls := Fresh(3), TAKEOVER + [MarkSucceeded(0, 12)];
    NextCall(q, calls, MarkRunning(0, 13));
    StrandedExact(ExecAll(q, calls), MarkRunning(0, 13), 0);
    StrandedMeans(ExecAll(q, calls + [MarkRunning(0, 13)]), 0);
  }

  // ---------------------------------------------------------------- crashes

  ghost predicate NoneStranded(q: Queue) {
    forall id :: !IsStranded(q, id)
  }

  lemma TimelyStepStrandsNone(env: Env, s: State, step: Step)
    requires CanTake(env, s, step) && LeasesOk(s) && IsTimely(s, step) && NoneStranded(s.queue)
    ensures NoneStranded(Take(env, s, step).queue)
  {
    QueueOfStep(env, s, step);
    var call := QueueCall(s, step);
    if call.Some? {
      if step.StartStep? {
        assert LeaseOk(s, step.w, s.workers[step.w]);
      }
      forall id ensures !IsStranded(QueueAfter(s, step), id) {
        StrandedExact(s.queue, call.value, id);
      }
    }
  }

  /** If marks are timely, no job is ever stranded. */
  lemma {:induction false} TimelyRunStrandsNone(env: Env, clock: int, steps: seq<Step>)
    requires IsTrace(env, Initial(clock), steps) && TimelyTrace(env, Initial(clock), steps)
    ensures NoneStranded(After(env, Initial(clock), steps).queue)
    decreases |steps|
  {
    if steps == [] {
    } else {
      var init := steps[..|steps| - 1];
      TimelyRunStrandsNone(env, clock, init);
      TimelyRunLeases(env, clock, init);
      TimelyStepStrandsNone(env, After(env, Initial(clock), init), steps[|steps| - 1]);
    }
  }

  /** Once the clock has passed the job's lease, if it has one, a free worker can lease an open job. */
  lemma CanLease(env: Env, s: State, id: JobId, time: int, v: WorkerId, leaseFor: int)
    requires s.clock <= time && id in s.queue.jobs && IsOpen(s.queue.jobs[id]) && !IsStranded(s.queue, id)
    requires v !in s.workers && (s.queue.jobs[id].leaseExpires.Some? ==> s.queue.jobs[id].leaseExpires.value < time)
    ensures CanTake(env, s, Tick(time))
    ensures CanTake(env, Take(env, s, Tick(time)), LeaseStep(v, id, time, leaseFor))
  {
    StrandedMeans(s.queue, id);
  }

  /** In every run with timely marks, every open job can be leased by a free worker once the clock has
      passed its lease. */
  lemma OpenRecovers(env: Env, clock: int, steps: seq<Step>, id: JobId, time: int, v: WorkerId, leaseFor: int)
    requires IsTrace(env, Initial(clock), steps) && TimelyTrace(env, Initial(clock), steps)
    requires var s := After(env, Initial(clock), steps);
             && s.clock <= time && v !in s.workers && id in s.queue.jobs && IsOpen(s.queue.jobs[id])
             && (s.queue.jobs[id].leaseExpires.Some? ==> s.queue.jobs[id].leaseExpires.value < time)
    ensures var s := After(env, Initial(clock), steps);
            CanTake(env, s, Tick(time)) && CanTake(env, Take(env, s, Tick(time)), LeaseStep(v, id, time, leaseFor))
  {
    TimelyRunStrandsNone(env, clock, steps);
    CanLease(env, After(env, Initial(clock), steps), id, time, v, leaseFor);
  }

  lemma CrashEffect(env: Env, s: State, step: Step)
    requires CanTake(env, s, step) && step.CrashStep?
    ensures Take(env, s, step).queue == s.queue && Take(env, s, step).clock == s.clock
    ensures Take(env, s, step).workers == s.workers - {step.w}
  {
  }

  /** A crash in any phase loses no job: a worker that dies while its lease lasts leaves a job that
      every free worker can lease as soon as the clock has passed that lease. */
  lemma CrashRecovers(env: Env, clock: int, steps: seq<Step>, crash: Step, time: int, v: WorkerId, leaseFor: int)
    requires IsTrace(env, Initial(clock), steps) && TimelyTrace(env, Initial(clock), steps)
    requires crash.CrashStep? && CanTake(env, After(env, Initial(clock), steps), crash)
    requires var s := After(env, Initial(clock), steps);
             && s.clock <= s.workers[crash.w].expires < time && (v == crash.w || v !in s.workers)
    ensures var s := After(env, Initial(clock), steps);
            var t := Take(env, s, crash);
            && CanTake(env, t, Tick(time))
            && CanTake(env, Take(env, t, Tick(time)), LeaseStep(v, s.workers[crash.w].id, time, leaseFor))
  {
    var s := After(env, Initial(clock), steps);
    TimelyRunLeases(env, clock, steps);
    assert LeaseOk(s, crash.w, s.workers[crash.w]);
    CrashEffect(env, s, crash);
    CanLease(env, Take(env, s, crash), s.workers[crash.w].id, time, v, leaseFor);
  }
}
