/** Backfill planning: tiling a block range with ingest jobs. */
module Backfill {
  import opened Wrappers
  import opened Domain
  import opened JobQueue
  import opened JobRepositories
  import opened Checkpoints
  import opened LedgerRepositories

  type U64 = x: int | 0 <= x <= 0xffff_ffff_ffff_ffff

  datatype Chunk = Chunk(from: U64, to: U64)

  function SaturatingAdd(a: U64, b: U64): U64 {
    if a + b > U64_MAX then U64_MAX else a + b
  }

  /** Ordered, gap-free, disjoint chunks of at most `size` blocks that cover exactly from..to; only
      the last one may be shorter. */
  ghost predicate IsTiling(chunks: seq<Chunk>, from: int, to: int, size: int) {
    && chunks != []
    && chunks[0].from == from && chunks[|chunks| - 1].to == to
    && (forall i :: 0 <= i < |chunks| ==> chunks[i].from <= chunks[i].to && chunks[i].to - chunks[i].from < size)
    && (forall i ::
        0 <= i < |chunks| - 1 ==> chunks[i + 1].from == chunks[i].to + 1 && chunks[i].to - chunks[i].from == size - 1)
  }

  ghost predicate AllFull(chunks: seq<Chunk>, size: int) {
    forall i :: 0 <= i < |chunks| ==> chunks[i].to - chunks[i].from == size - 1
  }

  lemma TilingExtends(chunks: seq<Chunk>, from: int, size: int, next: Chunk)
    requires if chunks == [] then next.from == from
             else IsTiling(chunks, from, next.from - 1, size) && AllFull(chunks, size)
    requires next.from <= next.to && next.to - next.from < size
    ensures IsTiling(chunks + [next], from, next.to, size)
    ensures next.to - next.from == size - 1 ==> AllFull(chunks + [next], size)
  {
  }

  /** The chunks made so far cover from..next-1, and the next chunk may follow them. */
  ghost predicate IsPartTiling(chunks: seq<Chunk>, from: int, next: int, to: int, size: int) {
    && from <= next <= to + 1
    && (if chunks == [] then next == from else IsTiling(chunks, from, next - 1, size))
    && (next <= to ==> AllFull(chunks, size))
  }

  lemma PartTilingExtends(chunks: seq<Chunk>, from: int, to: int, size: int, chunk: Chunk)
    requires IsPartTiling(chunks, from, chunk.from, to, size)
    requires chunk.from <= to && size > 0 && chunk.to == Min(chunk.from + size - 1, to)
    ensures IsPartTiling(chunks + [chunk], from, chunk.to + 1, to, size)
  {
    TilingExtends(chunks, from, size, chunk);
  }

  method SplitInclusiveRange(from: U64, to: U64, size: U64) returns (chunks: Result<seq<Chunk>>)
    ensures chunks.Ok? <==> from <= to && size > 0
    ensures chunks.Ok? ==> IsTiling(chunks.value, from, to, size) && |chunks.value| == (to - from) / size + 1
  {
    if from > to {
      return Err;
    }
    if size == 0 {
      return Err;
    }
    var ranges: seq<Chunk> := [];
    var rangeFrom: U64 := from;
    while rangeFrom <= to
      invariant IsPartTiling(ranges, from, rangeFrom, to, size)
      decreases 1 + to - rangeFrom
    {
      var rangeTo: U64 := Min(SaturatingAdd(rangeFrom, size - 1), to);
      PartTilingExtends(ranges, from, to, size, Chunk(rangeFrom, rangeTo));
      ranges := ranges + [Chunk(rangeFrom, rangeTo)];
      if rangeTo == U64_MAX {
        break;
      }
      rangeFrom := rangeTo + 1;
    }
    TilingCount(ranges, from, to, size);
    return Ok(ranges);
  }

  lemma {:induction false} TilingStarts(chunks: seq<Chunk>, from: int, to: int, size: int, i: nat)
    requires IsTiling(chunks, from, to, size) && i < |chunks|
    ensures chunks[i].from == from + i * size
    decreases i
  {
    if i == 0 {
    } else {
      TilingStarts(chunks, from, to, size, i - 1);
      assert i * size == (i - 1) * size + size;
    }
  }

  /** A tiling has exactly the number of chunks that the arithmetic promises. */
  lemma TilingCount(chunks: seq<Chunk>, from: int, to: int, size: int)
    requires IsTiling(chunks, from, to, size)
    ensures size > 0 && |chunks| == (to - from) / size + 1
  {
    var n := |chunks| - 1;
    TilingStarts(chunks, from, to, size, n);
    QuotientIs(to - from, size, n);
  }

  lemma QuotientIs(x: int, d: int, q: int)
    requires d > 0 && q * d <= x < q * d + d
    ensures x / d == q
  {
    var k := x / d;
    assert k * d <= x < k * d + d;
    if k > q {
      ProductsOrdered(q + 1, k, d);
    } else if k < q {
      ProductsOrdered(k + 1, q, d);
    }
  }

  lemma ProductsOrdered(a: int, b: int, d: int)
    requires d > 0 && a <= b
    ensures (a - 1) * d + d <= b * d
  {
    assert (a - 1) * d + d == a * d;
    assert (b - a) * d >= 0;
  }

  /** Every block of the tiled range lies in exactly one chunk. */
  lemma {:induction false} TilingCovers(chunks: seq<Chunk>, from: int, to: int, size: int, block: int)
    requires IsTiling(chunks, from, to, size) && from <= block <= to
    ensures exists i :: 0 <= i < |chunks| && chunks[i].from <= block <= chunks[i].to
    ensures forall i, j :: 0 <= i < j < |chunks| && chunks[i].from <= block <= chunks[i].to ==> block < chunks[j].from
    decreases |chunks|
  {
    TilingChunk(chunks, from, to, size, block, |chunks| - 1);
    forall i, j | 0 <= i < j < |chunks| && chunks[i].from <= block <= chunks[i].to ensures block < chunks[j].from {
      TilingIncreases(chunks, from, to, size, i, j);
    }
  }

  lemma {:induction false} TilingChunk(chunks: seq<Chunk>, from: int, to: int, size: int, block: int, last: nat)
    requires IsTiling(chunks, from, to, size) && last < |chunks| && from <= block <= chunks[last].to
    ensures exists i :: 0 <= i <= last && chunks[i].from <= block <= chunks[i].to
    decreases last
  {
    if chunks[last].from <= block {
    } else {
      TilingChunk(chunks, from, to, size, block, last - 1);
    }
  }

  lemma {:induction false} TilingIncreases(chunks: seq<Chunk>, from: int, to: int, size: int, i: nat, j: nat)
    requires IsTiling(chunks, from, to, size) && i < j < |chunks|
    ensures chunks[i].to < chunks[j].from
    decreases j - i
  {
    if j <= i + 1 {
    } else {
      TilingIncreases(chunks, from, to, size, i + 1, j);
    }
  }

  lemma TilingWithin(chunks: seq<Chunk>, from: int, to: int, size: int, i: nat)
    requires IsTiling(chunks, from, to, size) && i < |chunks|
    ensures chunks[i].to <= to
  {
    var last := |chunks| - 1;
    if i < last {
      TilingIncreases(chunks, from, to, size, i, last);
    }
  }

  /** Without its last chunk a tiling tiles what comes before it. */
  lemma TilingInit(chunks: seq<Chunk>, from: int, to: int, size: int) returns (middle: U64)
    requires IsTiling(chunks, from, to, size) && |chunks| > 1
    ensures IsTiling(chunks[..|chunks| - 1], from, middle, size) && from <= middle
    ensures chunks[|chunks| - 1].from == middle + 1 && chunks[|chunks| - 1].to == to > middle
  {
    var last := |chunks| - 1;
    middle := chunks[last - 1].to;
    TilingIncreases(chunks, from, to, size, 0, last);
  }

  // ---------------------------------------------------------------- planning

  datatype BackfillPlan = BackfillPlan(ranges: seq<Chunk>, inserted: nat, existing: nat)

  /** The first block that is not yet below the checkpoint. */
  function EffectiveFrom(checkpoint: Option<Checkpoint>, from: U64): U64
    requires checkpoint.Some? ==> checkpoint.value.processed <= I64_MAX
  {
    if checkpoint.Some? && checkpoint.value.processed >= 0
    then Max(from, SaturatingAdd(checkpoint.value.processed, 1))
    else from
  }

  function PlannedJob(source: SourceId, chain: int, chunk: Chunk, maxAttempts: nat, created: int): Job {
    Job(IngestRange, Queued, Some(source), chain, Some(chunk.from), Some(chunk.to),
        BackfillKey(source, chunk.from, chunk.to),
        None, None, 0, maxAttempts, None, created)
  }

  /** A job for this range exists, by key or by range. */
  predicate IsTaken(jobs: map<JobId, Job>, job: Job) {
    exists id :: id in jobs && Conflicts(job, jobs[id])
  }

  /** Only the planner writes backfill keys. */
  ghost predicate KeysFaithful(jobs: map<JobId, Job>) {
    forall id :: id in jobs && jobs[id].key.BackfillKey? ==>
      var job := jobs[id];
      job.jobType.IngestRange? && job.source == Some(job.key.source) && job.from == Some(job.key.from)
          && job.to == Some(job.key.to)
  }

  predicate IsIngestOf(job: Job, source: SourceId, chunk: Chunk) {
    job.jobType.IngestRange? && job.source == Some(source) && job.from == Some(chunk.from) && job.to == Some(chunk.to)
  }

  ghost predicate HasIngestJob(jobs: map<JobId, Job>, source: SourceId, chunk: Chunk) {
    exists id :: id in jobs && IsIngestOf(jobs[id], source, chunk)
  }

  lemma TakenIsIngest(jobs: map<JobId, Job>, source: SourceId, chain: int, chunk: Chunk, maxAttempts: nat, created: int)
    requires KeysFaithful(jobs) && IsTaken(jobs, PlannedJob(source, chain, chunk, maxAttempts, created))
    ensures HasIngestJob(jobs, source, chunk)
  {
    var id :| id in jobs && Conflicts(PlannedJob(source, chain, chunk, maxAttempts, created), jobs[id]);
    assert IsIngestOf(jobs[id], source, chunk);
  }

  /** A job as the planner makes it: queued, never leased, for one of the planned chunks. */
  ghost predicate IsPlannedFor(job: Job, source: SourceId, chain: int, ranges: seq<Chunk>, maxAttempts: int,
                               created: int) {
    && job.jobType == IngestRange && job.status == Queued && job.source == Some(source) && job.chain == chain
    && job.attempts == 0 && job.maxAttempts == maxAttempts && job.created == created
    && job.leasedBy == None && job.leaseExpires == None && job.error == None
    && exists chunk :: chunk in ranges && job.from == Some(chunk.from as int) && job.to == Some(chunk.to as int)
                       && job.key == BackfillKey(source, chunk.from, chunk.to)
  }

  ghost predicate AllPlannedFor(before: map<JobId, Job>, after: map<JobId, Job>, source: SourceId, chain: int,
                                ranges: seq<Chunk>, maxAttempts: int, created: int) {
    forall id :: id in after && id !in before ==>
      IsPlannedFor(after[id], source, chain, ranges, maxAttempts, created)
  }

  predicate IsHeld(chunks: seq<Chunk>, block: int) {
    exists i :: 0 <= i < |chunks| && chunks[i].from <= block <= chunks[i].to
  }

  /** The chunks hold exactly the requested blocks above the checkpoint. */
  ghost predicate HoldRequest(chunks: seq<Chunk>, checkpoint: Option<Checkpoint>, from: int, to: int) {
    forall block ::
      IsHeld(chunks, block) <==> from <= block <= to && (checkpoint.Some? ==> checkpoint.value.processed < block)
  }

  lemma PlannedBlocks(chunks: seq<Chunk>, checkpoint: Option<Checkpoint>, from: U64, to: U64, size: int, block: int)
    requires from <= to <= I64_MAX && (checkpoint.Some? ==> checkpoint.value.processed <= I64_MAX)
    requires var start := EffectiveFrom(checkpoint, from);
             if start > to then chunks == [] else IsTiling(chunks, start, to, size)
    ensures IsHeld(chunks, block)
       <==> from <= block <= to && (checkpoint.Some? ==> checkpoint.value.processed < block)
  {
    var start := EffectiveFrom(checkpoint, from);
    if start <= block <= to {
      TilingCovers(chunks, start, to, size, block);
    }
    if i :| 0 <= i < |chunks| && chunks[i].from <= block <= chunks[i].to {
      TilingWithin(chunks, start, to, size, i);
      if i > 0 {
        TilingIncreases(chunks, start, to, size, 0, i);
      }
    }
  }

  /** A fresh row id. */
  method FreshId(jobs: map<JobId, Job>) returns (id: JobId)
    ensures id !in jobs
  {
    id := 0;
    var rest := jobs.Keys;
    while rest != {}
      invariant rest <= jobs.Keys
      invariant forall k :: k in jobs && k !in rest ==> k < id
      decreases rest
    {
      var k :| k in rest;
      rest := rest - {k};
      if k >= id {
        id := k + 1;
      }
    }
  }

  ghost predicate Keeps(before: map<JobId, Job>, after: map<JobId, Job>) {
    forall id :: id in before ==> id in after && after[id] == before[id]
  }

  /** Enqueues the job of one chunk unless it is taken. */
  method EnqueueChunk(repository: JobRepository, source: SourceId, chain: int, chunk: Chunk, maxAttempts: nat,
                      created: int)
    returns (inserted: bool)
    requires maxAttempts > 0
    modifies repository
    ensures inserted <==> !IsTaken(old(repository.jobs), PlannedJob(source, chain, chunk, maxAttempts, created))
    ensures !inserted ==> repository.jobs == old(repository.jobs)
    ensures |repository.jobs| == |old(repository.jobs)| + (if inserted then 1 else 0)
    ensures Keeps(old(repository.jobs), repository.jobs) && repository.attempts == old(repository.attempts)
    ensures IsTaken(repository.jobs, PlannedJob(source, chain, chunk, maxAttempts, created))
    ensures KeysFaithful(old(repository.jobs)) ==> KeysFaithful(repository.jobs)
    ensures AllPlannedFor(old(repository.jobs), repository.jobs, source, chain, [chunk], maxAttempts, created)
  {
    assert chunk in [chunk];
    var job := PlannedJob(source, chain, chunk, maxAttempts, created);
    var id := FreshId(repository.jobs);
    var result := repository.Enqueue(id, job);
    inserted := result.Inserted?;
    assert Conflicts(job, repository.jobs[result.id]);
  }

  /** Enqueues the jobs of all chunks, in order. */
  method EnqueueChunks(repository: JobRepository, source: SourceId, chain: int, ranges: seq<Chunk>, maxAttempts: nat,
                       created: int)
    returns (inserted: nat, existing: nat)
    requires maxAttempts > 0
    modifies repository
    ensures inserted + existing == |ranges| && |repository.jobs| == |old(repository.jobs)| + inserted
    ensures Keeps(old(repository.jobs), repository.jobs) && repository.attempts == old(repository.attempts)
    ensures forall chunk ::
              chunk in ranges ==> IsTaken(repository.jobs, PlannedJob(source, chain, chunk, maxAttempts, created))
    ensures (forall chunk :: chunk in ranges ==>
               IsTaken(old(repository.jobs), PlannedJob(source, chain, chunk, maxAttempts, created))) ==>
              repository.jobs == old(repository.jobs)
    ensures KeysFaithful(old(repository.jobs)) ==> KeysFaithful(repository.jobs)
    ensures AllPlannedFor(old(repository.jobs), repository.jobs, source, chain, ranges, maxAttempts, created)
  {
    inserted, existing := 0, 0;
    for i := 0 to |ranges|
      invariant inserted + existing == i
      invariant |repository.jobs| == |old(repository.jobs)| + inserted
      invariant Keeps(old(repository.jobs), repository.jobs)
      invariant repository.attempts == old(repository.attempts)
      invariant forall j ::
                0 <= j < i ==> IsTaken(repository.jobs, PlannedJob(source, chain, ranges[j], maxAttempts, created))
      invariant (forall chunk :: chunk in ranges ==>
                   IsTaken(old(repository.jobs), PlannedJob(source, chain, chunk, maxAttempts, created))) ==>
                  repository.jobs == old(repository.jobs)
      invariant KeysFaithful(old(repository.jobs)) ==> KeysFaithful(repository.jobs)
      invariant AllPlannedFor(old(repository.jobs), repository.jobs, source, chain, ranges, maxAttempts, created)
    {
      ghost var before := repository.jobs;
      assert ranges[i] in ranges;
      var isNew := EnqueueChunk(repository, source, chain, ranges[i], maxAttempts, created);
      if isNew {
        inserted := inserted + 1;
      } else {
        existing := existing + 1;
      }
      PlannedForMore(old(repository.jobs), before, repository.jobs, source, chain, ranges, i, maxAttempts, created);
      forall j | 0 <= j < i
        ensures IsTaken(repository.jobs, PlannedJob(source, chain, ranges[j], maxAttempts, created))
      {
        TakenStays(before, repository.jobs, PlannedJob(source, chain, ranges[j], maxAttempts, created));
      }
    }
  }

  lemma PlannedForMore(first: map<JobId, Job>, before: map<JobId, Job>, after: map<JobId, Job>, source: SourceId,
                       chain: int, ranges: seq<Chunk>, i: nat, maxAttempts: int, created: int)
    requires i < |ranges| && Keeps(first, before) && Keeps(before, after)
    requires AllPlannedFor(first, before, source, chain, ranges, maxAttempts, created)
    requires AllPlannedFor(before, after, source, chain, [ranges[i]], maxAttempts, created)
    ensures AllPlannedFor(first, after, source, chain, ranges, maxAttempts, created)
  {
    assert ranges[i] in ranges;
    forall id | id in after && id !in first
      ensures IsPlannedFor(after[id], source, chain, ranges, maxAttempts, created)
    {
      assert id in before ==> IsPlannedFor(before[id], source, chain, ranges, maxAttempts, created);
    }
  }

  method PlanBackfillJobs(repository: JobRepository, checkpoint: Option<Checkpoint>, source: SourceId, chain: int,
                          from: U64, to: U64, size: U64, maxAttempts: int, created: int)
    returns (plan: Result<BackfillPlan>)
    requires checkpoint.Some? ==> checkpoint.value.processed <= I64_MAX
    modifies repository
    ensures plan.Ok? <==> maxAttempts > 0 && size > 0 && from <= to <= I64_MAX
    ensures plan == Err ==> repository.Contents() == old(repository.Contents())
    ensures plan.Ok? ==>
              var start := EffectiveFrom(checkpoint, from);
              && (start > to ==> plan.value.ranges == [])
              && (start <= to ==>
                  IsTiling(plan.value.ranges, start, to, size) && |plan.value.ranges| == (to - start) / size + 1)
    ensures plan.Ok? ==> HoldRequest(plan.value.ranges, checkpoint, from, to)
    ensures plan.Ok? ==> AllPlannedFor(old(repository.jobs), repository.jobs, source, chain, plan.value.ranges,
                                       maxAttempts, created)
    ensures plan.Ok? ==>
              && plan.value.inserted + plan.value.existing == |plan.value.ranges|
              && |repository.jobs| == |old(repository.jobs)| + plan.value.inserted
              && Keeps(old(repository.jobs), repository.jobs)
              && repository.attempts == old(repository.attempts)
    ensures plan.Ok? ==> forall chunk :: chunk in plan.value.ranges ==>
              IsTaken(repository.jobs, PlannedJob(source, chain, chunk, maxAttempts, created))
    ensures plan.Ok? && (forall chunk :: chunk in plan.value.ranges ==>
                           IsTaken(old(repository.jobs), PlannedJob(source, chain, chunk, maxAttempts, created))) ==>
              repository.jobs == old(repository.jobs)
    ensures plan.Ok? && KeysFaithful(old(repository.jobs)) ==>
              && KeysFaithful(repository.jobs)
              && forall chunk :: chunk in plan.value.ranges ==> HasIngestJob(repository.jobs, source, chunk)
  {
    if maxAttempts <= 0 || size == 0 || from > to || from > I64_MAX || to > I64_MAX {
      return Err;
    }
    var start := EffectiveFrom(checkpoint, from);
    var ranges: seq<Chunk> := [];
    if start <= to {
      var split := SplitInclusiveRange(start, to, size);
      ranges := split.value;
    }
    forall block
      ensures IsHeld(ranges, block)
         <==> from <= block <= to && (checkpoint.Some? ==> checkpoint.value.processed < block)
    {
      PlannedBlocks(ranges, checkpoint, from, to, size, block);
    }
    var inserted, existing := EnqueueChunks(repository, source, chain, ranges, maxAttempts, created);
    if KeysFaithful(old(repository.jobs)) {
      forall chunk | chunk in ranges ensures HasIngestJob(repository.jobs, source, chunk) {
        TakenIsIngest(repository.jobs, source, chain, chunk, maxAttempts, created);
      }
    }
    return Ok(BackfillPlan(ranges, inserted, existing));
  }

  lemma TakenStays(before: map<JobId, Job>, after: map<JobId, Job>, job: Job)
    requires IsTaken(before, job) && Keeps(before, after)
    ensures IsTaken(after, job)
  {
    var id :| id in before && Conflicts(job, before[id]);
    assert Conflicts(job, after[id]);
  }

  lemma TilingUnique(a: seq<Chunk>, b: seq<Chunk>, from: int, to: int, size: int)
    requires IsTiling(a, from, to, size) && IsTiling(b, from, to, size)
    ensures a == b
  {
    TilingCount(a, from, to, size);
    TilingCount(b, from, to, size);
    forall i | 0 <= i < |a| ensures a[i] == b[i] {
      TilingStarts(a, from, to, size, i);
      TilingStarts(b, from, to, size, i);
    }
  }

  /** Planning the same request again, with the checkpoint unchanged, inserts nothing. */
  method Replan(repository: JobRepository, checkpoint: Option<Checkpoint>, source: SourceId, chain: int,
                from: U64, to: U64, size: U64, maxAttempts: int, created: int)
    returns (first: Result<BackfillPlan>, second: Result<BackfillPlan>)
    requires checkpoint.Some? ==> checkpoint.value.processed <= I64_MAX
    modifies repository
    ensures first.Ok? <==> second.Ok?
    ensures second.Ok? ==> second.value.ranges == first.value.ranges && second.value.inserted == 0
                           && second.value.existing == |first.value.ranges|
  {
    first := PlanBackfillJobs(repository, checkpoint, source, chain, from, to, size, maxAttempts, created);
    second := PlanBackfillJobs(repository, checkpoint, source, chain, from, to, size, maxAttempts, created);
    if first.Ok? && EffectiveFrom(checkpoint, from) <= to {
      TilingUnique(first.value.ranges, second.value.ranges, EffectiveFrom(checkpoint, from), to, size);
    }
  }

  ghost predicate HasSucceeded(jobs: map<JobId, Job>, source: SourceId, chunk: Chunk) {
    exists id :: id in jobs && IsIngestOf(jobs[id], source, chunk) && jobs[id].status.Succeeded?
  }

  /** Every planned chunk has succeeded, or is the range just completed. */
  ghost predicate ChunksDone(jobs: map<JobId, Job>, source: SourceId, ranges: seq<Chunk>,
                             completed: Option<(int, int)>) {
    forall chunk :: chunk in ranges ==>
      HasSucceeded(jobs, source, chunk) || completed == Some((chunk.from as int, chunk.to as int))
  }

  /** The plan made at a checkpoint, for a request that leaves no gap after it. */
  ghost predicate IsPlan(planned: Option<Checkpoint>, startBlock: nat, from: U64, to: U64, size: int,
                         ranges: seq<Chunk>) {
    && from <= to <= I64_MAX
    && (planned.Some? ==> 0 <= planned.value.processed <= I64_MAX)
    && from <= PlannedFrontier(planned, startBlock) + 1
    && (EffectiveFrom(planned, from) <= to ==> IsTiling(ranges, EffectiveFrom(planned, from), to, size))
  }

  function PlannedFrontier(planned: Option<Checkpoint>, startBlock: nat): int {
    if planned.Some? then planned.value.processed else startBlock - 1
  }

  /** A chunk that is done covers its blocks. */
  lemma DoneCovers(jobs: map<JobId, Job>, source: SourceId, chunk: Chunk, frontier: int, completed: Option<(int, int)>,
                   block: int)
    requires HasSucceeded(jobs, source, chunk) || completed == Some((chunk.from as int, chunk.to as int))
    requires chunk.from <= block <= chunk.to <= I64_MAX && frontier < block
    ensures CoveredByJobs(jobs, source, frontier, completed, block)
  {
    if HasSucceeded(jobs, source, chunk) {
      var id :| id in jobs && IsIngestOf(jobs[id], source, chunk) && jobs[id].status.Succeeded?;
      assert IsSucceededRange(jobs[id], source, frontier);
    }
  }

  /** Backfill closes the gap: whenever a checkpoint target is computed after every planned chunk has
      succeeded, but for one that the caller has just completed, and wherever the frontier has moved
      to since the planning, the target reaches the end of the request. */
  lemma BackfillClosesGap(jobs: map<JobId, Job>, source: SourceId, planned: Option<Checkpoint>, startBlock: nat,
                          from: U64, to: U64, size: int, ranges: seq<Chunk>,
                          frontier: int, completed: Option<(int, int)>, end: int)
    requires IsPlan(planned, startBlock, from, to, size, ranges)
    requires ChunksDone(jobs, source, ranges, completed)
    requires PlannedFrontier(planned, startBlock) <= frontier && IsNextTarget(jobs, source, frontier, completed, end)
    ensures to <= end
  {
    var start := EffectiveFrom(planned, from);
    if start <= to {
      forall block | frontier < block <= to ensures CoveredByJobs(jobs, source, frontier, completed, block) {
        TilingCovers(ranges, start, to, size, block);
        var i :| 0 <= i < |ranges| && ranges[i].from <= block <= ranges[i].to;
        assert ranges[i] in ranges;
        TilingWithin(ranges, start, to, size, i);
        DoneCovers(jobs, source, ranges[i], frontier, completed, block);
      }
      NextTargetIsGreatest(jobs, source, frontier, completed, end, to);
    }
  }
}
