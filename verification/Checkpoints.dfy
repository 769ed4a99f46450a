/** The source checkpoint: contiguous progress against finalized history. */
module Checkpoints {
  import opened Wrappers

  datatype Checkpoint = Checkpoint(processed: int, hash: string, finalized: int)

  /** One `advance_checkpoint` transaction on the stored row; Err leaves it untouched. */
  function Advance(existing: Option<Checkpoint>, processed: int, hash: string, finalized: int): Result<Checkpoint> {
    if processed < 0 || finalized < 0 || processed > finalized then Err
    else if existing == None then Ok(Checkpoint(processed, hash, finalized))
    else
      var e := existing.value;
      if processed == e.processed && hash != e.hash then Err
      else if processed < e.processed && finalized <= e.finalized then Ok(e)
      else Ok(Checkpoint(Max(e.processed, processed),
                         if processed > e.processed then hash else e.hash,
                         Max(e.finalized, finalized)))
  }

  /** The table CHECKs. */
  predicate WellFormed(c: Checkpoint) {
    0 <= c.processed <= c.finalized
  }

  /** Both marks only grow, and the hash belongs to the surviving processed block. */
  lemma AdvanceMonotone(existing: Option<Checkpoint>, processed: int, hash: string, finalized: int)
    requires existing.Some? ==> WellFormed(existing.value)
    requires Advance(existing, processed, hash, finalized).Ok?
    ensures var c := Advance(existing, processed, hash, finalized).value;
            && WellFormed(c)
            && processed <= c.processed && finalized <= c.finalized
            && (existing.Some? ==> existing.value.processed <= c.processed && existing.value.finalized <= c.finalized)
            && ((c.processed, c.hash) == (processed, hash)
                || (existing.Some? && (c.processed, c.hash) == (existing.value.processed, existing.value.hash)))
  {
  }

  /** Exactly which calls succeed: valid ones, unless they name the stored processed block under
      another hash. */
  lemma AdvanceAccepts(existing: Option<Checkpoint>, processed: int, hash: string, finalized: int)
    ensures Advance(existing, processed, hash, finalized).Ok?
       <==> 0 <= processed <= finalized
            && !(existing.Some? && existing.value.processed == processed && existing.value.hash != hash)
  {
  }

  /** The stored hash changes only together with the processed block, and is then the caller's. */
  lemma AdvanceHash(existing: Option<Checkpoint>, processed: int, hash: string, finalized: int)
    requires Advance(existing, processed, hash, finalized).Ok?
    ensures var c := Advance(existing, processed, hash, finalized).value;
            if existing.Some? && existing.value.processed == c.processed then existing.value.hash == c.hash
            else c.processed == processed && c.hash == hash
  {
  }

  /** Any calls in any order; one that fails leaves the row. */
  datatype HashedCall = HashedCall(processed: int, hash: string, finalized: int)

  ghost function AdvanceEach(start: Checkpoint, calls: seq<HashedCall>): Checkpoint {
    if calls == [] then start else
    var c := AdvanceEach(start, calls[..|calls| - 1]);
    var last := calls[|calls| - 1];
    match Advance(Some(c), last.processed, last.hash, last.finalized)
    case Err => c
    case Ok(next) => next
  }

  /** While a block stays the processed block, so does its hash. */
  lemma {:induction false} HashStays(start: Checkpoint, calls: seq<HashedCall>)
    ensures start.processed <= AdvanceEach(start, calls).processed
    ensures AdvanceEach(start, calls).processed == start.processed ==> AdvanceEach(start, calls).hash == start.hash
    decreases |calls|
  {
    if calls == [] {
    } else {
      HashStays(start, calls[..|calls| - 1]);
    }
  }

  /** Two different hashes for the processed block never both succeed, whatever calls come between. */
  lemma OneHashPerBlock(start: Option<Checkpoint>, a: HashedCall, between: seq<HashedCall>, b: HashedCall)
    requires start.Some? ==> WellFormed(start.value)
    requires Advance(start, a.processed, a.hash, a.finalized).Ok?
    requires var c := Advance(start, a.processed, a.hash, a.finalized).value;
             && AdvanceEach(c, between).processed == a.processed == b.processed
             && Advance(Some(AdvanceEach(c, between)), b.processed, b.hash, b.finalized).Ok?
    ensures a.hash == b.hash
  {
    AdvanceMonotone(start, a.processed, a.hash, a.finalized);
    HashStays(Advance(start, a.processed, a.hash, a.finalized).value, between);
  }

  datatype AdvanceCall = AdvanceCall(processed: int, finalized: int)

  predicate ValidCall(c: AdvanceCall) {
    0 <= c.processed <= c.finalized
  }

  /** Calls in the given order, every call carrying the hash of its own block. */
  ghost function AdvanceAll(start: Option<Checkpoint>, calls: seq<AdvanceCall>,
                            hashOf: int -> string): Result<Option<Checkpoint>> {
    if calls == [] then Ok(start) else
    match AdvanceAll(start, calls[..|calls| - 1], hashOf)
    case Err => Err
    case Ok(c) =>
      var last := calls[|calls| - 1];
      match Advance(c, last.processed, hashOf(last.processed), last.finalized)
      case Err => Err
      case Ok(next) => Ok(Some(next))
  }

  ghost predicate IsMaxProcessed(start: Option<Checkpoint>, calls: seq<AdvanceCall>, m: int) {
    && (start.Some? ==> start.value.processed <= m)
    && (forall c :: c in calls ==> c.processed <= m)
    && ((start.Some? && start.value.processed == m) || exists c :: c in calls && c.processed == m)
  }

  ghost predicate IsMaxFinalized(start: Option<Checkpoint>, calls: seq<AdvanceCall>, m: int) {
    && (start.Some? ==> start.value.finalized <= m)
    && (forall c :: c in calls ==> c.finalized <= m)
    && ((start.Some? && start.value.finalized == m) || exists c :: c in calls && c.finalized == m)
  }

  /** `advance_checkpoint` is a join: valid calls never fail, and they end at the maximum
      processed block with that block's own hash and the maximum finalized block. */
  lemma {:induction false} AdvanceIsJoin(start: Option<Checkpoint>, calls: seq<AdvanceCall>, hashOf: int -> string)
    requires start.Some? ==> WellFormed(start.value) && start.value.hash == hashOf(start.value.processed)
    requires forall c :: c in calls ==> ValidCall(c)
    requires start.Some? || calls != []
    ensures AdvanceAll(start, calls, hashOf).Ok? && AdvanceAll(start, calls, hashOf).value.Some?
    ensures var c := AdvanceAll(start, calls, hashOf).value.value;
            && WellFormed(c)
            && IsMaxProcessed(start, calls, c.processed)
            && c.hash == hashOf(c.processed)
            && IsMaxFinalized(start, calls, c.finalized)
    decreases |calls|
  {
    if calls == [] {
    } else {
      var n := |calls| - 1;
      assert calls == calls[..n] + [calls[n]];
      if start.Some? || n > 0 {
        AdvanceIsJoin(start, calls[..n], hashOf);
      }
      assert calls[n] in calls;
    }
  }

  lemma SameMembers(calls: seq<AdvanceCall>, others: seq<AdvanceCall>)
    requires multiset(calls) == multiset(others)
    ensures |calls| == |others| && forall c :: c in calls <==> c in others
  {
    assert forall c :: c in calls <==> c in multiset(calls);
    assert forall c :: c in others <==> c in multiset(others);
    assert |calls| == |multiset(calls)| && |others| == |multiset(others)|;
  }

  lemma SameMaximum(start: Option<Checkpoint>, calls: seq<AdvanceCall>, others: seq<AdvanceCall>, m: int, n: int)
    requires forall c :: c in calls <==> c in others
    ensures IsMaxProcessed(start, calls, m) && IsMaxProcessed(start, others, n) ==> m == n
    ensures IsMaxFinalized(start, calls, m) && IsMaxFinalized(start, others, n) ==> m == n
  {
  }

  /** The order of the calls does not matter. */
  lemma AdvanceOrderIrrelevant(start: Option<Checkpoint>, calls: seq<AdvanceCall>, others: seq<AdvanceCall>,
                               hashOf: int -> string)
    requires start.Some? ==> WellFormed(start.value) && start.value.hash == hashOf(start.value.processed)
    requires forall c :: c in calls ==> ValidCall(c)
    requires multiset(calls) == multiset(others)
    ensures AdvanceAll(start, calls, hashOf) == AdvanceAll(start, others, hashOf)
  {
    SameMembers(calls, others);
    if calls != [] {
      AdvanceIsJoin(start, calls, hashOf);
      AdvanceIsJoin(start, others, hashOf);
      var a, b := AdvanceAll(start, calls, hashOf).value.value, AdvanceAll(start, others, hashOf).value.value;
      SameMaximum(start, calls, others, a.processed, b.processed);
      SameMaximum(start, calls, others, a.finalized, b.finalized);
    }
  }
}
