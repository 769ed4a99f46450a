/** Reorg verification: comparing stored block hashes with canonical ones and recording the
    mismatches as contiguous ranges. */
module Reorg {
  import opened Wrappers
  import opened Domain
  import opened Checkpoints


  datatype IndexedHash = IndexedHash(block: int, hash: string)

  datatype Mismatch = Mismatch(block: int, expected: string, actual: string)

  datatype ReorgEvent = ReorgEvent(from: int, to: int, expected: string, actual: string, mismatches: seq<Mismatch>)

  datatype Verification = Verification(checked: nat, mismatches: seq<Mismatch>)

  // ---------------------------------------------------------------- coalescing

  type Group = g: seq<Mismatch> | g != [] witness [Mismatch(0, "", "")]

  function Flatten(groups: seq<Group>): seq<Mismatch> {
    if groups == [] then [] else Flatten(groups[..|groups| - 1]) + groups[|groups| - 1]
  }

  ghost predicate Consecutive(group: Group) {
    forall i, j :: 0 <= i && j < |group| && j == i + 1 ==> group[j].block == group[i].block + 1
  }

  function LastBlock(group: Group): int {
    group[|group| - 1].block
  }

  /** The first mismatch of the next group could not have been absorbed. */
  predicate Apart(group: Group, next: Group) {
    next[0].block != LastBlock(group) + 1
  }

  /** The groups split the mismatch list in order, each has consecutive blocks, and none could
      absorb the first mismatch of the next. */
  ghost predicate IsCoalescing(mismatches: seq<Mismatch>, groups: seq<Group>) {
    && Flatten(groups) == mismatches
    && (forall i :: 0 <= i < |groups| ==> Consecutive(groups[i]))
    && (forall i, j :: 0 <= i && j < |groups| && j == i + 1 ==> Apart(groups[i], groups[j]))
  }

  function EventOf(group: Group): ReorgEvent {
    ReorgEvent(group[0].block, LastBlock(group), group[0].expected, group[0].actual, group)
  }

  function EventsOf(groups: seq<Group>): seq<ReorgEvent> {
    seq(|groups|, i requires 0 <= i < |groups| => EventOf(groups[i]))
  }

  /** Recording stopped at an event that the database refused: the groups before it are recorded,
      and the rest of the mismatches, which they could not absorb, is not. */
  ghost predicate IsCutOff(mismatches: seq<Mismatch>, groups: seq<Group>) {
    exists start ::
        0 <= start < |mismatches| && IsCoalescing(mismatches[..start], groups)
            && NothingAbsorbed(mismatches, groups, start)
  }

  predicate NothingAbsorbed(mismatches: seq<Mismatch>, groups: seq<Group>, start: nat)
    requires start < |mismatches|
  {
    groups != [] ==> mismatches[start].block != LastBlock(groups[|groups| - 1]) + 1
  }

  ghost predicate AllAccepted(accepts: nat -> bool, count: nat) {
    forall i: nat :: i < count ==> accepts(i)
  }

  lemma AcceptedNext(accepts: nat -> bool, count: nat)
    requires AllAccepted(accepts, count) && accepts(count)
    ensures AllAccepted(accepts, count + 1)
  {
    forall i: nat | i < count + 1 ensures accepts(i) {
      assert i < count || i == count;
    }
  }

  class ReorgRepository {
    var events: seq<ReorgEvent>

    /** Each event is a transaction of its own, which the database may refuse. */
    method RecordReorgRange(range: Group, accepted: bool) returns (ok: bool)
      modifies this
      ensures ok == accepted
      ensures events == if ok then old(events) + [EventOf(range)] else old(events)
    {
      if !accepted {
        return false;
      }
      events := events + [ReorgEvent(range[0].block, range[|range| - 1].block, range[0].expected, range[0].actual,
                                     range)];
      return true;
    }

    /** `accepts` says of each event of this call whether the database takes it. */
    method RecordReorgRanges(mismatches: seq<Mismatch>, accepts: nat -> bool)
      returns (ok: bool, ghost groups: seq<Group>)
      modifies this
      ensures events == old(events) + EventsOf(groups)
      ensures AllAccepted(accepts, |groups|)
      ensures ok ==> IsCoalescing(mismatches, groups)
      ensures !ok ==> !accepts(|groups|) && IsCutOff(mismatches, groups)
    {
      groups := [];
      if mismatches == [] {
        return true, groups;
      }
      var rangeStart, recorded := 0, 0;
      for index := 1 to |mismatches|
        invariant IsPending(mismatches, groups, rangeStart, index)
        invariant events == old(events) + EventsOf(groups)
        invariant recorded == |groups| && AllAccepted(accepts, recorded)
      {
        ok, rangeStart, recorded, groups :=
          RecordNext(mismatches, rangeStart, index, recorded, accepts, groups, old(events));
        if !ok {
          return false, groups;
        }
      }
      var accepted := accepts(recorded);
      ok, groups := CloseRange(mismatches, rangeStart, |mismatches|, accepted, groups, old(events));
      if ok {
        AcceptedNext(accepts, recorded);
        ClosedAtEnd(mismatches, groups);
      }
    }

    /** One mismatch more: it extends the pending range, or closes it and starts the next. */
    method RecordNext(mismatches: seq<Mismatch>, start: nat, index: nat, recorded: nat, accepts: nat -> bool,
                      ghost groups: seq<Group>, ghost before: seq<ReorgEvent>)
      returns (ok: bool, start': nat, recorded': nat, ghost groups': seq<Group>)
      requires index < |mismatches| && IsPending(mismatches, groups, start, index)
      requires events == before + EventsOf(groups) && recorded == |groups| && AllAccepted(accepts, recorded)
      modifies this
      ensures events == before + EventsOf(groups') && recorded' == |groups'| && AllAccepted(accepts, recorded')
      ensures ok ==> IsPending(mismatches, groups', start', index + 1)
      ensures !ok ==> !accepts(|groups'|) && IsCutOff(mismatches, groups')
    {
      start', recorded', groups' := start, recorded, groups;
      if mismatches[index].block == mismatches[index - 1].block + 1 {
        PendingGrows(mismatches, groups, start, index);
        return true, start', recorded', groups';
      }
      var accepted := accepts(recorded);
      ok, groups' := CloseRange(mismatches, start, index, accepted, groups, before);
      if ok {
        AcceptedNext(accepts, recorded);
        ClosedThenPending(mismatches, groups', index);
        start', recorded' := index, recorded + 1;
      }
    }

    /** Records the pending range as one event. */
    method CloseRange(mismatches: seq<Mismatch>, start: nat, index: nat, accepted: bool,
                      ghost groups: seq<Group>, ghost before: seq<ReorgEvent>)
      returns (ok: bool, ghost closed: seq<Group>)
      requires IsPending(mismatches, groups, start, index)
      requires events == before + EventsOf(groups)
      modifies this
      ensures ok == accepted
      ensures |closed| == |groups| + (if ok then 1 else 0)
      ensures closed == if ok then groups + [mismatches[start..index]] else groups
      ensures events == before + EventsOf(closed)
      ensures if ok then IsClosed(mismatches, closed, index) else IsCutOff(mismatches, closed)
    {
      PendingEnds(mismatches, groups, start, index);
      PendingCuts(mismatches, groups, start, index);
      ok := RecordReorgRange(mismatches[start..index], accepted);
      closed := if ok then groups + [mismatches[start..index]] else groups;
    }

    /** Compares every stored hash of the range, and the checkpoint's if it lies in the range. */
    method VerifySourceReorgs(stored: set<IndexedHash>, checkpoint: Option<Checkpoint>,
                              canonical: int -> Option<string>,
                              from: nat, to: nat, accepts: nat -> bool)
      returns (verification: Result<Verification>, ghost mismatches: seq<Mismatch>, ghost groups: seq<Group>)
      modifies this
      ensures events == old(events) + EventsOf(groups) && AllAccepted(accepts, |groups|)
      ensures !CanCompare(stored, checkpoint, canonical, from, to) ==> verification == Err && groups == []
      ensures CanCompare(stored, checkpoint, canonical, from, to) ==>
                && AreMismatches(Expected(stored, checkpoint, from, to), canonical, mismatches)
                && (verification.Ok? ==>
                      && IsCoalescing(mismatches, groups)
                      && verification.value == Verification(|Expected(stored, checkpoint, from, to)|, mismatches))
                && (verification == Err ==> !accepts(|groups|) && IsCutOff(mismatches, groups))
      ensures verification.Ok? ==> from <= to <= I64_MAX && AllComparable(stored, checkpoint, canonical, from, to)
      ensures verification.Ok? ==> RecordsExactly(stored, checkpoint, canonical, from, to, EventsOf(groups))
      ensures verification == Err ==>
                || !(from <= to <= I64_MAX) || !AllComparable(stored, checkpoint, canonical, from, to)
                || exists n: nat :: !accepts(n)
    {
      groups, mismatches := [], [];
      ComparableMeans(stored, checkpoint, canonical, from, to);
      if from > to || from > I64_MAX || to > I64_MAX {
        return Err, mismatches, groups;
      }
      var expected := Expected(stored, checkpoint, from, to);
      var found := Compare(expected, canonical);
      if found == Err {
        return Err, mismatches, groups;
      }
      mismatches := found.value;
      var ok;
      ok, groups := RecordReorgRanges(found.value, accepts);
      if ok {
        RecordedExactly(stored, checkpoint, canonical, from, to, mismatches, groups);
      }
      return if ok then Ok(Verification(|expected|, found.value)) else Err, mismatches, groups;
    }
  }

  /** A hash that a verification of a range answers for: a stored one, or the checkpoint's own. */
  predicate IsKnown(stored: set<IndexedHash>, checkpoint: Option<Checkpoint>, block: int, hash: string) {
    || IndexedHash(block, hash) in stored
    || (checkpoint.Some? && checkpoint.value.processed == block && checkpoint.value.hash == hash)
  }

  /** The chain knows every block of the range for which a hash is known here. */
  ghost predicate AllComparable(stored: set<IndexedHash>, checkpoint: Option<Checkpoint>,
                                canonical: int -> Option<string>, from: int, to: int)
  {
    forall block, hash :: from <= block <= to && IsKnown(stored, checkpoint, block, hash) ==> canonical(block).Some?
  }

  ghost predicate IsReorged(stored: set<IndexedHash>, checkpoint: Option<Checkpoint>, canonical: int -> Option<string>,
                            block: int)
  {
    exists hash :: IsKnown(stored, checkpoint, block, hash) && canonical(block) != Some(hash)
  }

  /** The events cover exactly the blocks of the range with a known hash that is not canonical. */
  ghost predicate RecordsExactly(stored: set<IndexedHash>, checkpoint: Option<Checkpoint>,
                                 canonical: int -> Option<string>, from: int, to: int, events: seq<ReorgEvent>)
  {
    forall block ::
      IsRecorded(events, block) <==> from <= block <= to && IsReorged(stored, checkpoint, canonical, block)
  }

  predicate IsRecorded(events: seq<ReorgEvent>, block: int) {
    exists e :: e in events && InEvent(e, block)
  }

  lemma KnownIsExpected(stored: set<IndexedHash>, checkpoint: Option<Checkpoint>, from: int, to: int, h: IndexedHash)
    ensures h in Expected(stored, checkpoint, from, to)
       <==> from <= h.block <= to && IsKnown(stored, checkpoint, h.block, h.hash)
  {
  }

  lemma ComparableMeans(stored: set<IndexedHash>, checkpoint: Option<Checkpoint>, canonical: int -> Option<string>,
                        from: nat, to: nat)
    ensures CanCompare(stored, checkpoint, canonical, from, to)
       <==> from <= to <= I64_MAX && AllComparable(stored, checkpoint, canonical, from, to)
  {
    forall h: IndexedHash
      ensures h in Expected(stored, checkpoint, from, to)
         <==> from <= h.block <= to && IsKnown(stored, checkpoint, h.block, h.hash)
    {
      KnownIsExpected(stored, checkpoint, from, to, h);
    }
    if CanCompare(stored, checkpoint, canonical, from, to) {
      forall block, hash | from <= block <= to && IsKnown(stored, checkpoint, block, hash)
        ensures canonical(block).Some?
      {
        assert IndexedHash(block, hash) in Expected(stored, checkpoint, from, to);
      }
    }
  }

  lemma RecordedExactly(stored: set<IndexedHash>, checkpoint: Option<Checkpoint>, canonical: int -> Option<string>,
                        from: nat, to: nat, mismatches: seq<Mismatch>, groups: seq<Group>)
    requires AllComparable(stored, checkpoint, canonical, from, to) && IsCoalescing(mismatches, groups)
    requires AreMismatches(Expected(stored, checkpoint, from, to), canonical, mismatches)
    ensures RecordsExactly(stored, checkpoint, canonical, from, to, EventsOf(groups))
  {
    var expected := Expected(stored, checkpoint, from, to);
    forall block
      ensures IsRecorded(EventsOf(groups), block)
         <==> from <= block <= to && IsReorged(stored, checkpoint, canonical, block)
    {
      RangesExact(expected, canonical, mismatches, groups, block);
      if h :| h in expected && h.block == block && Differs(h, canonical) {
        KnownIsExpected(stored, checkpoint, from, to, h);
      }
      if from <= block <= to && IsReorged(stored, checkpoint, canonical, block) {
        var hash :| IsKnown(stored, checkpoint, block, hash) && canonical(block) != Some(hash);
        KnownIsExpected(stored, checkpoint, from, to, IndexedHash(block, hash));
        assert Differs(IndexedHash(block, hash), canonical);
      }
    }
  }

  /** What one event says: a run of consecutive mismatches, named by its ends, with the two hashes of
      its first block. */
  lemma EventMeans(mismatches: seq<Mismatch>, groups: seq<Group>, i: nat)
    requires IsCoalescing(mismatches, groups) && i < |groups|
    ensures var e := EventsOf(groups)[i];
            && e.mismatches != [] && e.to == e.from + |e.mismatches| - 1
            && e.mismatches[0] == Mismatch(e.from, e.expected, e.actual)
            && (forall j :: 0 <= j < |e.mismatches| ==> e.mismatches[j].block == e.from + j)
  {
    forall j | 0 <= j < |groups[i]| ensures groups[i][j].block == groups[i][0].block + j {
      ConsecutiveBlocks(groups[i], j);
    }
  }

  /** The range is valid and every canonical hash can be fetched. */
  ghost predicate CanCompare(stored: set<IndexedHash>, checkpoint: Option<Checkpoint>, canonical: int -> Option<string>,
                             from: nat, to: nat)
  {
    from <= to <= I64_MAX && forall h :: h in Expected(stored, checkpoint, from, to) ==> canonical(h.block).Some?
  }

  /** The comparison loop, in block order; nothing is recorded yet. */
  method Compare(expected: set<IndexedHash>, canonical: int -> Option<string>) returns (found: Result<seq<Mismatch>>)
    ensures found.Ok? <==> forall h :: h in expected ==> canonical(h.block).Some?
    ensures found.Ok? ==> AreMismatches(expected, canonical, found.value)
  {
    var mismatches: seq<Mismatch> := [];
    var rest := expected;
    ghost var done: set<IndexedHash> := {};
    while rest != {}
      invariant done + rest == expected && done !! rest
      invariant forall h :: h in done ==> canonical(h.block).Some?
      invariant AreMismatches(done, canonical, mismatches)
      invariant forall h, k :: h in done && k in rest ==> h.block <= k.block
      decreases rest
    {
      var indexed := FirstHash(rest);
      rest := rest - {indexed};
      var actual := canonical(indexed.block);
      if actual == None {
        return Err;
      }
      MismatchesExtend(done, canonical, mismatches, indexed);
      if indexed.hash != actual.value {
        mismatches := mismatches + [Mismatch(indexed.block, indexed.hash, actual.value)];
      }
      done := done + {indexed};
    }
    assert done == expected;
    return Ok(mismatches);
  }

  /** The loop has recorded the groups before `start` and is collecting start..index. */
  ghost predicate IsPending(mismatches: seq<Mismatch>, groups: seq<Group>, start: nat, index: nat) {
    && start < index <= |mismatches|
    && IsCoalescing(mismatches[..start], groups)
    && Consecutive(mismatches[start..index])
    && (groups != [] ==> Apart(groups[|groups| - 1], mismatches[start..index]))
  }

  lemma PendingGrows(mismatches: seq<Mismatch>, groups: seq<Group>, start: nat, index: nat)
    requires IsPending(mismatches, groups, start, index) && index < |mismatches|
    requires mismatches[index].block == mismatches[index - 1].block + 1
    ensures IsPending(mismatches, groups, start, index + 1)
  {
    var before, after := mismatches[start..index], mismatches[start..index + 1];
    assert after == before + [mismatches[index]];
  }

  /** The groups cover everything before `index`, and a mismatch that breaks the run is pending next. */
  ghost predicate IsClosed(mismatches: seq<Mismatch>, groups: seq<Group>, index: nat) {
    && index <= |mismatches| && IsCoalescing(mismatches[..index], groups)
    && (index < |mismatches| && groups != [] && mismatches[index].block != LastBlock(groups[|groups| - 1]) + 1 ==>
          IsPending(mismatches, groups, index, index + 1))
    && groups != [] && index > 0 && LastBlock(groups[|groups| - 1]) == mismatches[index - 1].block
  }

  lemma ClosedAtEnd(mismatches: seq<Mismatch>, groups: seq<Group>)
    requires IsClosed(mismatches, groups, |mismatches|)
    ensures IsCoalescing(mismatches, groups)
  {
    assert mismatches[..|mismatches|] == mismatches;
  }

  lemma ClosedThenPending(mismatches: seq<Mismatch>, groups: seq<Group>, index: nat)
    requires IsClosed(mismatches, groups, index) && index < |mismatches|
    requires mismatches[index].block != mismatches[index - 1].block + 1
    ensures IsPending(mismatches, groups, index, index + 1)
  {
  }

  lemma PendingEnds(mismatches: seq<Mismatch>, groups: seq<Group>, start: nat, index: nat)
    requires IsPending(mismatches, groups, start, index)
    ensures var next := groups + [mismatches[start..index]];
            IsClosed(mismatches, next, index)
                && EventsOf(next) == EventsOf(groups) + [EventOf(mismatches[start..index])]
  {
    CoalescingExtends(mismatches[..start], groups, mismatches[start..index]);
    assert mismatches[..start] + mismatches[start..index] == mismatches[..index];
    if index < |mismatches| {
      assert mismatches[index..index + 1] == [mismatches[index]];
    }
  }

  lemma PendingCuts(mismatches: seq<Mismatch>, groups: seq<Group>, start: nat, index: nat)
    requires IsPending(mismatches, groups, start, index)
    ensures IsCutOff(mismatches, groups)
  {
    assert mismatches[start..index][0] == mismatches[start];
    assert NothingAbsorbed(mismatches, groups, start);
  }

  lemma CoalescingExtends(before: seq<Mismatch>, groups: seq<Group>, range: Group)
    requires IsCoalescing(before, groups) && Consecutive(range)
    requires groups != [] ==> Apart(groups[|groups| - 1], range)
    ensures IsCoalescing(before + range, groups + [range])
    ensures EventsOf(groups + [range]) == EventsOf(groups) + [EventOf(range)]
  {
    var all := groups + [range];
    assert all[..|all| - 1] == groups;
  }

  // ---------------------------------------------------------------- verification

  /** The hashes to check. */
  function Expected(stored: set<IndexedHash>, checkpoint: Option<Checkpoint>, from: int, to: int): set<IndexedHash> {
    (set h | h in stored && from <= h.block <= to)
    + (if checkpoint.Some? && from <= checkpoint.value.processed <= to
       then {IndexedHash(checkpoint.value.processed, checkpoint.value.hash)} else {})
  }

  predicate Differs(h: IndexedHash, canonical: int -> Option<string>) {
    canonical(h.block).Some? && canonical(h.block).value != h.hash
  }

  function StoredSide(m: Mismatch): IndexedHash {
    IndexedHash(m.block, m.expected)
  }

  /** The mismatch list holds exactly the hashes that differ from canonical, once each, by block. */
  ghost predicate AreMismatches(expected: set<IndexedHash>, canonical: int -> Option<string>,
                                mismatches: seq<Mismatch>) {
    && (forall i :: 0 <= i < |mismatches| ==>
          && StoredSide(mismatches[i]) in expected && Differs(StoredSide(mismatches[i]), canonical)
          && canonical(mismatches[i].block) == Some(mismatches[i].actual))
    && (forall h :: h in expected && Differs(h, canonical) ==> exists i ::
        0 <= i < |mismatches| && StoredSide(mismatches[i]) == h)
    && (forall i, j :: 0 <= i < j < |mismatches| ==>
          mismatches[i].block <= mismatches[j].block && StoredSide(mismatches[i]) != StoredSide(mismatches[j]))
  }

  lemma MismatchesExtend(done: set<IndexedHash>, canonical: int -> Option<string>, mismatches: seq<Mismatch>,
                         next: IndexedHash)
    requires AreMismatches(done, canonical, mismatches) && next !in done && canonical(next.block).Some?
    requires forall h :: h in done ==> h.block <= next.block
    ensures AreMismatches(done + {next}, canonical,
              if Differs(next, canonical)
                  then mismatches + [Mismatch(next.block, next.hash, canonical(next.block).value)] else mismatches)
  {
    var extended := if Differs(next, canonical)
        then mismatches + [Mismatch(next.block, next.hash, canonical(next.block).value)] else mismatches;
    forall i | 0 <= i < |mismatches| ensures extended[i] == mismatches[i] && StoredSide(extended[i]) in done {
    }
    forall h | h in done + {next} && Differs(h, canonical)
      ensures exists i :: 0 <= i < |extended| && StoredSide(extended[i]) == h
    {
      if h == next {
        assert StoredSide(extended[|mismatches|]) == h;
      } else {
        var i :| 0 <= i < |mismatches| && StoredSide(mismatches[i]) == h;
        assert StoredSide(extended[i]) == h;
      }
    }
  }

  method FirstHash(hashes: set<IndexedHash>) returns (first: IndexedHash)
    requires hashes != {}
    ensures first in hashes && forall h :: h in hashes ==> first.block <= h.block
  {
    first :| first in hashes;
    var rest := hashes - {first};
    while rest != {}
      invariant rest <= hashes && first in hashes
      invariant forall h :: h in hashes && h !in rest ==> first.block <= h.block
      decreases rest
    {
      var h :| h in rest;
      rest := rest - {h};
      if h.block < first.block {
        first := h;
      }
    }
  }

  // ---------------------------------------------------------------- what the ranges cover

  ghost predicate OneHashPerBlock(hashes: set<IndexedHash>) {
    forall h, k :: h in hashes && k in hashes && h.block == k.block ==> h == k
  }

  predicate Increasing(mismatches: seq<Mismatch>) {
    forall i, j :: 0 <= i < j < |mismatches| ==> mismatches[i].block < mismatches[j].block
  }

  lemma OneHashIncreases(expected: set<IndexedHash>, canonical: int -> Option<string>, mismatches: seq<Mismatch>)
    requires AreMismatches(expected, canonical, mismatches) && OneHashPerBlock(expected)
    ensures Increasing(mismatches)
  {
    forall i, j | 0 <= i < j < |mismatches| ensures mismatches[i].block < mismatches[j].block {
      assert StoredSide(mismatches[i]) in expected && StoredSide(mismatches[j]) in expected;
    }
  }

  predicate InEvent(e: ReorgEvent, block: int) {
    e.from <= block <= e.to
  }

  lemma {:induction false} ConsecutiveBlocks(group: Group, i: nat)
    requires Consecutive(group) && i < |group|
    ensures group[i].block == group[0].block + i
    decreases i
  {
    if i == 0 {
    } else {
      ConsecutiveBlocks(group, i - 1);
    }
  }

  /** A group covers exactly the blocks of its members. */
  lemma GroupCovers(group: Group, block: int)
    requires Consecutive(group)
    ensures InEvent(EventOf(group), block) <==> exists m :: m in group && m.block == block
  {
    ConsecutiveBlocks(group, |group| - 1);
    if InEvent(EventOf(group), block) {
      ConsecutiveBlocks(group, block - group[0].block);
      assert group[block - group[0].block] in group;
    }
    if m :| m in group && m.block == block {
      var i :| 0 <= i < |group| && group[i] == m;
      ConsecutiveBlocks(group, i);
    }
  }

  lemma {:induction false} FlattenMembers(groups: seq<Group>, m: Mismatch)
    ensures m in Flatten(groups) <==> exists g :: g in groups && m in g
    decreases |groups|
  {
    if groups == [] {
    } else {
      var init, last := groups[..|groups| - 1], groups[|groups| - 1];
      assert groups == init + [last];
      FlattenMembers(init, m);
      if m in last {
        assert last in groups;
      }
    }
  }

  /** The recorded ranges together cover exactly the mismatching blocks. */
  lemma RangesCover(mismatches: seq<Mismatch>, groups: seq<Group>, block: int)
    requires IsCoalescing(mismatches, groups)
    ensures (exists e :: e in EventsOf(groups) && InEvent(e, block)) <==>
            (exists m :: m in mismatches && m.block == block)
  {
    var events := EventsOf(groups);
    if e :| e in events && InEvent(e, block) {
      var i :| 0 <= i < |events| && events[i] == e;
      GroupCovers(groups[i], block);
      var m :| m in groups[i] && m.block == block;
      assert groups[i] in groups;
      FlattenMembers(groups, m);
    }
    if m :| m in mismatches && m.block == block {
      FlattenMembers(groups, m);
      var g :| g in groups && m in g;
      var i :| 0 <= i < |groups| && groups[i] == g;
      GroupCovers(g, block);
      assert events[i] == EventOf(g) && events[i] in events;
    }
  }

  lemma {:induction false} FlattenTail(groups: seq<Group>, i: nat)
    requires i + 1 < |groups| && Increasing(Flatten(groups))
    requires forall k :: 0 <= k < |groups| ==> Consecutive(groups[k])
    ensures LastBlock(groups[i]) < groups[i + 1][0].block
    decreases |groups|
  {
    var init, last := groups[..|groups| - 1], groups[|groups| - 1];
    var all, head := Flatten(groups), Flatten(init);
    if i + 2 < |groups| {
      assert Increasing(head) by {
        forall a, b | 0 <= a < b < |head| ensures head[a].block < head[b].block {
          assert all[a] == head[a] && all[b] == head[b];
        }
      }
      FlattenTail(init, i);
    } else {
      var before: Group := groups[i];
      assert init == init[..i] + [before];
      assert head == Flatten(init[..i]) + before;
      assert all[|head| - 1] == before[|before| - 1] && all[|head|] == last[0];
    }
  }

  /** With one hash per block successive ranges are disjoint, ordered, and at least a block apart. */
  lemma {:induction false} RangesApart(mismatches: seq<Mismatch>, groups: seq<Group>, i: nat, j: nat)
    requires IsCoalescing(mismatches, groups) && Increasing(mismatches)
    requires i < j < |groups|
    ensures EventsOf(groups)[i].to + 1 < EventsOf(groups)[j].from
    decreases j
  {
    FlattenTail(groups, j - 1);
    if i < j - 1 {
      RangesApart(mismatches, groups, i, j - 1);
      ConsecutiveBlocks(groups[j - 1], |groups[j - 1]| - 1);
    }
  }

  /** The result of a verification with one stored hash per block: the recorded ranges cover a
      block exactly when its stored hash differs from canonical. */
  lemma RangesExact(expected: set<IndexedHash>, canonical: int -> Option<string>, mismatches: seq<Mismatch>,
                    groups: seq<Group>, block: int)
    requires AreMismatches(expected, canonical, mismatches) && IsCoalescing(mismatches, groups)
    ensures (exists e :: e in EventsOf(groups) && InEvent(e, block))
              <==> (exists h :: h in expected && h.block == block && Differs(h, canonical))
  {
    RangesCover(mismatches, groups, block);
    if m :| m in mismatches && m.block == block {
      var i :| 0 <= i < |mismatches| && mismatches[i] == m;
      assert StoredSide(mismatches[i]) in expected && StoredSide(mismatches[i]).block == block;
    }
    if h :| h in expected && h.block == block && Differs(h, canonical) {
      var i :| 0 <= i < |mismatches| && StoredSide(mismatches[i]) == h;
      assert mismatches[i] in mismatches && mismatches[i].block == block;
    }
  }
}
