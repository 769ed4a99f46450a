/** The contiguous frontier: how far the checkpoint may advance over completed ranges. */
module Frontier {
  import opened Domain

  predicate IsI64(x: int) {
    -0x8000_0000_0000_0000 <= x <= 0x7fff_ffff_ffff_ffff
  }

  type I64 = x: int | -0x8000_0000_0000_0000 <= x <= 0x7fff_ffff_ffff_ffff

  datatype BlockRange = BlockRange(from: I64, to: I64)

  predicate Covered(ranges: seq<BlockRange>, block: int) {
    exists r :: r in ranges && r.from <= block <= r.to
  }

  /** `target` is the end of the covered run that starts right after `frontier`. */
  ghost predicate IsTarget(frontier: int, ranges: seq<BlockRange>, target: int) {
    && frontier <= target
    && (forall block :: frontier < block <= target ==> Covered(ranges, block))
    && !Covered(ranges, target + 1)
  }

  /** The target is the greatest block up to which everything after the frontier is covered. */
  lemma TargetIsGreatest(frontier: int, ranges: seq<BlockRange>, target: int, other: int)
    requires IsTarget(frontier, ranges, target)
    requires forall block :: frontier < block <= other ==> Covered(ranges, block)
    ensures other <= target
  {
    assert frontier < target + 1 <= other ==> Covered(ranges, target + 1);
  }

  predicate RangeBefore(a: BlockRange, b: BlockRange) {
    a.from < b.from || (a.from == b.from && a.to <= b.to)
  }

  predicate Sorted(ranges: seq<BlockRange>) {
    forall i, j :: 0 <= i < j < |ranges| ==> RangeBefore(ranges[i], ranges[j])
  }

  function Insert(sorted: seq<BlockRange>, r: BlockRange): (result: seq<BlockRange>)
    requires Sorted(sorted)
    ensures Sorted(result)
    ensures forall x :: x in result <==> x in sorted || x == r
    ensures |result| == |sorted| + 1
  {
    if sorted == [] || RangeBefore(r, sorted[0]) then [r] + sorted
    else
      var rest := Insert(sorted[1..], r);
      assert forall x :: x in sorted[1..] ==> exists j :: 1 <= j < |sorted| && sorted[j] == x;
      assert forall x :: x in rest ==> RangeBefore(sorted[0], x);
      assert forall j :: 0 <= j < |rest| ==> rest[j] in rest;
      [sorted[0]] + rest
  }

  lemma {:induction false} InsertAddsOne(sorted: seq<BlockRange>, r: BlockRange)
    requires Sorted(sorted)
    ensures multiset(Insert(sorted, r)) == multiset(sorted) + multiset{r}
    decreases |sorted|
  {
    if !(sorted == [] || RangeBefore(r, sorted[0])) {
      InsertAddsOne(sorted[1..], r);
      assert sorted == [sorted[0]] + sorted[1..];
    }
  }

  method SortRanges(ranges: seq<BlockRange>) returns (sorted: seq<BlockRange>)
    ensures multiset(sorted) == multiset(ranges)
    ensures Sorted(sorted)
  {
    sorted := [];
    for i := 0 to |ranges|
      invariant multiset(sorted) == multiset(ranges[..i])
      invariant Sorted(sorted)
    {
      InsertAddsOne(sorted, ranges[i]);
      assert ranges[..i + 1] == ranges[..i] + [ranges[i]];
      sorted := Insert(sorted, ranges[i]);
    }
    assert ranges[..|ranges|] == ranges;
  }

  function SaturatingSucc(x: I64): I64 {
    if x == I64_MAX then x else x + 1
  }

  /** The sort-then-sweep loop. */
  method Sweep(frontier: I64, ranges: seq<BlockRange>) returns (target: I64)
    ensures IsTarget(frontier, ranges, target)
  {
    var sorted := SortRanges(ranges);
    assert forall r :: r in ranges <==> r in multiset(ranges);
    assert forall r :: r in sorted <==> r in multiset(sorted);
    target := frontier;
    for i := 0 to |sorted|
      invariant frontier <= target
      invariant forall block :: frontier < block <= target ==> Covered(ranges, block)
      invariant forall j :: 0 <= j < i ==> sorted[j].to <= target || sorted[j].from > target + 1
    {
      var r := sorted[i];
      if r.from <= SaturatingSucc(target) && r.to > target {
        assert r in ranges;
        forall block | frontier < block <= r.to ensures Covered(ranges, block) {
          if block > target {
            assert r.from <= block <= r.to;
          }
        }
        forall j | 0 <= j < i ensures sorted[j].to <= r.to {
          assert RangeBefore(sorted[j], r);
        }
        target := r.to;
      }
    }
  }
}
