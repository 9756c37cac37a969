/** The same arithmetic in wrapping machine words.

    A `usize` ranges over `0..=2 * isizeMax + 1`; a Rust allocation of sized
    elements never holds more than `isizeMax` of them. The shard count is exact
    for every word; the shard bounds are exact as long as the tiling itself,
    `count * chunk`, fits in a word, and the allocation bound ensures that. */
module Machine {
  import opened Base
  import opened Tiling
  import opened Region
  import Deque

  function WordMax(isizeMax: nat): nat {
    2 * isizeMax + 1
  }

  function Wrap(n: nat, isizeMax: nat): nat {
    n % (2 * isizeMax + 2)
  }

  lemma WrapExact(n: nat, isizeMax: nat)
    ensures Wrap(n, isizeMax) == n <==> n <= WordMax(isizeMax)
  {
    if n <= WordMax(isizeMax) {
      RemainderOf(2 * isizeMax + 2, 0, n);
    }
  }

  /** A sum of two words wraps at most once, to something below either of them. */
  lemma WrapSum(a: nat, b: nat, isizeMax: nat)
    requires a <= WordMax(isizeMax) && b <= WordMax(isizeMax) < a + b
    ensures Wrap(a + b, isizeMax) < a
  {
    RemainderOf(2 * isizeMax + 2, 1, a + b - (2 * isizeMax + 2));
  }

  // ------------------------------------------------------------ the count

  function PartitionCountW(len: nat, chunk: pos, isizeMax: nat): nat {
    if len == 0 then 0 else Wrap(1 + (len - 1) / chunk, isizeMax)
  }

  /** Every word, however large, has an exact shard count. */
  lemma CountExact(len: nat, chunk: pos, isizeMax: nat)
    requires len <= WordMax(isizeMax)
    ensures PartitionCountW(len, chunk, isizeMax) == PartitionCount(len, chunk) <= len
  {
    CountAtMostLen(len, chunk);
    WrapExact(PartitionCount(len, chunk), isizeMax);
  }

  function ChunkForPartsW(len: nat, parts: pos, isizeMax: nat): pos {
    Max(PartitionCountW(len, parts, isizeMax), 1)
  }

  /** `chunk_len_for` in words. */
  function ChunkLenForW(plan: PartitionPlan, len: nat, reported: Option<pos>, isizeMax: nat): pos {
    match plan
    case Parts(parts) => ChunkForPartsW(len, parts, isizeMax)
    case AvailableParallelism =>
      var parts := match reported case Some(p) => p case None => 1;
      ChunkForPartsW(len, parts, isizeMax)
    case ChunkSize(chunkSize) => chunkSize
  }

  /** A fixed chunk size is a word. */
  predicate PlanInWords(plan: PartitionPlan, isizeMax: nat) {
    plan.ChunkSize? ==> plan.chunkSize <= WordMax(isizeMax)
  }

  lemma ChunkExact(plan: PartitionPlan, len: nat, reported: Option<pos>, isizeMax: nat)
    requires len <= WordMax(isizeMax) && PlanInWords(plan, isizeMax)
    ensures ChunkLenForW(plan, len, reported, isizeMax) == ChunkLenFor(plan, len, reported) <= WordMax(isizeMax)
  {
    match plan
    case Parts(parts) => CountExact(len, parts, isizeMax);
    case AvailableParallelism => CountExact(len, match reported case Some(p) => p case None => 1, isizeMax);
    case ChunkSize(_) =>
  }

  // ------------------------------------------------------- shard bounds

  /** `ParChunks::range` in words. */
  function RangeW(par: ParChunks, index: nat, isizeMax: nat): (nat, nat) {
    var start := Wrap(index * par.chunk, isizeMax);
    var end := Wrap(start + par.chunk, isizeMax);
    (Min(start, par.len), Min(end, par.len))
  }

  /** The slice bounds of `partition_read_map_with` in words. The deque loop
      computes its chunk ends in the same way. */
  function ReadBoundsW(len: nat, chunk: pos, index: nat, isizeMax: nat): (nat, nat) {
    var start := Wrap(index * chunk, isizeMax);
    (start, Min(Wrap(start + chunk, isizeMax), len))
  }

  /** For a requested index the product never wraps, and the bounds are right
      exactly when the sum does not. */
  lemma RangeExactAt(par: ParChunks, index: nat, isizeMax: nat)
    requires par.len <= WordMax(isizeMax) && par.chunk <= WordMax(isizeMax) && index < par.Count()
    ensures Wrap(index * par.chunk, isizeMax) == index * par.chunk < par.len
    ensures RangeW(par, index, isizeMax) == par.Range(index) <==> index * par.chunk + par.chunk <= WordMax(isizeMax)
    ensures ReadBoundsW(par.len, par.chunk, index, isizeMax) == RangeW(par, index, isizeMax)
  {
    var start := index * par.chunk;
    RangeInBounds(par, index);
    WrapExact(start, isizeMax);
    WrapExact(start + par.chunk, isizeMax);
    if start + par.chunk > WordMax(isizeMax) {
      WrapSum(start, par.chunk, isizeMax);
    }
  }

  lemma EndInTiling(par: ParChunks, index: nat)
    requires index < par.Count()
    ensures index * par.chunk + par.chunk <= par.Count() * par.chunk
    ensures index == par.Count() - 1 ==> index * par.chunk + par.chunk == par.Count() * par.chunk
  {
    MulMono(index + 1, par.Count(), par.chunk);
    assert (index + 1) * par.chunk == index * par.chunk + par.chunk;
  }

  /** Every requested index gets its exact range. */
  ghost predicate RangesRight(par: ParChunks, isizeMax: nat) {
    forall index: nat :: index < par.Count() ==> RangeW(par, index, isizeMax) == par.Range(index)
  }

  ghost predicate ReadBoundsRight(par: ParChunks, isizeMax: nat) {
    forall index: nat :: index < par.Count() ==> ReadBoundsW(par.len, par.chunk, index, isizeMax) == par.Range(index)
  }

  /** The word computations are right for all indices a driver requests exactly
      when the end of the last, unclamped shard is a word. */
  lemma RangesExact(par: ParChunks, isizeMax: nat)
    requires par.len <= WordMax(isizeMax) && par.chunk <= WordMax(isizeMax)
    ensures RangesRight(par, isizeMax) <==> par.Count() * par.chunk <= WordMax(isizeMax)
    ensures ReadBoundsRight(par, isizeMax) <==> par.Count() * par.chunk <= WordMax(isizeMax)
  {
    forall index: nat | index < par.Count()
      ensures ReadBoundsW(par.len, par.chunk, index, isizeMax) == RangeW(par, index, isizeMax)
      ensures par.Count() * par.chunk <= WordMax(isizeMax) ==> RangeW(par, index, isizeMax) == par.Range(index)
    {
      RangeExactAt(par, index, isizeMax);
      EndInTiling(par, index);
    }
    if par.Count() > 0 {
      var last := par.Count() - 1;
      RangeExactAt(par, last, isizeMax);
      EndInTiling(par, last);
    }
  }

  /** Under the allocation bound the tiling fits, so every range is right, and
      doubling the count does not wrap either. */
  lemma AllocationBoundSuffices(par: ParChunks, isizeMax: nat)
    requires par.len <= isizeMax && par.chunk <= WordMax(isizeMax)
    ensures par.Count() * par.chunk <= WordMax(isizeMax) && 2 * par.Count() <= WordMax(isizeMax)
    ensures RangesRight(par, isizeMax) && ReadBoundsRight(par, isizeMax)
  {
    var n := par.Count();
    CountIsCeiling(par.len, par.chunk, n);
    CountAtMostLen(par.len, par.chunk);
    if n > 1 {
      MulMono(1, n - 1, par.chunk);
      assert n * par.chunk == (n - 1) * par.chunk + par.chunk;
    }
    RangesExact(par, isizeMax);
  }

  /** For every index a driver requests on an allocated region, neither the
      product nor the sum wraps and the word computation is the exact one. */
  lemma RangeExact(par: ParChunks, index: nat, isizeMax: nat)
    requires par.len <= isizeMax && par.chunk <= WordMax(isizeMax) && index < par.Count()
    ensures index * par.chunk + par.chunk <= WordMax(isizeMax)
    ensures RangeW(par, index, isizeMax) == par.Range(index) == ReadBoundsW(par.len, par.chunk, index, isizeMax)
  {
    AllocationBoundSuffices(par, isizeMax);
    RangeExactAt(par, index, isizeMax);
  }

  /** The condition can fail: in 8-bit words a region of 200 cells cut at 150
      wraps, and its second partition would end before it starts. */
  lemma RangeWrapsBeyondBound()
    ensures var par := ParChunks(0, 200, 150);
            par.Count() == 2 && par.Range(1) == (150, 200) && RangeW(par, 1, 127) == (150, 44)
  {
  }

  // ------------------------------------------------------ the deque plan

  /** The end of one logical chunk of the deque loop, in words. */
  method ChunkEnd(start: nat, chunk: pos, total: nat, ghost turn: nat, isizeMax: nat) returns (end: nat)
    requires start == turn * chunk < total <= WordMax(isizeMax) && chunk <= WordMax(isizeMax)
    requires DivCeil(total, chunk) * chunk <= WordMax(isizeMax)
    ensures start < end == Min(start + chunk, total)
    ensures end == (turn + 1) * chunk || end == total
  {
    DivCeilIsCount(total, chunk);
    CountAdjoint(total, chunk, turn);
    MulMono(turn + 1, DivCeil(total, chunk), chunk);
    assert (turn + 1) * chunk == turn * chunk + chunk;
    WrapExact(start + chunk, isizeMax);
    end := Min(Wrap(start + chunk, isizeMax), total);
  }

  lemma ReservedCapacity(frontLen: nat, backLen: nat, chunk: pos, isizeMax: nat)
    ensures var count := DivCeil(frontLen + backLen, chunk);
            2 * count <= WordMax(isizeMax)
            <==> |Deque.PlanFrom(frontLen, frontLen + backLen, chunk, 0)| <= Wrap(count * 2, isizeMax) == 2 * count
  {
    WrapExact(DivCeil(frontLen + backLen, chunk) * 2, isizeMax);
    Deque.PlanCount(frontLen, backLen, chunk);
  }

  /** `DequeShardPlan::from_lengths` in words yields the exact plan whenever the
      tiling fits in a word, and reserves enough whenever its doubled count does;
      `AllocationBoundSuffices` gives both for an allocated queue. */
  method FromLengthsW(frontLen: nat, backLen: nat, plan: PartitionPlan, reported: Option<pos>, isizeMax: nat)
    returns (shards: seq<Deque.DequeShard>, capacity: nat)
    requires frontLen + backLen <= WordMax(isizeMax) && PlanInWords(plan, isizeMax)
    requires var chunk := ChunkLenFor(plan, frontLen + backLen, reported);
             DivCeil(frontLen + backLen, chunk) * chunk <= WordMax(isizeMax)
    ensures shards == Deque.PlanFrom(frontLen, frontLen + backLen, ChunkLenFor(plan, frontLen + backLen, reported), 0)
    ensures var count := DivCeil(frontLen + backLen, ChunkLenFor(plan, frontLen + backLen, reported));
            2 * count <= WordMax(isizeMax) <==> |shards| <= capacity == 2 * count
  {
    WrapExact(frontLen + backLen, isizeMax);
    var totalLen := Wrap(frontLen + backLen, isizeMax);
    ChunkExact(plan, totalLen, reported, isizeMax);
    var chunkLen: pos := Max(ChunkLenForW(plan, totalLen, reported, isizeMax), 1);
    var numChunks := DivCeil(totalLen, chunkLen);
    capacity := Wrap(numChunks * 2, isizeMax);
    shards := [];
    var start := 0;
    ghost var turn := 0;
    while start < totalLen
      invariant start <= totalLen && (start == turn * chunkLen || start == totalLen)
      invariant shards + Deque.PlanFrom(frontLen, totalLen, chunkLen, start) == Deque.PlanFrom(frontLen, totalLen, chunkLen, 0)
    {
      var end := ChunkEnd(start, chunkLen, totalLen, turn, isizeMax);
      ConcatAssoc(shards, Deque.Cut(frontLen, start, end), Deque.PlanFrom(frontLen, totalLen, chunkLen, end));
      shards := Deque.PushCut(shards, frontLen, start, end);
      start := end;
      turn := turn + 1;
    }
    assert shards + [] == shards;
    ReservedCapacity(frontLen, backLen, chunkLen, isizeMax);
  }
}
