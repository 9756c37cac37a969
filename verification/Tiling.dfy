/** How many fixed-size shards tile a region (src/region/tiling.rs) and how a
    partition plan picks the shard size (src/sync/scoped/partition/plan.rs). */
module Tiling {
  import opened Base

  /** `partition_count`: written without `len + chunk - 1`, as in the source. */
  function PartitionCount(len: nat, chunk: pos): (n: nat) {
    if len == 0 then 0 else 1 + (len - 1) / chunk
  }

  /** The standard library's `usize::div_ceil`, used by the deque plan. */
  function DivCeil(len: nat, chunk: pos): (n: nat) {
    var q := len / chunk;
    if len % chunk > 0 then q + 1 else q
  }

  lemma MulMono(a: nat, b: nat, c: nat)
    requires a <= b
    ensures a * c <= b * c
  {
    assert b * c - a * c == (b - a) * c;
  }

  lemma RemainderOf(chunk: pos, q: nat, r: nat)
    requires r < chunk
    ensures (q * chunk + r) % chunk == r
  {
    var n := q * chunk + r;
    var q', r' := n / chunk, n % chunk;
    assert n == q' * chunk + r';
    assert (q' + 1) * chunk == q' * chunk + chunk;
    assert (q + 1) * chunk == q * chunk + chunk;
    if q' < q {
      MulMono(q' + 1, q, chunk);
    } else if q' > q {
      MulMono(q + 1, q', chunk);
    }
  }

  /** `PartitionCount` is left adjoint to multiplication: `n` shards suffice
      exactly when they can hold every cell. */
  lemma CountAdjoint(len: nat, chunk: pos, n: nat)
    ensures PartitionCount(len, chunk) <= n <==> len <= n * chunk
  {
    if len > 0 {
      var q, r := (len - 1) / chunk, (len - 1) % chunk;
      assert len - 1 == q * chunk + r;
      if q + 1 <= n {
        MulMono(q + 1, n, chunk);
        assert (q + 1) * chunk == q * chunk + chunk;
      } else {
        MulMono(n, q, chunk);
      }
    }
  }

  /** The unique mathematical ceiling: enough shards, and one fewer is too few. */
  lemma CountIsCeiling(len: nat, chunk: pos, n: nat)
    ensures PartitionCount(len, chunk) == n
            <==> len <= n * chunk && (n == 0 || (n - 1) * chunk < len)
  {
    CountAdjoint(len, chunk, n);
    if n > 0 {
      CountAdjoint(len, chunk, n - 1);
    }
  }

  /** Trading shard count against shard size is symmetric. */
  lemma CountSymmetric(len: nat, a: pos, b: pos)
    ensures PartitionCount(len, a) <= b <==> PartitionCount(len, b) <= a
  {
    CountAdjoint(len, a, b);
    CountAdjoint(len, b, a);
    assert a * b == b * a;
  }

  lemma DivCeilIsCount(len: nat, chunk: pos)
    ensures DivCeil(len, chunk) == PartitionCount(len, chunk)
  {
    var q, r := len / chunk, len % chunk;
    assert len == q * chunk + r;
    var n := DivCeil(len, chunk);
    assert (q + 1) * chunk == q * chunk + chunk;
    if q > 0 {
      assert (q - 1) * chunk == q * chunk - chunk;
    }
    CountIsCeiling(len, chunk, n);
  }

  lemma CountAtMostLen(len: nat, chunk: pos)
    ensures PartitionCount(len, chunk) <= len
    ensures PartitionCount(len, chunk) == 0 <==> len == 0
  {
    MulMono(1, chunk, len);
    assert len * chunk == chunk * len;
    CountAdjoint(len, chunk, len);
  }

  // ---------------------------------------------------------------- plans

  datatype PartitionPlan =
    | Parts(parts: pos)
    | AvailableParallelism
    | ChunkSize(chunkSize: pos)

  function NonzeroOrOne(value: nat): pos {
    if value != 0 then value else 1
  }

  /** `PartitionPlan::parts` and `PartitionPlan::chunk_size`. */
  function PartsPlan(parts: nat): PartitionPlan {
    Parts(NonzeroOrOne(parts))
  }

  function ChunkSizePlan(chunkSize: nat): PartitionPlan {
    ChunkSize(NonzeroOrOne(chunkSize))
  }

  function ChunkForParts(len: nat, parts: pos): pos {
    Max(PartitionCount(len, parts), 1)
  }

  /** `chunk_len_for`; `reported` is what the platform says about its
      parallelism, `None` when it cannot say. */
  function ChunkLenFor(plan: PartitionPlan, len: nat, reported: Option<pos>): pos {
    match plan
    case Parts(parts) => ChunkForParts(len, parts)
    case AvailableParallelism =>
      var parts := match reported case Some(p) => p case None => 1;
      ChunkForParts(len, parts)
    case ChunkSize(chunkSize) => chunkSize
  }

  /** The chosen chunk is the least positive one whose shard count stays within
      the requested number of parts. */
  lemma PlanOptimal(len: nat, parts: pos, chunk: pos)
    requires len >= 1
    ensures PartitionCount(len, chunk) <= parts <==> ChunkForParts(len, parts) <= chunk
  {
    CountSymmetric(len, chunk, parts);
  }

  lemma PlanCountBounds(len: nat, parts: pos)
    requires len >= 1
    ensures 1 <= PartitionCount(len, ChunkForParts(len, parts)) <= Min(parts, len)
    ensures parts >= len ==> PartitionCount(len, ChunkForParts(len, parts)) == len
  {
    var chunk := ChunkForParts(len, parts);
    PlanOptimal(len, parts, chunk);
    CountAtMostLen(len, chunk);
    if parts >= len {
      CountAdjoint(len, parts, 1);
      CountIsCeiling(len, 1, len);
    }
  }

  /** What each plan promises for a non-empty region: at most the requested (or
      reported) number of shards and no larger ones than that takes, one shard when
      the platform reports nothing, and for a fixed size full shards of exactly that
      size with only the last one possibly shorter. */
  lemma PlanMeans(plan: PartitionPlan, len: nat, reported: Option<pos>)
    requires len >= 1
    ensures var chunk := ChunkLenFor(plan, len, reported);
            var count := PartitionCount(len, chunk);
            match plan
            case Parts(parts) => LeastFor(len, parts, chunk)
            case AvailableParallelism =>
              if reported.Some? then LeastFor(len, reported.value, chunk) else chunk == len && count == 1
            case ChunkSize(c) => chunk == c && (count - 1) * c < len <= count * c
  {
    match plan
    case Parts(parts) => LeastChunk(len, parts);
    case AvailableParallelism =>
      LeastChunk(len, match reported case Some(p) => p case None => 1);
      CountIsCeiling(len, 1, len);
      PlanCountBounds(len, 1);
    case ChunkSize(c) =>
      CountIsCeiling(len, c, PartitionCount(len, c));
  }

  /** The least chunk that needs no more than `parts` shards. */
  ghost predicate LeastFor(len: nat, parts: pos, chunk: pos) {
    PartitionCount(len, chunk) <= parts && forall c: pos :: PartitionCount(len, c) <= parts ==> chunk <= c
  }

  lemma LeastChunk(len: nat, parts: pos)
    requires len >= 1
    ensures LeastFor(len, parts, ChunkForParts(len, parts))
  {
    PlanCountBounds(len, parts);
    forall c: pos | PartitionCount(len, c) <= parts
      ensures ChunkForParts(len, parts) <= c
    {
      PlanOptimal(len, parts, c);
    }
  }

  /** An empty region resolves to one, unless a different size was fixed. */
  lemma EmptyRegionPlan(plan: PartitionPlan, reported: Option<pos>)
    ensures ChunkLenFor(plan, 0, reported) == 1 <==> (plan.ChunkSize? ==> plan.chunkSize == 1)
  {
  }

  /** The constructors mean what they are given, zero standing for one. */
  lemma ConstructorsMean(n: nat, len: nat, reported: Option<pos>, c: pos)
    ensures len >= 1 ==> (PartitionCount(len, c) <= Max(n, 1) <==> ChunkLenFor(PartsPlan(n), len, reported) <= c)
    ensures ChunkLenFor(ChunkSizePlan(n), len, reported) == Max(n, 1)
  {
    if len >= 1 {
      PlanOptimal(len, NonzeroOrOne(n), c);
    }
  }

  /** Zero parts mean one, a zero chunk size means one cell per shard, and asking
      for at least as many parts as cells gives one cell per shard too. */
  lemma ClampedPlans(parts: nat, len: nat, reported: Option<pos>)
    requires len >= 1
    ensures parts <= 1 ==> PartitionCount(len, ChunkLenFor(PartsPlan(parts), len, reported)) == 1
    ensures parts >= len ==> PartitionCount(len, ChunkLenFor(PartsPlan(parts), len, reported)) == len
    ensures PartitionCount(len, ChunkLenFor(ChunkSizePlan(0), len, reported)) == len
  {
    PlanCountBounds(len, NonzeroOrOne(parts));
    CountIsCeiling(len, 1, len);
  }

  /** Planning again with the number of shards actually obtained changes nothing. */
  lemma ReplanningIsStable(len: nat, parts: pos)
    requires len >= 1
    ensures PartitionCount(len, ChunkForParts(len, parts)) >= 1
    ensures var achieved: pos := PartitionCount(len, ChunkForParts(len, parts));
            ChunkForParts(len, achieved) == ChunkForParts(len, parts)
  {
    var chunk := ChunkForParts(len, parts);
    PlanCountBounds(len, parts);
    var achieved: pos := PartitionCount(len, chunk);
    var again := ChunkForParts(len, achieved);
    PlanOptimal(len, achieved, chunk);
    PlanOptimal(len, achieved, again);
    PlanOptimal(len, parts, again);
  }

  /** The comment on `partition_map` promises `min(parts, len)` shards. That is
      what a caller gets exactly when the parts cover the cells, divide them
      evenly, or leave a remainder large enough for the last shard. */
  predicate PromisedCountApplies(len: nat, parts: pos) {
    parts >= len || len % parts == 0 || len / parts + len % parts >= parts
  }

  lemma LastShardReached(len: nat, parts: pos, q: nat, r: nat, chunk: nat)
    requires len == q * parts + r && r < parts && q >= 1
    requires chunk == if r == 0 then q else q + 1
    ensures (parts - 1) * chunk < len <==> r == 0 || q + r >= parts
  {
    assert (parts - 1) * q == q * parts - q;
    assert (parts - 1) * (q + 1) == (parts - 1) * q + parts - 1;
  }

  lemma PromisedShardCount(len: nat, parts: pos)
    requires len >= 1
    ensures PartitionCount(len, ChunkForParts(len, parts)) == Min(parts, len)
            <==> PromisedCountApplies(len, parts)
  {
    PlanCountBounds(len, parts);
    if parts < len {
      var chunk := ChunkForParts(len, parts);
      DivCeilIsCount(len, parts);
      LastShardReached(len, parts, len / parts, len % parts, chunk);
      CountIsCeiling(len, chunk, parts);
      CountAdjoint(len, parts, chunk);
      assert chunk * parts == parts * chunk;
    }
  }

  /** The regression saved in tests/partition.proptest-regressions. */
  lemma PromisedShardCountFails()
    ensures PartitionCount(27, ChunkForParts(27, 10)) == 9 != Min(10, 27)
    ensures !PromisedCountApplies(27, 10)
  {
  }
}
