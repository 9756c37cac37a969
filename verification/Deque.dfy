/** Partitioned access to a ring-buffer deque (src/collections/deque/partition.rs).

    The queue's storage is a front slice and a back slice; logically it is
    `front + back`. The plan cuts the logical length into chunks and cuts a
    chunk once more where it crosses the wrap. */
module Deque {
  import opened Base
  import opened Tiling
  import opened Workers
  import opened Chains
  import PartitionMap
  import Registry
  import DriverCore

  datatype Segment = Front | Back

  datatype DequeShard = DequeShard(start: nat, segment: Segment, offset: nat, len: nat)

  // ------------------------------------------------------------ the plan

  /** The descriptors pushed by one turn of the loop, for logical `[start, end)`. */
  function Cut(frontLen: nat, start: nat, end: nat): seq<DequeShard>
    requires start < end
  {
    (if start < frontLen then [DequeShard(start, Front, start, Min(end, frontLen) - start)] else []) +
    (if end > frontLen then
       var backStart := Max(start, frontLen) - frontLen;
       [DequeShard(frontLen + backStart, Back, backStart, end - Max(start, frontLen))]
     else [])
  }

  function PlanFrom(frontLen: nat, total: nat, chunk: pos, start: nat): seq<DequeShard>
    decreases if start < total then total - start else 0
  {
    if start < total then
      var end := Min(start + chunk, total);
      Cut(frontLen, start, end) + PlanFrom(frontLen, total, chunk, end)
    else []
  }

  /** A chunk boundary is a multiple of the chunk; a cut strictly inside a chunk
      is not. */
  lemma CutInsideChunk(frontLen: nat, total: nat, chunk: pos, start: nat)
    requires start < total && start % chunk == 0
    ensures var end := Min(start + chunk, total);
            && (end % chunk == 0 || end == total)
            && (start < frontLen < end ==> frontLen % chunk != 0)
            && (frontLen == end < total ==> frontLen % chunk == 0)
  {
    var q := start / chunk;
    assert start == q * chunk;
    assert start + chunk == (q + 1) * chunk;
    MultipleOf(chunk, q + 1);
    if start < frontLen < start + chunk {
      RemainderOf(chunk, q, frontLen - start);
    }
  }

  lemma {:induction false} PlanFromCount(frontLen: nat, total: nat, chunk: pos, start: nat)
    requires frontLen <= total && start <= total && (start % chunk == 0 || start == total)
    ensures |PlanFrom(frontLen, total, chunk, start)|
            == PartitionCount(total - start, chunk)
               + if start < frontLen < total && frontLen % chunk != 0 then 1 else 0
    decreases total - start
  {
    if start < total {
      CutInsideChunk(frontLen, total, chunk, start);
      PlanFromCount(frontLen, total, chunk, Min(start + chunk, total));
      CountAfterOne(total - start, chunk);
    }
  }

  lemma MultipleOf(chunk: pos, q: nat)
    ensures (q * chunk) % chunk == 0
  {
    RemainderOf(chunk, q, 0);
  }

  lemma CountAfterOne(len: nat, chunk: pos)
    requires len > 0
    ensures PartitionCount(len, chunk) == 1 + PartitionCount(len - Min(chunk, len), chunk)
  {
    var n := PartitionCount(len, chunk);
    CountIsCeiling(len, chunk, n);
    CountAtMostLen(len, chunk);
    assert (n - 1) * chunk == n * chunk - chunk;
    if n >= 2 {
      assert (n - 2) * chunk == (n - 1) * chunk - chunk;
      MulMono(1, n - 1, chunk);
    }
    CountIsCeiling(len - Min(chunk, len), chunk, n - 1);
  }

  /** The number of descriptors: one per logical chunk, plus one exactly when the
      wrap falls strictly inside a chunk; so the reserved capacity suffices. */
  lemma PlanCount(frontLen: nat, backLen: nat, chunk: pos)
    ensures var total := frontLen + backLen;
            var shards := PlanFrom(frontLen, total, chunk, 0);
            && |shards| == DivCeil(total, chunk) + (if 0 < frontLen < total && frontLen % chunk != 0 then 1 else 0)
            && |shards| <= 2 * DivCeil(total, chunk)
  {
    var total := frontLen + backLen;
    PlanFromCount(frontLen, total, chunk, 0);
    DivCeilIsCount(total, chunk);
    CountAtMostLen(total, chunk);
  }

  /** One turn of the loop: at most one descriptor for each segment. */
  method PushCut(shards: seq<DequeShard>, frontLen: nat, start: nat, end: nat) returns (r: seq<DequeShard>)
    requires start < end
    ensures r == shards + Cut(frontLen, start, end)
  {
    r := shards;
    if start < frontLen {
      var frontEnd := Min(end, frontLen);
      r := r + [DequeShard(start, Front, start, frontEnd - start)];
    }
    if end > frontLen {
      var backStart := Max(start, frontLen) - frontLen;
      r := r + [DequeShard(frontLen + backStart, Back, backStart, end - Max(start, frontLen))];
    }
  }

  /** `DequeShardPlan::from_lengths`. */
  method FromLengths(frontLen: nat, backLen: nat, plan: PartitionPlan, reported: Option<pos>)
    returns (shards: seq<DequeShard>)
    ensures shards == PlanFrom(frontLen, frontLen + backLen, ChunkLenFor(plan, frontLen + backLen, reported), 0)
  {
    var totalLen := frontLen + backLen;
    var chunkLen: pos := Max(ChunkLenFor(plan, totalLen, reported), 1);
    shards := [];
    var start := 0;
    while start < totalLen
      invariant start <= totalLen
      invariant shards + PlanFrom(frontLen, totalLen, chunkLen, start) == PlanFrom(frontLen, totalLen, chunkLen, 0)
    {
      var end := Min(start + chunkLen, totalLen);
      ConcatAssoc(shards, Cut(frontLen, start, end), PlanFrom(frontLen, totalLen, chunkLen, end));
      shards := PushCut(shards, frontLen, start, end);
      start := end;
    }
    assert shards + [] == shards;
  }

  /** A descriptor is non-empty, lies inside its own segment, and its logical
      start is where its cells sit in `front + back`. */
  ghost predicate Proper(d: DequeShard, frontLen: nat, total: nat) {
    && d.len > 0
    && match d.segment
       case Front => d.offset + d.len <= frontLen && d.start == d.offset
       case Back => frontLen + d.offset + d.len <= total && d.start == frontLen + d.offset
  }

  /** Descriptors follow one another without gap or overlap from `lo` to `hi`. */
  ghost predicate Tiles(shards: seq<DequeShard>, frontLen: nat, total: nat, lo: nat, hi: nat)
    decreases |shards|
  {
    if shards == [] then lo == hi
    else
      && Proper(shards[0], frontLen, total) && shards[0].start == lo
      && Tiles(shards[1..], frontLen, total, lo + shards[0].len, hi)
  }

  lemma {:induction false} TilesConcat(a: seq<DequeShard>, b: seq<DequeShard>, frontLen: nat, total: nat, lo: nat, mid: nat, hi: nat)
    requires Tiles(a, frontLen, total, lo, mid) && Tiles(b, frontLen, total, mid, hi)
    ensures Tiles(a + b, frontLen, total, lo, hi)
    decreases |a|
  {
    if a == [] {
      assert a + b == b;
    } else {
      assert (a + b)[1..] == a[1..] + b;
      TilesConcat(a[1..], b, frontLen, total, lo + a[0].len, mid, hi);
    }
  }

  lemma CutTiles(frontLen: nat, total: nat, start: nat, end: nat)
    requires start < end <= total && frontLen <= total
    ensures Tiles(Cut(frontLen, start, end), frontLen, total, start, end)
  {
    var cut := Cut(frontLen, start, end);
    if |cut| == 2 {
      assert cut[1..] == [cut[1]] && cut[1..][1..] == [];
    } else {
      assert |cut| == 1 && cut[1..] == [];
    }
  }

  /** Deque plan correctness: every descriptor is proper, and together they tile
      `[0, front + back)` with strictly increasing starts. */
  lemma {:induction false} PlanTiles(frontLen: nat, total: nat, chunk: pos, start: nat)
    requires frontLen <= total && start <= total
    ensures Tiles(PlanFrom(frontLen, total, chunk, start), frontLen, total, start, total)
    decreases total - start
  {
    if start < total {
      var end := Min(start + chunk, total);
      CutTiles(frontLen, total, start, end);
      PlanTiles(frontLen, total, chunk, end);
      TilesConcat(Cut(frontLen, start, end), PlanFrom(frontLen, total, chunk, end), frontLen, total, start, end, total);
    }
  }

  /** Descriptors that share a segment never share a cell of it. */
  ghost predicate StorageDisjoint(a: DequeShard, b: DequeShard) {
    a.segment == b.segment ==> a.offset + a.len <= b.offset || b.offset + b.len <= a.offset
  }

  lemma {:induction false} TilesAt(shards: seq<DequeShard>, frontLen: nat, total: nat, lo: nat, hi: nat, i: nat)
    requires Tiles(shards, frontLen, total, lo, hi) && i < |shards|
    ensures Proper(shards[i], frontLen, total) && lo <= shards[i].start
    ensures i > 0 ==> lo + shards[0].len <= shards[i].start
    decreases |shards|
  {
    if i > 0 {
      TilesAt(shards[1..], frontLen, total, lo + shards[0].len, hi, i - 1);
    }
  }

  lemma {:induction false} TilesOrdered(shards: seq<DequeShard>, frontLen: nat, total: nat, lo: nat, hi: nat, i: nat, j: nat)
    requires Tiles(shards, frontLen, total, lo, hi) && i < j < |shards|
    ensures shards[i].start < shards[j].start
    ensures StorageDisjoint(shards[i], shards[j])
    decreases |shards|
  {
    TilesAt(shards, frontLen, total, lo, hi, i);
    TilesAt(shards, frontLen, total, lo, hi, j);
    if i > 0 {
      TilesOrdered(shards[1..], frontLen, total, lo + shards[0].len, hi, i - 1, j - 1);
    }
  }

  /** What the `unsafe` block of `map_mut` relies on, for any two descriptors. */
  lemma PlanDescriptors(frontLen: nat, backLen: nat, chunk: pos, i: nat, j: nat)
    requires i < j < |PlanFrom(frontLen, frontLen + backLen, chunk, 0)|
    ensures var shards := PlanFrom(frontLen, frontLen + backLen, chunk, 0);
            && Proper(shards[i], frontLen, frontLen + backLen) && Proper(shards[j], frontLen, frontLen + backLen)
            && shards[i].start < shards[j].start && StorageDisjoint(shards[i], shards[j])
  {
    var total := frontLen + backLen;
    PlanTiles(frontLen, total, chunk, 0);
    TilesAt(PlanFrom(frontLen, total, chunk, 0), frontLen, total, 0, total, i);
    TilesAt(PlanFrom(frontLen, total, chunk, 0), frontLen, total, 0, total, j);
    TilesOrdered(PlanFrom(frontLen, total, chunk, 0), frontLen, total, 0, total, i, j);
  }

  // --------------------------------------------- where the plan may cut

  /** A descriptor stays inside one chunk of the logical queue, begins at a chunk
      boundary or at the wrap, and ends at one of these or with the queue. */
  ghost predicate OnGrid(d: DequeShard, frontLen: nat, total: nat, chunk: pos) {
    var end := d.start + d.len;
    && 0 < d.len <= chunk
    && d.start / chunk == (end - 1) / chunk
    && (d.start % chunk == 0 || d.start == frontLen)
    && (end % chunk == 0 || end == frontLen || end == total)
  }

  ghost predicate AllOnGrid(shards: seq<DequeShard>, frontLen: nat, total: nat, chunk: pos) {
    forall i :: 0 <= i < |shards| ==> OnGrid(shards[i], frontLen, total, chunk)
  }

  lemma QuotientOf(chunk: pos, q: nat, r: nat)
    requires r < chunk
    ensures (q * chunk + r) / chunk == q
  {
    var n := q * chunk + r;
    RemainderOf(chunk, q, r);
    var q', r' := n / chunk, n % chunk;
    assert n == q' * chunk + r';
    if q' < q {
      MulMono(q' + 1, q, chunk);
    } else if q < q' {
      MulMono(q + 1, q', chunk);
    }
  }

  /** The part of chunk `q` from offset `from` up to offset `to`. */
  lemma StretchOnGrid(d: DequeShard, frontLen: nat, total: nat, chunk: pos, q: nat, from: nat, to: nat)
    requires from < to <= chunk && d.start == q * chunk + from && d.len == to - from
    requires from == 0 || d.start == frontLen
    requires to == chunk || d.start + d.len == frontLen || d.start + d.len == total
    ensures OnGrid(d, frontLen, total, chunk)
  {
    QuotientOf(chunk, q, from);
    QuotientOf(chunk, q, to - 1);
    RemainderOf(chunk, q, 0);
    RemainderOf(chunk, q + 1, 0);
    assert (q + 1) * chunk == q * chunk + chunk;
  }

  lemma CutOnGrid(frontLen: nat, total: nat, chunk: pos, start: nat)
    requires frontLen <= total && start < total && start % chunk == 0
    ensures AllOnGrid(Cut(frontLen, start, Min(start + chunk, total)), frontLen, total, chunk)
  {
    var end := Min(start + chunk, total);
    var cut := Cut(frontLen, start, end);
    var q := start / chunk;
    assert start == q * chunk;
    forall i | 0 <= i < |cut|
      ensures OnGrid(cut[i], frontLen, total, chunk)
    {
      var d := cut[i];
      StretchOnGrid(d, frontLen, total, chunk, q, d.start - start, d.start - start + d.len);
    }
  }

  lemma {:induction false} PlanOnGrid(frontLen: nat, total: nat, chunk: pos, start: nat)
    requires frontLen <= total && start <= total && (start % chunk == 0 || start == total)
    ensures AllOnGrid(PlanFrom(frontLen, total, chunk, start), frontLen, total, chunk)
    decreases total - start
  {
    if start < total {
      CutOnGrid(frontLen, total, chunk, start);
      CutInsideChunk(frontLen, total, chunk, start);
      PlanOnGrid(frontLen, total, chunk, Min(start + chunk, total));
    }
  }

  lemma DivAdjoint(n: nat, q: nat, chunk: pos)
    ensures q <= n / chunk <==> q * chunk <= n
  {
    var a := n / chunk;
    assert n == a * chunk + n % chunk;
    if q <= a {
      MulMono(q, a, chunk);
    } else {
      MulMono(a + 1, q, chunk);
      assert (a + 1) * chunk == a * chunk + chunk;
    }
  }

  lemma NoMultipleBetween(lo: nat, last: nat, q: nat, chunk: pos)
    requires lo / chunk == last / chunk
    ensures !(lo < q * chunk <= last)
  {
    DivAdjoint(lo, q, chunk);
    DivAdjoint(last, q, chunk);
  }

  lemma MultipleIsQuotient(cut: nat, chunk: pos)
    ensures cut % chunk == 0 ==> cut == (cut / chunk) * chunk
  {
  }

  lemma NoBoundaryBetween(lo: nat, last: nat, cut: nat, chunk: pos)
    requires lo / chunk == last / chunk && lo < cut <= last
    ensures cut % chunk != 0
  {
    NoMultipleBetween(lo, last, cut / chunk, chunk);
    MultipleIsQuotient(cut, chunk);
  }

  /** Neither a chunk boundary nor the wrap lies strictly inside a descriptor. */
  lemma NoCutInside(d: DequeShard, frontLen: nat, total: nat, chunk: pos, cut: nat)
    requires Proper(d, frontLen, total) && d.start < cut < d.start + d.len
    requires d.start / chunk == (d.start + d.len - 1) / chunk
    ensures cut % chunk != 0 && cut != frontLen
  {
    NoBoundaryBetween(d.start, d.start + d.len - 1, cut, chunk);
  }

  lemma SecondFollows(shards: seq<DequeShard>, frontLen: nat, total: nat, lo: nat, hi: nat)
    requires shards != [] && Tiles(shards, frontLen, total, lo, hi)
    ensures Proper(shards[0], frontLen, total) && shards[0].start == lo
    ensures |shards| == 1 ==> lo + shards[0].len == hi
    ensures |shards| > 1 ==> shards[1].start == lo + shards[0].len
  {
    if |shards| > 1 {
      assert shards[1..][0] == shards[1];
    }
  }

  /** Where two tilings on the grid start together, neither's first descriptor is
      longer: it would have the other one's cut inside. */
  lemma FirstNotLonger(a: seq<DequeShard>, b: seq<DequeShard>, frontLen: nat, total: nat, chunk: pos, lo: nat)
    requires a != [] && Tiles(a, frontLen, total, lo, total) && AllOnGrid(a, frontLen, total, chunk)
    requires b != [] && Tiles(b, frontLen, total, lo, total) && AllOnGrid(b, frontLen, total, chunk)
    requires frontLen <= total
    ensures b[0].len <= a[0].len
  {
    SecondFollows(a, frontLen, total, lo, total);
    SecondFollows(b, frontLen, total, lo, total);
    if a[0].len < b[0].len {
      assert OnGrid(a[1], frontLen, total, chunk);
      assert OnGrid(b[0], frontLen, total, chunk);
      NoCutInside(b[0], frontLen, total, chunk, a[1].start);
    }
  }

  lemma TilesNonEmpty(a: seq<DequeShard>, b: seq<DequeShard>, frontLen: nat, total: nat, lo: nat)
    requires Tiles(a, frontLen, total, lo, total) && Tiles(b, frontLen, total, lo, total) && frontLen <= total
    ensures a == [] <==> b == []
  {
    if a != [] { SecondFollows(a, frontLen, total, lo, total); }
    if b != [] { SecondFollows(b, frontLen, total, lo, total); }
  }

  lemma {:induction false} GridUnique(a: seq<DequeShard>, b: seq<DequeShard>, frontLen: nat, total: nat, chunk: pos, lo: nat)
    requires Tiles(a, frontLen, total, lo, total) && AllOnGrid(a, frontLen, total, chunk)
    requires Tiles(b, frontLen, total, lo, total) && AllOnGrid(b, frontLen, total, chunk)
    requires frontLen <= total
    ensures a == b
    decreases |a|
  {
    if a != [] && b != [] {
      FirstNotLonger(a, b, frontLen, total, chunk, lo);
      FirstNotLonger(b, a, frontLen, total, chunk, lo);
      SecondFollows(a, frontLen, total, lo, total);
      SecondFollows(b, frontLen, total, lo, total);
      assert a[0] == b[0];
      GridUnique(a[1..], b[1..], frontLen, total, chunk, lo + a[0].len);
      assert a == [a[0]] + a[1..] && b == [b[0]] + b[1..];
    } else {
      TilesNonEmpty(a, b, frontLen, total, lo);
    }
  }

  /** The plan is the one tiling of the queue that cuts at the chunk boundaries and
      at the wrap, and nowhere else. */
  lemma PlanIsTheGrid(frontLen: nat, backLen: nat, chunk: pos, shards: seq<DequeShard>)
    ensures var total := frontLen + backLen;
            shards == PlanFrom(frontLen, total, chunk, 0)
            <==> Tiles(shards, frontLen, total, 0, total) && AllOnGrid(shards, frontLen, total, chunk)
  {
    var total := frontLen + backLen;
    PlanTiles(frontLen, total, chunk, 0);
    PlanOnGrid(frontLen, total, chunk, 0);
    if Tiles(shards, frontLen, total, 0, total) && AllOnGrid(shards, frontLen, total, chunk) {
      GridUnique(shards, PlanFrom(frontLen, total, chunk, 0), frontLen, total, chunk, 0);
    }
  }

  // -------------------------------------------------------------- slices

  /** `DequeShard::read_slice`. */
  function ReadSlice<T>(d: DequeShard, front: seq<T>, back: seq<T>): seq<T>
    requires match d.segment case Front => d.offset + d.len <= |front| case Back => d.offset + d.len <= |back|
  {
    match d.segment
    case Front => front[d.offset..d.offset + d.len]
    case Back => back[d.offset..d.offset + d.len]
  }

  ghost function AllSlices<T>(shards: seq<DequeShard>, front: seq<T>, back: seq<T>, lo: nat, hi: nat): seq<T>
    requires Tiles(shards, |front|, |front| + |back|, lo, hi)
    decreases |shards|
  {
    if shards == [] then []
    else ReadSlice(shards[0], front, back) + AllSlices(shards[1..], front, back, lo + shards[0].len, hi)
  }

  lemma SliceIsLogical<T>(d: DequeShard, front: seq<T>, back: seq<T>)
    requires Proper(d, |front|, |front| + |back|)
    ensures d.start + d.len <= |front| + |back|
    ensures ReadSlice(d, front, back) == (front + back)[d.start..d.start + d.len]
  {
  }

  lemma SlicesUnfold<T>(shards: seq<DequeShard>, front: seq<T>, back: seq<T>, lo: nat, hi: nat)
    requires Tiles(shards, |front|, |front| + |back|, lo, hi) && shards != []
    ensures AllSlices(shards, front, back, lo, hi)
            == ReadSlice(shards[0], front, back) + AllSlices(shards[1..], front, back, lo + shards[0].len, hi)
  {
  }

  /** A first slice and the rest of the queue, as parts of the whole. */
  lemma JoinParts<T>(queue: seq<T>, lo: nat, mid: nat, first: seq<T>, rest: seq<T>)
    requires lo <= mid <= |queue| && first == queue[lo..mid] && rest == queue[mid..]
    ensures first + rest == queue[lo..]
  {
  }

  ghost predicate Shows<T>(d: DequeShard, front: seq<T>, back: seq<T>, queue: seq<T>)
    requires Proper(d, |front|, |front| + |back|) && |queue| == |front| + |back|
  {
    d.start + d.len <= |queue| && ReadSlice(d, front, back) == queue[d.start..d.start + d.len]
  }

  /** If every descriptor's slice is its stretch of the queue, descriptors that
      tile the queue show all of it. */
  lemma {:induction false} SlicesCover<T>(shards: seq<DequeShard>, front: seq<T>, back: seq<T>, queue: seq<T>, lo: nat)
    requires Tiles(shards, |front|, |front| + |back|, lo, |front| + |back|)
    requires lo <= |queue| == |front| + |back|
    requires forall d :: Proper(d, |front|, |front| + |back|) ==> Shows(d, front, back, queue)
    ensures AllSlices(shards, front, back, lo, |front| + |back|) == queue[lo..]
    decreases |shards|
  {
    if shards == [] {
      assert queue[lo..] == [];
    } else {
      var first, mid := shards[0], lo + shards[0].len;
      assert Shows(first, front, back, queue);
      SlicesCover(shards[1..], front, back, queue, mid);
      SlicesUnfold(shards, front, back, lo, |front| + |back|);
      JoinParts(queue, lo, mid, ReadSlice(first, front, back), AllSlices(shards[1..], front, back, mid, |front| + |back|));
    }
  }

  /** The slices handed to the closures concatenate to the logical queue. */
  lemma SlicesConcatenate<T>(front: seq<T>, back: seq<T>, chunk: pos)
    ensures Tiles(PlanFrom(|front|, |front + back|, chunk, 0), |front|, |front| + |back|, 0, |front| + |back|)
    ensures AllSlices(PlanFrom(|front|, |front + back|, chunk, 0), front, back, 0, |front| + |back|) == front + back
  {
    PlanTiles(|front|, |front + back|, chunk, 0);
    forall d | Proper(d, |front|, |front| + |back|)
      ensures Shows(d, front, back, front + back)
    {
      SliceIsLogical(d, front, back);
    }
    SlicesCover(PlanFrom(|front|, |front + back|, chunk, 0), front, back, front + back, 0);
  }

  // --------------------------------------------------------- the drivers

  /** Where a descriptor's cells sit in the region `front + back`: `with_shard_mut`
      picks the segment's base and adds the offset. */
  function BaseOf(d: DequeShard, frontLen: nat): nat {
    match d.segment case Front => d.offset case Back => frontLen + d.offset
  }

  /** `map_read`/`map_mut`: `partition_read_map_with` over the descriptors with
      chunk size one; its task `index` runs `f` on descriptor `index`. */
  function DequeTasks<V, R, P>(shards: seq<DequeShard>, frontLen: nat, f: Closure<V, R, P>): seq<Task<V, R, P>> {
    var chunk := ChunkLenFor(ChunkSizePlan(1), |shards|, None);
    seq(PartitionCount(|shards|, chunk), index requires 0 <= index < PartitionCount(|shards|, chunk) =>
      var start := index * chunk;
      var shard := shards[start..Min(start + chunk, |shards|)][0];
      Task(BaseOf(shard, frontLen), BaseOf(shard, frontLen) + shard.len, f(shard.start, shard.len)))
  }

  function TaskOf<V, R, P>(d: DequeShard, frontLen: nat, f: Closure<V, R, P>): Task<V, R, P> {
    Task(BaseOf(d, frontLen), BaseOf(d, frontLen) + d.len, f(d.start, d.len))
  }

  /** Task by task what the descriptors ask for. */
  ghost predicate Follow<V, R, P>(tasks: seq<Task<V, R, P>>, shards: seq<DequeShard>, frontLen: nat, f: Closure<V, R, P>) {
    |tasks| == |shards| && forall i :: 0 <= i < |shards| ==> tasks[i] == TaskOf(shards[i], frontLen, f)
  }

  lemma DequeTasksFollow<V, R, P>(shards: seq<DequeShard>, frontLen: nat, f: Closure<V, R, P>)
    ensures Follow(DequeTasks(shards, frontLen, f), shards, frontLen, f)
  {
  }

  lemma {:induction false} TilesChain<V, R, P>(tasks: seq<Task<V, R, P>>, shards: seq<DequeShard>, frontLen: nat, total: nat, lo: nat, hi: nat, f: Closure<V, R, P>)
    requires Tiles(shards, frontLen, total, lo, hi) && Follow(tasks, shards, frontLen, f)
    ensures Chain(tasks, lo, hi) && Runs(tasks, f)
    decreases |shards|
  {
    if shards != [] {
      assert tasks[0] == TaskOf(shards[0], frontLen, f);
      TilesChain(tasks[1..], shards[1..], frontLen, total, lo + shards[0].len, hi, f);
      RunsCons(tasks, f);
    }
  }

  lemma RunsCons<V, R, P>(tasks: seq<Task<V, R, P>>, f: Closure<V, R, P>)
    requires tasks != [] && RunsClosure(tasks[0], f) && Runs(tasks[1..], f)
    ensures Runs(tasks, f)
  {
    forall i | 0 <= i < |tasks|
      ensures RunsClosure(tasks[i], f)
    {
      if i > 0 { assert tasks[i] == tasks[1..][i - 1]; }
    }
  }

  /** The tasks of one partitioned call on a queue split as `front`/`back`. */
  function QueueTasks<V, R, P>(frontLen: nat, total: nat, chunk: pos, f: Closure<V, R, P>): seq<Task<V, R, P>> {
    DequeTasks(PlanFrom(frontLen, total, chunk, 0), frontLen, f)
  }

  lemma QueueTasksTile<V, R, P>(frontLen: nat, total: nat, chunk: pos, f: Closure<V, R, P>)
    requires frontLen <= total
    ensures Chain(QueueTasks(frontLen, total, chunk, f), 0, total) && Runs(QueueTasks(frontLen, total, chunk, f), f)
    ensures WellTiled(QueueTasks(frontLen, total, chunk, f), total)
    ensures |QueueTasks(frontLen, total, chunk, f)| == |PlanFrom(frontLen, total, chunk, 0)|
    ensures |QueueTasks(frontLen, total, chunk, f)| == 0 <==> total == 0
  {
    PlanTiles(frontLen, total, chunk, 0);
    DequeTasksFollow(PlanFrom(frontLen, total, chunk, 0), frontLen, f);
    TilesChain(QueueTasks(frontLen, total, chunk, f), PlanFrom(frontLen, total, chunk, 0), frontLen, total, 0, total, f);
    ChainTiles(QueueTasks(frontLen, total, chunk, f), total);
  }

  lemma QueueJobOk<V, R, P>(frontLen: nat, total: nat, chunk: pos, f: Closure<V, R, P>)
    requires frontLen <= total
    ensures WellTiled(QueueTasks(frontLen, total, chunk, f), total)
    ensures |QueueTasks(frontLen, total, chunk, f)| == |PlanFrom(frontLen, total, chunk, 0)|
    ensures |QueueTasks(frontLen, total, chunk, f)| == 0 <==> total == 0
  {
    QueueTasksTile(frontLen, total, chunk, f);
  }

  /** A call on a queue of any length, under any driver and schedule, has ended. */
  ghost predicate QueueCall<V, R, P>(frontLen: nat, queue: seq<V>, chunk: pos, f: Closure<V, R, P>, registered: Option<nat>,
                                     call: Registry.Call<V, R, P>, after: seq<V>, result: Registry.Result<R, P>)
  {
    Registry.Ends(Registry.Job(QueueTasks(frontLen, |queue|, chunk, f), queue), registered, call, after, result)
  }

  lemma MutationIsMap<V(!new), R, P>(frontLen: nat, queue: seq<V>, chunk: pos, f: Closure<V, R, P>, g: (nat, V) -> V, registered: Option<nat>,
                                     call: Registry.Call<V, R, P>, after: seq<V>, result: Registry.Result<R, P>)
    requires frontLen <= |queue| && Elementwise(f, g)
    requires QueueCall(frontLen, queue, chunk, f, registered, call, after, result)
    ensures after == Mapped(g, 0, queue)
  {
    var tasks := QueueTasks(frontLen, |queue|, chunk, f);
    QueueTasksTile(frontLen, |queue|, chunk, f);
    PartitionMap.MapLaw(tasks, queue, f, g, registered, call, after, result);
  }

  /** Wrap-point independence: however the same logical queue is split at the
      wrap, under any two plans, drivers and interleavings, a mutation that sets
      logical element `k` to `g(k, old)` leaves the same logical queue. */
  lemma WrapIndependent<V(!new), R, P>(queue: seq<V>, f: Closure<V, R, P>, g: (nat, V) -> V,
                                       frontLen: nat, chunk: pos, registered: Option<nat>,
                                       call: Registry.Call<V, R, P>, after: seq<V>, result: Registry.Result<R, P>,
                                       frontLen': nat, chunk': pos, registered': Option<nat>,
                                       call': Registry.Call<V, R, P>, after': seq<V>, result': Registry.Result<R, P>)
    requires frontLen <= |queue| && frontLen' <= |queue| && Elementwise(f, g)
    requires QueueCall(frontLen, queue, chunk, f, registered, call, after, result)
    requires QueueCall(frontLen', queue, chunk', f, registered', call', after', result')
    ensures after == after' && |after| == |queue|
    ensures forall k :: 0 <= k < |queue| ==> after[k] == g(k, queue[k])
  {
    MutationIsMap(frontLen, queue, chunk, f, g, registered, call, after, result);
    MutationIsMap(frontLen', queue, chunk', f, g, registered', call', after', result');
  }

  lemma ContiguousPlan(total: nat, chunk: pos, start: nat)
    requires start < total
    ensures var end := Min(start + chunk, total);
            var plan := PlanFrom(total, total, chunk, start);
            plan != [] && plan[0] == DequeShard(start, Front, start, end - start) && plan[1..] == PlanFrom(total, total, chunk, end)
  {
    var end := Min(start + chunk, total);
    assert Cut(total, start, end) == [DequeShard(start, Front, start, end - start)];
  }

  lemma {:induction false} ContiguousUniform<V, R, P>(tasks: seq<Task<V, R, P>>, total: nat, chunk: pos, f: Closure<V, R, P>, start: nat)
    requires start <= total && Follow(tasks, PlanFrom(total, total, chunk, start), total, f)
    ensures PartitionMap.Uniform(tasks, start, total, chunk, f)
    decreases total - start
  {
    if start < total {
      ContiguousPlan(total, chunk, start);
      assert tasks[0] == TaskOf(PlanFrom(total, total, chunk, start)[0], total, f);
      ContiguousUniform(tasks[1..], total, chunk, f, Min(start + chunk, total));
    }
  }

  /** With nothing behind the wrap the deque runs exactly the tasks that
      `partition_map_with` runs. */
  lemma ContiguousIsPartitionMap<V, R, P>(total: nat, chunk: pos, f: Closure<V, R, P>)
    ensures QueueTasks(total, total, chunk, f) == PartitionMap.MapTasks(total, chunk, f)
  {
    DequeTasksFollow(PlanFrom(total, total, chunk, 0), total, f);
    ContiguousUniform(QueueTasks(total, total, chunk, f), total, chunk, f, 0);
    PartitionMap.MapTasksUniform(total, chunk, f, 0);
    assert PartitionMap.MapTasks(total, chunk, f)[0..] == PartitionMap.MapTasks(total, chunk, f);
    PartitionMap.UniformUnique(QueueTasks(total, total, chunk, f), PartitionMap.MapTasks(total, chunk, f), 0, total, chunk, f);
  }

  /** So a contiguous deque keeps, for every closure, driver and schedule, the
      promise `partition_map_with` makes: contents and results are those of the
      sequential loop over its chunks. */
  lemma ContiguousMeetsMap<V, R, P>(queue: seq<V>, chunk: pos, f: Closure<V, R, P>, registered: Option<nat>,
                                    call: Registry.Call<V, R, P>, after: seq<V>, result: Registry.Result<R, P>)
    requires QueueCall(|queue|, queue, chunk, f, registered, call, after, result)
    ensures PartitionMap.MapMeets(f, queue, chunk, registered, after, result)
  {
    ContiguousIsPartitionMap(|queue|, chunk, f);
    PartitionMap.PartitionMapSerializable(f, queue, chunk, registered, call, after, result);
  }

  /** The fold law of the deque read driver, for every wrap point, plan and driver. */
  lemma QueueFoldLaw<V(!new), M(!new), P>(frontLen: nat, queue: seq<V>, chunk: pos, f: Closure<V, M, P>,
                                          op: (M, M) -> M, unit: M, h: V -> M, registered: Option<nat>,
                                          call: Registry.Call<V, M, P>, after: seq<V>, result: Registry.Result<M, P>)
    requires frontLen <= |queue| && Monoid(op, unit) && FoldsShards(f, op, unit, h)
    requires QueueCall(frontLen, queue, chunk, f, registered, call, after, result)
    ensures after == queue && result.Vector? && FoldAll(op, unit, result.values) == Fold(op, unit, h, queue)
  {
    var tasks := QueueTasks(frontLen, |queue|, chunk, f);
    QueueTasksTile(frontLen, |queue|, chunk, f);
    PartitionMap.FoldLaw(tasks, queue, f, op, unit, h, registered, call, after, result);
  }

  /** What a caller of `partition_map_mut_with` may rely on. */
  ghost predicate QueueMeets<V, R, P>(frontLen: nat, queue: seq<V>, chunk: pos, f: Closure<V, R, P>, registered: Option<nat>,
                                      after: seq<V>, result: Registry.Result<R, P>)
  {
    var job := Registry.Job(QueueTasks(frontLen, |queue|, chunk, f), queue);
    if queue == [] then after == [] && result == Registry.Vector([])
    else Registry.JobOk(job) && Registry.Meets(job, registered, after, result)
  }

  lemma QueueMeetsEmpty<V, R, P>(frontLen: nat, queue: seq<V>, chunk: pos, f: Closure<V, R, P>, registered: Option<nat>)
    requires |queue| == 0
    ensures QueueMeets(frontLen, queue, chunk, f, registered, queue, Registry.Vector([]))
  {
  }

  lemma QueueMeetsFrom<V, R, P>(frontLen: nat, queue: seq<V>, chunk: pos, f: Closure<V, R, P>, registered: Option<nat>,
                                after: seq<V>, result: Registry.Result<R, P>)
    requires queue != [] && frontLen <= |queue|
    requires var job := Registry.Job(QueueTasks(frontLen, |queue|, chunk, f), queue);
             Registry.JobOk(job) && Registry.Meets(job, registered, after, result)
    ensures QueueMeets(frontLen, queue, chunk, f, registered, after, result)
  {
  }

  /** `partition_map_mut_with` in place on the two halves of the ring buffer. */
  method PartitionMapMutWith<V, R, P>(front: array<V>, back: array<V>, plan: PartitionPlan, reported: Option<pos>,
                                      f: Closure<V, R, P>, registered: Option<nat>, sched: seq<nat>)
    returns (result: Registry.Result<R, P>)
    requires front != back
    requires var total := front.Length + back.Length;
             var job := Registry.Job(QueueTasks(front.Length, total, ChunkLenFor(plan, total, reported), f), front[..] + back[..]);
             Registry.JobOk(job) ==> DriverCore.RunsToEnd(job, registered, sched, false)
    modifies front, back
    ensures QueueMeets(front.Length, old(front[..] + back[..]), ChunkLenFor(plan, front.Length + back.Length, reported), f,
                       registered, front[..] + back[..], result)
  {
    ghost var queue := front[..] + back[..];
    ghost var chunk := ChunkLenFor(plan, |queue|, reported);
    var shards := FromLengths(front.Length, back.Length, plan, reported);
    var tasks := DequeTasks(shards, front.Length, f);
    QueueJobOk(front.Length, |queue|, chunk, f);
    assert tasks == QueueTasks(front.Length, |queue|, chunk, f);
    if |shards| == 0 {
      QueueMeetsEmpty(front.Length, queue, chunk, f, registered);
      return Registry.Vector([]);
    }
    ghost var job := Registry.Job(tasks, queue);
    assert Registry.JobOk(job) && DriverCore.RunsToEnd(job, registered, sched, false);
    var ended, _ := DriverCore.Drive(front, back, tasks, registered, sched, false);
    result := ended.value;
    assert Registry.Meets(job, registered, front[..] + back[..], result);
    QueueMeetsFrom(front.Length, queue, chunk, f, registered, front[..] + back[..], result);
  }
}
