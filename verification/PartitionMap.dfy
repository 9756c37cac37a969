/** The two public drivers over one region: mutable shards
    (src/sync/scoped/partition/map.rs) and shared slices
    (src/sync/scoped/partition/read_map.rs). */
module PartitionMap {
  import opened Base
  import opened Tiling
  import opened Region
  import opened Workers
  import opened Chains
  import Registry
  import DriverCore

  /** Task `index` of `partition_map_with`: the shard `par_chunks` vends for it,
      and the closure applied to that shard's global start. */
  function MapTasks<V, R, P>(len: nat, chunk: pos, f: Closure<V, R, P>): seq<Task<V, R, P>> {
    var par := NewParChunks(Shard(0, len), chunk);
    seq(par.Count(), index requires 0 <= index < par.Count() =>
      var shard := par.GetUncheckedChunk(index);
      Task(shard.lo, shard.hi, f(index * chunk, shard.hi - shard.lo)))
  }

  /** Task `index` of `partition_read_map_with`: plain slicing. */
  function ReadTasks<V, R, P>(len: nat, chunk: pos, f: Closure<V, R, P>): seq<Task<V, R, P>> {
    seq(PartitionCount(len, chunk), index requires 0 <= index < PartitionCount(len, chunk) =>
      var start := index * chunk;
      var end := Min(start + chunk, len);
      Task(start, end, f(start, if start <= end then end - start else 0)))
  }

  lemma MapTaskAt<V, R, P>(len: nat, chunk: pos, f: Closure<V, R, P>, index: nat)
    requires index < PartitionCount(len, chunk)
    ensures var lo, hi := index * chunk, Min(index * chunk + chunk, len);
            lo < hi && MapTasks(len, chunk, f)[index] == Task(lo, hi, f(lo, hi - lo))
  {
    RangeInBounds(NewParChunks(Shard(0, len), chunk), index);
  }

  /** Both drivers cut the region into the same tasks. */
  lemma ReadTasksAgree<V, R, P>(len: nat, chunk: pos, f: Closure<V, R, P>)
    ensures ReadTasks(len, chunk, f) == MapTasks(len, chunk, f)
  {
    forall index | 0 <= index < PartitionCount(len, chunk)
      ensures ReadTasks(len, chunk, f)[index] == MapTasks(len, chunk, f)[index]
    {
      MapTaskAt(len, chunk, f, index);
    }
  }

  /** The tasks a front-to-back cut into `chunk`-cell shards gives. */
  ghost predicate Uniform<V, R, P>(tasks: seq<Task<V, R, P>>, lo: nat, hi: nat, chunk: pos, f: Closure<V, R, P>)
    decreases |tasks|
  {
    if tasks == [] then lo == hi
    else
      && lo < hi
      && var mid := Min(chunk, hi - lo);
         tasks[0] == Task(lo, lo + mid, f(lo, mid)) && Uniform(tasks[1..], lo + mid, hi, chunk, f)
  }

  lemma NextLo(len: nat, chunk: pos, k: nat)
    ensures k < PartitionCount(len, chunk) ==>
              k * chunk < len && Min((k + 1) * chunk, len) == k * chunk + Min(chunk, len - k * chunk)
    ensures k >= PartitionCount(len, chunk) ==> Min(k * chunk, len) == len
  {
    CountAdjoint(len, chunk, k);
    assert (k + 1) * chunk == k * chunk + chunk;
  }

  lemma {:induction false} MapTasksUniform<V, R, P>(len: nat, chunk: pos, f: Closure<V, R, P>, k: nat)
    requires k <= PartitionCount(len, chunk)
    ensures Uniform(MapTasks(len, chunk, f)[k..], Min(k * chunk, len), len, chunk, f)
    decreases PartitionCount(len, chunk) - k
  {
    NextLo(len, chunk, k);
    if k < PartitionCount(len, chunk) {
      MapTaskAt(len, chunk, f, k);
      MapTasksUniform(len, chunk, f, k + 1);
      assert MapTasks(len, chunk, f)[k..][1..] == MapTasks(len, chunk, f)[k + 1..];
    }
  }

  lemma {:induction false} UniformUnique<V, R, P>(a: seq<Task<V, R, P>>, b: seq<Task<V, R, P>>, lo: nat, hi: nat, chunk: pos, f: Closure<V, R, P>)
    requires Uniform(a, lo, hi, chunk, f) && Uniform(b, lo, hi, chunk, f)
    ensures a == b
    decreases |a|
  {
    if a != [] && b != [] {
      UniformUnique(a[1..], b[1..], a[0].hi, hi, chunk, f);
      assert a == [a[0]] + a[1..] && b == [b[0]] + b[1..];
    }
  }

  lemma {:induction false} UniformChain<V, R, P>(tasks: seq<Task<V, R, P>>, lo: nat, hi: nat, chunk: pos, f: Closure<V, R, P>)
    requires Uniform(tasks, lo, hi, chunk, f)
    ensures Chain(tasks, lo, hi)
    decreases |tasks|
  {
    if tasks != [] {
      UniformChain(tasks[1..], tasks[0].hi, hi, chunk, f);
    }
  }

  lemma MapTasksRun<V, R, P>(len: nat, chunk: pos, f: Closure<V, R, P>)
    ensures Runs(MapTasks(len, chunk, f), f)
  {
    var tasks := MapTasks(len, chunk, f);
    forall i | 0 <= i < |tasks|
      ensures RunsClosure(tasks[i], f)
    {
      MapTaskAt(len, chunk, f, i);
    }
  }

  /** The tasks tile the region consecutively with non-empty shards, which is the
      exclusivity `drive` relies on. */
  lemma MapTasksTile<V, R, P>(len: nat, chunk: pos, f: Closure<V, R, P>)
    ensures Chain(MapTasks(len, chunk, f), 0, len)
    ensures WellTiled(MapTasks(len, chunk, f), len)
    ensures Runs(MapTasks(len, chunk, f), f)
    ensures |MapTasks(len, chunk, f)| == PartitionCount(len, chunk)
  {
    MapTasksUniform(len, chunk, f, 0);
    assert MapTasks(len, chunk, f)[0..] == MapTasks(len, chunk, f);
    UniformChain(MapTasks(len, chunk, f), 0, len, chunk, f);
    ChainTiles(MapTasks(len, chunk, f), len);
    MapTasksRun(len, chunk, f);
  }

  // --------------------------------------------------- sequential meaning

  /** A sequential loop over `WriterShard::chunks`: take the first shard off the
      front, apply `f`, go on with the remainder. `None` when `f` never ends. */
  ghost function LeftToRight<V, R, P>(f: Closure<V, R, P>, start: nat, cells: seq<V>, chunk: pos)
    : (r: Option<(seq<V>, seq<Outcome<R, P>>)>)
    decreases |cells|
  {
    if cells == [] then Some((cells, []))
    else
      var mid := Min(chunk, |cells|);
      match RunAlone(f(start, mid), cells[..mid])
      case None => None
      case Some((head, outcome)) => Attach(head, outcome, LeftToRight(f, start + mid, cells[mid..], chunk))
  }

  lemma {:induction false} UniformIsLeftToRight<V, R, P>(f: Closure<V, R, P>, tasks: seq<Task<V, R, P>>, lo: nat, rest: seq<V>, chunk: pos)
    requires Uniform(tasks, lo, lo + |rest|, chunk, f) && Chain(tasks, lo, lo + |rest|)
    ensures RunParts(tasks, lo, rest) == LeftToRight(f, lo, rest, chunk)
    decreases |tasks|
  {
    if tasks != [] {
      var mid := Min(chunk, |rest|);
      UniformIsLeftToRight(f, tasks[1..], lo + mid, rest[mid..], chunk);
      assert rest == rest[..mid] + rest[mid..];
      PartsUnfold(tasks, lo, rest[..mid], rest[mid..]);
    }
  }

  /** The left-to-right run of the driver's tasks is that sequential loop. */
  lemma MapIsLeftToRight<V, R, P>(f: Closure<V, R, P>, cells: seq<V>, chunk: pos)
    ensures WellTiled(MapTasks(|cells|, chunk, f), |cells|)
    ensures OneByOne(MapTasks(|cells|, chunk, f), cells) == LeftToRight(f, 0, cells, chunk)
  {
    var tasks := MapTasks(|cells|, chunk, f);
    MapTasksTile(|cells|, chunk, f);
    ChainRun(tasks, cells);
    MapTasksUniform(|cells|, chunk, f, 0);
    assert tasks[0..] == tasks;
    UniformIsLeftToRight(f, tasks, 0, cells, chunk);
  }

  /** What a caller of either driver may rely on. */
  ghost predicate MapMeets<V, R, P>(f: Closure<V, R, P>, before: seq<V>, chunk: pos, registered: Option<nat>,
                                    after: seq<V>, result: Registry.Result<R, P>)
  {
    var reference := LeftToRight(f, 0, before, chunk);
    && reference.Some? && after == reference.value.0
    && var outcomes := reference.value.1;
       if PanicFree(outcomes) then result == Registry.Vector(Values(outcomes))
       else
         && result.Raised?
         && (registered.None? ==> Registry.S.Raises(outcomes, result.fault))
         && (exists i :: 0 <= i < |outcomes| && outcomes[i] == Panicked(result.fault))
  }

  lemma MapMeetsEmpty<V, R, P>(f: Closure<V, R, P>, chunk: pos, registered: Option<nat>)
    ensures MapMeets(f, [], chunk, registered, [], Registry.Vector([]))
  {
    var none: seq<Outcome<R, P>> := [];
    assert Values(none) == [];
  }

  lemma MapMeetsFrom<V, R, P>(f: Closure<V, R, P>, before: seq<V>, chunk: pos, registered: Option<nat>,
                              after: seq<V>, result: Registry.Result<R, P>)
    requires var job := Registry.Job(MapTasks(|before|, chunk, f), before);
             Registry.JobOk(job) && Registry.Meets(job, registered, after, result)
    ensures MapMeets(f, before, chunk, registered, after, result)
  {
    MapIsLeftToRight(f, before, chunk);
  }

  /** Serializability of `partition_map_with`: for any driver, any interleaving of
      the tasks' cell accesses and any plan, the region and the result are those
      of the sequential loop. */
  lemma PartitionMapSerializable<V, R, P>(f: Closure<V, R, P>, cells: seq<V>, chunk: pos, registered: Option<nat>,
                                          call: Registry.Call<V, R, P>, after: seq<V>, result: Registry.Result<R, P>)
    requires Registry.Ends(Registry.Job(MapTasks(|cells|, chunk, f), cells), registered, call, after, result)
    ensures MapMeets(f, cells, chunk, registered, after, result)
  {
    var job := Registry.Job(MapTasks(|cells|, chunk, f), cells);
    MapTasksTile(|cells|, chunk, f);
    CountAtMostLen(|cells|, chunk);
    if cells == [] {
      MapMeetsEmpty(f, chunk, registered);
    } else {
      Registry.EndsMeets(job, registered, call, after, result);
      MapMeetsFrom(f, cells, chunk, registered, after, result);
    }
  }

  /** `partition_map_with` in place. `sched` is what the chosen driver does. */
  method PartitionMapWith<V, R, P>(cells: array<V>, plan: PartitionPlan, reported: Option<pos>, f: Closure<V, R, P>,
                                   registered: Option<nat>, sched: seq<nat>)
    returns (result: Registry.Result<R, P>)
    requires var job := Registry.Job(MapTasks(cells.Length, ChunkLenFor(plan, cells.Length, reported), f), cells[..]);
             Registry.JobOk(job) ==> DriverCore.RunsToEnd(job, registered, sched, false)
    modifies cells
    ensures MapMeets(f, old(cells[..]), ChunkLenFor(plan, cells.Length, reported), registered, cells[..], result)
  {
    var chunk := ChunkLenFor(plan, cells.Length, reported);
    var tasks := MapTasks(cells.Length, chunk, f);
    MapTasksTile(cells.Length, chunk, f);
    CountAtMostLen(cells.Length, chunk);
    if |tasks| == 0 {
      assert cells[..] == [];
      MapMeetsEmpty(f, chunk, registered);
      return Registry.Vector([]);
    }
    ghost var before := cells[..];
    var empty := new V[0];
    assert cells[..] + empty[..] == before;
    var ended, _ := DriverCore.Drive(cells, empty, tasks, registered, sched, false);
    result := ended.value;
    assert cells[..] + empty[..] == cells[..];
    MapMeetsFrom(f, before, chunk, registered, cells[..], result);
  }

  /** An element-wise mutation, for any consecutive cut of the region. */
  lemma MapLaw<V(!new), R, P>(tasks: seq<Task<V, R, P>>, cells: seq<V>, f: Closure<V, R, P>, g: (nat, V) -> V, registered: Option<nat>,
                              call: Registry.Call<V, R, P>, after: seq<V>, result: Registry.Result<R, P>)
    requires Chain(tasks, 0, |cells|) && Runs(tasks, f) && Elementwise(f, g)
    requires Registry.Ends(Registry.Job(tasks, cells), registered, call, after, result)
    ensures after == Mapped(g, 0, cells)
  {
    if tasks != [] {
      RegionMaps(tasks, cells, f, g);
      Registry.EndsMeets(Registry.Job(tasks, cells), registered, call, after, result);
    }
  }

  /** Folding what a call returned, for any consecutive cut of the region. */
  lemma FoldLaw<V(!new), M(!new), P>(tasks: seq<Task<V, M, P>>, cells: seq<V>, f: Closure<V, M, P>,
                                     op: (M, M) -> M, unit: M, h: V -> M, registered: Option<nat>,
                                     call: Registry.Call<V, M, P>, after: seq<V>, result: Registry.Result<M, P>)
    requires Chain(tasks, 0, |cells|) && Runs(tasks, f) && Monoid(op, unit) && FoldsShards(f, op, unit, h)
    requires Registry.Ends(Registry.Job(tasks, cells), registered, call, after, result)
    ensures after == cells && result.Vector? && FoldAll(op, unit, result.values) == Fold(op, unit, h, cells)
  {
    if tasks != [] {
      RegionFolds(tasks, cells, f, op, unit, h);
      Registry.EndsMeets(Registry.Job(tasks, cells), registered, call, after, result);
      FoldOutcome(Registry.Job(tasks, cells), op, unit, h, registered, after, result);
    }
  }

  lemma FoldOutcome<V(!new), M(!new), P>(job: Registry.Job<V, M, P>, op: (M, M) -> M, unit: M, h: V -> M,
                                         registered: Option<nat>, after: seq<V>, result: Registry.Result<M, P>)
    requires Registry.JobOk(job) && Registry.Meets(job, registered, after, result)
    requires FoldsTo(OneByOne(job.tasks, job.cells), job.cells, op, unit, h)
    ensures after == job.cells && result.Vector? && FoldAll(op, unit, result.values) == Fold(op, unit, h, job.cells)
  {
  }

  /** The homomorphic fold law of the read driver: whatever the length, plan and
      driver, folding the returned per-shard folds gives the fold of the slice. */
  lemma ReadFoldLaw<V(!new), M(!new), P>(f: Closure<V, M, P>, op: (M, M) -> M, unit: M, h: V -> M,
                                         slice: seq<V>, chunk: pos, registered: Option<nat>, call: Registry.Call<V, M, P>,
                                         after: seq<V>, result: Registry.Result<M, P>)
    requires Monoid(op, unit) && FoldsShards(f, op, unit, h)
    requires Registry.Ends(Registry.Job(ReadTasks(|slice|, chunk, f), slice), registered, call, after, result)
    ensures after == slice && result.Vector? && FoldAll(op, unit, result.values) == Fold(op, unit, h, slice)
  {
    ReadTasksAgree(|slice|, chunk, f);
    MapTasksTile(|slice|, chunk, f);
    FoldLaw(ReadTasks(|slice|, chunk, f), slice, f, op, unit, h, registered, call, after, result);
  }
}
