# Verification model of melinoe's partition drivers and re-entrancy gates

`melinoe` cuts a region of branded cells into disjoint shards, runs a user
closure on every shard concurrently, and collects the results in order. This
project models the parts of it that compute something and proves, for every
input, schedule, plan and wrap point, what they promise.

User closures are shard-local programs: blocks of single-cell reads and writes
that jump to one another and end by returning or panicking (an out-of-range index
panics) or run for ever (`Workers.SpinNeverEnds`). Tasks interleave one cell
access at a time. An executor is a
schedule: a list of task indices in any order, bound only by its stated contract
(it returns once every task has completed; it unwinds only between invocations).

| file | what it covers |
|---|---|
| `Base.dfy` | options, minima, counting in sequences, fair rounds |
| `Tiling.dfy` | `partition_count`, partition plans |
| `Region.dfy` | indexed view, lending iterator, splits, who owns which cell |
| `Machine.dfy` | the same arithmetic in wrapping machine words |
| `Workers.dfy` | interleaved shard-local programs; serializability |
| `Chains.dfy` | consecutive cuts of a region: element-wise mutation and folds |
| `Protocol.dfy` | the executor branch of `drive` as a micro-step machine |
| `Scoped.dfy` | the scoped-thread branch of `drive` |
| `Registry.dfy` | both branches as one call; many calls beside registry traffic |
| `DriverCore.dfy` | `drive` in place: raw buffer, flags, mutex, guard, join loop |
| `PartitionMap.dfy` | `partition_map_with`, `partition_read_map_with` |
| `Deque.dfy` | the deque plan and its drivers |
| `Reentrant.dfy` | `Reset`, `GuardedCell`, `ReentrancyCell` under arbitrary nesting |

Three remarks on the source. The comment at `src/sync/scoped/partition/map.rs:26-27`
promises `min(parts, len)` shards; the code gives `ceil(len / ceil(len / parts))`,
as `tests/partition.rs:713-718` says. The model follows the code;
`Tiling.PromisedShardCount` gives the exact condition under which the comment is
right and `Tiling.PromisedShardCountFails` an input where it is not. The range
arithmetic is documented for every region; in machine words it is right exactly
when `count * chunk` is a word (`Machine.RangesExact`), which Rust's allocation
bound ensures and zero-sized elements can break (`Machine.RangeWrapsBeyondBound`).
The comment at `src/sync/scoped/partition/plan.rs:49` has every empty region resolve
to one; a fixed size is returned as it is (`Tiling.EmptyRegionPlan`).

## Model

| member | source | states |
|---|---|---|
| Tiling.CountAdjoint | src/region/tiling.rs:13-19 | `n` shards suffice exactly when `n * chunk` reaches the length; hence the overflow-safe form is the ceiling |
| Tiling.CountIsCeiling | src/region/tiling.rs:3-12 | the count is the unique ceiling: enough shards, and one fewer is too few |
| Tiling.PlanOptimal | src/sync/scoped/partition/plan.rs:86-91 | the chosen chunk is the least one whose shard count is at most the requested parts |
| Tiling.PlanCountBounds | src/sync/scoped/partition/plan.rs:46-62 | the achieved count lies between 1 and both bounds, and is the length when parts cover it |
| Tiling.ConstructorsMean | src/sync/scoped/partition/plan.rs:29-45 | `parts(n)` picks the least chunk that needs at most `max(n, 1)` shards, `chunk_size(n)` is `max(n, 1)` |
| Tiling.PlanMeans | src/sync/scoped/partition/plan.rs:9-22 | the least chunk for the requested or reported number of shards, one shard when nothing is reported, exactly the fixed size otherwise |
| Tiling.EmptyRegionPlan | src/sync/scoped/partition/plan.rs:46-62 | an empty region resolves to one unless another size is fixed |
| Tiling.ClampedPlans | src/sync/scoped/partition/plan.rs:75-84 | zero parts mean one shard, a zero chunk size or enough parts mean one cell per shard |
| Tiling.ReplanningIsStable | src/sync/scoped/partition/plan.rs:46-62 | planning again with the achieved count gives the same chunk |
| Tiling.PromisedShardCount | src/sync/scoped/partition/map.rs:26-27 | the documented count is met exactly when parts cover, divide, or leave a large enough remainder |
| Tiling.PromisedShardCountFails | tests/partition.proptest-regressions:7 | length 27 in 10 parts gives 9 shards |
| Region.RangeInBounds | src/region/par_chunks.rs:126-138 | an index is below the count exactly when its range is non-empty; ranges never leave the region |
| Region.ClampedView | src/region/shard.rs:154-170 | partitions start at multiples of the requested size, zero standing for one |
| Region.RangesTile | src/region/par_chunks.rs:149-166 | every cell lies in exactly one partition |
| Region.ShardChunks.Next | src/region/chunks.rs:19-29 | the iterator object takes and reassigns its remainder exactly as the stepping function does |
| Region.ShardChunks.SizeHint | src/region/chunks.rs:31-42 | reports the number of shards left |
| Region.IteratorRefinesView | src/region/chunks.rs:16-42 | call `k` yields partition `k` of the indexed view, then `None` for ever, and the length is exact in every state |
| Region.YieldLowersLength | src/region/chunks.rs:45-48 | each yield lowers the reported length by one |
| Region.SplitShows | src/region/shard.rs:124-138 | the left shard shows the first `mid` cells, the right one the others; a cut past the end panics |
| Region.LeavesShowRegion | src/region/shard.rs:124-129 | however a region is split recursively, the leaves show its cells in order |
| Region.OwnershipHistory | src/region/shard.rs:124-170 | no sequence of splits, iterations, partition requests and drops changes how many holders a cell has |
| Region.RegionStaysPartitioned | src/region/par_chunks.rs:149-183 | starting from one shard, every cell of the region always has exactly one holder and no other cell has any |
| Region.HoldersDisjoint | src/region/chunks.rs:5-9 | two holders never reach the same cell |
| Region.SplitHandsOut | src/region/shard.rs:124-138 | a split leaves two live shards, below and above the cut; past the end it leaves none |
| Region.IterationHandsOut | src/region/shard.rs:140-152 | stepping the iterator hands out the partitions of the indexed view, in order, as live shards |
| Region.RequestsHandOut | src/region/par_chunks.rs:149-183 | requests in any order hand out exactly the requested partitions |
| Region.HistoryConcat | src/region/shard.rs:124-170 | a history runs its actions one after another |
| Machine.CountExact | src/region/tiling.rs:9-12 | for every length a word can hold the word computation of the count is exact |
| Machine.ChunkExact | src/sync/scoped/partition/plan.rs:53-62 | and so is the chunk a plan picks |
| Machine.RangeExactAt | src/region/par_chunks.rs:130-138 | a requested index never wraps the product, and its range is right exactly when the sum does not wrap |
| Machine.RangesExact | src/region/par_chunks.rs:130-138 | all requested ranges are right, in the indexed view and in the read driver, exactly when `count * chunk` is a word |
| Machine.AllocationBoundSuffices | src/region/par_chunks.rs:130-138 | every region within the allocation bound meets that condition, and doubling its count does not wrap |
| Machine.RangeExact | src/region/par_chunks.rs:130-138 | within the allocation bound, neither product nor sum wraps for any requested index |
| Machine.RangeWrapsBeyondBound | src/region/par_chunks.rs:130-138 | an input that breaks the condition and gets an end before its start |
| Machine.FromLengthsW | src/collections/deque/partition.rs:34-62 | the deque loop in machine words yields the exact plan whenever the tiling is a word; its doubled capacity is exact and sufficient exactly when it is a word |
| Workers.FinishMeans | src/sync/scoped/partition/driver_core.rs:113-130 | a closure ends with its own result, its own panic payload, or the index it was out of range at; accesses inside the shard touch that one cell |
| Workers.RunBegins | src/sync/scoped/partition/driver_core.rs:113 | a closure run alone begins at its entry |
| Workers.SpinNeverEnds | src/sync/scoped/partition/driver_core.rs:113 | a closure may run for ever: then it has no outcome |
| Workers.AdvanceIsSolo | src/sync/scoped/partition/map.rs:102-112 | seen from its shard, an interleaved step is the step the closure takes alone |
| Workers.AdvanceOnTrack | src/sync/scoped/partition/driver_core.rs:78-82 | any step of any task keeps every task's sequential future |
| Workers.OneByOneAt | src/sync/scoped/partition/map.rs:20-24 | in the left-to-right run each task sees its original shard and nobody disturbs what it leaves |
| Workers.Serializable | src/sync/scoped/partition/map.rs:84-113 | however the cell accesses interleaved, region and outcomes are those of the left-to-right run |
| Chains.OneByOnePeels | src/region/chunks.rs:19-29 | on a consecutive cut the in-place run equals peeling shards off the front |
| Chains.ChainMaps | src/collections/deque/partition.rs:101-130 | an element-wise closure maps the whole logical sequence, however it is cut |
| Chains.ChainFolds | src/sync/scoped/partition/read_map.rs:45-53 | per-shard folds fold to the fold of the whole, however it is cut |
| Chains.MapLoopIsElementwise | src/sync/scoped/partition/map.rs:43-48 | the plain mutation loop over a shard is an element-wise closure |
| Chains.FoldLoopFolds | tests/partition.rs:718-733 | the plain fold over a shard is a folding closure |
| Protocol.StepFrame | src/sync/scoped/partition/driver_core.rs:78-82 | only task `i` touches slot `i`, flag `i` and shard `i` |
| Protocol.StepInv | src/sync/scoped/partition/driver_core.rs:99-132 | every micro-step keeps the buffer protocol: a set flag means the slot holds that task's result, the lock and payload agree with lock order |
| Protocol.Reachable | src/sync/scoped/partition/driver_core.rs:148-197 | the protocol invariant holds in every state any schedule can reach |
| Protocol.ScheduleIndependence | src/sync/scoped/partition/driver_core.rs:198-227 | a completed call returns all results in index order, or raises the payload of the first task to take the lock |
| Protocol.PayloadWrittenOnce | src/sync/scoped/partition/driver_core.rs:23-33 | the payload is never overwritten, survives poisoning, is present after a panic and is the first by lock order |
| Protocol.ConservedOnReturn | src/sync/scoped/partition/driver_core.rs:198-227 | on return or re-raise every result, payload and the buffer is taken or dropped exactly once |
| Protocol.ConservedOnUnwind | src/sync/scoped/partition/driver_core.rs:43-76 | the same when the executor unwinds after any subset of tasks |
| Protocol.FlaggedIncreasing | src/sync/scoped/partition/driver_core.rs:203-212 | results are dropped by increasing index |
| Protocol.UnwindingLeaves | src/sync/scoped/partition/driver_core.rs:43-76 | after an unwinding executor each finished task has left its final shard, each other shard is untouched, and what was produced was dropped once |
| Protocol.EveryRun | src/sync/scoped/partition/driver_core.rs:148-227 | invariant, conservation and outcome for every schedule from a fresh buffer |
| Protocol.SomeoneMoves | src/sync/scoped/partition/executor.rs:73-83 | no deadlock on the payload mutex while a task is unfinished |
| Protocol.FairRunCompletes | src/sync/scoped/partition/executor.rs:73-83 | every fair executor completes all halting tasks |
| Protocol.EndlessTaskNeverReturns | src/sync/scoped/partition/executor.rs:73-83 | with a task that runs for ever no schedule completes |
| Scoped.StepInv | src/sync/scoped/partition/driver_core.rs:233-251 | every step of any thread keeps what the caller knows: unspawned threads have not begun, what it has joined, and the fault it will raise |
| Scoped.ScopedOutcome | src/sync/scoped/partition/driver_core.rs:229-251 | results in index order, or the inline panic first, else the lowest panicking index |
| Scoped.SpawnsFirst | src/sync/scoped/partition/driver_core.rs:233-240 | the caller spawns every other thread before it runs its own task |
| Scoped.FairRunCompletes | src/sync/scoped/partition/driver_core.rs:233-251 | from every reachable state every fair run of halting tasks ends with the caller out of the scope |
| Scoped.EndlessTaskNeverReturns | src/sync/scoped/partition/driver_core.rs:233-251 | with a task that runs for ever the caller never leaves |
| Registry.DriveOutcome | src/sync/scoped/partition/driver_core.rs:134-147 | whichever driver ran, region and result are those of the left-to-right run, or a task's panic |
| Registry.RaisedBySomeTask | src/sync/scoped/partition/driver_core.rs:125-130 | a raised fault is what some task's own closure ends with when run alone |
| Registry.EveryTaskReturns | src/sync/scoped/partition/driver_core.rs:134-147 | closures that return at once give exactly their values, in index order |
| Registry.EveryTaskPanics | src/sync/scoped/partition/driver_core.rs:134-147 | closures that panic at once raise one of their own payloads, on scoped threads the last one's |
| Registry.LowestPanicRaised | src/sync/scoped/partition/driver_core.rs:242-248 | on scoped threads the lowest panicking spawned index is raised when the inline task returns |
| Registry.DriversAgree | src/sync/scoped/partition/driver_core.rs:155-251 | the two drivers leave the same region, equal vectors, and panic together |
| Registry.Isolation | src/sync/scoped/partition/executor.rs:45-61 | among any registrations, clears and calls, each call is what its own steps make of it on the driver in the slot at its start |
| Registry.LastWriteDecides | src/sync/scoped/partition/executor.rs:209-270 | a call runs on the executor of the last registration before its first step, on scoped threads after a clearing, else on the initial slot |
| Registry.TicksMean | src/sync/scoped/partition/executor.rs:60-62 | the steps of a call are all its ticks in the order they happen |
| Registry.MoveAllIsExec | src/sync/scoped/partition/driver_core.rs:148-252 | between its first step and its end a call is a run of its driver's machine |
| Registry.FairHistoryFinishes | src/sync/scoped/partition/executor.rs:73-83 | a history fair to a call of halting closures finishes it, amid any registry traffic and other calls |
| Registry.DriverNeverChanges | src/sync/scoped/partition/executor.rs:250-253 | a call never leaves the driver it loaded |
| Registry.PanicFreeUnaffected | src/sync/scoped/partition/executor.rs:209-270 | two histories of a call with any registry traffic end with the same region and vector |
| DriverCore.Crew.RunStep | src/sync/scoped/partition/map.rs:102-112 | one access of a closure in place on the region's storage |
| DriverCore.ExecutorCall.TaskWrapperStep | src/sync/scoped/partition/driver_core.rs:99-132 | in place, each micro-step is the machine's step |
| DriverCore.ExecutorCall.DropSuccessful | src/sync/scoped/partition/driver_core.rs:203-212 | drops exactly the results behind set flags, in order, never an uninitialised slot |
| DriverCore.ExecutorCall.DropGuard | src/sync/scoped/partition/driver_core.rs:51-76 | an armed guard drops the flagged results and frees the buffer, a disarmed one does nothing |
| DriverCore.ExecutorCall.Finish | src/sync/scoped/partition/driver_core.rs:198-227 | hands the buffer over or tears it down exactly as the machine says |
| DriverCore.ScopedCall.CallerStep | src/sync/scoped/partition/driver_core.rs:233-251 | spawn, inline run and ordered join, in place |
| DriverCore.DriveOnExecutor | src/sync/scoped/partition/driver_core.rs:155-227 | the whole executor branch, returning or unwinding, in place |
| DriverCore.FairRunsToEnd | src/sync/scoped/partition/executor.rs:73-83 | every fair scheduler meets what the in-place drivers ask of a schedule |
| DriverCore.Drive | src/sync/scoped/partition/driver_core.rs:148-252 | on whichever driver, region and result meet the left-to-right run, or the executor unwinds and leaves what `Protocol.UnwindingLeaves` says |
| PartitionMap.MapTasksTile | src/sync/scoped/partition/map.rs:94-112 | the driver's tasks tile the region with non-empty disjoint shards, each running the closure at its global start |
| PartitionMap.ReadTasksAgree | src/sync/scoped/partition/read_map.rs:37-53 | the read driver cuts exactly as the mutable one |
| PartitionMap.MapIsLeftToRight | src/sync/scoped/partition/map.rs:72-73 | running the tasks in order is the sequential loop over `chunks` |
| PartitionMap.PartitionMapSerializable | src/sync/scoped/partition/map.rs:84-113 | for any length, driver, interleaving and plan, `partition_map_with` equals that loop |
| PartitionMap.PartitionMapWith | src/sync/scoped/partition/map.rs:84-113 | the same, in place |
| PartitionMap.ReadFoldLaw | src/sync/scoped/partition/read_map.rs:31-54 | for every length, folding the returned folds gives the fold of the slice |
| Deque.FromLengths | src/collections/deque/partition.rs:34-65 | the loop emits the plan that `Deque.PlanIsTheGrid` singles out |
| Deque.PlanIsTheGrid | src/collections/deque/partition.rs:41-62 | the plan is the one tiling of the queue whose descriptors stay inside a chunk and cut only at chunk boundaries and at the wrap |
| Deque.PlanCount | src/collections/deque/partition.rs:35-62 | one descriptor per chunk, plus one exactly when the wrap falls strictly inside a chunk; within the reserved capacity |
| Deque.PlanTiles | src/collections/deque/partition.rs:41-62 | descriptors are non-empty, inside their segment, and tile the logical queue |
| Deque.PlanDescriptors | src/collections/deque/partition.rs:122-127 | starts increase strictly and descriptors never overlap in storage |
| Deque.SlicesConcatenate | src/collections/deque/partition.rs:146-154 | the slices concatenate to front followed by back |
| Deque.WrapIndependent | src/collections/deque/partition.rs:101-130 | an element-wise mutation sets logical element `k` to `g(k, old)` wherever the wrap falls, under any plans and drivers |
| Deque.ContiguousIsPartitionMap | src/collections/deque/partition.rs:180-198 | with an empty back the deque runs exactly the tasks of `partition_map_with` |
| Deque.ContiguousMeetsMap | src/collections/deque/partition.rs:180-198 | so contents and results are those of the sequential loop, for every closure, driver and interleaving |
| Deque.QueueFoldLaw | src/collections/deque/partition.rs:72-91 | the fold law for every length and wrap point |
| Deque.PartitionMapMutWith | src/collections/deque/partition.rs:267-279 | the mutable deque driver in place on both halves of the ring buffer |
| Reentrant.FlagsRestored | src/reentrant/reset.rs:22-27 | every sub-program, however it ends, leaves flags and borrows as it found them |
| Reentrant.FlagsAlwaysTell | src/reentrant/guarded.rs:59-83 | in every state passed through, a flag is true exactly while a guarded borrow of its cell is live, and there is at most one |
| Reentrant.RefusedWhileBorrowed | src/reentrant/guarded.rs:71-74 | at every moment of every run an entry is refused, running only the fallback, exactly while a guarded borrow of the cell is live |
| Reentrant.DepthBounded | src/reentrant/gate.rs:63-69 | guarded nesting never exceeds the number of cells |
| Reentrant.BorrowsExclusive | src/reentrant/guarded.rs:95-109 | no cell ever has two live borrows exactly when the run obeys the contract of `enter_unguarded` |
| Reentrant.ContractObeys | src/reentrant/guarded.rs:95-98 | a program whose unguarded closures name no entry of their own cell obeys it on every run |
| Reentrant.ContractNeeded | src/reentrant/guarded.rs:95-98 | reaching such an entry does alias, naming one without reaching it does not |
| Reentrant.ValueFramed | src/reentrant/guarded.rs:67-83 | between consecutive states of any run a value changes only under a live borrow of its cell |
| Reentrant.AvoidedValueKept | src/reentrant/guarded.rs:67-83 | so a program that never enters a cell nobody has borrowed leaves its value as it was |
| Reentrant.ResultPropagates | src/reentrant/guarded.rs:76-83 | a panic leaves every entry and branch it is raised in, nothing that was to follow runs, the values stay as at the panic and the flags are restored |
| Reentrant.PanicsExactly | src/reentrant/reset.rs:22-27 | a run ends panicked exactly when it reaches a panic outside any catch |
| Reentrant.CalmReturns | src/reentrant/guarded.rs:76-83 | a program without an uncaught panic never unwinds |
| Reentrant.CatchContains | src/reentrant/reset.rs:22-27 | after a catch the thread goes on with the values at the panic and every flag restored |
| Reentrant.EntryUpdates | src/reentrant/guarded.rs:76-109 | entering a free cell applies the closure's updates to its value, in order and once each, and changes nothing else |
| Reentrant.GuardedCell.TryAcquire | src/reentrant/reset.rs:9-20 | grants exactly when the flag was clear, and leaves it set |
| Reentrant.Thread.EnterCell | src/reentrant/guarded.rs:76-83 | arms, runs, and clears on return and unwind, in place |
| Reentrant.Thread.Interpret | src/reentrant/guarded.rs:76-109 | running a program on the cells is the interpreter |

## Left out

- Brands, tokens, permits and `MelinoeCell` borrows: the borrow checker enforces them; a model would assume what it proves.
- `BrandedAtomic`, ordering policies and `fetch_*`: single forwarding calls.
- Structural operations of `BrandedVec` and `BrandedVecDeque`, drains and `Cow` helpers: wrappers over standard containers.
- The discarding wrappers (`for_each`, `available` and their deque forms): they only forward to the modelled drivers.
- Weak memory: single-cell accesses interleave as atomic steps; shards are disjoint, so no finer order is observable.
- Closures with shared mutable state of their own: a closure's program depends only on its start, its shard length and the cells it reads.
- OS threads, real mutexes, function-pointer casts and panics raised by a destructor: modelled as steps; destructors return.
- An executor that breaks its contract, including one that unwinds while an invocation is still running: the source calls it undefined behaviour.
- Drop accounting of the scoped-thread branch: safe Rust drops its vectors and handles; only region and exit are modelled.
- DriverCore.DriveOnExecutor: the executor is a given schedule; its own code is outside the repository.
- An executor that unwinds out of `partition_map_with` or a deque driver: `DriverCore.Drive` says what it leaves.
