/** The executor path of `drive` (src/sync/scoped/partition/driver_core.rs) as a
    state machine over micro-steps.

    Each task runs its closure; then either writes its slot and sets its flag,
    or locks the payload mutex and stores its panic unless one is there already.
    A schedule lists which task moves next, in any order and interleaving. */
module Protocol {
  import opened Base
  import opened Workers

  /** Where `task_wrapper` stands for one index. */
  datatype Stage = Calling | SlotWritten | LockHeld | Returned

  /** One `MaybeUninit<R>` of the output buffer. */
  datatype Slot<R> = Uninit | Init(value: R)

  /** A panic payload, with the task that raised it unless it was there before. */
  datatype Raise<P> = Preset(fault: Fault<P>) | RaisedBy(task: nat, fault: Fault<P>)

  datatype PayloadMutex<P> = PayloadMutex(content: Option<Raise<P>>, holder: Option<nat>, poisoned: bool)

  datatype LockResult<P> = Locked(content: Option<Raise<P>>) | Poisoned(inner: Option<Raise<P>>)

  function Lock<P>(m: PayloadMutex<P>): LockResult<P> {
    if m.poisoned then Poisoned(m.content) else Locked(m.content)
  }

  /** `lock_panic_payload` and `take_panic_payload`: poisoning is recovered from. */
  function LockPanicPayload<P>(m: PayloadMutex<P>): Option<Raise<P>> {
    match Lock(m) case Locked(content) => content case Poisoned(inner) => inner
  }

  /** The things a call owns and must dispose of exactly once. */
  datatype Item = ResultOf(task: nat) | PayloadOf(task: nat) | Buffer

  /** `lockOrder` and `drops` are bookkeeping: who took the payload lock so far,
      and what has been dropped so far, both in order. */
  datatype State<!V, R, P> = State(
    pool: Pool<V, R, P>,
    stages: seq<Stage>,
    slots: seq<Slot<R>>,
    flags: seq<bool>,
    mutex: PayloadMutex<P>,
    lockOrder: seq<nat>,
    drops: seq<Item>)

  ghost predicate Shaped<V, R, P>(tasks: seq<Task<V, R, P>>, s: State<V, R, P>) {
    && Fits(tasks, s.pool)
    && |s.stages| == |s.slots| == |s.flags| == |tasks|
  }

  function Begin<V, R, P>(tasks: seq<Task<V, R, P>>, cells: seq<V>, payload: Option<Raise<P>>, poisoned: bool)
    : State<V, R, P>
  {
    State(Start(tasks, cells), seq(|tasks|, _ => Calling), seq(|tasks|, _ => Uninit), seq(|tasks|, _ => false),
          PayloadMutex(payload, None, poisoned), [], [])
  }

  /** One micro-step of task `i`; a task waiting for the lock, or finished, stays put. */
  function Step<V, R, P>(tasks: seq<Task<V, R, P>>, s: State<V, R, P>, i: nat): (s': State<V, R, P>)
    requires Shaped(tasks, s) && i < |tasks|
    ensures Shaped(tasks, s')
  {
    match s.stages[i]
    case Calling => (
      match s.pool.threads[i]
      case Done(Ok(v)) => s.(slots := s.slots[i := Init(v)], stages := s.stages[i := SlotWritten])
      case Done(Panicked(_)) =>
        if s.mutex.holder.None?
        then s.(mutex := s.mutex.(holder := Some(i)), lockOrder := s.lockOrder + [i], stages := s.stages[i := LockHeld])
        else s
      case _ => s.(pool := Advance(tasks, s.pool, i)))
    case SlotWritten => s.(flags := s.flags[i := true], stages := s.stages[i := Returned])
    case LockHeld => (
      match s.pool.threads[i]
      case Done(Panicked(fault)) =>
        if LockPanicPayload(s.mutex).None?
        then s.(mutex := s.mutex.(content := Some(RaisedBy(i, fault)), holder := None), stages := s.stages[i := Returned])
        else s.(mutex := s.mutex.(holder := None), stages := s.stages[i := Returned], drops := s.drops + [PayloadOf(i)])
      case _ => s)
    case Returned => s
  }

  /** Runs a schedule; indices that name no task are ignored. */
  ghost function Exec<V, R, P>(tasks: seq<Task<V, R, P>>, s: State<V, R, P>, sched: seq<nat>): (s': State<V, R, P>)
    requires Shaped(tasks, s)
    ensures Shaped(tasks, s')
    decreases |sched|
  {
    if sched == [] then s
    else Exec(tasks, if sched[0] < |tasks| then Step(tasks, s, sched[0]) else s, sched[1..])
  }

  ghost predicate Complete<V, R, P>(s: State<V, R, P>) {
    forall i :: 0 <= i < |s.stages| ==> s.stages[i].Returned?
  }

  // ------------------------------------------------------ step invariant

  ghost predicate Succeeded<V, R, P>(s: Pool<V, R, P>, i: nat) {
    i < |s.threads| && s.threads[i].Done? && s.threads[i].outcome.Ok?
  }

  ghost predicate Failed<V, R, P>(s: Pool<V, R, P>, i: nat) {
    i < |s.threads| && s.threads[i].Done? && s.threads[i].outcome.Panicked?
  }

  /** What slot, flag and lock say about one task at each stage. In particular a
      set flag means the slot holds that task's own result. */
  ghost predicate TaskOk<V, R, P>(tasks: seq<Task<V, R, P>>, s: State<V, R, P>, i: nat)
    requires Shaped(tasks, s) && i < |tasks|
  {
    match s.stages[i]
    case Calling =>
      s.slots[i].Uninit? && !s.flags[i] && s.mutex.holder != Some(i) && i !in s.lockOrder
    case SlotWritten =>
      && Succeeded(s.pool, i) && s.slots[i] == Init(s.pool.threads[i].outcome.value)
      && !s.flags[i] && s.mutex.holder != Some(i) && i !in s.lockOrder
    case LockHeld =>
      && Failed(s.pool, i) && s.slots[i].Uninit? && !s.flags[i]
      && s.mutex.holder == Some(i) && i in s.lockOrder
    case Returned =>
      && s.mutex.holder != Some(i)
      && s.pool.threads[i].Done?
      && (s.pool.threads[i].outcome.Ok? ==>
            s.slots[i] == Init(s.pool.threads[i].outcome.value) && s.flags[i] && i !in s.lockOrder)
      && (s.pool.threads[i].outcome.Panicked? ==> s.slots[i].Uninit? && !s.flags[i] && i in s.lockOrder)
  }

  /** The lock holders that have already let go. */
  ghost function Settled<V, R, P>(s: State<V, R, P>): seq<nat> {
    if s.mutex.holder.Some? && s.lockOrder != [] then s.lockOrder[..|s.lockOrder| - 1] else s.lockOrder
  }

  ghost function PayloadItems(tasks: seq<nat>): (r: seq<Item>)
    ensures |r| == |tasks|
  {
    seq(|tasks|, k requires 0 <= k < |tasks| => PayloadOf(tasks[k]))
  }

  /** Those who found a payload already stored and dropped their own. */
  ghost function Losers<P>(before: Option<Raise<P>>, settled: seq<nat>): seq<nat> {
    if before.Some? || settled == [] then settled else settled[1..]
  }

  ghost predicate LockOk<V, R, P>(before: Option<Raise<P>>, s: State<V, R, P>) {
    && Distinct(s.lockOrder)
    && (forall k :: 0 <= k < |s.lockOrder| ==> Failed(s.pool, s.lockOrder[k]))
    && (s.mutex.holder.Some? ==> s.lockOrder != [] && s.lockOrder[|s.lockOrder| - 1] == s.mutex.holder.value)
    && s.drops == PayloadItems(Losers(before, Settled(s)))
    && (if before.Some? then s.mutex.content == before
        else if Settled(s) == [] then s.mutex.content.None?
        else s.mutex.content == Some(RaisedBy(Settled(s)[0], s.pool.threads[Settled(s)[0]].outcome.fault)))
  }

  ghost predicate Inv<V, R, P>(tasks: seq<Task<V, R, P>>, cells: seq<V>, before: Option<Raise<P>>, s: State<V, R, P>) {
    && Shaped(tasks, s)
    && OnTrack(tasks, cells, s.pool)
    && LockOk(before, s)
    && (forall i :: 0 <= i < |tasks| ==> TaskOk(tasks, s, i))
  }

  lemma BeginInv<V, R, P>(tasks: seq<Task<V, R, P>>, cells: seq<V>, before: Option<Raise<P>>, poisoned: bool)
    requires WellTiled(tasks, |cells|)
    ensures Inv(tasks, cells, before, Begin(tasks, cells, before, poisoned))
  {
    StartOnTrack(tasks, cells);
  }

  /** Only task `i` touches slot `i`, flag `i` and the cells of shard `i`. */
  lemma StepFrame<V, R, P>(tasks: seq<Task<V, R, P>>, s: State<V, R, P>, i: nat)
    requires Shaped(tasks, s) && i < |tasks|
    ensures var s' := Step(tasks, s, i);
            && |s'.pool.cells| == |s.pool.cells|
            && (forall j :: 0 <= j < |tasks| && j != i ==>
                  s'.slots[j] == s.slots[j] && s'.flags[j] == s.flags[j]
                  && s'.stages[j] == s.stages[j] && s'.pool.threads[j] == s.pool.threads[j])
            && (forall a :: 0 <= a < |s.pool.cells| && !(tasks[i].lo <= a < tasks[i].hi) ==>
                  s'.pool.cells[a] == s.pool.cells[a])
  {
    AdvanceFrame(tasks, s.pool, i);
  }

  lemma LockUntouched<V, R, P>(before: Option<Raise<P>>, s: State<V, R, P>, s': State<V, R, P>)
    requires LockOk(before, s)
    requires (s'.lockOrder, s'.mutex, s'.drops) == (s.lockOrder, s.mutex, s.drops)
    requires |s'.pool.threads| == |s.pool.threads|
    requires forall k :: 0 <= k < |s.pool.threads| && s.pool.threads[k].Done? ==> s'.pool.threads[k] == s.pool.threads[k]
    ensures LockOk(before, s')
  {
    assert Settled(s') == Settled(s);
    forall k | 0 <= k < |s.lockOrder|
      ensures Failed(s'.pool, s.lockOrder[k]) && s'.pool.threads[s.lockOrder[k]] == s.pool.threads[s.lockOrder[k]]
    {
      assert Failed(s.pool, s.lockOrder[k]);
    }
  }

  lemma LockAcquired<V, R, P>(before: Option<Raise<P>>, s: State<V, R, P>, s': State<V, R, P>, i: nat)
    requires LockOk(before, s) && s.mutex.holder.None? && i !in s.lockOrder && Failed(s.pool, i)
    requires s'.pool == s.pool && s'.drops == s.drops
    requires s'.lockOrder == s.lockOrder + [i] && s'.mutex == s.mutex.(holder := Some(i))
    ensures LockOk(before, s')
  {
    assert Settled(s') == Settled(s);
  }

  lemma LosersGrow<P>(before: Option<Raise<P>>, settled: seq<nat>, i: nat)
    ensures PayloadItems(Losers(before, settled + [i]))
            == PayloadItems(Losers(before, settled)) + if before.None? && settled == [] then [] else [PayloadOf(i)]
  {
    var losers, losers' := Losers(before, settled), Losers(before, settled + [i]);
    if before.None? && settled == [] {
      assert losers' == losers;
    } else {
      assert losers' == losers + [i];
    }
  }

  lemma LockReleased<V, R, P>(before: Option<Raise<P>>, s: State<V, R, P>, s': State<V, R, P>, i: nat)
    requires LockOk(before, s) && s.mutex.holder == Some(i) && Failed(s.pool, i)
    requires s'.pool == s.pool && s'.lockOrder == s.lockOrder
    requires s'.mutex == s.mutex.(holder := None,
               content := if s.mutex.content.None? then Some(RaisedBy(i, s.pool.threads[i].outcome.fault)) else s.mutex.content)
    requires s'.drops == if s.mutex.content.None? then s.drops else s.drops + [PayloadOf(i)]
    ensures LockOk(before, s')
  {
    assert s.lockOrder == Settled(s) + [i];
    assert Settled(s') == Settled(s) + [i];
    LosersGrow(before, Settled(s), i);
  }

  lemma StepLockOk<V, R, P>(tasks: seq<Task<V, R, P>>, cells: seq<V>, before: Option<Raise<P>>, s: State<V, R, P>, i: nat)
    requires Inv(tasks, cells, before, s) && i < |tasks|
    ensures LockOk(before, Step(tasks, s, i))
  {
    var s' := Step(tasks, s, i);
    assert TaskOk(tasks, s, i);
    if s.stages[i].LockHeld? {
      LockReleased(before, s, s', i);
    } else if s'.lockOrder != s.lockOrder {
      LockAcquired(before, s, s', i);
    } else {
      AdvanceFrame(tasks, s.pool, i);
      LockUntouched(before, s, s');
    }
  }

  lemma StepTaskOk<V, R, P>(tasks: seq<Task<V, R, P>>, cells: seq<V>, before: Option<Raise<P>>, s: State<V, R, P>, i: nat, j: nat)
    requires Inv(tasks, cells, before, s) && i < |tasks| && j < |tasks|
    ensures TaskOk(tasks, Step(tasks, s, i), j)
  {
    var s' := Step(tasks, s, i);
    StepFrame(tasks, s, i);
    assert TaskOk(tasks, s, i) && TaskOk(tasks, s, j);
  }

  /** Every micro-step keeps the invariant. */
  lemma StepInv<V, R, P>(tasks: seq<Task<V, R, P>>, cells: seq<V>, before: Option<Raise<P>>, s: State<V, R, P>, i: nat)
    requires Inv(tasks, cells, before, s) && i < |tasks|
    ensures Inv(tasks, cells, before, Step(tasks, s, i))
  {
    AdvanceOnTrack(tasks, cells, s.pool, i);
    StepLockOk(tasks, cells, before, s, i);
    forall j | 0 <= j < |tasks|
      ensures TaskOk(tasks, Step(tasks, s, i), j)
    {
      StepTaskOk(tasks, cells, before, s, i, j);
    }
  }

  /** The step invariant of the buffer protocol holds in every reachable state,
      under every schedule. */
  lemma {:induction false} Reachable<V, R, P>(tasks: seq<Task<V, R, P>>, cells: seq<V>, before: Option<Raise<P>>, s: State<V, R, P>, sched: seq<nat>)
    requires Inv(tasks, cells, before, s)
    ensures Inv(tasks, cells, before, Exec(tasks, s, sched))
    decreases |sched|
  {
    if sched != [] {
      if sched[0] < |tasks| {
        StepInv(tasks, cells, before, s, sched[0]);
        Reachable(tasks, cells, before, Step(tasks, s, sched[0]), sched[1..]);
      } else {
        Reachable(tasks, cells, before, s, sched[1..]);
      }
    }
  }

  // --------------------------------------------------------------- exits

  /** How a call of `drive` ends for its caller. */
  datatype Exit<R, P> = Returns(values: seq<R>) | Resumes(raise: Raise<P>) | ThroughExecutor

  datatype Ending<R, P> = Ending(exit: Exit<R, P>, drops: seq<Item>)

  /** The results behind set flags, from index `from` on. */
  ghost function Flagged(flags: seq<bool>, from: nat): seq<Item>
    requires from <= |flags|
    decreases |flags| - from
  {
    if from == |flags| then []
    else (if flags[from] then [ResultOf(from)] else []) + Flagged(flags, from + 1)
  }

  ghost predicate AllInit<R>(slots: seq<Slot<R>>) {
    forall i :: 0 <= i < |slots| ==> slots[i].Init?
  }

  function Contents<R>(slots: seq<Slot<R>>): seq<R>
    requires AllInit(slots)
  {
    seq(|slots|, i requires 0 <= i < |slots| => slots[i].value)
  }

  /** The executor returned: raise the stored payload after dropping every
      produced result and the buffer, or hand the buffer over as the vector. */
  ghost function Conclude<V, R, P>(s: State<V, R, P>): Ending<R, P>
    requires LockPanicPayload(s.mutex).None? ==> AllInit(s.slots)
  {
    match LockPanicPayload(s.mutex)
    case Some(raise) => Ending(Resumes(raise), s.drops + Flagged(s.flags, 0) + [Buffer])
    case None => Ending(Returns(Contents(s.slots)), s.drops)
  }

  ghost function MutexItems<P>(m: PayloadMutex<P>): seq<Item> {
    if m.content.Some? && m.content.value.RaisedBy? then [PayloadOf(m.content.value.task)] else []
  }

  /** The executor unwound: the guard drops every produced result and frees the
      buffer, then the payload mutex is dropped with whatever it holds. */
  ghost function Abandon<V, R, P>(s: State<V, R, P>): Ending<R, P> {
    Ending(ThroughExecutor, s.drops + Flagged(s.flags, 0) + [Buffer] + MutexItems(s.mutex))
  }

  /** No invocation is under way: each index has finished or has not begun. */
  ghost predicate Quiescent<V, R, P>(s: State<V, R, P>) {
    forall i :: 0 <= i < |s.stages| ==>
      s.stages[i].Returned? || (s.stages[i].Calling? && i < |s.pool.threads| && s.pool.threads[i].Idle?)
  }

  lemma QuiescentLock<V, R, P>(tasks: seq<Task<V, R, P>>, cells: seq<V>, before: Option<Raise<P>>, s: State<V, R, P>)
    requires Inv(tasks, cells, before, s) && Quiescent(s)
    ensures s.mutex.holder.None? && Settled(s) == s.lockOrder
    ensures forall i :: 0 <= i < |tasks| ==> (s.flags[i] <==> Succeeded(s.pool, i)) && (i in s.lockOrder <==> Failed(s.pool, i))
  {
    forall i | 0 <= i < |tasks|
      ensures (s.flags[i] <==> Succeeded(s.pool, i)) && (i in s.lockOrder <==> Failed(s.pool, i))
      ensures s.mutex.holder != Some(i)
    {
      assert TaskOk(tasks, s, i);
    }
    if s.lockOrder != [] {
      assert Failed(s.pool, s.lockOrder[|s.lockOrder| - 1]);
    }
  }

  /** Under any interleaving that completes, the region is the one the
      left-to-right run leaves. With no panic the call returns that run's results
      in index order and drops nothing; with a panic it returns nothing and
      raises the payload of the first task to take the lock. */
  lemma ScheduleIndependence<V, R, P>(tasks: seq<Task<V, R, P>>, cells: seq<V>, s: State<V, R, P>)
    requires Inv(tasks, cells, None, s) && Complete(s)
    ensures OneByOne(tasks, cells).Some? && OneByOne(tasks, cells).value.0 == s.pool.cells
    ensures LockPanicPayload(s.mutex).None? ==> AllInit(s.slots)
    ensures var outcomes := OneByOne(tasks, cells).value.1;
            if PanicFree(outcomes)
            then Conclude(s) == Ending(Returns(Values(outcomes)), [])
            else && s.lockOrder != [] && s.lockOrder[0] < |tasks| && outcomes[s.lockOrder[0]].Panicked?
                 && Conclude(s).exit == Resumes(RaisedBy(s.lockOrder[0], outcomes[s.lockOrder[0]].fault))
  {
    forall i | 0 <= i < |tasks|
      ensures s.pool.threads[i].Done?
      ensures s.pool.threads[i].outcome.Ok? ==> s.slots[i] == Init(s.pool.threads[i].outcome.value)
    {
      assert TaskOk(tasks, s, i);
    }
    Serializable(tasks, cells, s.pool);
    QuiescentLock(tasks, cells, None, s);
    var outcomes := Outcomes(s.pool);
    if s.lockOrder != [] {
      assert Failed(s.pool, s.lockOrder[0]) && !outcomes[s.lockOrder[0]].Ok?;
    }
    if PanicFree(outcomes) {
      forall i | 0 <= i < |tasks|
        ensures s.slots[i].Init? && i !in s.lockOrder
      {
        assert outcomes[i].Ok?;
      }
      assert Contents(s.slots) == Values(outcomes);
    } else {
      var i :| 0 <= i < |outcomes| && !outcomes[i].Ok?;
      assert Failed(s.pool, i);
    }
  }

  /** What the mutex holds in a reachable state. */
  lemma PayloadNow<V, R, P>(tasks: seq<Task<V, R, P>>, cells: seq<V>, before: Option<Raise<P>>, s: State<V, R, P>)
    requires Inv(tasks, cells, before, s)
    ensures before.Some? ==> LockPanicPayload(s.mutex) == before
    ensures before.None? && Complete(s) && (exists i :: 0 <= i < |tasks| && Failed(s.pool, i)) ==>
              s.lockOrder != [] && LockPanicPayload(s.mutex).Some?
              && LockPanicPayload(s.mutex).value.RaisedBy?
              && LockPanicPayload(s.mutex).value.task == s.lockOrder[0]
  {
    if Complete(s) {
      QuiescentLock(tasks, cells, before, s);
      if i :| 0 <= i < |tasks| && Failed(s.pool, i) {
        assert i in s.lockOrder;
      }
    }
  }

  lemma {:induction false} ContentStays<V, R, P>(tasks: seq<Task<V, R, P>>, s: State<V, R, P>, sched: seq<nat>)
    requires Shaped(tasks, s) && s.mutex.content.Some?
    ensures Exec(tasks, s, sched).mutex.content == s.mutex.content
    decreases |sched|
  {
    if sched != [] {
      ContentStays(tasks, if sched[0] < |tasks| then Step(tasks, s, sched[0]) else s, sched[1..]);
    }
  }

  /** The stored payload is written once: whatever was there stays, a panicking
      task leaves one behind, and it is the first by lock order, poisoned mutex
      or not. */
  lemma PayloadWrittenOnce<V, R, P>(tasks: seq<Task<V, R, P>>, cells: seq<V>, before: Option<Raise<P>>, s: State<V, R, P>, sched: seq<nat>)
    requires Inv(tasks, cells, before, s)
    ensures var s' := Exec(tasks, s, sched);
            && (s.mutex.content.Some? ==> s'.mutex.content == s.mutex.content)
            && (before.Some? ==> LockPanicPayload(s'.mutex) == before)
            && (before.None? && Complete(s') && (exists i :: 0 <= i < |tasks| && Failed(s'.pool, i)) ==>
                  s'.lockOrder != [] && LockPanicPayload(s'.mutex).Some?
                  && LockPanicPayload(s'.mutex).value.RaisedBy?
                  && LockPanicPayload(s'.mutex).value.task == s'.lockOrder[0])
  {
    if s.mutex.content.Some? {
      ContentStays(tasks, s, sched);
    }
    Reachable(tasks, cells, before, s, sched);
    PayloadNow(tasks, cells, before, Exec(tasks, s, sched));
  }

  // -------------------------------------------------------- conservation

  /** How often an item was dropped. */
  ghost function Dropped(drops: seq<Item>, item: Item): nat {
    Count(drops, item)
  }

  lemma DroppedConcat(a: seq<Item>, b: seq<Item>, item: Item)
    ensures Dropped(a + b, item) == Dropped(a, item) + Dropped(b, item)
  {
    CountConcat(a, b, item);
  }

  lemma {:induction false} FlaggedCount(flags: seq<bool>, from: nat, item: Item)
    requires from <= |flags|
    ensures Dropped(Flagged(flags, from), item)
            == if item.ResultOf? && from <= item.task < |flags| && flags[item.task] then 1 else 0
    decreases |flags| - from
  {
    if from < |flags| {
      FlaggedCount(flags, from + 1, item);
      DroppedConcat(if flags[from] then [ResultOf(from)] else [], Flagged(flags, from + 1), item);
      CountOne(ResultOf(from), item);
    }
  }

  /** Results of tasks from `from` on, each before those of later tasks. */
  ghost predicate Increasing(items: seq<Item>, from: nat) {
    && (forall i :: 0 <= i < |items| ==> items[i].ResultOf? && from <= items[i].task)
    && (forall i, j :: 0 <= i < j < |items| ==> items[i].task < items[j].task)
  }

  lemma IncreasingStep(items: seq<Item>, rest: seq<Item>, from: nat)
    requires Increasing(rest, from + 1) && (items == rest || items == [ResultOf(from)] + rest)
    ensures Increasing(items, from)
  {
  }

  /** The cleanup loop goes by increasing index. */
  lemma {:induction false} FlaggedIncreasing(flags: seq<bool>, from: nat)
    requires from <= |flags|
    ensures Increasing(Flagged(flags, from), from)
    decreases |flags| - from
  {
    if from < |flags| {
      FlaggedIncreasing(flags, from + 1);
      assert [] + Flagged(flags, from + 1) == Flagged(flags, from + 1);
      IncreasingStep(Flagged(flags, from), Flagged(flags, from + 1), from);
    }
  }

  lemma {:induction false} PayloadCount(tasks: seq<nat>, item: Item)
    ensures Dropped(PayloadItems(tasks), item) == if item.PayloadOf? then Count(tasks, item.task) else 0
  {
    if tasks != [] {
      var front, last := tasks[..|tasks| - 1], tasks[|tasks| - 1];
      assert tasks == front + [last];
      assert PayloadItems(tasks)[..|tasks| - 1] == PayloadItems(front);
      PayloadCount(front, item);
    }
  }

  /** What has been dropped while the tasks ran: the payloads that lost the race. */
  lemma LosersCount<V, R, P>(tasks: seq<Task<V, R, P>>, cells: seq<V>, s: State<V, R, P>, item: Item)
    requires Inv(tasks, cells, None, s) && Quiescent(s)
    ensures Dropped(s.drops, item)
            == if item.PayloadOf? && item.task in s.lockOrder && item.task != s.lockOrder[0] then 1 else 0
  {
    QuiescentLock(tasks, cells, None, s);
    var losers := Losers<P>(None, s.lockOrder);
    PayloadCount(losers, item);
    if item.PayloadOf? {
      DistinctCount(losers, item.task);
    }
  }

  /** What a call owes for an item: one disposal for each thing that came to exist. */
  ghost function Owed<V, R, P>(s: State<V, R, P>, item: Item): nat {
    match item
    case ResultOf(i) => if Succeeded(s.pool, i) then 1 else 0
    case PayloadOf(i) => if Failed(s.pool, i) then 1 else 0
    case Buffer => 1
  }

  /** What leaves with the caller: the returned vector takes the buffer and every
      result, a resumed panic takes its payload. */
  ghost function Taken<V, R, P>(s: State<V, R, P>, exit: Exit<R, P>, item: Item): nat {
    match exit
    case Returns(values) =>
      (match item case ResultOf(i) => (if i < |values| then 1 else 0) case PayloadOf(_) => 0 case Buffer => 1)
    case Resumes(raise) => if raise.RaisedBy? && item == PayloadOf(raise.task) then 1 else 0
    case ThroughExecutor => 0
  }

  lemma TeardownSum<V, R, P>(s: State<V, R, P>, item: Item)
    ensures Dropped(s.drops + Flagged(s.flags, 0) + [Buffer], item)
            == Dropped(s.drops, item)
               + (if item.ResultOf? && item.task < |s.flags| && s.flags[item.task] then 1 else 0)
               + (if item.Buffer? then 1 else 0)
  {
    FlaggedCount(s.flags, 0, item);
    DroppedConcat(s.drops + Flagged(s.flags, 0), [Buffer], item);
    DroppedConcat(s.drops, Flagged(s.flags, 0), item);
    CountOne(Buffer, item);
  }

  lemma MutexCount<P>(m: PayloadMutex<P>, item: Item)
    ensures Dropped(MutexItems(m), item)
            == if m.content.Some? && m.content.value.RaisedBy? && item == PayloadOf(m.content.value.task) then 1 else 0
  {
    if MutexItems(m) != [] { CountOne(MutexItems(m)[0], item); }
  }

  lemma TeardownCount<V, R, P>(tasks: seq<Task<V, R, P>>, cells: seq<V>, s: State<V, R, P>, item: Item)
    requires Inv(tasks, cells, None, s) && Quiescent(s)
    requires !item.Buffer? ==> item.task < |tasks|
    ensures Dropped(s.drops + Flagged(s.flags, 0) + [Buffer], item) + Dropped(MutexItems(s.mutex), item) == Owed(s, item)
  {
    QuiescentLock(tasks, cells, None, s);
    LosersCount(tasks, cells, s, item);
    TeardownSum(s, item);
    MutexCount(s.mutex, item);
  }

  /** Disposed of exactly once: dropped or taken, as often as it came to exist. */
  ghost predicate Balanced<V, R, P>(s: State<V, R, P>, ending: Ending<R, P>, item: Item) {
    Dropped(ending.drops, item) + Taken(s, ending.exit, item) == Owed(s, item)
  }

  lemma ResumedPayload<V, R, P>(s: State<V, R, P>, item: Item)
    requires s.mutex.content.Some?
    ensures Taken(s, Resumes(s.mutex.content.value), item) == Dropped(MutexItems(s.mutex), item)
  {
    MutexCount(s.mutex, item);
  }

  /** With no payload stored every task succeeded and nothing was dropped. */
  lemma AllReturned<V, R, P>(tasks: seq<Task<V, R, P>>, cells: seq<V>, s: State<V, R, P>, item: Item)
    requires Inv(tasks, cells, None, s) && Complete(s) && s.mutex.content.None?
    requires !item.Buffer? ==> item.task < |tasks|
    ensures Dropped(s.drops, item) == 0
    ensures item.ResultOf? ==> Succeeded(s.pool, item.task)
    ensures item.PayloadOf? ==> !Failed(s.pool, item.task)
  {
    QuiescentLock(tasks, cells, None, s);
    if !item.Buffer? {
      assert TaskOk(tasks, s, item.task);
    }
  }

  /** Ownership conservation when the executor returns: every result and payload
      produced, and the buffer, is either taken by the caller or dropped, once. */
  lemma ConservedOnReturn<V, R, P>(tasks: seq<Task<V, R, P>>, cells: seq<V>, s: State<V, R, P>, item: Item)
    requires Inv(tasks, cells, None, s) && Complete(s)
    requires !item.Buffer? ==> item.task < |tasks|
    ensures LockPanicPayload(s.mutex).None? ==> AllInit(s.slots)
    ensures Balanced(s, Conclude(s), item)
  {
    if LockPanicPayload(s.mutex).Some? {
      TeardownCount(tasks, cells, s, item);
      ResumedPayload(s, item);
    } else {
      ScheduleIndependence(tasks, cells, s);
      AllReturned(tasks, cells, s, item);
    }
  }

  /** The same when the executor itself unwinds after any subset of the tasks
      has finished. */
  lemma ConservedOnUnwind<V, R, P>(tasks: seq<Task<V, R, P>>, cells: seq<V>, s: State<V, R, P>, item: Item)
    requires Inv(tasks, cells, None, s) && Quiescent(s)
    requires !item.Buffer? ==> item.task < |tasks|
    ensures Balanced(s, Abandon(s), item)
  {
    TeardownCount(tasks, cells, s, item);
    DroppedConcat(s.drops + Flagged(s.flags, 0) + [Buffer], MutexItems(s.mutex), item);
  }

  /** What an unwinding executor leaves behind, in terms of the tasks alone: those
      that finished have left their final shards, the others were never begun, and
      every result and payload produced was dropped once, as was the buffer. */
  ghost predicate Abandoned<V, R, P>(tasks: seq<Task<V, R, P>>, cells: seq<V>, finished: set<nat>, after: seq<V>, drops: seq<Item>)
    requires WellTiled(tasks, |cells|)
  {
    && |after| == |cells|
    && (forall a :: 0 <= a < |cells| && Untouched(tasks, a) ==> after[a] == cells[a])
    && (forall i :: 0 <= i < |tasks| ==> LeftBehind(tasks, cells, i, i in finished, after, drops))
    && Dropped(drops, Buffer) == 1
  }

  ghost predicate LeftBehind<V, R, P>(tasks: seq<Task<V, R, P>>, cells: seq<V>, i: nat, finished: bool, after: seq<V>, drops: seq<Item>)
    requires WellTiled(tasks, |cells|) && |after| == |cells| && i < |tasks|
  {
    var expected := Expected(tasks, cells, i);
    if finished then
      && expected.Some? && ShardOf(tasks[i], after) == expected.value.0
      && Dropped(drops, ResultOf(i)) == (if expected.value.1.Ok? then 1 else 0)
      && Dropped(drops, PayloadOf(i)) == (if expected.value.1.Panicked? then 1 else 0)
    else
      && ShardOf(tasks[i], after) == ShardOf(tasks[i], cells)
      && Dropped(drops, ResultOf(i)) == Dropped(drops, PayloadOf(i)) == 0
  }

  ghost function FinishedTasks<V, R, P>(s: State<V, R, P>): set<nat> {
    set i | 0 <= i < |s.stages| && s.stages[i].Returned?
  }

  lemma TaskLeftBehind<V, R, P>(tasks: seq<Task<V, R, P>>, cells: seq<V>, s: State<V, R, P>, i: nat)
    requires Inv(tasks, cells, None, s) && Quiescent(s) && i < |tasks|
    ensures LeftBehind(tasks, cells, i, s.stages[i].Returned?, s.pool.cells, Abandon(s).drops)
  {
    assert TaskOk(tasks, s, i);
    ConservedOnUnwind(tasks, cells, s, ResultOf(i));
    ConservedOnUnwind(tasks, cells, s, PayloadOf(i));
    if s.stages[i].Returned? {
      DoneIsExpected(tasks, cells, s.pool, i);
    }
  }

  lemma UnwindingLeaves<V, R, P>(tasks: seq<Task<V, R, P>>, cells: seq<V>, s: State<V, R, P>)
    requires Inv(tasks, cells, None, s) && Quiescent(s)
    ensures Abandoned(tasks, cells, FinishedTasks(s), s.pool.cells, Abandon(s).drops)
  {
    forall i | 0 <= i < |tasks|
      ensures LeftBehind(tasks, cells, i, i in FinishedTasks(s), s.pool.cells, Abandon(s).drops)
    {
      TaskLeftBehind(tasks, cells, s, i);
    }
    ConservedOnUnwind(tasks, cells, s, Buffer);
  }

  /** Everything above for a whole call: from a fresh buffer, for every schedule
      of the executor and a mutex poisoned or not, the step invariant holds where
      the schedule stops; whichever way the call then ends, each item is
      accounted for exactly once; and if every task completed, the call returns
      or raises as the left-to-right run says. */
  lemma EveryRun<V, R, P>(tasks: seq<Task<V, R, P>>, cells: seq<V>, poisoned: bool, sched: seq<nat>, item: Item)
    requires WellTiled(tasks, |cells|)
    requires !item.Buffer? ==> item.task < |tasks|
    ensures var s := Exec(tasks, Begin(tasks, cells, None, poisoned), sched);
            && Inv(tasks, cells, None, s)
            && (Quiescent(s) ==> Balanced(s, Abandon(s), item))
            && (Complete(s) ==>
                  && (LockPanicPayload(s.mutex).None? ==> AllInit(s.slots))
                  && Balanced(s, Conclude(s), item)
                  && OneByOne(tasks, cells).Some? && s.pool.cells == OneByOne(tasks, cells).value.0
                  && (Conclude(s).exit.Returns? <==> PanicFree(OneByOne(tasks, cells).value.1)))
  {
    var s := Exec(tasks, Begin(tasks, cells, None, poisoned), sched);
    BeginInv(tasks, cells, None, poisoned);
    Reachable(tasks, cells, None, Begin(tasks, cells, None, poisoned), sched);
    if Quiescent(s) { ConservedOnUnwind(tasks, cells, s, item); }
    if Complete(s) {
      ConservedOnReturn(tasks, cells, s, item);
      CompleteOutcome(tasks, cells, s);
    }
  }

  lemma CompleteOutcome<V, R, P>(tasks: seq<Task<V, R, P>>, cells: seq<V>, s: State<V, R, P>)
    requires Inv(tasks, cells, None, s) && Complete(s)
    ensures LockPanicPayload(s.mutex).None? ==> AllInit(s.slots)
    ensures OneByOne(tasks, cells).Some? && s.pool.cells == OneByOne(tasks, cells).value.0
    ensures Conclude(s).exit.Returns? <==> PanicFree(OneByOne(tasks, cells).value.1)
  {
    ScheduleIndependence(tasks, cells, s);
  }

  /** While a task runs for ever the executor never returns: under no schedule do
      all tasks complete. */
  lemma EndlessTaskNeverReturns<V, R, P>(tasks: seq<Task<V, R, P>>, cells: seq<V>, poisoned: bool, sched: seq<nat>, i: nat)
    requires WellTiled(tasks, |cells|) && i < |tasks| && Expected(tasks, cells, i).None?
    ensures !Complete(Exec(tasks, Begin(tasks, cells, None, poisoned), sched))
  {
    var s := Exec(tasks, Begin(tasks, cells, None, poisoned), sched);
    BeginInv(tasks, cells, None, poisoned);
    Reachable(tasks, cells, None, Begin(tasks, cells, None, poisoned), sched);
    assert TaskOk(tasks, s, i);
    if Complete(s) {
      DoneIsExpected(tasks, cells, s.pool, i);
    }
  }

  // ------------------------------------------------------------- progress

  /** Micro-steps task `i` still has to take in the protocol. */
  ghost function Left<V, R, P>(tasks: seq<Task<V, R, P>>, s: State<V, R, P>, i: nat): nat
    requires Shaped(tasks, s) && i < |tasks|
  {
    match s.stages[i]
    case Calling => TaskWork(tasks, s.pool, i) + 2
    case SlotWritten => 1
    case LockHeld => 1
    case Returned => 0
  }

  ghost function Work<V, R, P>(tasks: seq<Task<V, R, P>>, s: State<V, R, P>, n: nat): nat
    requires Shaped(tasks, s) && n <= |tasks|
  {
    if n == 0 then 0 else Left(tasks, s, n - 1) + Work(tasks, s, n - 1)
  }

  lemma StepLeft<V, R, P>(tasks: seq<Task<V, R, P>>, cells: seq<V>, s: State<V, R, P>, i: nat, j: nat)
    requires Inv(tasks, cells, None, s) && AllHalt(tasks, cells) && i < |tasks| && j < |tasks|
    ensures Left(tasks, Step(tasks, s, i), j) == Left(tasks, s, j) - if j == i && Step(tasks, s, i) != s then 1 else 0
  {
    AdvanceWork(tasks, cells, s.pool, i, j);
    assert TaskOk(tasks, s, i);
  }

  lemma {:induction false} StepWork<V, R, P>(tasks: seq<Task<V, R, P>>, cells: seq<V>, s: State<V, R, P>, i: nat, n: nat)
    requires Inv(tasks, cells, None, s) && AllHalt(tasks, cells) && i < |tasks| && n <= |tasks|
    ensures Work(tasks, Step(tasks, s, i), n) == Work(tasks, s, n) - if i < n && Step(tasks, s, i) != s then 1 else 0
  {
    if n > 0 {
      StepLeft(tasks, cells, s, i, n - 1);
      StepWork(tasks, cells, s, i, n - 1);
    }
  }

  /** An unfinished task that is not waiting for the lock moves when scheduled. */
  lemma Movable<V, R, P>(tasks: seq<Task<V, R, P>>, cells: seq<V>, s: State<V, R, P>, i: nat)
    requires Shaped(tasks, s) && OnTrack(tasks, cells, s.pool) && AllHalt(tasks, cells)
    requires i < |tasks| && TaskOk(tasks, s, i) && !s.stages[i].Returned?
    requires s.stages[i].Calling? ==> s.mutex.holder.None?
    ensures Step(tasks, s, i) != s
  {
    if s.stages[i].Calling? && !s.pool.threads[i].Done? {
      AdvanceMoves(tasks, cells, s.pool, i);
    } else {
      assert Step(tasks, s, i).stages[i] != s.stages[i];
    }
  }

  /** No deadlock: while a task is unfinished some task can move. */
  lemma SomeoneMoves<V, R, P>(tasks: seq<Task<V, R, P>>, cells: seq<V>, s: State<V, R, P>) returns (i: nat)
    requires Inv(tasks, cells, None, s) && AllHalt(tasks, cells) && !Complete(s)
    ensures i < |tasks| && Step(tasks, s, i) != s
  {
    if s.mutex.holder.Some? {
      i := s.mutex.holder.value;
      assert Failed(s.pool, s.lockOrder[|s.lockOrder| - 1]);
      assert TaskOk(tasks, s, i);
    } else {
      i :| 0 <= i < |s.stages| && !s.stages[i].Returned?;
    }
    Movable(tasks, cells, s, i);
  }

  /** A round in which a movable task gets its turn does some work. */
  lemma {:induction false} RoundWorks<V, R, P>(tasks: seq<Task<V, R, P>>, cells: seq<V>, s: State<V, R, P>, round: seq<nat>)
    requires Inv(tasks, cells, None, s) && AllHalt(tasks, cells)
    ensures Work(tasks, Exec(tasks, s, round), |tasks|) <= Work(tasks, s, |tasks|)
    ensures (exists i :: 0 <= i < |tasks| && i in round && Step(tasks, s, i) != s) ==>
              Work(tasks, Exec(tasks, s, round), |tasks|) < Work(tasks, s, |tasks|)
    decreases |round|
  {
    if round != [] {
      var i := round[0];
      if i < |tasks| {
        StepInv(tasks, cells, None, s, i);
        StepWork(tasks, cells, s, i, |tasks|);
        RoundWorks(tasks, cells, Step(tasks, s, i), round[1..]);
      } else {
        RoundWorks(tasks, cells, s, round[1..]);
      }
    }
  }

  ghost function ExecRounds<V, R, P>(tasks: seq<Task<V, R, P>>, s: State<V, R, P>, rounds: seq<seq<nat>>): (s': State<V, R, P>)
    requires Shaped(tasks, s)
    ensures Shaped(tasks, s')
    decreases |rounds|
  {
    if rounds == [] then s else ExecRounds(tasks, Exec(tasks, s, rounds[0]), rounds[1..])
  }

  lemma {:induction false} ExecConcat<V, R, P>(tasks: seq<Task<V, R, P>>, s: State<V, R, P>, a: seq<nat>, b: seq<nat>)
    requires Shaped(tasks, s)
    ensures Exec(tasks, s, a + b) == Exec(tasks, Exec(tasks, s, a), b)
    decreases |a|
  {
    if a == [] {
      assert a + b == b;
    } else {
      assert (a + b)[1..] == a[1..] + b;
      ExecConcat(tasks, if a[0] < |tasks| then Step(tasks, s, a[0]) else s, a[1..], b);
    }
  }

  lemma {:induction false} RoundsFlatten<V, R, P>(tasks: seq<Task<V, R, P>>, s: State<V, R, P>, rounds: seq<seq<nat>>)
    requires Shaped(tasks, s)
    ensures ExecRounds(tasks, s, rounds) == Exec(tasks, s, Flatten(rounds))
    decreases |rounds|
  {
    if rounds != [] {
      ExecConcat(tasks, s, rounds[0], Flatten(rounds[1..]));
      RoundsFlatten(tasks, Exec(tasks, s, rounds[0]), rounds[1..]);
    }
  }

  lemma CompleteStays<V, R, P>(tasks: seq<Task<V, R, P>>, s: State<V, R, P>, sched: seq<nat>)
    requires Shaped(tasks, s) && Complete(s)
    ensures Exec(tasks, s, sched) == s
    decreases |sched|
  {
    if sched != [] {
      assert sched[0] < |tasks| ==> Step(tasks, s, sched[0]) == s;
      CompleteStays(tasks, s, sched[1..]);
    }
  }

  lemma CompleteStaysRounds<V, R, P>(tasks: seq<Task<V, R, P>>, s: State<V, R, P>, rounds: seq<seq<nat>>)
    requires Shaped(tasks, s) && Complete(s)
    ensures ExecRounds(tasks, s, rounds) == s
    decreases |rounds|
  {
    if rounds != [] {
      CompleteStays(tasks, s, rounds[0]);
      CompleteStaysRounds(tasks, s, rounds[1..]);
    }
  }

  /** Every fair executor finishes: given as many rounds as there is work, each
      giving every task a turn in whatever order, all tasks complete. */
  lemma {:induction false} FairRunCompletes<V, R, P>(tasks: seq<Task<V, R, P>>, cells: seq<V>, s: State<V, R, P>, rounds: seq<seq<nat>>)
    requires Inv(tasks, cells, None, s) && AllHalt(tasks, cells)
    requires Fair(rounds, |tasks|) && |rounds| >= Work(tasks, s, |tasks|)
    ensures Complete(ExecRounds(tasks, s, rounds))
    decreases |rounds|
  {
    if Complete(s) {
      CompleteStaysRounds(tasks, s, rounds);
    } else {
      var i := SomeoneMoves(tasks, cells, s);
      StepWork(tasks, cells, s, i, |tasks|);
      assert i in rounds[0];
      RoundWorks(tasks, cells, s, rounds[0]);
      Reachable(tasks, cells, None, s, rounds[0]);
      FairRunCompletes(tasks, cells, Exec(tasks, s, rounds[0]), rounds[1..]);
    }
  }
}
