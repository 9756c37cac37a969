/** `drive` (src/sync/scoped/partition/driver_core.rs) in place: the raw output
    buffer, the success flags, the payload mutex, the drop guard and the two
    teardown paths of the executor branch, and the join loop of the scoped
    branch. Every method is tied to the state machines of Protocol and Scoped. */
module DriverCore {
  import opened Base
  import opened Workers
  import opened Protocol
  import opened Registry
  import S = Scoped

  /** The user closures at work on the region. The region is one or two storage
      slices: a deque lends both halves of its ring buffer, a plain region has an
      empty `back`. */
  class Crew<V, R, P> {
    const tasks: seq<Task<V, R, P>>
    const front: array<V>
    const back: array<V>
    var threads: seq<Thread<V, R, P>>

    ghost predicate Apart() {
      front != back && this as object != front as object && this as object != back as object
    }

    ghost function Cells(): seq<V>
      reads front, back
    {
      front[..] + back[..]
    }

    ghost function Abs(): Pool<V, R, P>
      reads this, front, back
    {
      Pool(Cells(), threads)
    }

    constructor (front: array<V>, back: array<V>, tasks: seq<Task<V, R, P>>)
      requires front != back
      ensures this.tasks == tasks && this.front == front && this.back == back
      ensures Apart() && Abs() == Start(tasks, front[..] + back[..])
    {
      this.tasks, this.front, this.back := tasks, front, back;
      threads := seq(|tasks|, _ => Idle);
    }

    method ReadCell(a: nat) returns (v: V)
      requires a < |Cells()|
      ensures v == Cells()[a]
    {
      if a < front.Length { v := front[a]; } else { v := back[a - front.Length]; }
    }

    method WriteCell(a: nat, v: V)
      requires front != back && a < |Cells()|
      modifies front, back
      ensures Cells() == old(Cells())[a := v]
    {
      if a < front.Length { front[a] := v; } else { back[a - front.Length] := v; }
    }

    /** One cell access, jump, return or panic of the user closure of task `i`. */
    method RunStep(i: nat)
      requires Apart() && Fits(tasks, Abs()) && i < |tasks|
      modifies this`threads, front, back
      ensures Abs() == Advance(tasks, old(Abs()), i)
    {
      var t := tasks[i];
      match threads[i]
      case Idle => threads := threads[i := Running(t.prog.blocks(0))];
      case Done(_) =>
      case Running(rest) =>
        match rest {
          case Return(v) => threads := threads[i := Done(Ok(v))];
          case Panic(p) => threads := threads[i := Done(Panicked(UserPanic(p)))];
          case Read(at, cont) =>
            if at < t.hi - t.lo {
              var v := ReadCell(t.lo + at);
              threads := threads[i := Running(cont(v))];
            } else {
              threads := threads[i := Done(Panicked(IndexOutOfBounds(at)))];
            }
          case Write(at, v, next) =>
            if at < t.hi - t.lo {
              WriteCell(t.lo + at, v);
              threads := threads[i := Running(next)];
            } else {
              threads := threads[i := Done(Panicked(IndexOutOfBounds(at)))];
            }
          case Goto(b) => threads := threads[i := Running(t.prog.blocks(b))];
        }
    }

  }

  /** One call in progress on a registered executor. */
  class ExecutorCall<V, R, P> {
    const tasks: seq<Task<V, R, P>>
    const crew: Crew<V, R, P>
    const out: array<Slot<R>>
    const successful: array<bool>
    var stages: seq<Stage>
    var panicPayload: PayloadMutex<P>
    var bufferOwned: bool
    var guardActive: bool
    ghost var lockOrder: seq<nat>
    ghost var drops: seq<Item>

    ghost predicate Apart() {
      && crew.Apart() && crew.tasks == tasks
      && out as object != successful as object
      && this as object !in {crew.front as object, crew.back as object, out as object, successful as object, crew as object}
      && out as object !in {crew.front as object, crew.back as object, crew as object}
      && successful as object !in {crew.front as object, crew.back as object, crew as object}
    }

    ghost function Abs(): State<V, R, P>
      reads this, crew, crew.front, crew.back, out, successful
    {
      State(crew.Abs(), stages, out[..], successful[..], panicPayload, lockOrder, drops)
    }

    /** The buffer is owned by this call and reachable in the machine. */
    ghost predicate Valid(cells: seq<V>)
      reads this, crew, crew.front, crew.back, out, successful
    {
      Apart() && bufferOwned && Inv(tasks, cells, None, Abs())
    }

    /** Lines 156-183: allocate, leak the vector, arm the guard. */
    constructor (front: array<V>, back: array<V>, tasks: seq<Task<V, R, P>>)
      requires front != back && WellTiled(tasks, front.Length + back.Length)
      ensures this.tasks == tasks && crew.front == front && crew.back == back
      ensures fresh(crew) && fresh(out) && fresh(successful)
      ensures Valid(front[..] + back[..]) && guardActive
      ensures Abs() == Begin(tasks, front[..] + back[..], None, false)
    {
      this.tasks := tasks;
      crew := new Crew(front, back, tasks);
      out := new Slot<R>[|tasks|](_ => Uninit);
      successful := new bool[|tasks|](_ => false);
      stages := seq(|tasks|, _ => Calling);
      panicPayload := PayloadMutex(None, None, false);
      bufferOwned, guardActive := true, true;
      lockOrder, drops := [], [];
      new;
      assert Abs() == Begin(tasks, front[..] + back[..], None, false);
      BeginInv(tasks, front[..] + back[..], None, false);
    }

    /** `Ok(val)`: initialise the slot. It must still be uninitialised, or the
        result in it would be lost. */
    method WriteSlot(i: nat, v: R)
      requires Apart() && Shaped(tasks, Abs()) && i < |tasks| && out[i].Uninit?
      modifies this`stages, out
      ensures Abs() == old(Abs()).(slots := old(out[..])[i := Init(v)], stages := old(stages)[i := SlotWritten])
    {
      out[i] := Init(v);
      stages := stages[i := SlotWritten];
    }

    method SetFlag(i: nat)
      requires Apart() && Shaped(tasks, Abs()) && i < |tasks|
      modifies this`stages, successful
      ensures Abs() == old(Abs()).(flags := old(successful[..])[i := true], stages := old(stages)[i := Stage.Returned])
    {
      successful[i] := true;
      stages := stages[i := Stage.Returned];
    }

    /** `Err(payload)`: take the lock if it is free. */
    method TryLock(i: nat)
      requires Apart() && Shaped(tasks, Abs()) && i < |tasks|
      modifies this`stages, this`panicPayload, this`lockOrder
      ensures Abs() == if old(panicPayload).holder.Some? then old(Abs()) else
                         old(Abs()).(mutex := old(panicPayload).(holder := Some(i)), lockOrder := old(lockOrder) + [i],
                                     stages := old(stages)[i := LockHeld])
    {
      if panicPayload.holder.None? {
        panicPayload := panicPayload.(holder := Some(i));
        lockOrder := lockOrder + [i];
        stages := stages[i := LockHeld];
      }
    }

    /** Store the payload unless one is there, then let go of the lock. */
    method StorePayload(i: nat, fault: Fault<P>)
      requires Apart() && Shaped(tasks, Abs()) && i < |tasks|
      modifies this`stages, this`panicPayload, this`drops
      ensures var free := LockPanicPayload(old(panicPayload)).None?;
              && stages == old(stages)[i := Stage.Returned]
              && panicPayload == old(panicPayload).(holder := None,
                   content := if free then Some(RaisedBy(i, fault)) else old(panicPayload).content)
              && drops == if free then old(drops) else old(drops) + [PayloadOf(i)]
    {
      if LockPanicPayload(panicPayload).None? {
        panicPayload := panicPayload.(content := Some(RaisedBy(i, fault)));
      } else {
        drops := drops + [PayloadOf(i)];
      }
      panicPayload := panicPayload.(holder := None);
      stages := stages[i := Stage.Returned];
    }

    /** The dispatch of `task_wrapper` for index `i`. */
    method Dispatch(i: nat)
      requires Apart() && Shaped(tasks, Abs()) && i < |tasks| && TaskOk(tasks, Abs(), i)
      modifies this`stages, this`panicPayload, this`lockOrder, this`drops, crew, crew.front, crew.back, out, successful
      ensures Abs() == Step(tasks, old(Abs()), i)
    {
      match stages[i] {
        case Calling =>
          match crew.threads[i] {
            case Done(outcome) =>
              if outcome.Ok? { WriteSlot(i, outcome.value); } else { TryLock(i); }
            case _ => crew.RunStep(i);
          }
        case SlotWritten => SetFlag(i);
        case LockHeld => StorePayload(i, crew.threads[i].outcome.fault);
        case Returned =>
      }
    }

    /** One micro-step of `task_wrapper` for index `i`, anywhere in a run. */
    method TaskWrapperStep(i: nat, ghost cells: seq<V>)
      requires Valid(cells) && i < |tasks|
      modifies this, crew, crew.front, crew.back, out, successful
      ensures Valid(cells) && guardActive == old(guardActive)
      ensures Abs() == Step(tasks, old(Abs()), i)
    {
      StepInv(tasks, cells, None, Abs(), i);
      assert TaskOk(tasks, Abs(), i);
      Dispatch(i);
    }

    /** `drop_in_place` on one slot: reads it, so it must be initialised. */
    method DropInPlace(index: nat)
      requires index < out.Length && bufferOwned && out[index].Init?
      modifies out, this`drops
      ensures out[..] == old(out[..])[index := Uninit]
      ensures drops == old(drops) + [ResultOf(index)]
    {
      out[index] := Uninit;
      drops := drops + [ResultOf(index)];
    }

    /** `Vec::from_raw_parts(out_ptr, 0, capacity)`: frees the allocation only. */
    method FreeBuffer()
      requires bufferOwned
      modifies this`bufferOwned, this`drops
      ensures !bufferOwned && drops == old(drops) + [Buffer]
    {
      bufferOwned := false;
      drops := drops + [Buffer];
    }

    /** The cleanup loop: drops exactly the results behind set flags, in index
        order, and leaves no slot initialised. */
    method DropSuccessful()
      requires Apart() && bufferOwned && out.Length == successful.Length
      requires forall k :: 0 <= k < out.Length ==> (successful[k] <==> out[k].Init?)
      modifies out, this`drops
      ensures drops == old(drops) + Flagged(successful[..], 0)
      ensures forall k :: 0 <= k < out.Length ==> out[k].Uninit?
    {
      var index := 0;
      while index < out.Length
        invariant index <= out.Length
        invariant drops + Flagged(successful[..], index) == old(drops) + Flagged(successful[..], 0)
        invariant forall k :: 0 <= k < index ==> out[k].Uninit?
        invariant forall k :: index <= k < out.Length ==> (successful[k] <==> out[k].Init?)
      {
        if successful[index] {
          DropInPlace(index);
        }
        index := index + 1;
      }
    }

    /** `ExecutorDropGuard::drop`, run on every way out of the call. Armed, it
        needs the buffer still to be owned here; the driver disarms it before
        taking the buffer itself. */
    method DropGuard(ghost cells: seq<V>)
      requires guardActive ==> Valid(cells) && Quiescent(Abs())
      modifies out, this`drops, this`bufferOwned
      ensures guardActive ==> drops == old(drops) + Flagged(successful[..], 0) + [Buffer] && !bufferOwned
      ensures guardActive ==> forall k :: 0 <= k < out.Length ==> out[k].Uninit?
      ensures !guardActive ==> drops == old(drops) && bufferOwned == old(bufferOwned) && out[..] == old(out[..])
    {
      if guardActive {
        FlagsMarkSlots(cells);
        DropSuccessful();
        FreeBuffer();
      }
    }

    lemma FlagsMarkSlots(cells: seq<V>)
      requires Valid(cells) && Quiescent(Abs())
      ensures forall k :: 0 <= k < out.Length ==> (successful[k] <==> out[k].Init?)
    {
      ghost var s := Abs();
      forall k | 0 <= k < out.Length
        ensures successful[k] <==> out[k].Init?
      {
        assert TaskOk(tasks, s, k);
        assert successful[k] == s.flags[k] && out[k] == s.slots[k];
      }
    }

    /** Lines 198-226, after the executor has returned. */
    method Finish(ghost cells: seq<V>) returns (exit: Exit<R, P>)
      requires Valid(cells) && Complete(Abs())
      modifies this`guardActive, this`bufferOwned, this`drops, out
      ensures !guardActive && !bufferOwned
      ensures LockPanicPayload(old(Abs()).mutex).None? ==> AllInit(old(Abs()).slots)
      ensures Ending(exit, drops) == Conclude(old(Abs()))
    {
      ScheduleIndependence(tasks, cells, Abs());
      guardActive := false;
      match LockPanicPayload(panicPayload)
      case Some(raise) =>
        FlagsMarkSlots(cells);
        DropSuccessful();
        FreeBuffer();
        exit := Resumes(raise);
      case None =>
        var slots := out[..];
        exit := Returns(Contents(slots));
        bufferOwned := false;
    }

    /** The executor unwinds through `drive`: the guard runs, then the payload
        mutex is dropped with whatever it holds. */
    method Unwind(ghost cells: seq<V>)
      requires Valid(cells) && Quiescent(Abs()) && guardActive
      modifies this, out
      ensures !bufferOwned
      ensures Ending(ThroughExecutor, drops) == Abandon(old(Abs()))
    {
      DropGuard(cells);
      drops := drops + MutexItems(panicPayload);
    }

    /** The executor invokes the tasks in the order and interleaving `sched`. */
    method Execute(sched: seq<nat>, ghost cells: seq<V>)
      requires Valid(cells)
      modifies this, crew, crew.front, crew.back, out, successful
      ensures Valid(cells) && guardActive == old(guardActive)
      ensures Abs() == Exec(tasks, old(Abs()), sched)
    {
      var k := 0;
      while k < |sched|
        invariant k <= |sched| && Valid(cells) && guardActive == old(guardActive)
        invariant Exec(tasks, Abs(), sched[k..]) == Exec(tasks, old(Abs()), sched)
      {
        assert sched[k..][1..] == sched[k + 1..];
        if sched[k] < |tasks| {
          TaskWrapperStep(sched[k], cells);
        }
        k := k + 1;
      }
      assert sched[k..] == [];
    }
  }

  /** One call in progress on scoped threads. */
  class ScopedCall<V, R, P> {
    const tasks: seq<Task<V, R, P>>
    const crew: Crew<V, R, P>
    var caller: S.Caller<R, P>

    ghost function Abs(): S.State<V, R, P>
      reads this, crew, crew.front, crew.back
    {
      S.State(crew.Abs(), caller)
    }

    ghost predicate Valid(cells: seq<V>)
      reads this, crew, crew.front, crew.back
    {
      && crew.Apart() && crew.tasks == tasks
      && this as object !in {crew.front as object, crew.back as object, crew as object}
      && S.Inv(tasks, cells, Abs())
    }

    constructor (front: array<V>, back: array<V>, tasks: seq<Task<V, R, P>>)
      requires front != back && |tasks| >= 1 && WellTiled(tasks, front.Length + back.Length)
      ensures this.tasks == tasks && crew.front == front && crew.back == back && fresh(crew)
      ensures Valid(front[..] + back[..])
      ensures Abs() == S.Begin(tasks, front[..] + back[..])
    {
      this.tasks := tasks;
      crew := new Crew(front, back, tasks);
      caller := if |tasks| == 1 then S.Inline else S.Spawning(0);
      new;
      S.BeginInv(tasks, front[..] + back[..]);
    }

    /** The calling thread: spawn, run the last task inline, join in order. */
    method CallerStep()
      requires |tasks| >= 1 && crew.Apart() && crew.tasks == tasks && Fits(tasks, crew.Abs())
      requires this as object !in {crew.front as object, crew.back as object, crew as object}
      modifies this, crew, crew.front, crew.back
      ensures Abs() == S.Step(tasks, old(Abs()), |tasks| - 1)
    {
      var last := |tasks| - 1;
      match caller
      case Spawning(k) => caller := if k < last then S.Spawning(k + 1) else S.Inline;
      case Inline =>
        if !crew.threads[last].Done? {
          crew.RunStep(last);
        } else {
          match crew.threads[last].outcome
          case Ok(v) => caller := S.Joining([], v);
          case Panicked(fault) => caller := S.Unwinding(fault);
        }
      case Joining(results, v) =>
        if |results| >= last {
          caller := S.Left(S.Returns(results + [v]));
        } else if crew.threads[|results|].Done? {
          match crew.threads[|results|].outcome
          case Ok(r) => caller := S.Joining(results + [r], v);
          case Panicked(fault) => caller := S.Unwinding(fault);
        }
      case Unwinding(fault) =>
        if forall i :: 0 <= i < |crew.threads| ==> crew.threads[i].Done? {
          caller := S.Left(S.Resumes(fault));
        }
      case Left(_) =>
    }

    method Execute(sched: seq<nat>, ghost cells: seq<V>)
      requires Valid(cells)
      modifies this, crew, crew.front, crew.back
      ensures Valid(cells) && Abs() == S.Exec(tasks, old(Abs()), sched)
    {
      var k := 0;
      while k < |sched|
        invariant k <= |sched| && Valid(cells)
        invariant S.Exec(tasks, Abs(), sched[k..]) == S.Exec(tasks, old(Abs()), sched)
      {
        assert sched[k..][1..] == sched[k + 1..];
        var i := sched[k];
        if i < |tasks| {
          S.StepInv(tasks, cells, Abs(), i);
          if i == |tasks| - 1 {
            CallerStep();
          } else if S.Spawned(caller, i) {
            crew.RunStep(i);
          }
        }
        k := k + 1;
      }
      assert sched[k..] == [];
    }
  }

  /** `drive` with a registered executor. `sched` is whatever the executor does:
      if it returns it must have completed every task, if it unwinds no task may
      be under way (its contract, src/sync/scoped/partition/executor.rs:73-83). */
  method DriveOnExecutor<V, R, P>(front: array<V>, back: array<V>, tasks: seq<Task<V, R, P>>, sched: seq<nat>, unwinds: bool)
    returns (exit: Exit<R, P>, ghost drops: seq<Item>)
    requires front != back && |tasks| >= 1 && WellTiled(tasks, front.Length + back.Length)
    requires var s := Exec(tasks, Begin(tasks, front[..] + back[..], None, false), sched);
             if unwinds then Quiescent(s) else Complete(s)
    modifies front, back
    ensures var s := Exec(tasks, Begin(tasks, old(front[..] + back[..]), None, false), sched);
            && front[..] + back[..] == s.pool.cells
            && Inv(tasks, old(front[..] + back[..]), None, s)
            && (!unwinds && LockPanicPayload(s.mutex).None? ==> AllInit(s.slots))
            && Ending(exit, drops) == (if unwinds then Abandon(s) else Conclude(s))
  {
    ghost var cells := front[..] + back[..];
    var call := new ExecutorCall<V, R, P>(front, back, tasks);
    call.Execute(sched, cells);
    if unwinds {
      call.Unwind(cells);
      exit := ThroughExecutor;
    } else {
      exit := call.Finish(cells);
      call.DropGuard(cells);
    }
    drops := call.drops;
  }

  /** `drive` without a registered executor. */
  method DriveOnThreads<V, R, P>(front: array<V>, back: array<V>, tasks: seq<Task<V, R, P>>, sched: seq<nat>)
    returns (exit: S.Exit<R, P>)
    requires front != back && |tasks| >= 1 && WellTiled(tasks, front.Length + back.Length)
    requires S.Exec(tasks, S.Begin(tasks, front[..] + back[..]), sched).caller.Left?
    modifies front, back
    ensures var s := S.Exec(tasks, S.Begin(tasks, old(front[..] + back[..])), sched);
            && front[..] + back[..] == s.pool.cells
            && S.Inv(tasks, old(front[..] + back[..]), s)
            && s.caller == S.Left(exit)
  {
    ghost var cells := front[..] + back[..];
    var call := new ScopedCall<V, R, P>(front, back, tasks);
    call.Execute(sched, cells);
    exit := call.caller.exit;
  }

  /** The driver in the slot runs `sched` to the end of the call. Only an executor
      can unwind, and then between invocations. */
  ghost predicate RunsToEnd<V, R, P>(job: Job<V, R, P>, registered: Option<nat>, sched: seq<nat>, unwinds: bool)
    requires JobOk(job)
  {
    match registered
    case Some(_) =>
      var s := Exec(job.tasks, Begin(job.tasks, job.cells, None, false), sched);
      if unwinds then Quiescent(s) else Complete(s)
    case None => !unwinds && S.Exec(job.tasks, S.Begin(job.tasks, job.cells), sched).caller.Left?
  }

  /** Every fair scheduler that goes on long enough runs to the end. */
  lemma FairRunsToEnd<V, R, P>(job: Job<V, R, P>, registered: Option<nat>, rounds: seq<seq<nat>>)
    requires JobOk(job) && AllHalt(job.tasks, job.cells) && Fair(rounds, |job.tasks|)
    requires CallOk(job, Load(job, registered)) && |rounds| >= CallWork(job, Load(job, registered))
    ensures RunsToEnd(job, registered, Flatten(rounds), false)
  {
    FairCallCompletes(job, Load(job, registered), rounds);
    MoveAllIsExec(job, Load(job, registered), Flatten(rounds));
  }

  /** The executor branch as a caller sees it; `None` when the executor unwinds. */
  method DriveRegistered<V, R, P>(front: array<V>, back: array<V>, tasks: seq<Task<V, R, P>>, id: nat, sched: seq<nat>, unwinds: bool)
    returns (result: Option<Result<R, P>>, ghost drops: seq<Item>)
    requires front != back && |tasks| >= 1 && WellTiled(tasks, front.Length + back.Length)
    requires RunsToEnd(Job(tasks, front[..] + back[..]), Some(id), sched, unwinds)
    modifies front, back
    ensures result.None? <==> unwinds
    ensures !unwinds ==> Meets(Job(tasks, old(front[..] + back[..])), Some(id), front[..] + back[..], result.value)
    ensures unwinds ==> exists finished :: Abandoned(tasks, old(front[..] + back[..]), finished, front[..] + back[..], drops)
  {
    ghost var job := Job(tasks, front[..] + back[..]);
    var exit;
    exit, drops := DriveOnExecutor(front, back, tasks, sched, unwinds);
    ghost var s := Exec(tasks, Begin(tasks, job.cells, None, false), sched);
    if unwinds {
      UnwindingLeaves(tasks, job.cells, s);
      result := None;
    } else {
      ScheduleIndependence(tasks, job.cells, s);
      match exit {
        case Returns(values) => result := Some(Vector(values));
        case Resumes(raise) => result := Some(Raised(raise.fault));
      }
      DriveOutcome(job, OnExecutor(id, s), front[..] + back[..], result.value);
    }
  }

  /** `drive`, on whichever driver the registry holds: a vector, a panic raised to
      the caller, or an unwinding executor passed through. */
  method Drive<V, R, P>(front: array<V>, back: array<V>, tasks: seq<Task<V, R, P>>, registered: Option<nat>, sched: seq<nat>, unwinds: bool)
    returns (result: Option<Result<R, P>>, ghost drops: seq<Item>)
    requires front != back && |tasks| >= 1 && WellTiled(tasks, front.Length + back.Length)
    requires RunsToEnd(Job(tasks, front[..] + back[..]), registered, sched, unwinds)
    modifies front, back
    ensures result.None? <==> unwinds
    ensures !unwinds ==> Meets(Job(tasks, old(front[..] + back[..])), registered, front[..] + back[..], result.value)
    ensures unwinds ==> exists finished :: Abandoned(tasks, old(front[..] + back[..]), finished, front[..] + back[..], drops)
  {
    match registered
    case Some(id) =>
      result, drops := DriveRegistered(front, back, tasks, id, sched, unwinds);
    case None =>
      ghost var job := Job(tasks, front[..] + back[..]);
      var exit := DriveOnThreads(front, back, tasks, sched);
      ghost var s := S.Exec(tasks, S.Begin(tasks, job.cells), sched);
      match exit {
        case Returns(values) => result := Some(Vector(values));
        case Resumes(fault) => result := Some(Raised(fault));
      }
      drops := [];
      DriveOutcome(job, OnThreads(s), front[..] + back[..], result.value);
  }
}
