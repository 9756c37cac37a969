/** The scoped-thread path of `drive` (src/sync/scoped/partition/driver_core.rs:229-251).

    The calling thread spawns one thread for each index but the last, runs the
    last inline, joins the others in order and leaves the scope once every
    spawned thread has ended. */
module Scoped {
  import opened Base
  import opened Workers

  /** What the caller gets back. */
  datatype Exit<R, P> = Returns(values: seq<R>) | Resumes(fault: Fault<P>)

  datatype Caller<R, P> =
    | Spawning(spawned: nat)
    | Inline
    | Joining(results: seq<R>, last: R)
    | Unwinding(fault: Fault<P>)
    | Left(exit: Exit<R, P>)

  /** Threads `0..n-1` are the spawned ones, the last entry is the inline run. */
  datatype State<!V, R, P> = State(pool: Pool<V, R, P>, caller: Caller<R, P>)

  function Begin<V, R, P>(tasks: seq<Task<V, R, P>>, cells: seq<V>): State<V, R, P> {
    State(Start(tasks, cells), if |tasks| == 1 then Inline else Spawning(0))
  }

  predicate Spawned<R, P>(caller: Caller<R, P>, i: nat) {
    caller.Spawning? ==> i < caller.spawned
  }

  /** A step of index `i`: a spawned thread below the last index, the caller at it. */
  ghost function Step<V, R, P>(tasks: seq<Task<V, R, P>>, s: State<V, R, P>, i: nat): (s': State<V, R, P>)
    requires Fits(tasks, s.pool) && i < |tasks|
    ensures Fits(tasks, s'.pool)
  {
    var last := |tasks| - 1;
    if i < last then
      if Spawned(s.caller, i) then s.(pool := Advance(tasks, s.pool, i)) else s
    else
      match s.caller
      case Spawning(k) => s.(caller := if k < last then Spawning(k + 1) else Inline)
      case Inline => (
        match s.pool.threads[last]
        case Done(Ok(v)) => s.(caller := Joining([], v))
        case Done(Panicked(fault)) => s.(caller := Unwinding(fault))
        case _ => s.(pool := Advance(tasks, s.pool, last)))
      case Joining(results, v) =>
        if |results| < last then (
          match s.pool.threads[|results|]
          case Done(Ok(r)) => s.(caller := Joining(results + [r], v))
          case Done(Panicked(fault)) => s.(caller := Unwinding(fault))
          case _ => s)
        else s.(caller := Left(Returns(results + [v])))
      case Unwinding(fault) => if AllDone(s.pool) then s.(caller := Left(Resumes(fault))) else s
      case Left(_) => s
  }

  ghost function Exec<V, R, P>(tasks: seq<Task<V, R, P>>, s: State<V, R, P>, sched: seq<nat>): (s': State<V, R, P>)
    requires Fits(tasks, s.pool)
    ensures Fits(tasks, s'.pool)
    decreases |sched|
  {
    if sched == [] then s
    else Exec(tasks, if sched[0] < |tasks| then Step(tasks, s, sched[0]) else s, sched[1..])
  }

  /** The fault the caller re-raises: the inline task's if it panicked, otherwise
      that of the lowest panicking index, which is the first to be joined. */
  ghost predicate Raises<R, P>(outcomes: seq<Outcome<R, P>>, fault: Fault<P>) {
    var last := |outcomes| - 1;
    outcomes != [] &&
    if outcomes[last].Panicked? then fault == outcomes[last].fault
    else exists i ::
      && 0 <= i < last && outcomes[i] == Panicked(fault)
      && (forall j :: 0 <= j < i ==> outcomes[j].Ok?)
  }

  /** Task `i` has ended with outcome `o`. */
  ghost predicate Ended<V, R, P>(s: Pool<V, R, P>, i: nat, o: Outcome<R, P>) {
    i < |s.threads| && s.threads[i] == Done(o)
  }

  ghost predicate WillRaise<V, R, P>(s: Pool<V, R, P>, fault: Fault<P>) {
    var last := |s.threads| - 1;
    last >= 0 &&
    (Ended(s, last, Panicked(fault)) ||
     (s.threads[last].Done? && s.threads[last].outcome.Ok? &&
      exists i :: 0 <= i < last && Ended(s, i, Panicked(fault))
                  && (forall j :: 0 <= j < i ==> s.threads[j].Done? && s.threads[j].outcome.Ok?)))
  }

  /** What the caller knows: a thread it has not spawned yet has not begun, what it
      has joined are the results of the first threads in order, and a fault it is
      unwinding with is the one to be raised. */
  ghost predicate CallerOk<V, R, P>(s: State<V, R, P>) {
    var last := |s.pool.threads| - 1;
    last >= 0 &&
    match s.caller
    case Spawning(k) => k <= last && forall i :: k <= i <= last ==> s.pool.threads[i].Idle?
    case Inline => true
    case Joining(results, v) =>
      && |results| <= last && Ended(s.pool, last, Ok(v))
      && (forall j :: 0 <= j < |results| ==> Ended(s.pool, j, Ok(results[j])))
    case Unwinding(fault) => WillRaise(s.pool, fault)
    case Left(Returns(values)) =>
      && |values| == |s.pool.threads|
      && (forall j :: 0 <= j < |values| ==> Ended(s.pool, j, Ok(values[j])))
    case Left(Resumes(fault)) => AllDone(s.pool) && WillRaise(s.pool, fault)
  }

  ghost predicate Inv<V, R, P>(tasks: seq<Task<V, R, P>>, cells: seq<V>, s: State<V, R, P>) {
    OnTrack(tasks, cells, s.pool) && CallerOk(s)
  }

  lemma BeginInv<V, R, P>(tasks: seq<Task<V, R, P>>, cells: seq<V>)
    requires |tasks| >= 1 && WellTiled(tasks, |cells|)
    ensures Inv(tasks, cells, Begin(tasks, cells))
  {
    StartOnTrack(tasks, cells);
  }

  lemma WillRaiseStays<V, R, P>(tasks: seq<Task<V, R, P>>, s: Pool<V, R, P>, i: nat, fault: Fault<P>)
    requires Fits(tasks, s) && i < |tasks| && WillRaise(s, fault)
    ensures WillRaise(Advance(tasks, s, i), fault)
  {
    var s' := Advance(tasks, s, i);
    var last := |s.threads| - 1;
    if !Ended(s, last, Panicked(fault)) {
      var k :| 0 <= k < last && Ended(s, k, Panicked(fault))
               && (forall j :: 0 <= j < k ==> s.threads[j].Done? && s.threads[j].outcome.Ok?);
      assert Ended(s', k, Panicked(fault));
    }
  }

  /** A program step of any task keeps what the caller has recorded. */
  lemma AdvanceCallerOk<V, R, P>(tasks: seq<Task<V, R, P>>, s: State<V, R, P>, i: nat)
    requires Fits(tasks, s.pool) && CallerOk(s) && i < |tasks| && Spawned(s.caller, i)
    ensures CallerOk(s.(pool := Advance(tasks, s.pool, i)))
  {
    if s.caller.Unwinding? || (s.caller.Left? && s.caller.exit.Resumes?) {
      var fault := if s.caller.Unwinding? then s.caller.fault else s.caller.exit.fault;
      WillRaiseStays(tasks, s.pool, i, fault);
    }
  }

  /** A step of the caller that is not part of its inline task. */
  lemma CallerStepOk<V, R, P>(tasks: seq<Task<V, R, P>>, s: State<V, R, P>)
    requires Fits(tasks, s.pool) && CallerOk(s)
    requires Step(tasks, s, |tasks| - 1).pool == s.pool
    ensures CallerOk(Step(tasks, s, |tasks| - 1))
  {
    if s.caller.Joining? && |s.caller.results| < |tasks| - 1 && Step(tasks, s, |tasks| - 1).caller.Unwinding? {
      var k := |s.caller.results|;
      assert Ended(s.pool, k, Panicked(s.pool.threads[k].outcome.fault));
      forall j | 0 <= j < k
        ensures s.pool.threads[j].Done? && s.pool.threads[j].outcome.Ok?
      {
        assert Ended(s.pool, j, Ok(s.caller.results[j]));
      }
    }
  }

  lemma StepCallerOk<V, R, P>(tasks: seq<Task<V, R, P>>, s: State<V, R, P>, i: nat)
    requires Fits(tasks, s.pool) && CallerOk(s) && i < |tasks|
    ensures CallerOk(Step(tasks, s, i))
  {
    if Step(tasks, s, i).pool == s.pool {
      if i == |tasks| - 1 { CallerStepOk(tasks, s); }
    } else {
      StepPool(tasks, s, i);
      AdvanceCallerOk(tasks, s, i);
    }
  }

  /** A step either lets the task's program take one, or moves the caller only. */
  lemma StepPool<V, R, P>(tasks: seq<Task<V, R, P>>, s: State<V, R, P>, i: nat)
    requires Fits(tasks, s.pool) && i < |tasks|
    ensures var s' := Step(tasks, s, i);
            s'.pool == s.pool || s' == s.(pool := Advance(tasks, s.pool, i))
  {
  }

  lemma StepInv<V, R, P>(tasks: seq<Task<V, R, P>>, cells: seq<V>, s: State<V, R, P>, i: nat)
    requires Inv(tasks, cells, s) && i < |tasks|
    ensures Inv(tasks, cells, Step(tasks, s, i))
  {
    AdvanceOnTrack(tasks, cells, s.pool, i);
    StepPool(tasks, s, i);
    StepCallerOk(tasks, s, i);
  }

  lemma {:induction false} Reachable<V, R, P>(tasks: seq<Task<V, R, P>>, cells: seq<V>, s: State<V, R, P>, sched: seq<nat>)
    requires Inv(tasks, cells, s)
    ensures Inv(tasks, cells, Exec(tasks, s, sched))
    decreases |sched|
  {
    if sched != [] {
      if sched[0] < |tasks| {
        StepInv(tasks, cells, s, sched[0]);
        Reachable(tasks, cells, Step(tasks, s, sched[0]), sched[1..]);
      } else {
        Reachable(tasks, cells, s, sched[1..]);
      }
    }
  }

  /** However the threads were interleaved, once the caller has left the scope the
      region is the one the left-to-right run leaves, and the exit is settled by
      that run's outcomes alone: its results in index order, or the fault picked
      by join order. */
  lemma ScopedOutcome<V, R, P>(tasks: seq<Task<V, R, P>>, cells: seq<V>, s: State<V, R, P>)
    requires Inv(tasks, cells, s) && s.caller.Left?
    ensures AllDone(s.pool)
    ensures OneByOne(tasks, cells) == Some((s.pool.cells, Outcomes(s.pool)))
    ensures var outcomes := Outcomes(s.pool);
            if PanicFree(outcomes) then s.caller.exit == Returns(Values(outcomes))
            else s.caller.exit.Resumes? && Raises(outcomes, s.caller.exit.fault)
  {
    if s.caller.exit.Returns? {
      forall j | 0 <= j < |s.pool.threads|
        ensures s.pool.threads[j] == Done(Ok(s.caller.exit.values[j]))
      {
        assert Ended(s.pool, j, Ok(s.caller.exit.values[j]));
      }
    }
    Serializable(tasks, cells, s.pool);
    var outcomes := Outcomes(s.pool);
    if s.caller.exit.Returns? {
      assert Values(outcomes) == s.caller.exit.values;
    } else {
      var fault := s.caller.exit.fault;
      var last := |outcomes| - 1;
      if !Ended(s.pool, last, Panicked(fault)) {
        var k :| 0 <= k < last && Ended(s.pool, k, Panicked(fault))
                 && (forall j :: 0 <= j < k ==> s.pool.threads[j].Done? && s.pool.threads[j].outcome.Ok?);
        assert !outcomes[k].Ok? && outcomes[k] == Panicked(fault);
      } else {
        assert !outcomes[last].Ok?;
      }
    }
  }

  /** While a task runs for ever the caller never leaves the scope. */
  lemma EndlessTaskNeverReturns<V, R, P>(tasks: seq<Task<V, R, P>>, cells: seq<V>, sched: seq<nat>, i: nat)
    requires WellTiled(tasks, |cells|) && i < |tasks| && Expected(tasks, cells, i).None?
    ensures !Exec(tasks, Begin(tasks, cells), sched).caller.Left?
  {
    var s := Exec(tasks, Begin(tasks, cells), sched);
    BeginInv(tasks, cells);
    Reachable(tasks, cells, Begin(tasks, cells), sched);
    if s.caller.Left? {
      ScopedOutcome(tasks, cells, s);
      DoneIsExpected(tasks, cells, s.pool, i);
    }
  }

  // ------------------------------------------------------------- progress

  ghost function CallerLeft<R, P>(n: nat, caller: Caller<R, P>): nat
    requires n >= 1
  {
    match caller
    case Spawning(k) => if k <= n - 1 then 2 * n + 3 - k else 0
    case Inline => n + 3
    case Joining(results, _) => if |results| <= n - 1 then n + 1 - |results| else 0
    case Unwinding(_) => 1
    case Left(_) => 0
  }

  ghost function PoolWork<V, R, P>(tasks: seq<Task<V, R, P>>, s: Pool<V, R, P>, n: nat): nat
    requires Fits(tasks, s) && n <= |tasks|
  {
    if n == 0 then 0 else TaskWork(tasks, s, n - 1) + PoolWork(tasks, s, n - 1)
  }

  ghost function Work<V, R, P>(tasks: seq<Task<V, R, P>>, s: State<V, R, P>): nat
    requires Fits(tasks, s.pool) && |tasks| >= 1
  {
    PoolWork(tasks, s.pool, |tasks|) + CallerLeft(|tasks|, s.caller)
  }

  lemma {:induction false} PoolWorkFalls<V, R, P>(tasks: seq<Task<V, R, P>>, cells: seq<V>, s: Pool<V, R, P>, i: nat, n: nat)
    requires OnTrack(tasks, cells, s) && AllHalt(tasks, cells) && i < |tasks| && n <= |tasks|
    ensures Fits(tasks, Advance(tasks, s, i))
    ensures PoolWork(tasks, Advance(tasks, s, i), n) == PoolWork(tasks, s, n) - if i < n && !s.threads[i].Done? then 1 else 0
  {
    AdvanceFrame(tasks, s, i);
    if n > 0 {
      AdvanceWork(tasks, cells, s, i, n - 1);
      PoolWorkFalls(tasks, cells, s, i, n - 1);
    }
  }

  lemma StepWork<V, R, P>(tasks: seq<Task<V, R, P>>, cells: seq<V>, s: State<V, R, P>, i: nat)
    requires Inv(tasks, cells, s) && AllHalt(tasks, cells) && i < |tasks|
    ensures Step(tasks, s, i) == s || Work(tasks, Step(tasks, s, i)) < Work(tasks, s)
  {
    PoolWorkFalls(tasks, cells, s.pool, i, |tasks|);
  }

  /** No deadlock: until the caller has left, some index can move. */
  lemma SomeoneMoves<V, R, P>(tasks: seq<Task<V, R, P>>, cells: seq<V>, s: State<V, R, P>) returns (i: nat)
    requires Inv(tasks, cells, s) && AllHalt(tasks, cells) && !s.caller.Left?
    ensures i < |tasks| && Step(tasks, s, i) != s
  {
    i := |tasks| - 1;
    if s.caller.Joining? && |s.caller.results| < |tasks| - 1 && !s.pool.threads[|s.caller.results|].Done? {
      i := |s.caller.results|;
    } else if s.caller.Unwinding? && !AllDone(s.pool) {
      i :| 0 <= i < |s.pool.threads| && !s.pool.threads[i].Done?;
    }
    if !s.pool.threads[i].Done? && !s.caller.Spawning? {
      AdvanceMoves(tasks, cells, s.pool, i);
      assert Step(tasks, s, i).pool != s.pool;
    } else {
      assert Step(tasks, s, i).caller != s.caller;
    }
  }

  /** The caller spawns one thread at a time, all of them before it runs its own task. */
  lemma {:induction false} SpawnsFirst<V, R, P>(tasks: seq<Task<V, R, P>>, cells: seq<V>, k: nat)
    requires WellTiled(tasks, |cells|) && k < |tasks| && |tasks| > 1
    ensures Exec(tasks, Begin(tasks, cells), seq(k, _ => |tasks| - 1)) == Begin(tasks, cells).(caller := Spawning(k))
    ensures k == |tasks| - 1 ==> Step(tasks, Exec(tasks, Begin(tasks, cells), seq(k, _ => |tasks| - 1)), k).caller == Inline
  {
    if k > 0 {
      var last := |tasks| - 1;
      SpawnsFirst(tasks, cells, k - 1);
      assert seq(k, _ => last) == seq(k - 1, _ => last) + [last];
      ExecConcat(tasks, Begin(tasks, cells), seq(k - 1, _ => last), [last]);
    }
  }

  /** A round in which a movable index gets its turn does some work. */
  lemma {:induction false} RoundWorks<V, R, P>(tasks: seq<Task<V, R, P>>, cells: seq<V>, s: State<V, R, P>, round: seq<nat>)
    requires Inv(tasks, cells, s) && AllHalt(tasks, cells)
    ensures Work(tasks, Exec(tasks, s, round)) <= Work(tasks, s)
    ensures (exists i :: 0 <= i < |tasks| && i in round && Step(tasks, s, i) != s) ==>
              Work(tasks, Exec(tasks, s, round)) < Work(tasks, s)
    decreases |round|
  {
    if round != [] {
      var i := round[0];
      if i < |tasks| {
        StepInv(tasks, cells, s, i);
        StepWork(tasks, cells, s, i);
        RoundWorks(tasks, cells, Step(tasks, s, i), round[1..]);
      } else {
        RoundWorks(tasks, cells, s, round[1..]);
      }
    }
  }

  ghost function ExecRounds<V, R, P>(tasks: seq<Task<V, R, P>>, s: State<V, R, P>, rounds: seq<seq<nat>>): (s': State<V, R, P>)
    requires Fits(tasks, s.pool)
    ensures Fits(tasks, s'.pool)
    decreases |rounds|
  {
    if rounds == [] then s else ExecRounds(tasks, Exec(tasks, s, rounds[0]), rounds[1..])
  }

  lemma {:induction false} ExecConcat<V, R, P>(tasks: seq<Task<V, R, P>>, s: State<V, R, P>, a: seq<nat>, b: seq<nat>)
    requires Fits(tasks, s.pool)
    ensures Exec(tasks, s, a + b) == Exec(tasks, Exec(tasks, s, a), b)
    decreases |a|
  {
    if a == [] {
      assert a + b == b;
    } else {
      assert (a + b)[1..] == a[1..] + b;
      ExecConcat(tasks, if a[0] < |tasks| then Step(tasks, s, a[0]) else s, a[1..], b);
    }
  }

  lemma {:induction false} RoundsFlatten<V, R, P>(tasks: seq<Task<V, R, P>>, s: State<V, R, P>, rounds: seq<seq<nat>>)
    requires Fits(tasks, s.pool)
    ensures ExecRounds(tasks, s, rounds) == Exec(tasks, s, Flatten(rounds))
    decreases |rounds|
  {
    if rounds != [] {
      ExecConcat(tasks, s, rounds[0], Flatten(rounds[1..]));
      RoundsFlatten(tasks, Exec(tasks, s, rounds[0]), rounds[1..]);
    }
  }

  lemma {:induction false} LeftStays<V, R, P>(tasks: seq<Task<V, R, P>>, s: State<V, R, P>, sched: seq<nat>)
    requires Fits(tasks, s.pool) && s.caller.Left?
    ensures Exec(tasks, s, sched).caller == s.caller
    decreases |sched|
  {
    if sched != [] {
      LeftStays(tasks, if sched[0] < |tasks| then Step(tasks, s, sched[0]) else s, sched[1..]);
    }
  }

  lemma {:induction false} LeftStaysRounds<V, R, P>(tasks: seq<Task<V, R, P>>, s: State<V, R, P>, rounds: seq<seq<nat>>)
    requires Fits(tasks, s.pool) && s.caller.Left?
    ensures ExecRounds(tasks, s, rounds).caller == s.caller
    decreases |rounds|
  {
    if rounds != [] {
      LeftStays(tasks, s, rounds[0]);
      LeftStaysRounds(tasks, Exec(tasks, s, rounds[0]), rounds[1..]);
    }
  }

  /** Every fair run finishes: given as many rounds as there is work, each giving
      every thread a turn in whatever order, the caller leaves the scope. */
  lemma {:induction false} FairRunCompletes<V, R, P>(tasks: seq<Task<V, R, P>>, cells: seq<V>, s: State<V, R, P>, rounds: seq<seq<nat>>)
    requires Inv(tasks, cells, s) && AllHalt(tasks, cells)
    requires Fair(rounds, |tasks|) && |rounds| >= Work(tasks, s)
    ensures ExecRounds(tasks, s, rounds).caller.Left?
    decreases |rounds|
  {
    if s.caller.Left? {
      LeftStaysRounds(tasks, s, rounds);
    } else {
      var i := SomeoneMoves(tasks, cells, s);
      StepWork(tasks, cells, s, i);
      assert i in rounds[0];
      RoundWorks(tasks, cells, s, rounds[0]);
      Reachable(tasks, cells, s, rounds[0]);
      FairRunCompletes(tasks, cells, Exec(tasks, s, rounds[0]), rounds[1..]);
    }
  }
}
