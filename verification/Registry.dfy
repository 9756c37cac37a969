/** `drive` as a whole: one call picks its driver when it loads the registry
    (src/sync/scoped/partition/executor.rs:209-270) and stays on it while other
    threads register, clear and call concurrently. */
module Registry {
  import opened Base
  import opened Workers
  import P = Protocol
  import S = Scoped

  /** What the caller of `drive` observes, whichever driver ran. */
  datatype Result<R, E> = Vector(values: seq<R>) | Raised(fault: Fault<E>)

  /** The tasks of one call and the region they were cut from. */
  datatype Job<!V, R, E> = Job(tasks: seq<Task<V, R, E>>, cells: seq<V>)

  ghost predicate JobOk<V, R, E>(job: Job<V, R, E>) {
    |job.tasks| >= 1 && WellTiled(job.tasks, |job.cells|)
  }

  datatype Call<!V, R, E> =
    | Waiting
    | OnExecutor(id: nat, protocol: P.State<V, R, E>)
    | OnThreads(scoped: S.State<V, R, E>)

  /** Which driver a call runs on: a registered executor, or scoped threads. */
  ghost function DriverOf<V, R, E>(call: Call<V, R, E>): Option<nat>
    requires !call.Waiting?
  {
    match call case OnExecutor(id, _) => Some(id) case OnThreads(_) => None
  }

  /** `drive` loads the slot once, at its start. */
  ghost function Load<V, R, E>(job: Job<V, R, E>, slot: Option<nat>): Call<V, R, E> {
    match slot
    case Some(id) => OnExecutor(id, P.Begin(job.tasks, job.cells, None, false))
    case None => OnThreads(S.Begin(job.tasks, job.cells))
  }

  ghost predicate CallOk<V, R, E>(job: Job<V, R, E>, call: Call<V, R, E>) {
    match call
    case Waiting => true
    case OnExecutor(_, s) => P.Inv(job.tasks, job.cells, None, s)
    case OnThreads(s) => S.Inv(job.tasks, job.cells, s)
  }

  /** One micro-step inside a call. */
  ghost function Move<V, R, E>(job: Job<V, R, E>, call: Call<V, R, E>, i: nat): (r: Call<V, R, E>)
    requires JobOk(job) && CallOk(job, call) && !call.Waiting?
    ensures CallOk(job, r) && !r.Waiting? && DriverOf(r) == DriverOf(call)
  {
    if i >= |job.tasks| then call
    else
      match call
      case OnExecutor(id, s) =>
        P.StepInv(job.tasks, job.cells, None, s, i);
        OnExecutor(id, P.Step(job.tasks, s, i))
      case OnThreads(s) =>
        S.StepInv(job.tasks, job.cells, s, i);
        OnThreads(S.Step(job.tasks, s, i))
  }

  ghost function MoveAll<V, R, E>(job: Job<V, R, E>, call: Call<V, R, E>, sched: seq<nat>): (r: Call<V, R, E>)
    requires JobOk(job) && CallOk(job, call) && !call.Waiting?
    ensures CallOk(job, r) && !r.Waiting? && DriverOf(r) == DriverOf(call)
    decreases |sched|
  {
    if sched == [] then call else MoveAll(job, Move(job, call, sched[0]), sched[1..])
  }

  lemma LoadOk<V, R, E>(job: Job<V, R, E>, slot: Option<nat>)
    requires JobOk(job)
    ensures CallOk(job, Load(job, slot)) && !Load(job, slot).Waiting? && DriverOf(Load(job, slot)) == slot
  {
    P.BeginInv(job.tasks, job.cells, None, false);
    S.BeginInv(job.tasks, job.cells);
  }

  /** A finished call: its final region and what it returned or raised. */
  ghost predicate Finished<V, R, E>(call: Call<V, R, E>, cells: seq<V>, result: Result<R, E>) {
    match call
    case Waiting => false
    case OnExecutor(_, s) =>
      && P.Complete(s) && s.pool.cells == cells
      && (match P.LockPanicPayload(s.mutex)
          case None => P.AllInit(s.slots) && result == Vector(P.Contents(s.slots))
          case Some(raise) => result == Raised(raise.fault))
    case OnThreads(s) =>
      && s.caller.Left? && s.pool.cells == cells
      && (match s.caller.exit
          case Returns(values) => result == Vector(values)
          case Resumes(fault) => result == Raised(fault))
  }

  /** Whatever driver and schedule, a finished call has left the region of the
      left-to-right run, returned its results in order if nothing panicked, and
      otherwise raised some task's panic: the first to take the payload lock on an
      executor, the one picked by join order on scoped threads. */
  lemma DriveOutcome<V, R, E>(job: Job<V, R, E>, call: Call<V, R, E>, cells: seq<V>, result: Result<R, E>)
    requires JobOk(job) && CallOk(job, call) && Finished(call, cells, result)
    ensures OneByOne(job.tasks, job.cells).Some? && OneByOne(job.tasks, job.cells).value.0 == cells
    ensures var outcomes := OneByOne(job.tasks, job.cells).value.1;
            if PanicFree(outcomes) then result == Vector(Values(outcomes))
            else
              && result.Raised?
              && (call.OnThreads? ==> S.Raises(outcomes, result.fault))
              && (call.OnExecutor? ==>
                    && call.protocol.lockOrder != [] && call.protocol.lockOrder[0] < |outcomes|
                    && outcomes[call.protocol.lockOrder[0]] == Panicked(result.fault))
    ensures Meets(job, DriverOf(call), cells, result)
  {
    match call
    case OnExecutor(_, s) => P.ScheduleIndependence(job.tasks, job.cells, s);
    case OnThreads(s) =>
      S.ScopedOutcome(job.tasks, job.cells, s);
    case Waiting =>
  }

  /** What a caller of `drive` may rely on, knowing only which driver ran. */
  ghost predicate Meets<V, R, E>(job: Job<V, R, E>, registered: Option<nat>, cells: seq<V>, result: Result<R, E>)
    requires JobOk(job)
  {
    var reference := OneByOne(job.tasks, job.cells);
    && reference.Some?
    && cells == reference.value.0
    && var outcomes := reference.value.1;
       if PanicFree(outcomes) then result == Vector(Values(outcomes))
       else
         && result.Raised?
         && (registered.None? ==> S.Raises(outcomes, result.fault))
         && (exists i :: 0 <= i < |outcomes| && outcomes[i] == Panicked(result.fault))
  }

  /** How a partition call ends for its caller: with nothing to run it returns an
      empty vector without calling `drive`; otherwise `drive` has finished on the
      driver in the slot. */
  ghost predicate Ends<V, R, E>(job: Job<V, R, E>, registered: Option<nat>, call: Call<V, R, E>, cells: seq<V>, result: Result<R, E>) {
    if job.tasks == [] then cells == job.cells && result == Vector([])
    else CallOk(job, call) && Finished(call, cells, result) && DriverOf(call) == registered
  }

  /** A raised fault is what some task's own closure ends with when run alone. */
  lemma RaisedBySomeTask<V, R, E>(job: Job<V, R, E>, registered: Option<nat>, cells: seq<V>, result: Result<R, E>) returns (i: nat)
    requires JobOk(job) && Meets(job, registered, cells, result) && result.Raised?
    ensures i < |job.tasks| && Expected(job.tasks, job.cells, i).Some?
    ensures Expected(job.tasks, job.cells, i).value.1 == Panicked(result.fault)
  {
    var outcomes := OneByOne(job.tasks, job.cells).value.1;
    i :| 0 <= i < |outcomes| && outcomes[i] == Panicked(result.fault);
    OneByOneAt(job.tasks, job.cells, i);
  }

  lemma TaskEndsAtOnce<V, R, E>(job: Job<V, R, E>, i: nat)
    requires JobOk(job) && i < |job.tasks|
    ensures match job.tasks[i].prog.blocks(0)
            case Return(v) => Expected(job.tasks, job.cells, i) == Some((ShardOf(job.tasks[i], job.cells), Ok(v)))
            case Panic(p) => Expected(job.tasks, job.cells, i) == Some((ShardOf(job.tasks[i], job.cells), Panicked(UserPanic(p))))
            case _ => true
  {
    var t := job.tasks[i];
    RunBegins(t.prog, ShardOf(t, job.cells));
    FinishMeans(t.prog, t.prog.blocks(0), ShardOf(t, job.cells));
  }

  /** When every closure returns at once, the caller gets exactly those values, in
      index order. */
  lemma EveryTaskReturns<V, R, E>(job: Job<V, R, E>, registered: Option<nat>, cells: seq<V>, result: Result<R, E>, values: seq<R>)
    requires JobOk(job) && Meets(job, registered, cells, result) && |values| == |job.tasks|
    requires forall i :: 0 <= i < |values| ==> job.tasks[i].prog.blocks(0) == Return(values[i])
    ensures result == Vector(values)
  {
    var outcomes := OneByOne(job.tasks, job.cells).value.1;
    forall i | 0 <= i < |values|
      ensures outcomes[i] == Ok(values[i])
    {
      OneByOneAt(job.tasks, job.cells, i);
      TaskEndsAtOnce(job, i);
    }
    assert Values(outcomes) == values;
  }

  /** When every closure panics at once, the caller gets one of their own payloads,
      and on scoped threads that of the last index, which it ran inline. */
  lemma EveryTaskPanics<V, R, E>(job: Job<V, R, E>, registered: Option<nat>, cells: seq<V>, result: Result<R, E>, payloads: seq<E>)
    requires JobOk(job) && Meets(job, registered, cells, result) && |payloads| == |job.tasks|
    requires forall i :: 0 <= i < |payloads| ==> job.tasks[i].prog.blocks(0) == Panic(payloads[i])
    ensures result.Raised? && exists i :: 0 <= i < |payloads| && result.fault == UserPanic(payloads[i])
    ensures registered.None? ==> result.fault == UserPanic(payloads[|payloads| - 1])
  {
    var outcomes := OneByOne(job.tasks, job.cells).value.1;
    forall i | 0 <= i < |payloads|
      ensures outcomes[i] == Panicked(UserPanic(payloads[i]))
    {
      OneByOneAt(job.tasks, job.cells, i);
      TaskEndsAtOnce(job, i);
    }
    assert !outcomes[0].Ok?;
  }

  /** On scoped threads, when the inline task returns at once and so do all tasks
      below index `lowest`, whose closure panics at once, its payload is raised. */
  lemma LowestPanicRaised<V, R, E>(job: Job<V, R, E>, cells: seq<V>, result: Result<R, E>, lowest: nat)
    requires JobOk(job) && Meets(job, None, cells, result) && lowest < |job.tasks| - 1
    requires job.tasks[|job.tasks| - 1].prog.blocks(0).Return? && job.tasks[lowest].prog.blocks(0).Panic?
    requires forall i :: 0 <= i < lowest ==> job.tasks[i].prog.blocks(0).Return?
    ensures result == Raised(UserPanic(job.tasks[lowest].prog.blocks(0).payload))
  {
    var outcomes := OneByOne(job.tasks, job.cells).value.1;
    forall i | 0 <= i <= lowest || i == |outcomes| - 1
      ensures outcomes[i] == match job.tasks[i].prog.blocks(0)
                             case Return(v) => Ok(v)
                             case Panic(p) => Panicked(UserPanic(p))
                             case _ => outcomes[i]
    {
      OneByOneAt(job.tasks, job.cells, i);
      TaskEndsAtOnce(job, i);
    }
    assert !outcomes[lowest].Ok?;
  }

  lemma EndsMeets<V, R, E>(job: Job<V, R, E>, registered: Option<nat>, call: Call<V, R, E>, cells: seq<V>, result: Result<R, E>)
    requires JobOk(job) && Ends(job, registered, call, cells, result)
    ensures Meets(job, registered, cells, result)
  {
    DriveOutcome(job, call, cells, result);
  }

  /** The two drivers agree: same region always, equal vectors when nothing
      panics, and both raise when some task panics. */
  lemma DriversAgree<V, R, E>(job: Job<V, R, E>, executor: Call<V, R, E>, threads: Call<V, R, E>,
                              cells: seq<V>, result: Result<R, E>, cells': seq<V>, result': Result<R, E>)
    requires JobOk(job) && CallOk(job, executor) && CallOk(job, threads)
    requires executor.OnExecutor? && Finished(executor, cells, result)
    requires threads.OnThreads? && Finished(threads, cells', result')
    ensures OneByOne(job.tasks, job.cells).Some?
    ensures cells == cells'
    ensures PanicFree(OneByOne(job.tasks, job.cells).value.1) ==> result.Vector? && result == result'
    ensures !PanicFree(OneByOne(job.tasks, job.cells).value.1) ==>
              result.Raised? && result'.Raised? && S.Raises(OneByOne(job.tasks, job.cells).value.1, result'.fault)
  {
    DriveOutcome(job, executor, cells, result);
    DriveOutcome(job, threads, cells', result');
  }

  // ---------------------------------------------------- many calls at once

  datatype Event = Register(id: nat) | Clear | Tick(call: nat, index: nat)

  datatype World<!V, R, E> = World(slot: Option<nat>, calls: seq<Call<V, R, E>>)

  ghost predicate WorldOk<V, R, E>(jobs: seq<Job<V, R, E>>, w: World<V, R, E>) {
    && |w.calls| == |jobs|
    && (forall c :: 0 <= c < |jobs| ==> JobOk(jobs[c]) && CallOk(jobs[c], w.calls[c]))
  }

  ghost function Store(slot: Option<nat>, e: Event): Option<nat> {
    match e case Register(id) => Some(id) case Clear => None case Tick(_, _) => slot
  }

  /** The first tick of a waiting call is its load of the slot. */
  ghost function Happen<V, R, E>(jobs: seq<Job<V, R, E>>, w: World<V, R, E>, e: Event): (r: World<V, R, E>)
    requires WorldOk(jobs, w)
    ensures WorldOk(jobs, r)
  {
    match e
    case Tick(c, i) =>
      if c >= |jobs| then w
      else
        LoadOk(jobs[c], w.slot);
        w.(calls := w.calls[c := if w.calls[c].Waiting? then Load(jobs[c], w.slot) else Move(jobs[c], w.calls[c], i)])
    case _ => w.(slot := Store(w.slot, e))
  }

  ghost function HappenAll<V, R, E>(jobs: seq<Job<V, R, E>>, w: World<V, R, E>, events: seq<Event>): (r: World<V, R, E>)
    requires WorldOk(jobs, w)
    ensures WorldOk(jobs, r)
    decreases |events|
  {
    if events == [] then w else HappenAll(jobs, Happen(jobs, w, events[0]), events[1..])
  }

  /** The steps of one call within an event sequence. */
  ghost function TicksOf(events: seq<Event>, c: nat): seq<nat> {
    if events == [] then []
    else (if events[0].Tick? && events[0].call == c then [events[0].index] else []) + TicksOf(events[1..], c)
  }

  /** What the slot holds when call `c` makes its first step. */
  ghost function SlotAtStart(slot: Option<nat>, events: seq<Event>, c: nat): Option<nat>
    decreases |events|
  {
    if events == [] || (events[0].Tick? && events[0].call == c) then slot
    else SlotAtStart(Store(slot, events[0]), events[1..], c)
  }

  /** Registry isolation: among any interleaving of registrations, clears and
      steps of any number of calls, each call is exactly what its own steps make
      of it on the driver that was in the slot when it started. */
  lemma {:induction false} Isolation<V, R, E>(jobs: seq<Job<V, R, E>>, w: World<V, R, E>, events: seq<Event>, c: nat)
    requires WorldOk(jobs, w) && c < |jobs|
    ensures var ticks := TicksOf(events, c);
            var call := HappenAll(jobs, w, events).calls[c];
            if !w.calls[c].Waiting? then call == MoveAll(jobs[c], w.calls[c], ticks)
            else if ticks == [] then call == Waiting
            else
              var first := Load(jobs[c], SlotAtStart(w.slot, events, c));
              CallOk(jobs[c], first) && call == MoveAll(jobs[c], first, ticks[1..])
    decreases |events|
  {
    if events != [] {
      var w' := Happen(jobs, w, events[0]);
      Isolation(jobs, w', events[1..], c);
      if events[0].Tick? && events[0].call == c {
        assert TicksOf(events, c)[1..] == TicksOf(events[1..], c);
        LoadOk(jobs[c], w.slot);
      } else {
        assert TicksOf(events, c) == TicksOf(events[1..], c);
      }
    }
  }

  /** A call never leaves the driver it loaded. */
  lemma {:induction false} DriverNeverChanges<V, R, E>(jobs: seq<Job<V, R, E>>, w: World<V, R, E>, events: seq<Event>, c: nat)
    requires WorldOk(jobs, w) && c < |jobs|
    ensures var call := HappenAll(jobs, w, events).calls[c];
            && (!w.calls[c].Waiting? ==> !call.Waiting? && DriverOf(call) == DriverOf(w.calls[c]))
            && (w.calls[c].Waiting? && !call.Waiting? ==> DriverOf(call) == SlotAtStart(w.slot, events, c))
  {
    Isolation(jobs, w, events, c);
    LoadOk(jobs[c], SlotAtStart(w.slot, events, c));
  }

  /** Event `t` is the first step of call `c`. */
  ghost predicate StartsAt(events: seq<Event>, c: nat, t: nat) {
    && t < |events| && events[t].Tick? && events[t].call == c
    && forall j :: 0 <= j < t ==> !(events[j].Tick? && events[j].call == c)
  }

  /** Event `r` is the last registration or clearing before event `t`. */
  ghost predicate LastWrite(events: seq<Event>, r: nat, t: nat) {
    r < t <= |events| && !events[r].Tick? && forall j :: r < j < t ==> events[j].Tick?
  }

  lemma {:induction false} SlotIsLastWrite(slot: Option<nat>, events: seq<Event>, c: nat, t: nat)
    requires StartsAt(events, c, t)
    ensures (forall j :: 0 <= j < t ==> events[j].Tick?) ==> SlotAtStart(slot, events, c) == slot
    ensures forall r: nat :: LastWrite(events, r, t) ==>
              SlotAtStart(slot, events, c) == if events[r].Register? then Some(events[r].id) else None
    decreases |events|
  {
    if t > 0 {
      var slot', rest := Store(slot, events[0]), events[1..];
      assert StartsAt(rest, c, t - 1);
      SlotIsLastWrite(slot', rest, c, t - 1);
      assert (forall j :: 0 <= j < t ==> events[j].Tick?) ==> forall j :: 0 <= j < t - 1 ==> rest[j].Tick?;
      forall r: nat | LastWrite(events, r, t)
        ensures SlotAtStart(slot, events, c) == if events[r].Register? then Some(events[r].id) else None
      {
        if r > 0 {
          assert LastWrite(rest, r - 1, t - 1);
        } else {
          assert forall j :: 0 <= j < t - 1 ==> rest[j] == events[j + 1] && rest[j].Tick?;
        }
      }
    }
  }

  lemma {:induction false} TicksFromStart(events: seq<Event>, c: nat, t: nat)
    requires StartsAt(events, c, t)
    ensures TicksOf(events, c) != []
    decreases |events|
  {
    if t > 0 {
      assert StartsAt(events[1..], c, t - 1);
      TicksFromStart(events[1..], c, t - 1);
    }
  }

  /** The driver of a call is decided by the last write before its first step: the
      executor registered there, scoped threads if it was a clearing, and whatever
      was in the slot to begin with if there was none. */
  lemma LastWriteDecides<V, R, E>(jobs: seq<Job<V, R, E>>, w: World<V, R, E>, events: seq<Event>, c: nat, t: nat)
    requires WorldOk(jobs, w) && c < |jobs| && w.calls[c].Waiting? && StartsAt(events, c, t)
    ensures var call := HappenAll(jobs, w, events).calls[c];
            && !call.Waiting?
            && ((forall j :: 0 <= j < t ==> events[j].Tick?) ==> DriverOf(call) == w.slot)
            && (forall r: nat :: LastWrite(events, r, t) ==>
                  DriverOf(call) == if events[r].Register? then Some(events[r].id) else None)
  {
    Isolation(jobs, w, events, c);
    LoadOk(jobs[c], SlotAtStart(w.slot, events, c));
    TicksFromStart(events, c, t);
    SlotIsLastWrite(w.slot, events, c, t);
  }

  /** The steps of a call are all its ticks, in the order they happen. */
  lemma {:induction false} TicksMean(events: seq<Event>, e: Event, c: nat)
    ensures TicksOf(events + [e], c) == TicksOf(events, c) + if e.Tick? && e.call == c then [e.index] else []
    decreases |events|
  {
    if events == [] {
      assert [e][1..] == [];
    } else {
      assert (events + [e])[1..] == events[1..] + [e];
      TicksMean(events[1..], e, c);
    }
  }

  // ------------------------------------------- a call is its driver's run

  /** Inside a call nothing happens but the steps of its driver's machine. */
  lemma {:induction false} MoveAllIsExec<V, R, E>(job: Job<V, R, E>, call: Call<V, R, E>, sched: seq<nat>)
    requires JobOk(job) && CallOk(job, call) && !call.Waiting?
    ensures MoveAll(job, call, sched)
            == match call
               case OnExecutor(id, s) => OnExecutor(id, P.Exec(job.tasks, s, sched))
               case OnThreads(s) => OnThreads(S.Exec(job.tasks, s, sched))
    decreases |sched|
  {
    if sched != [] {
      MoveAllIsExec(job, Move(job, call, sched[0]), sched[1..]);
    }
  }

  /** How many rounds the driver's machine needs at most. */
  ghost function CallWork<V, R, E>(job: Job<V, R, E>, call: Call<V, R, E>): nat
    requires JobOk(job) && CallOk(job, call)
  {
    match call
    case Waiting => 0
    case OnExecutor(_, s) => P.Work(job.tasks, s, |job.tasks|)
    case OnThreads(s) => S.Work(job.tasks, s)
  }

  /** What a completed call leaves and returns. */
  lemma CompletedCall<V, R, E>(job: Job<V, R, E>, call: Call<V, R, E>) returns (cells: seq<V>, result: Result<R, E>)
    requires JobOk(job) && CallOk(job, call)
    requires match call
             case Waiting => false
             case OnExecutor(_, s) => P.Complete(s)
             case OnThreads(s) => s.caller.Left?
    ensures Finished(call, cells, result)
  {
    match call
    case OnExecutor(_, s) =>
      P.ScheduleIndependence(job.tasks, job.cells, s);
      cells := s.pool.cells;
      result := match P.LockPanicPayload(s.mutex)
                case None => Vector(P.Contents(s.slots))
                case Some(raise) => Raised(raise.fault);
    case OnThreads(s) =>
      cells := s.pool.cells;
      result := match s.caller.exit
                case Returns(values) => Vector(values)
                case Resumes(fault) => Raised(fault);
  }

  /** A history that is fair to a call finishes it: after its first step as many
      rounds as its driver needs, each with a turn for every task, interleaved with
      any registrations, clears and other calls. */
  lemma FairHistoryFinishes<V, R, E>(jobs: seq<Job<V, R, E>>, w: World<V, R, E>, events: seq<Event>, c: nat,
                                     first: nat, rounds: seq<seq<nat>>) returns (cells: seq<V>, result: Result<R, E>)
    requires WorldOk(jobs, w) && c < |jobs| && w.calls[c].Waiting?
    requires AllHalt(jobs[c].tasks, jobs[c].cells)
    requires TicksOf(events, c) == [first] + Flatten(rounds) && Fair(rounds, |jobs[c].tasks|)
    requires var call := Load(jobs[c], SlotAtStart(w.slot, events, c));
             CallOk(jobs[c], call) && |rounds| >= CallWork(jobs[c], call)
    ensures Finished(HappenAll(jobs, w, events).calls[c], cells, result)
  {
    var job, call := jobs[c], Load(jobs[c], SlotAtStart(w.slot, events, c));
    LoadOk(job, SlotAtStart(w.slot, events, c));
    Isolation(jobs, w, events, c);
    assert TicksOf(events, c)[1..] == Flatten(rounds);
    FairCallCompletes(job, call, rounds);
    cells, result := CompletedCall(job, MoveAll(job, call, Flatten(rounds)));
  }

  lemma FairCallCompletes<V, R, E>(job: Job<V, R, E>, call: Call<V, R, E>, rounds: seq<seq<nat>>)
    requires JobOk(job) && CallOk(job, call) && !call.Waiting? && AllHalt(job.tasks, job.cells)
    requires Fair(rounds, |job.tasks|) && |rounds| >= CallWork(job, call)
    ensures match MoveAll(job, call, Flatten(rounds))
            case Waiting => false
            case OnExecutor(_, s) => P.Complete(s)
            case OnThreads(s) => s.caller.Left?
  {
    MoveAllIsExec(job, call, Flatten(rounds));
    match call
    case OnExecutor(_, s) =>
      P.FairRunCompletes(job.tasks, job.cells, s, rounds);
      P.RoundsFlatten(job.tasks, s, rounds);
    case OnThreads(s) =>
      S.FairRunCompletes(job.tasks, job.cells, s, rounds);
      S.RoundsFlatten(job.tasks, s, rounds);
  }

  /** Registry traffic cannot be observed by a call in which nothing panics: two
      histories of the same call, with any registrations and any interleavings,
      end with the same region and the same vector. */
  lemma PanicFreeUnaffected<V, R, E>(jobs: seq<Job<V, R, E>>, w: World<V, R, E>, w': World<V, R, E>,
                                     events: seq<Event>, events': seq<Event>, c: nat,
                                     cells: seq<V>, result: Result<R, E>, cells': seq<V>, result': Result<R, E>)
    requires WorldOk(jobs, w) && WorldOk(jobs, w') && c < |jobs|
    requires Finished(HappenAll(jobs, w, events).calls[c], cells, result)
    requires Finished(HappenAll(jobs, w', events').calls[c], cells', result')
    ensures cells == cells' && (result.Vector? <==> result'.Vector?)
    ensures result.Vector? ==> result == result'
  {
    DriveOutcome(jobs[c], HappenAll(jobs, w, events).calls[c], cells, result);
    DriveOutcome(jobs[c], HappenAll(jobs, w', events').calls[c], cells', result');
  }
}
