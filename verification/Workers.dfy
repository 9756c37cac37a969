/** Concurrent user closures as shard-local programs over one region.

    A closure handed to a partition driver is a deterministic program that reads
    and writes single cells of its own shard, jumps, and in the end returns or
    panics, if it ends at all. Any number of them run interleaved, one cell access
    at a time. */
module Workers {
  import opened Base

  /** What unwinds: a user panic or an out-of-range shard index. */
  datatype Fault<P> = UserPanic(payload: P) | IndexOutOfBounds(at: nat)

  datatype Outcome<R, P> = Ok(value: R) | Panicked(fault: Fault<P>)

  datatype Code<!V, R, P> =
    | Return(result: R)
    | Panic(payload: P)
    | Read(at: nat, cont: V -> Code<V, R, P>)
    | Write(at: nat, value: V, next: Code<V, R, P>)
    | Goto(block: nat)

  /** Blocks of code that jump to one another; block 0 is where a program begins. */
  datatype Prog<!V, R, P> = Prog(blocks: nat -> Code<V, R, P>)

  /** A task: the half-open cell range of its shard and its program. */
  datatype Task<!V, R, P> = Task(lo: nat, hi: nat, prog: Prog<V, R, P>)

  datatype Thread<!V, R, P> =
    | Idle
    | Running(rest: Code<V, R, P>)
    | Done(outcome: Outcome<R, P>)

  /** The region's cells and every task's control state. */
  datatype Pool<!V, R, P> = Pool(cells: seq<V>, threads: seq<Thread<V, R, P>>)

  // ------------------------------------------------------------- one task

  /** One micro-step of a program alone on its shard: begin, one cell access, a
      jump, return or panic. A finished program stays finished. */
  ghost function SoloStep<V, R, P>(prog: Prog<V, R, P>, thread: Thread<V, R, P>, shard: seq<V>)
    : (r: (Thread<V, R, P>, seq<V>))
    ensures |r.1| == |shard|
  {
    match thread
    case Idle => (Running(prog.blocks(0)), shard)
    case Done(_) => (thread, shard)
    case Running(rest) =>
      match rest
      case Return(v) => (Done(Ok(v)), shard)
      case Panic(p) => (Done(Panicked(UserPanic(p))), shard)
      case Read(at, cont) =>
        if at < |shard| then (Running(cont(shard[at])), shard) else (Done(Panicked(IndexOutOfBounds(at))), shard)
      case Write(at, v, next) =>
        if at < |shard| then (Running(next), shard[at := v]) else (Done(Panicked(IndexOutOfBounds(at))), shard)
      case Goto(b) => (Running(prog.blocks(b)), shard)
  }

  ghost function SoloSteps<V, R, P>(prog: Prog<V, R, P>, thread: Thread<V, R, P>, shard: seq<V>, n: nat)
    : (r: (Thread<V, R, P>, seq<V>))
    ensures |r.1| == |shard|
    decreases n
  {
    if n == 0 then (thread, shard)
    else var (thread', shard') := SoloStep(prog, thread, shard); SoloSteps(prog, thread', shard', n - 1)
  }

  ghost predicate HaltsIn<V, R, P>(prog: Prog<V, R, P>, thread: Thread<V, R, P>, shard: seq<V>, n: nat) {
    SoloSteps(prog, thread, shard, n).0.Done?
  }

  /** How a program ends when left alone from the given point: its final shard
      and outcome, or `None` when it never ends. */
  ghost function Finish<V, R, P>(prog: Prog<V, R, P>, thread: Thread<V, R, P>, shard: seq<V>)
    : (r: Option<(seq<V>, Outcome<R, P>)>)
    ensures r.Some? ==> |r.value.0| == |shard|
  {
    if n: nat :| HaltsIn(prog, thread, shard, n) then
      var (end, shard') := SoloSteps(prog, thread, shard, n);
      Some((shard', end.outcome))
    else None
  }

  /** Running a program alone on its shard, from the beginning. */
  ghost function RunAlone<V, R, P>(prog: Prog<V, R, P>, shard: seq<V>): (r: Option<(seq<V>, Outcome<R, P>)>)
    ensures r.Some? ==> |r.value.0| == |shard|
  {
    Finish(prog, Idle, shard)
  }

  lemma {:induction false} DoneStays<V, R, P>(prog: Prog<V, R, P>, thread: Thread<V, R, P>, shard: seq<V>, n: nat)
    requires thread.Done?
    ensures SoloSteps(prog, thread, shard, n) == (thread, shard)
  {
    if n > 0 { DoneStays(prog, thread, shard, n - 1); }
  }

  /** Any halting bound leads to the same end. */
  lemma {:induction false} HaltUnique<V, R, P>(prog: Prog<V, R, P>, thread: Thread<V, R, P>, shard: seq<V>, m: nat, n: nat)
    requires HaltsIn(prog, thread, shard, m) && HaltsIn(prog, thread, shard, n)
    ensures SoloSteps(prog, thread, shard, m) == SoloSteps(prog, thread, shard, n)
    decreases m + n
  {
    if thread.Done? {
      DoneStays(prog, thread, shard, m);
      DoneStays(prog, thread, shard, n);
    } else {
      var (thread', shard') := SoloStep(prog, thread, shard);
      HaltUnique(prog, thread', shard', m - 1, n - 1);
    }
  }

  lemma FinishIn<V, R, P>(prog: Prog<V, R, P>, thread: Thread<V, R, P>, shard: seq<V>, n: nat)
    requires HaltsIn(prog, thread, shard, n)
    ensures var (end, shard') := SoloSteps(prog, thread, shard, n);
            Finish(prog, thread, shard) == Some((shard', end.outcome))
  {
    var m: nat :| HaltsIn(prog, thread, shard, m)
                  && Finish(prog, thread, shard)
                     == Some((SoloSteps(prog, thread, shard, m).1, SoloSteps(prog, thread, shard, m).0.outcome));
    HaltUnique(prog, thread, shard, m, n);
  }

  /** Taking a step does not change how the program ends. */
  lemma FinishStep<V, R, P>(prog: Prog<V, R, P>, thread: Thread<V, R, P>, shard: seq<V>)
    ensures var (thread', shard') := SoloStep(prog, thread, shard);
            Finish(prog, thread', shard') == Finish(prog, thread, shard)
  {
    var (thread', shard') := SoloStep(prog, thread, shard);
    if n: nat :| HaltsIn(prog, thread', shard', n) {
      assert HaltsIn(prog, thread, shard, n + 1);
      FinishIn(prog, thread', shard', n);
      FinishIn(prog, thread, shard, n + 1);
    } else if n: nat :| HaltsIn(prog, thread, shard, n) {
      if n > 0 {
        assert HaltsIn(prog, thread', shard', n - 1);
      }
    }
  }

  /** What each instruction does to the end of a program: a return or a panic ends
      it with its own value or payload, an access outside the shard ends it with the
      index, an access inside reads or writes that one cell. */
  lemma FinishMeans<V, R, P>(prog: Prog<V, R, P>, code: Code<V, R, P>, shard: seq<V>)
    ensures var end := Finish(prog, Running(code), shard);
            match code
            case Return(v) => end == Some((shard, Ok(v)))
            case Panic(p) => end == Some((shard, Panicked(UserPanic(p))))
            case Read(at, cont) =>
              end == if at < |shard| then Finish(prog, Running(cont(shard[at])), shard)
                     else Some((shard, Panicked(IndexOutOfBounds(at))))
            case Write(at, v, next) =>
              end == if at < |shard| then Finish(prog, Running(next), shard[at := v])
                     else Some((shard, Panicked(IndexOutOfBounds(at))))
            case Goto(b) => end == Finish(prog, Running(prog.blocks(b)), shard)
  {
    FinishStep(prog, Running(code), shard);
    var (thread, shard') := SoloStep(prog, Running(code), shard);
    if thread.Done? {
      FinishIn(prog, thread, shard', 0);
    }
  }

  /** A program begins at block 0. */
  lemma RunBegins<V, R, P>(prog: Prog<V, R, P>, shard: seq<V>)
    ensures RunAlone(prog, shard) == Finish(prog, Running(prog.blocks(0)), shard)
  {
    FinishStep(prog, Idle, shard);
  }

  /** `loop {}`. */
  function Spin<V, R, P>(): Prog<V, R, P> {
    Prog(_ => Goto(0))
  }

  lemma {:induction false} SpinSteps<V, R, P>(thread: Thread<V, R, P>, shard: seq<V>, n: nat)
    requires thread == Idle || thread == Running(Goto(0))
    ensures !HaltsIn(Spin(), thread, shard, n)
    decreases n
  {
    if n > 0 {
      SpinSteps<V, R, P>(Running(Goto(0)), shard, n - 1);
    }
  }

  /** Some programs never end. */
  lemma SpinNeverEnds<V, R, P>(shard: seq<V>)
    ensures RunAlone<V, R, P>(Spin(), shard) == None
  {
    forall n: nat
      ensures !HaltsIn<V, R, P>(Spin(), Idle, shard, n)
    {
      SpinSteps<V, R, P>(Idle, shard, n);
    }
  }

  /** The number of micro-steps a halting program still takes. */
  ghost function StepsLeft<V, R, P>(prog: Prog<V, R, P>, thread: Thread<V, R, P>, shard: seq<V>): nat {
    if n: nat :| HaltsIn(prog, thread, shard, n) then LeastHalt(prog, thread, shard, n) else 0
  }

  ghost function LeastHalt<V, R, P>(prog: Prog<V, R, P>, thread: Thread<V, R, P>, shard: seq<V>, n: nat): (k: nat)
    requires HaltsIn(prog, thread, shard, n)
    ensures k <= n
    decreases n
  {
    if thread.Done? then 0
    else
      var (thread', shard') := SoloStep(prog, thread, shard);
      1 + LeastHalt(prog, thread', shard', n - 1)
  }

  lemma {:induction false} LeastHaltUnique<V, R, P>(prog: Prog<V, R, P>, thread: Thread<V, R, P>, shard: seq<V>, m: nat, n: nat)
    requires HaltsIn(prog, thread, shard, m) && HaltsIn(prog, thread, shard, n)
    ensures LeastHalt(prog, thread, shard, m) == LeastHalt(prog, thread, shard, n)
    decreases m
  {
    if !thread.Done? {
      var (thread', shard') := SoloStep(prog, thread, shard);
      LeastHaltUnique(prog, thread', shard', m - 1, n - 1);
    }
  }

  lemma StepsLeftFalls<V, R, P>(prog: Prog<V, R, P>, thread: Thread<V, R, P>, shard: seq<V>)
    requires Finish(prog, thread, shard).Some?
    ensures thread.Done? ==> StepsLeft(prog, thread, shard) == 0
    ensures !thread.Done? ==>
              var (thread', shard') := SoloStep(prog, thread, shard);
              StepsLeft(prog, thread, shard) == 1 + StepsLeft(prog, thread', shard')
  {
    var n: nat :| HaltsIn(prog, thread, shard, n)
                  && StepsLeft(prog, thread, shard) == LeastHalt(prog, thread, shard, n);
    if !thread.Done? {
      var (thread', shard') := SoloStep(prog, thread, shard);
      assert HaltsIn(prog, thread', shard', n - 1);
      var m: nat :| HaltsIn(prog, thread', shard', m)
                    && StepsLeft(prog, thread', shard') == LeastHalt(prog, thread', shard', m);
      LeastHaltUnique(prog, thread', shard', m, n - 1);
      assert LeastHalt(prog, thread, shard, n) == 1 + LeastHalt(prog, thread', shard', n - 1);
    }
  }

  // ------------------------------------------------------------ all tasks

  ghost predicate Disjoint<V, R, P>(a: Task<V, R, P>, b: Task<V, R, P>) {
    a.hi <= b.lo || b.hi <= a.lo || a.lo == a.hi || b.lo == b.hi
  }

  /** Every shard lies in the region and no two overlap: what the tiling proves
      and the drivers' `unsafe` blocks rely on. */
  ghost predicate WellTiled<V, R, P>(tasks: seq<Task<V, R, P>>, len: nat) {
    && (forall i :: 0 <= i < |tasks| ==> tasks[i].lo <= tasks[i].hi <= len)
    && (forall i, j :: 0 <= i < j < |tasks| ==> Disjoint(tasks[i], tasks[j]))
  }

  ghost predicate Fits<V, R, P>(tasks: seq<Task<V, R, P>>, s: Pool<V, R, P>) {
    |s.threads| == |tasks| && WellTiled(tasks, |s.cells|)
  }

  function Start<V, R, P>(tasks: seq<Task<V, R, P>>, cells: seq<V>): Pool<V, R, P> {
    Pool(cells, seq(|tasks|, _ => Idle))
  }

  /** One micro-step of task `i`: begin, one cell access, a jump, return or panic. */
  function Advance<V, R, P>(tasks: seq<Task<V, R, P>>, s: Pool<V, R, P>, i: nat): Pool<V, R, P>
    requires Fits(tasks, s) && i < |tasks|
  {
    var t := tasks[i];
    match s.threads[i]
    case Idle => s.(threads := s.threads[i := Running(t.prog.blocks(0))])
    case Done(_) => s
    case Running(rest) =>
      match rest
      case Return(v) => s.(threads := s.threads[i := Done(Ok(v))])
      case Panic(p) => s.(threads := s.threads[i := Done(Panicked(UserPanic(p)))])
      case Read(at, cont) =>
        if at < t.hi - t.lo
        then s.(threads := s.threads[i := Running(cont(s.cells[t.lo + at]))])
        else s.(threads := s.threads[i := Done(Panicked(IndexOutOfBounds(at)))])
      case Write(at, v, next) =>
        if at < t.hi - t.lo
        then Pool(s.cells[t.lo + at := v], s.threads[i := Running(next)])
        else s.(threads := s.threads[i := Done(Panicked(IndexOutOfBounds(at)))])
      case Goto(b) => s.(threads := s.threads[i := Running(t.prog.blocks(b))])
  }

  ghost function ShardOf<V, R, P>(t: Task<V, R, P>, cells: seq<V>): seq<V>
    requires t.lo <= t.hi <= |cells|
  {
    cells[t.lo..t.hi]
  }

  /** How task `i` ends when left to finish alone from here. */
  ghost function Ahead<V, R, P>(tasks: seq<Task<V, R, P>>, s: Pool<V, R, P>, i: nat): Option<(seq<V>, Outcome<R, P>)>
    requires Fits(tasks, s) && i < |tasks|
  {
    Finish(tasks[i].prog, s.threads[i], ShardOf(tasks[i], s.cells))
  }

  /** How task `i` ends when run alone on the original region. */
  ghost function Expected<V, R, P>(tasks: seq<Task<V, R, P>>, cells: seq<V>, i: nat): Option<(seq<V>, Outcome<R, P>)>
    requires WellTiled(tasks, |cells|) && i < |tasks|
  {
    RunAlone(tasks[i].prog, ShardOf(tasks[i], cells))
  }

  ghost predicate Untouched<V, R, P>(tasks: seq<Task<V, R, P>>, a: nat) {
    forall i :: 0 <= i < |tasks| ==> !(tasks[i].lo <= a < tasks[i].hi)
  }

  /** Every task still has its own sequential future ahead of it; a shard whose
      task has not begun, and cells outside all shards, are as they were. */
  ghost predicate OnTrack<V, R, P>(tasks: seq<Task<V, R, P>>, cells: seq<V>, s: Pool<V, R, P>) {
    && Fits(tasks, s)
    && |s.cells| == |cells|
    && (forall i :: 0 <= i < |tasks| ==> Ahead(tasks, s, i) == Expected(tasks, cells, i))
    && (forall i :: 0 <= i < |tasks| && s.threads[i].Idle? ==> ShardOf(tasks[i], s.cells) == ShardOf(tasks[i], cells))
    && (forall a :: 0 <= a < |cells| && Untouched(tasks, a) ==> s.cells[a] == cells[a])
  }

  lemma StartOnTrack<V, R, P>(tasks: seq<Task<V, R, P>>, cells: seq<V>)
    requires WellTiled(tasks, |cells|)
    ensures OnTrack(tasks, cells, Start(tasks, cells))
  {
  }

  /** A step of task `i` touches neither another task's control state nor any
      cell outside its own shard. */
  lemma AdvanceFrame<V, R, P>(tasks: seq<Task<V, R, P>>, s: Pool<V, R, P>, i: nat)
    requires Fits(tasks, s) && i < |tasks|
    ensures var s' := Advance(tasks, s, i);
            && Fits(tasks, s')
            && |s'.cells| == |s.cells|
            && (forall j :: 0 <= j < |tasks| && j != i ==> s'.threads[j] == s.threads[j])
            && (forall a :: 0 <= a < |s.cells| && !(tasks[i].lo <= a < tasks[i].hi) ==> s'.cells[a] == s.cells[a])
  {
  }

  lemma OtherShardKept<V, R, P>(tasks: seq<Task<V, R, P>>, s: Pool<V, R, P>, i: nat, j: nat)
    requires Fits(tasks, s) && i < |tasks| && j < |tasks| && i != j
    ensures |Advance(tasks, s, i).cells| == |s.cells|
    ensures ShardOf(tasks[j], Advance(tasks, s, i).cells) == ShardOf(tasks[j], s.cells)
  {
    AdvanceFrame(tasks, s, i);
    assert if i < j then Disjoint(tasks[i], tasks[j]) else Disjoint(tasks[j], tasks[i]);
  }

  /** Seen from its own shard, a task's step is the step it takes when alone. */
  lemma AdvanceIsSolo<V, R, P>(tasks: seq<Task<V, R, P>>, s: Pool<V, R, P>, i: nat)
    requires Fits(tasks, s) && i < |tasks|
    ensures var s' := Advance(tasks, s, i);
            && Fits(tasks, s')
            && (s'.threads[i], ShardOf(tasks[i], s'.cells))
               == SoloStep(tasks[i].prog, s.threads[i], ShardOf(tasks[i], s.cells))
  {
    var t := tasks[i];
    var s' := Advance(tasks, s, i);
    if s.threads[i].Running? && s.threads[i].rest.Write? && s.threads[i].rest.at < t.hi - t.lo {
      var at, v := s.threads[i].rest.at, s.threads[i].rest.value;
      assert ShardOf(t, s'.cells) == ShardOf(t, s.cells)[at := v];
    }
  }

  lemma AdvanceOnTrack<V, R, P>(tasks: seq<Task<V, R, P>>, cells: seq<V>, s: Pool<V, R, P>, i: nat)
    requires OnTrack(tasks, cells, s) && i < |tasks|
    ensures OnTrack(tasks, cells, Advance(tasks, s, i))
  {
    var s' := Advance(tasks, s, i);
    AdvanceFrame(tasks, s, i);
    forall j | 0 <= j < |tasks|
      ensures Ahead(tasks, s', j) == Expected(tasks, cells, j)
      ensures s'.threads[j].Idle? ==> ShardOf(tasks[j], s'.cells) == ShardOf(tasks[j], cells)
    {
      if j == i {
        AdvanceIsSolo(tasks, s, i);
        FinishStep(tasks[i].prog, s.threads[i], ShardOf(tasks[i], s.cells));
      } else {
        OtherShardKept(tasks, s, i, j);
      }
    }
  }

  // ----------------------------------------------- sequential reference

  /** The region after a finished task leaves its shard. */
  ghost function Splice<V, R, P>(t: Task<V, R, P>, cells: seq<V>, shard: seq<V>): (r: seq<V>)
    requires t.lo <= t.hi <= |cells| && |shard| == t.hi - t.lo
    ensures |r| == |cells|
  {
    cells[..t.lo] + shard + cells[t.hi..]
  }

  /** Running the tasks one after another, left to right, on the same region;
      `None` when one of them never ends. */
  ghost function OneByOne<V, R, P>(tasks: seq<Task<V, R, P>>, cells: seq<V>)
    : (r: Option<(seq<V>, seq<Outcome<R, P>>)>)
    requires WellTiled(tasks, |cells|)
    ensures r.Some? ==> |r.value.0| == |cells| && |r.value.1| == |tasks|
    decreases |tasks|
  {
    if tasks == [] then Some((cells, []))
    else
      match RunAlone(tasks[0].prog, ShardOf(tasks[0], cells))
      case None => None
      case Some((shard, outcome)) => Record(outcome, OneByOne(tasks[1..], Splice(tasks[0], cells, shard)))
  }

  /** One more outcome in front of a run. */
  ghost function Record<V, O>(outcome: O, next: Option<(seq<V>, seq<O>)>): Option<(seq<V>, seq<O>)> {
    match next
    case None => None
    case Some((cells, outcomes)) => Some((cells, [outcome] + outcomes))
  }

  lemma OneByOneHead<V, R, P>(tasks: seq<Task<V, R, P>>, cells: seq<V>)
    requires WellTiled(tasks, |cells|) && tasks != []
    ensures WellTiled(tasks[1..], |cells|)
    ensures OneByOne(tasks, cells)
            == match RunAlone(tasks[0].prog, ShardOf(tasks[0], cells))
               case None => None
               case Some((shard, outcome)) => Record(outcome, OneByOne(tasks[1..], Splice(tasks[0], cells, shard)))
  {
  }

  lemma {:induction false} OneByOneFrame<V, R, P>(tasks: seq<Task<V, R, P>>, cells: seq<V>, a: nat)
    requires WellTiled(tasks, |cells|) && a < |cells| && Untouched(tasks, a) && OneByOne(tasks, cells).Some?
    ensures OneByOne(tasks, cells).value.0[a] == cells[a]
    decreases |tasks|
  {
    if tasks != [] {
      var t := tasks[0];
      assert !(t.lo <= a < t.hi);
      OneByOneFrame(tasks[1..], Splice(t, cells, RunAlone(t.prog, ShardOf(t, cells)).value.0), a);
    }
  }

  lemma SpliceAt<V, R, P>(t: Task<V, R, P>, cells: seq<V>, shard: seq<V>, a: nat)
    requires t.lo <= t.hi <= |cells| && |shard| == t.hi - t.lo && a < |cells|
    ensures Splice(t, cells, shard)[a] == if t.lo <= a < t.hi then shard[a - t.lo] else cells[a]
  {
  }

  lemma SpliceKeepsOthers<V, R, P>(tasks: seq<Task<V, R, P>>, cells: seq<V>, shard: seq<V>, i: nat)
    requires WellTiled(tasks, |cells|) && 0 < i < |tasks| && |shard| == tasks[0].hi - tasks[0].lo
    ensures ShardOf(tasks[i], Splice(tasks[0], cells, shard)) == ShardOf(tasks[i], cells)
  {
    var t, u := tasks[0], tasks[i];
    var after := Splice(t, cells, shard);
    assert Disjoint(t, u);
    forall a | u.lo <= a < u.hi
      ensures after[a] == cells[a]
    {
      SpliceAt(t, cells, shard, a);
    }
  }

  /** Nobody after the first task writes to its shard. */
  lemma FirstShardKept<V, R, P>(tasks: seq<Task<V, R, P>>, cells: seq<V>, shard: seq<V>)
    requires tasks != [] && WellTiled(tasks, |cells|) && |shard| == tasks[0].hi - tasks[0].lo
    requires OneByOne(tasks[1..], Splice(tasks[0], cells, shard)).Some?
    ensures ShardOf(tasks[0], OneByOne(tasks[1..], Splice(tasks[0], cells, shard)).value.0) == shard
  {
    var t, rest, mid := tasks[0], tasks[1..], Splice(tasks[0], cells, shard);
    var final := OneByOne(rest, mid).value.0;
    forall a | t.lo <= a < t.hi
      ensures final[a] == shard[a - t.lo]
    {
      forall j | 0 <= j < |rest|
        ensures !(rest[j].lo <= a < rest[j].hi)
      {
        assert rest[j] == tasks[j + 1] && Disjoint(tasks[0], tasks[j + 1]);
      }
      OneByOneFrame(rest, mid, a);
      SpliceAt(t, cells, shard, a);
    }
  }

  /** Shards are independent: in the left-to-right run each task sees its
      original shard, and nobody disturbs what it leaves. */
  lemma {:induction false} OneByOneAt<V, R, P>(tasks: seq<Task<V, R, P>>, cells: seq<V>, i: nat)
    requires WellTiled(tasks, |cells|) && i < |tasks| && OneByOne(tasks, cells).Some?
    ensures Expected(tasks, cells, i)
            == Some((ShardOf(tasks[i], OneByOne(tasks, cells).value.0), OneByOne(tasks, cells).value.1[i]))
    decreases |tasks|
  {
    var t := tasks[0];
    var shard := RunAlone(t.prog, ShardOf(t, cells)).value.0;
    OneByOneHead(tasks, cells);
    if i == 0 {
      FirstShardKept(tasks, cells, shard);
    } else {
      SpliceKeepsOthers(tasks, cells, shard, i);
      OneByOneAt(tasks[1..], Splice(t, cells, shard), i - 1);
    }
  }

  /** Every program ends when run alone on its original shard. */
  ghost predicate AllHalt<V, R, P>(tasks: seq<Task<V, R, P>>, cells: seq<V>)
    requires WellTiled(tasks, |cells|)
  {
    forall i :: 0 <= i < |tasks| ==> Expected(tasks, cells, i).Some?
  }

  lemma {:induction false} OneByOneEnds<V, R, P>(tasks: seq<Task<V, R, P>>, cells: seq<V>)
    requires WellTiled(tasks, |cells|) && AllHalt(tasks, cells)
    ensures OneByOne(tasks, cells).Some?
    decreases |tasks|
  {
    if tasks != [] {
      assert Expected(tasks, cells, 0).Some?;
      var shard := RunAlone(tasks[0].prog, ShardOf(tasks[0], cells)).value.0;
      var mid := Splice(tasks[0], cells, shard);
      forall i | 0 <= i < |tasks[1..]|
        ensures Expected(tasks[1..], mid, i).Some?
      {
        SpliceKeepsOthers(tasks, cells, shard, i + 1);
        assert Expected(tasks, cells, i + 1).Some?;
      }
      OneByOneEnds(tasks[1..], mid);
    }
  }

  ghost predicate AllDone<V, R, P>(s: Pool<V, R, P>) {
    forall i :: 0 <= i < |s.threads| ==> s.threads[i].Done?
  }

  /** A finished task's outcome and shard are already final. */
  lemma DoneIsExpected<V, R, P>(tasks: seq<Task<V, R, P>>, cells: seq<V>, s: Pool<V, R, P>, i: nat)
    requires OnTrack(tasks, cells, s) && i < |tasks| && s.threads[i].Done?
    ensures Expected(tasks, cells, i) == Some((ShardOf(tasks[i], s.cells), s.threads[i].outcome))
  {
    assert Ahead(tasks, s, i) == Expected(tasks, cells, i);
    FinishIn(tasks[i].prog, s.threads[i], ShardOf(tasks[i], s.cells), 0);
  }

  /** Regions that agree on every shard and off the shards are equal. */
  lemma SameRegion<V, R, P>(tasks: seq<Task<V, R, P>>, x: seq<V>, y: seq<V>)
    requires |x| == |y| && WellTiled(tasks, |x|)
    requires forall i :: 0 <= i < |tasks| ==> ShardOf(tasks[i], x) == ShardOf(tasks[i], y)
    requires forall a :: 0 <= a < |x| && Untouched(tasks, a) ==> x[a] == y[a]
    ensures x == y
  {
    forall a | 0 <= a < |x|
      ensures x[a] == y[a]
    {
      if !Untouched(tasks, a) {
        var i :| 0 <= i < |tasks| && tasks[i].lo <= a < tasks[i].hi;
        assert ShardOf(tasks[i], x)[a - tasks[i].lo] == ShardOf(tasks[i], y)[a - tasks[i].lo];
      }
    }
  }

  /** What the tasks of a finished pool produced, in index order. */
  ghost function Outcomes<V, R, P>(s: Pool<V, R, P>): (r: seq<Outcome<R, P>>)
    requires AllDone(s)
    ensures |r| == |s.threads|
  {
    seq(|s.threads|, i requires 0 <= i < |s.threads| => s.threads[i].outcome)
  }

  ghost predicate PanicFree<R, P>(outcomes: seq<Outcome<R, P>>) {
    forall i :: 0 <= i < |outcomes| ==> outcomes[i].Ok?
  }

  ghost function Values<R, P>(outcomes: seq<Outcome<R, P>>): (r: seq<R>)
    requires PanicFree(outcomes)
    ensures |r| == |outcomes|
  {
    seq(|outcomes|, i requires 0 <= i < |outcomes| => outcomes[i].value)
  }

  /** Serializability: however the tasks were interleaved, once all are done the
      region and every outcome are those of the left-to-right run. */
  lemma Serializable<V, R, P>(tasks: seq<Task<V, R, P>>, cells: seq<V>, s: Pool<V, R, P>)
    requires OnTrack(tasks, cells, s) && AllDone(s)
    ensures OneByOne(tasks, cells) == Some((s.cells, Outcomes(s)))
  {
    forall i | 0 <= i < |tasks|
      ensures Expected(tasks, cells, i) == Some((ShardOf(tasks[i], s.cells), s.threads[i].outcome))
    {
      DoneIsExpected(tasks, cells, s, i);
    }
    OneByOneEnds(tasks, cells);
    var (final, outcomes) := OneByOne(tasks, cells).value;
    forall i | 0 <= i < |tasks|
      ensures s.threads[i].outcome == outcomes[i]
      ensures ShardOf(tasks[i], s.cells) == ShardOf(tasks[i], final)
    {
      OneByOneAt(tasks, cells, i);
    }
    forall a | 0 <= a < |cells| && Untouched(tasks, a)
      ensures s.cells[a] == final[a]
    {
      OneByOneFrame(tasks, cells, a);
    }
    SameRegion(tasks, s.cells, final);
    assert Outcomes(s) == outcomes;
  }

  // ------------------------------------------------------------- progress

  /** Advancing an unfinished task changes something. */
  lemma AdvanceMoves<V, R, P>(tasks: seq<Task<V, R, P>>, cells: seq<V>, s: Pool<V, R, P>, i: nat)
    requires OnTrack(tasks, cells, s) && AllHalt(tasks, cells) && i < |tasks| && !s.threads[i].Done?
    ensures Advance(tasks, s, i) != s
  {
    AdvanceWork(tasks, cells, s, i, i);
  }

  /** Micro-steps task `i` still has to take. */
  ghost function TaskWork<V, R, P>(tasks: seq<Task<V, R, P>>, s: Pool<V, R, P>, i: nat): nat
    requires Fits(tasks, s) && i < |tasks|
  {
    StepsLeft(tasks[i].prog, s.threads[i], ShardOf(tasks[i], s.cells))
  }

  lemma AdvanceWork<V, R, P>(tasks: seq<Task<V, R, P>>, cells: seq<V>, s: Pool<V, R, P>, i: nat, j: nat)
    requires OnTrack(tasks, cells, s) && AllHalt(tasks, cells) && i < |tasks| && j < |tasks|
    ensures Fits(tasks, Advance(tasks, s, i))
    ensures s.threads[i].Done? ==> TaskWork(tasks, s, i) == 0
    ensures !s.threads[i].Done? ==> TaskWork(tasks, s, i) > 0
    ensures TaskWork(tasks, Advance(tasks, s, i), j)
            == TaskWork(tasks, s, j) - if j == i && !s.threads[i].Done? then 1 else 0
  {
    AdvanceFrame(tasks, s, i);
    assert Expected(tasks, cells, i).Some?;
    assert Ahead(tasks, s, i) == Expected(tasks, cells, i);
    StepsLeftFalls(tasks[i].prog, s.threads[i], ShardOf(tasks[i], s.cells));
    if i != j {
      OtherShardKept(tasks, s, i, j);
    } else {
      AdvanceIsSolo(tasks, s, i);
    }
  }
}
