/** Task lists whose shards tile a region consecutively, and what running them
    left to right computes. Both partition drivers and the deque plan produce
    such lists; their results here hold for every way of cutting. */
module Chains {
  import opened Base
  import opened Workers

  /** The shards are non-empty and follow one another from `lo` to `hi`. */
  ghost predicate Chain<V, R, P>(tasks: seq<Task<V, R, P>>, lo: nat, hi: nat)
    decreases |tasks|
  {
    if tasks == [] then lo == hi
    else tasks[0].lo == lo && lo < tasks[0].hi && Chain(tasks[1..], tasks[0].hi, hi)
  }

  lemma {:induction false} ChainBounds<V, R, P>(tasks: seq<Task<V, R, P>>, lo: nat, hi: nat, i: nat)
    requires Chain(tasks, lo, hi) && i < |tasks|
    ensures lo <= tasks[i].lo < tasks[i].hi <= hi
    ensures i > 0 ==> tasks[0].hi <= tasks[i].lo
    decreases |tasks|
  {
    if i > 0 {
      ChainBounds(tasks[1..], tasks[0].hi, hi, i - 1);
    } else if |tasks| > 1 {
      ChainBounds(tasks[1..], tasks[0].hi, hi, |tasks| - 2);
    }
  }

  lemma {:induction false} ChainOrder<V, R, P>(tasks: seq<Task<V, R, P>>, lo: nat, hi: nat, i: nat, j: nat)
    requires Chain(tasks, lo, hi) && i < j < |tasks|
    ensures tasks[i].hi <= tasks[j].lo
    decreases |tasks|
  {
    if i == 0 {
      ChainBounds(tasks, lo, hi, j);
    } else {
      ChainOrder(tasks[1..], tasks[0].hi, hi, i - 1, j - 1);
    }
  }

  /** A chain keeps the drivers' exclusivity contract. */
  lemma ChainTiles<V, R, P>(tasks: seq<Task<V, R, P>>, len: nat)
    requires Chain(tasks, 0, len)
    ensures WellTiled(tasks, len)
  {
    forall i | 0 <= i < |tasks|
      ensures tasks[i].lo <= tasks[i].hi <= len
    {
      ChainBounds(tasks, 0, len, i);
    }
    forall i, j | 0 <= i < j < |tasks|
      ensures Disjoint(tasks[i], tasks[j])
    {
      ChainOrder(tasks, 0, len, i, j);
    }
  }

  /** Peeling shards off the front of the region one by one, as a sequential
      loop over the lending iterator does. */
  ghost function RunParts<V, R, P>(tasks: seq<Task<V, R, P>>, lo: nat, rest: seq<V>)
    : (r: Option<(seq<V>, seq<Outcome<R, P>>)>)
    requires Chain(tasks, lo, lo + |rest|)
    ensures r.Some? ==> |r.value.0| == |rest| && |r.value.1| == |tasks|
    decreases |tasks|
  {
    if tasks == [] then Some((rest, []))
    else
      ChainBounds(tasks, lo, lo + |rest|, 0);
      var mid := tasks[0].hi - lo;
      match RunAlone(tasks[0].prog, rest[..mid])
      case None => None
      case Some((head, outcome)) =>
        Attach(head, outcome, RunParts(tasks[1..], tasks[0].hi, rest[mid..]))
  }

  /** A finished shard in front of the rest of a run. */
  ghost function Attach<V, O>(head: seq<V>, outcome: O, rest: Option<(seq<V>, seq<O>)>): (r: Option<(seq<V>, seq<O>)>)
    ensures r.Some? <==> rest.Some?
    ensures rest.Some? ==> r.value == (head + rest.value.0, [outcome] + rest.value.1)
  {
    match rest
    case None => None
    case Some((tail, outcomes)) => Some((head + tail, [outcome] + outcomes))
  }

  lemma PartsUnfold<V, R, P>(tasks: seq<Task<V, R, P>>, lo: nat, head: seq<V>, tail: seq<V>)
    requires tasks != [] && Chain(tasks, lo, lo + |head + tail|) && |head| == tasks[0].hi - lo
    ensures Chain(tasks[1..], tasks[0].hi, tasks[0].hi + |tail|)
    ensures RunParts(tasks, lo, head + tail) ==
            match RunAlone(tasks[0].prog, head)
            case None => None
            case Some((head', outcome)) =>
              Attach(head', outcome, RunParts(tasks[1..], tasks[0].hi, tail))
  {
    assert (head + tail)[..|head|] == head && (head + tail)[|head|..] == tail;
  }

  ghost function Prepend<V, O>(done: seq<V>, r: Option<(seq<V>, seq<O>)>): Option<(seq<V>, seq<O>)> {
    match r
    case None => None
    case Some((cells, outcomes)) => Some((done + cells, outcomes))
  }

  lemma PrependNothing<V, O>(r: Option<(seq<V>, seq<O>)>)
    ensures Prepend([], r) == r
  {
    if r.Some? { assert [] + r.value.0 == r.value.0; }
  }

  lemma PrependAttach<V, O>(done: seq<V>, head: seq<V>, outcome: O, rest: Option<(seq<V>, seq<O>)>)
    ensures Record(outcome, Prepend(done + head, rest)) == Prepend(done, Attach(head, outcome, rest))
  {
    if rest.Some? {
      assert done + head + rest.value.0 == done + (head + rest.value.0);
    }
  }

  lemma PeelSplice<V, R, P>(t: Task<V, R, P>, done: seq<V>, head: seq<V>, tail: seq<V>, shard: seq<V>)
    requires t.lo == |done| && t.hi == |done| + |head| && |shard| == |head|
    ensures ShardOf(t, done + head + tail) == head
    ensures Splice(t, done + head + tail, shard) == done + shard + tail
  {
  }

  /** The inductive step of the next lemma. */
  lemma PeelStep<V, R, P>(tasks: seq<Task<V, R, P>>, done: seq<V>, head: seq<V>, tail: seq<V>, parts: Option<(seq<V>, seq<Outcome<R, P>>)>)
    requires tasks != [] && WellTiled(tasks, |done + head + tail|)
    requires tasks[0].lo == |done| && tasks[0].hi == |done| + |head|
    requires var ran := RunAlone(tasks[0].prog, head);
             ran.Some? ==>
               WellTiled(tasks[1..], |done + ran.value.0 + tail|)
               && OneByOne(tasks[1..], done + ran.value.0 + tail) == Prepend(done + ran.value.0, parts)
    ensures OneByOne(tasks, done + head + tail)
            == match RunAlone(tasks[0].prog, head)
               case None => None
               case Some((head', outcome)) => Prepend(done, Attach(head', outcome, parts))
  {
    var ran := RunAlone(tasks[0].prog, head);
    PeelSplice(tasks[0], done, head, tail, if ran.Some? then ran.value.0 else head);
    OneByOneHead(tasks, done + head + tail);
    if ran.Some? {
      PrependAttach(done, ran.value.0, ran.value.1, parts);
    }
  }

  /** On a chain the in-place left-to-right run is the front-to-back peeling. */
  lemma {:induction false} OneByOnePeels<V, R, P>(tasks: seq<Task<V, R, P>>, done: seq<V>, rest: seq<V>)
    requires Chain(tasks, |done|, |done| + |rest|) && WellTiled(tasks, |done + rest|)
    ensures OneByOne(tasks, done + rest) == Prepend(done, RunParts(tasks, |done|, rest))
    decreases |tasks|
  {
    if tasks != [] {
      ChainBounds(tasks, |done|, |done| + |rest|, 0);
      var mid := tasks[0].hi - |done|;
      var head, tail := rest[..mid], rest[mid..];
      assert rest == head + tail && done + rest == done + head + tail;
      PartsUnfold(tasks, |done|, head, tail);
      var ran := RunAlone(tasks[0].prog, head);
      if ran.Some? {
        OneByOnePeels(tasks[1..], done + ran.value.0, tail);
      }
      PeelStep(tasks, done, head, tail, RunParts(tasks[1..], tasks[0].hi, tail));
    }
  }

  lemma ChainRun<V, R, P>(tasks: seq<Task<V, R, P>>, cells: seq<V>)
    requires Chain(tasks, 0, |cells|)
    ensures WellTiled(tasks, |cells|) && OneByOne(tasks, cells) == RunParts(tasks, 0, cells)
  {
    ChainTiles(tasks, |cells|);
    OneByOnePeels(tasks, [], cells);
    assert [] + cells == cells;
    PrependNothing(RunParts(tasks, 0, cells));
  }

  /** A closure as a driver receives it: the start index and length of its shard
      give the program it runs. */
  type Closure<!V, R, P> = (nat, nat) -> Prog<V, R, P>

  ghost predicate RunsClosure<V, R, P>(t: Task<V, R, P>, f: Closure<V, R, P>) {
    t.lo <= t.hi && t.prog == f(t.lo, t.hi - t.lo)
  }

  /** Every task of the chain runs the same closure at its own start. */
  ghost predicate Runs<V, R, P>(tasks: seq<Task<V, R, P>>, f: Closure<V, R, P>) {
    forall i :: 0 <= i < |tasks| ==> RunsClosure(tasks[i], f)
  }

  // ------------------------------------------------ element-wise mutation

  /** Element `start + k` of the logical sequence set to `g(start + k, old)`. */
  ghost function Mapped<V>(g: (nat, V) -> V, start: nat, cells: seq<V>): (r: seq<V>)
    ensures |r| == |cells|
  {
    seq(|cells|, k requires 0 <= k < |cells| => g(start + k, cells[k]))
  }

  ghost predicate MapsShard<V, R, P>(f: Closure<V, R, P>, g: (nat, V) -> V, start: nat, shard: seq<V>) {
    var ran := RunAlone(f(start, |shard|), shard);
    ran.Some? && ran.value.0 == Mapped(g, start, shard)
  }

  /** The closure ends on every shard, leaving each element `k` as `g(k, old)`. */
  ghost predicate Elementwise<V(!new), R, P>(f: Closure<V, R, P>, g: (nat, V) -> V) {
    forall start: nat, shard: seq<V> :: MapsShard(f, g, start, shard)
  }

  lemma MappedConcat<V>(g: (nat, V) -> V, start: nat, a: seq<V>, b: seq<V>)
    ensures Mapped(g, start, a + b) == Mapped(g, start, a) + Mapped(g, start + |a|, b)
  {
  }

  lemma RunsTail<V, R, P>(tasks: seq<Task<V, R, P>>, f: Closure<V, R, P>)
    requires tasks != [] && Runs(tasks, f)
    ensures RunsClosure(tasks[0], f) && Runs(tasks[1..], f)
  {
    var tail := tasks[1..];
    forall i | 0 <= i < |tail|
      ensures RunsClosure(tail[i], f)
    {
      assert tail[i] == tasks[i + 1];
    }
  }

  lemma TailRuns<V, R, P>(tasks: seq<Task<V, R, P>>, lo: nat, hi: nat, f: Closure<V, R, P>)
    requires tasks != [] && Chain(tasks, lo, hi) && Runs(tasks, f)
    ensures Chain(tasks[1..], tasks[0].hi, hi) && Runs(tasks[1..], f)
    ensures tasks[0].lo == lo < tasks[0].hi <= hi && tasks[0].prog == f(lo, tasks[0].hi - lo)
  {
    ChainBounds(tasks, lo, hi, 0);
    RunsTail(tasks, f);
  }

  lemma {:induction false} ChainMaps<V(!new), R, P>(tasks: seq<Task<V, R, P>>, lo: nat, rest: seq<V>, f: Closure<V, R, P>, g: (nat, V) -> V)
    requires Chain(tasks, lo, lo + |rest|) && Runs(tasks, f) && Elementwise(f, g)
    ensures RunParts(tasks, lo, rest).Some? && RunParts(tasks, lo, rest).value.0 == Mapped(g, lo, rest)
    decreases |tasks|
  {
    if tasks != [] {
      TailRuns(tasks, lo, lo + |rest|, f);
      var mid := tasks[0].hi - lo;
      var head, tail := rest[..mid], rest[mid..];
      assert rest == head + tail;
      PartsUnfold(tasks, lo, head, tail);
      assert MapsShard(f, g, lo, head);
      ChainMaps(tasks[1..], tasks[0].hi, tail, f, g);
      MappedConcat(g, lo, head, tail);
    }
  }

  /** The left-to-right run of an element-wise closure over a whole region. */
  lemma RegionMaps<V(!new), R, P>(tasks: seq<Task<V, R, P>>, cells: seq<V>, f: Closure<V, R, P>, g: (nat, V) -> V)
    requires Chain(tasks, 0, |cells|) && Runs(tasks, f) && Elementwise(f, g)
    ensures WellTiled(tasks, |cells|)
    ensures OneByOne(tasks, cells).Some? && OneByOne(tasks, cells).value.0 == Mapped(g, 0, cells)
  {
    ChainRun(tasks, cells);
    ChainMaps(tasks, 0, cells, f, g);
  }

  // --------------------------------------------------------------- folds

  ghost predicate Associates<M>(op: (M, M) -> M, x: M, y: M, z: M) {
    op(op(x, y), z) == op(x, op(y, z))
  }

  ghost predicate HasUnit<M>(op: (M, M) -> M, unit: M, x: M) {
    op(unit, x) == x && op(x, unit) == x
  }

  ghost predicate Monoid<M(!new)>(op: (M, M) -> M, unit: M) {
    (forall x :: HasUnit(op, unit, x)) && (forall x, y, z :: Associates(op, x, y, z))
  }

  ghost function Fold<V, M>(op: (M, M) -> M, unit: M, h: V -> M, s: seq<V>): M
    decreases |s|
  {
    if s == [] then unit else op(h(s[0]), Fold(op, unit, h, s[1..]))
  }

  ghost function FoldAll<M>(op: (M, M) -> M, unit: M, s: seq<M>): M {
    if s == [] then unit else op(s[0], FoldAll(op, unit, s[1..]))
  }

  lemma {:induction false} FoldConcat<V, M(!new)>(op: (M, M) -> M, unit: M, h: V -> M, a: seq<V>, b: seq<V>)
    requires Monoid(op, unit)
    ensures Fold(op, unit, h, a + b) == op(Fold(op, unit, h, a), Fold(op, unit, h, b))
    decreases |a|
  {
    if a == [] {
      assert a + b == b;
      assert HasUnit(op, unit, Fold(op, unit, h, b));
    } else {
      assert (a + b)[1..] == a[1..] + b;
      FoldConcat(op, unit, h, a[1..], b);
      assert Associates(op, h(a[0]), Fold(op, unit, h, a[1..]), Fold(op, unit, h, b));
    }
  }

  ghost predicate FoldsShard<V, M, P>(f: Closure<V, M, P>, op: (M, M) -> M, unit: M, h: V -> M, start: nat, shard: seq<V>) {
    RunAlone(f(start, |shard|), shard) == Some((shard, Ok(Fold(op, unit, h, shard))))
  }

  /** The closure only reads, and returns the fold of its shard. */
  ghost predicate FoldsShards<V(!new), M, P>(f: Closure<V, M, P>, op: (M, M) -> M, unit: M, h: V -> M) {
    forall start: nat, shard: seq<V> :: FoldsShard(f, op, unit, h, start, shard)
  }

  /** A run over `cells` that ended without panic, left them alone, and whose
      results fold to the fold of the cells. */
  ghost predicate FoldsTo<V, M(!new), P>(r: Option<(seq<V>, seq<Outcome<M, P>>)>, cells: seq<V>, op: (M, M) -> M, unit: M, h: V -> M) {
    && r.Some? && r.value.0 == cells
    && PanicFree(r.value.1) && FoldAll(op, unit, Values(r.value.1)) == Fold(op, unit, h, cells)
  }

  lemma AttachFolds<V, M(!new), P>(head: seq<V>, tail: seq<V>, rest: Option<(seq<V>, seq<Outcome<M, P>>)>,
                                   op: (M, M) -> M, unit: M, h: V -> M)
    requires Monoid(op, unit) && FoldsTo(rest, tail, op, unit, h)
    ensures FoldsTo(Attach(head, Ok(Fold(op, unit, h, head)), rest), head + tail, op, unit, h)
  {
    FoldConcat(op, unit, h, head, tail);
    var outcomes: seq<Outcome<M, P>> := [Ok(Fold(op, unit, h, head))] + rest.value.1;
    assert Values(outcomes)[1..] == Values(rest.value.1);
  }

  /** Folding the per-shard folds gives the fold of the whole, however it is cut. */
  lemma {:induction false} ChainFolds<V(!new), M(!new), P>(tasks: seq<Task<V, M, P>>, lo: nat, rest: seq<V>, f: Closure<V, M, P>,
                                                           op: (M, M) -> M, unit: M, h: V -> M)
    requires Chain(tasks, lo, lo + |rest|) && Runs(tasks, f) && Monoid(op, unit) && FoldsShards(f, op, unit, h)
    ensures FoldsTo(RunParts(tasks, lo, rest), rest, op, unit, h)
    decreases |tasks|
  {
    if tasks != [] {
      TailRuns(tasks, lo, lo + |rest|, f);
      var mid := tasks[0].hi - lo;
      var head, tail := rest[..mid], rest[mid..];
      assert rest == head + tail;
      PartsUnfold(tasks, lo, head, tail);
      assert FoldsShard(f, op, unit, h, lo, head);
      ChainFolds(tasks[1..], tasks[0].hi, tail, f, op, unit, h);
      AttachFolds(head, tail, RunParts(tasks[1..], tasks[0].hi, tail), op, unit, h);
    }
  }

  lemma RegionFolds<V(!new), M(!new), P>(tasks: seq<Task<V, M, P>>, cells: seq<V>, f: Closure<V, M, P>,
                                         op: (M, M) -> M, unit: M, h: V -> M)
    requires Chain(tasks, 0, |cells|) && Runs(tasks, f) && Monoid(op, unit) && FoldsShards(f, op, unit, h)
    ensures WellTiled(tasks, |cells|) && FoldsTo(OneByOne(tasks, cells), cells, op, unit, h)
  {
    ChainRun(tasks, cells);
    ChainFolds(tasks, 0, cells, f, op, unit, h);
  }

  // ------------------------------- concrete closures meeting these contracts

  /** `for slot in shard { *slot = g(index, *slot) }`: block `j` updates slot `j`
      and goes on with the next one. */
  function MapLoop<V, R, P>(start: nat, len: nat, g: (nat, V) -> V, result: R): Prog<V, R, P> {
    Prog((j: nat) => if j >= len then Return(result) else Read(j, v => Write(j, g(start + j, v), Goto(j + 1))))
  }

  lemma MappedNext<V>(g: (nat, V) -> V, start: nat, j: nat, shard: seq<V>)
    requires j < |shard|
    ensures var shard' := shard[j := g(start + j, shard[j])];
            shard'[..j + 1] + Mapped(g, start + j + 1, shard'[j + 1..]) == shard[..j] + Mapped(g, start + j, shard[j..])
  {
    var shard' := shard[j := g(start + j, shard[j])];
    var x, y := shard'[..j + 1] + Mapped(g, start + j + 1, shard'[j + 1..]), shard[..j] + Mapped(g, start + j, shard[j..]);
    forall k | 0 <= k < |shard|
      ensures x[k] == y[k]
    {
    }
  }

  /** One turn of the loop takes three steps: read, write, jump. */
  lemma MapLoopTurn<V, R, P>(start: nat, j: nat, g: (nat, V) -> V, result: R, shard: seq<V>)
    requires j < |shard|
    ensures var prog: Prog<V, R, P> := MapLoop(start, |shard|, g, result);
            Finish(prog, Running(prog.blocks(j)), shard)
            == Finish(prog, Running(prog.blocks(j + 1)), shard[j := g(start + j, shard[j])])
  {
    var prog: Prog<V, R, P> := MapLoop(start, |shard|, g, result);
    var v := g(start + j, shard[j]);
    FinishStep(prog, Running(prog.blocks(j)), shard);
    FinishStep(prog, Running(Write(j, v, Goto(j + 1))), shard);
    FinishStep(prog, Running(Goto(j + 1)), shard[j := v]);
  }

  lemma {:induction false} MapLoopRuns<V, R, P>(start: nat, j: nat, g: (nat, V) -> V, result: R, shard: seq<V>)
    requires j <= |shard|
    ensures var prog: Prog<V, R, P> := MapLoop(start, |shard|, g, result);
            Finish(prog, Running(prog.blocks(j)), shard) == Some((shard[..j] + Mapped(g, start + j, shard[j..]), Ok(result)))
    decreases |shard| - j
  {
    if j == |shard| {
      var prog: Prog<V, R, P> := MapLoop(start, |shard|, g, result);
      FinishStep(prog, Running(prog.blocks(j)), shard);
      FinishIn(prog, Done(Ok(result)), shard, 0);
      assert shard[..j] + Mapped(g, start + j, shard[j..]) == shard;
    } else {
      MapLoopTurn<V, R, P>(start, j, g, result, shard);
      MappedNext(g, start, j, shard);
      MapLoopRuns<V, R, P>(start, j + 1, g, result, shard[j := g(start + j, shard[j])]);
    }
  }

  /** The plain mutation loop is element-wise, so the contract above is met. */
  lemma MapLoopIsElementwise<V(!new), R, P>(g: (nat, V) -> V, result: R, f: Closure<V, R, P>)
    requires forall start: nat, len: nat :: f(start, len) == MapLoop(start, len, g, result)
    ensures Elementwise(f, g)
  {
    forall start: nat, shard: seq<V>
      ensures MapsShard(f, g, start, shard)
    {
      FinishStep(f(start, |shard|), Idle, shard);
      MapLoopRuns<V, R, P>(start, 0, g, result, shard);
      assert shard[..0] + Mapped(g, start + 0, shard[0..]) == Mapped(g, start, shard) by { assert shard[0..] == shard; }
    }
  }

  /** `shard.iter().fold(..)`, accumulating from the left. */
  function FoldLoop<V, M, P>(len: nat, j: nat, acc: M, op: (M, M) -> M, h: V -> M): Code<V, M, P>
    requires j <= len
    decreases len - j
  {
    if j == len then Return(acc) else Read(j, v => FoldLoop(len, j + 1, op(acc, h(v)), op, h))
  }

  lemma {:induction false} FoldLoopRuns<V, M(!new), P>(j: nat, acc: M, op: (M, M) -> M, unit: M, h: V -> M, prog: Prog<V, M, P>, shard: seq<V>)
    requires j <= |shard| && Monoid(op, unit)
    ensures var rest: Code<V, M, P> := FoldLoop(|shard|, j, acc, op, h);
            Finish(prog, Running(rest), shard) == Some((shard, Ok(op(acc, Fold(op, unit, h, shard[j..])))))
    decreases |shard| - j
  {
    var rest: Code<V, M, P> := FoldLoop(|shard|, j, acc, op, h);
    FinishStep(prog, Running(rest), shard);
    if j == |shard| {
      FinishIn(prog, Done(Ok(acc)), shard, 0);
      assert HasUnit(op, unit, acc);
    } else {
      assert Associates(op, acc, h(shard[j]), Fold(op, unit, h, shard[j + 1..]));
      FoldLoopRuns(j + 1, op(acc, h(shard[j])), op, unit, h, prog, shard);
      assert shard[j..][1..] == shard[j + 1..];
    }
  }

  lemma FoldLoopFolds<V(!new), M(!new), P>(op: (M, M) -> M, unit: M, h: V -> M, f: Closure<V, M, P>)
    requires Monoid(op, unit)
    requires forall start: nat, len: nat :: f(start, len).blocks(0) == FoldLoop(len, 0, unit, op, h)
    ensures FoldsShards(f, op, unit, h)
  {
    forall start: nat, shard: seq<V>
      ensures FoldsShard(f, op, unit, h, start, shard)
    {
      var prog := f(start, |shard|);
      FinishStep(prog, Idle, shard);
      FoldLoopRuns(0, unit, op, unit, h, prog, shard);
      assert HasUnit(op, unit, Fold(op, unit, h, shard));
      assert shard[0..] == shard;
    }
  }
}
