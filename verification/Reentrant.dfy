/** Re-entrancy gates (src/reentrant/reset.rs, guarded.rs, gate.rs).

    A thread's use of `k` gated cells is a program that enters cells, panics,
    catches, inspects and updates, nested in any way. A `ReentrancyCell` is a
    cell whose borrow is the exclusive token. */
module Reentrant {
  import opened Base

  datatype Prog<!V> =
    | Skip
    | Then(first: Prog<V>, second: Prog<V>)
    | Panic
    | Catch(body: Prog<V>)
    | Enter(cell: nat, body: Prog<V>, refused: Prog<V>)
    | EnterUnguarded(cell: nat, body: Prog<V>, refused: Prog<V>)
    | Update(cell: nat, g: V -> V)
    | IfActive(cell: nat, yes: Prog<V>, no: Prog<V>)

  datatype Borrow = Guarded(cell: nat) | Unguarded(cell: nat)

  /** The cells' flags and values, and the stack of borrows in progress. */
  datatype State<!V> = State(active: seq<bool>, values: seq<V>, live: seq<Borrow>)

  /** Every cell a program names exists. */
  ghost predicate Over<V>(p: Prog<V>, k: nat) {
    match p
    case Skip => true
    case Panic => true
    case Then(a, b) => Over(a, k) && Over(b, k)
    case Catch(b) => Over(b, k)
    case Enter(c, b, r) => c < k && Over(b, k) && Over(r, k)
    case EnterUnguarded(c, b, r) => c < k && Over(b, k) && Over(r, k)
    case Update(c, _) => c < k
    case IfActive(c, y, n) => c < k && Over(y, k) && Over(n, k)
  }

  predicate Holds(live: seq<Borrow>, cell: nat) {
    Guarded(cell) in live || Unguarded(cell) in live
  }

  /** How a program ends: the state, whether it panicked, and every state it
      went through. */
  datatype Run<!V> = Run(end: State<V>, panicked: bool, trace: seq<State<V>>)

  ghost predicate Sized<V>(s: State<V>, k: nat) {
    |s.active| == |s.values| == k
  }

  /** `Reset::acquire` and the borrow it protects. */
  function Acquire<V>(s: State<V>, cell: nat): State<V>
    requires cell < |s.active|
  {
    s.(active := s.active[cell := true], live := s.live + [Guarded(cell)])
  }

  function PopBorrow(live: seq<Borrow>): seq<Borrow> {
    if live == [] then [] else live[..|live| - 1]
  }

  /** `Drop for Reset`, on return and on unwind alike. */
  function Release<V>(s: State<V>, cell: nat): State<V>
    requires cell < |s.active|
  {
    s.(active := s.active[cell := false], live := PopBorrow(s.live))
  }

  ghost function Exec<V>(p: Prog<V>, s: State<V>, k: nat): (r: Run<V>)
    requires Over(p, k) && Sized(s, k)
    ensures Sized(r.end, k)
    decreases p
  {
    match p
    case Skip => Run(s, false, [s])
    case Panic => Run(s, true, [s])
    case Then(a, b) =>
      var ra := Exec(a, s, k);
      if ra.panicked then ra
      else var rb := Exec(b, ra.end, k); Run(rb.end, rb.panicked, ra.trace + rb.trace)
    case Catch(b) => var r := Exec(b, s, k); Run(r.end, false, r.trace)
    case Enter(c, body, refused) =>
      if s.active[c] then Exec(refused, s, k)
      else
        var s1 := Acquire(s, c);
        var r := Exec(body, s1, k);
        Run(Release(r.end, c), r.panicked, [s1] + r.trace + [Release(r.end, c)])
    case EnterUnguarded(c, body, refused) =>
      if s.active[c] then Exec(refused, s, k)
      else
        var s1 := s.(live := s.live + [Unguarded(c)]);
        var r := Exec(body, s1, k);
        var s2 := r.end.(live := PopBorrow(r.end.live));
        Run(s2, r.panicked, [s1] + r.trace + [s2])
    case Update(c, g) =>
      var s1 := if Holds(s.live, c) then s.(values := s.values[c := g(s.values[c])]) else s;
      Run(s1, false, [s1])
    case IfActive(c, yes, no) => if s.active[c] then Exec(yes, s, k) else Exec(no, s, k)
  }

  // --------------------------------------------------------- restoration

  /** Every sub-program, however it ends, leaves flags and borrows as it found them. */
  lemma {:induction false} FlagsRestored<V>(p: Prog<V>, s: State<V>, k: nat)
    requires Over(p, k) && Sized(s, k)
    ensures Exec(p, s, k).end.active == s.active && Exec(p, s, k).end.live == s.live
    decreases p
  {
    match p
    case Then(a, b) =>
      FlagsRestored(a, s, k);
      FlagsRestored(b, Exec(a, s, k).end, k);
    case Catch(b) => FlagsRestored(b, s, k);
    case Enter(c, body, refused) =>
      if s.active[c] { FlagsRestored(refused, s, k); } else { FlagsRestored(body, Acquire(s, c), k); }
    case EnterUnguarded(c, body, refused) =>
      if s.active[c] { FlagsRestored(refused, s, k); }
      else { FlagsRestored(body, s.(live := s.live + [Unguarded(c)]), k); }
    case IfActive(c, yes, no) =>
      FlagsRestored(yes, s, k);
      FlagsRestored(no, s, k);
    case _ =>
  }

  // ------------------------------------------------- the flag's meaning

  /** No cell has two guarded borrows on the stack. */
  ghost predicate GuardsDistinct(live: seq<Borrow>) {
    forall i, j :: 0 <= i < j < |live| && live[i].Guarded? ==> live[i] != live[j]
  }

  /** A flag is true exactly while a guarded borrow of its cell is live. */
  ghost predicate FlagsTell<V>(s: State<V>, k: nat) {
    && Sized(s, k)
    && (forall c :: 0 <= c < k ==> (s.active[c] <==> Guarded(c) in s.live))
    && (forall b :: b in s.live ==> b.cell < k)
    && GuardsDistinct(s.live)
  }

  ghost predicate Always<V>(trace: seq<State<V>>, k: nat) {
    forall i :: 0 <= i < |trace| ==> FlagsTell(trace[i], k)
  }

  lemma AlwaysConcat<V>(a: seq<State<V>>, b: seq<State<V>>, k: nat)
    requires Always(a, k) && Always(b, k)
    ensures Always(a + b, k)
  {
  }

  lemma PushTells<V>(s: State<V>, c: nat, k: nat)
    requires FlagsTell(s, k) && c < k && !s.active[c]
    ensures FlagsTell(Acquire(s, c), k)
    ensures FlagsTell(s.(live := s.live + [Unguarded(c)]), k)
  {
    var live' := Acquire(s, c).live;
    forall d | 0 <= d < k
      ensures Acquire(s, c).active[d] <==> Guarded(d) in live'
    {
      if d == c { assert live'[|s.live|] == Guarded(c); }
    }
  }

  /** Throughout any nesting with panics and catches, in every state passed
      through, a flag is true exactly while a guarded borrow of its cell is live,
      and no cell has two guarded borrows. */
  lemma {:induction false} FlagsAlwaysTell<V>(p: Prog<V>, s: State<V>, k: nat)
    requires Over(p, k) && FlagsTell(s, k)
    ensures Always(Exec(p, s, k).trace, k) && FlagsTell(Exec(p, s, k).end, k)
    decreases p
  {
    FlagsRestored(p, s, k);
    match p
    case Then(a, b) =>
      FlagsAlwaysTell(a, s, k);
      var ra := Exec(a, s, k);
      if !ra.panicked {
        FlagsAlwaysTell(b, ra.end, k);
        AlwaysConcat(ra.trace, Exec(b, ra.end, k).trace, k);
      }
    case Catch(b) => FlagsAlwaysTell(b, s, k);
    case Enter(c, body, refused) =>
      if s.active[c] { FlagsAlwaysTell(refused, s, k); }
      else {
        PushTells(s, c, k);
        FlagsAlwaysTell(body, Acquire(s, c), k);
        var r := Exec(body, Acquire(s, c), k);
        AlwaysConcat([Acquire(s, c)], r.trace, k);
        AlwaysConcat([Acquire(s, c)] + r.trace, [Release(r.end, c)], k);
      }
    case EnterUnguarded(c, body, refused) =>
      if s.active[c] { FlagsAlwaysTell(refused, s, k); }
      else {
        PushTells(s, c, k);
        var s1 := s.(live := s.live + [Unguarded(c)]);
        FlagsAlwaysTell(body, s1, k);
        var r := Exec(body, s1, k);
        AlwaysConcat([s1], r.trace, k);
        AlwaysConcat([s1] + r.trace, [r.end.(live := PopBorrow(r.end.live))], k);
      }
    case IfActive(c, yes, no) =>
      FlagsAlwaysTell(yes, s, k);
      FlagsAlwaysTell(no, s, k);
    case _ =>
  }

  /** At every moment of every run, entering a cell either way is refused exactly
      while a guarded borrow of it is live: then the closure does not run and the
      fallback starts from the unchanged state; otherwise the borrow begins. */
  lemma RefusedWhileBorrowed<V>(p: Prog<V>, s: State<V>, k: nat, i: nat, c: nat, body: Prog<V>, refused: Prog<V>)
    requires Over(p, k) && FlagsTell(s, k) && i < |Exec(p, s, k).trace|
    requires c < k && Over(body, k) && Over(refused, k)
    ensures var t := Exec(p, s, k).trace[i];
            && Sized(t, k)
            && var guarded, unguarded := Exec(Enter(c, body, refused), t, k), Exec(EnterUnguarded(c, body, refused), t, k);
               if Guarded(c) in t.live then guarded == unguarded == Exec(refused, t, k)
               else
                 && guarded.trace != [] && guarded.trace[0].live == t.live + [Guarded(c)]
                 && unguarded.trace != [] && unguarded.trace[0].live == t.live + [Unguarded(c)]
  {
    FlagsAlwaysTell(p, s, k);
    assert FlagsTell(Exec(p, s, k).trace[i], k);
  }

  // ----------------------------------------------------------- the depth

  ghost function GuardedCells(live: seq<Borrow>): seq<nat> {
    if live == [] then []
    else GuardedCells(live[..|live| - 1]) + (if live[|live| - 1].Guarded? then [live[|live| - 1].cell] else [])
  }

  lemma {:induction false} GuardedCellsIn(live: seq<Borrow>, c: nat)
    ensures c in GuardedCells(live) <==> Guarded(c) in live
  {
    if live != [] {
      GuardedCellsIn(live[..|live| - 1], c);
      assert live == live[..|live| - 1] + [live[|live| - 1]];
    }
  }

  lemma {:induction false} GuardedCellsDistinct(live: seq<Borrow>)
    requires GuardsDistinct(live)
    ensures Distinct(GuardedCells(live))
  {
    if live != [] {
      GuardedCellsDistinct(live[..|live| - 1]);
      var last := live[|live| - 1];
      if last.Guarded? {
        GuardedCellsIn(live[..|live| - 1], last.cell);
      }
    }
  }

  lemma {:induction false} Pigeonhole(s: seq<nat>, k: nat)
    requires Distinct(s) && forall i :: 0 <= i < |s| ==> s[i] < k
    ensures |s| <= k
    decreases k
  {
    assert s != [] ==> s[0] < k;
    if k > 0 {
      if i :| 0 <= i < |s| && s[i] == k - 1 {
        var t := s[..i] + s[i + 1..];
        assert forall j :: 0 <= j < |t| ==> t[j] == s[if j < i then j else j + 1];
        Pigeonhole(t, k - 1);
      } else {
        Pigeonhole(s, k - 1);
      }
    }
  }

  /** Guarded nesting never goes deeper than the number of cells. */
  lemma DepthBounded<V>(p: Prog<V>, s: State<V>, k: nat, i: nat)
    requires Over(p, k) && FlagsTell(s, k) && i < |Exec(p, s, k).trace|
    ensures |GuardedCells(Exec(p, s, k).trace[i].live)| <= k
  {
    FlagsAlwaysTell(p, s, k);
    var live := Exec(p, s, k).trace[i].live;
    assert FlagsTell(Exec(p, s, k).trace[i], k);
    GuardedCellsDistinct(live);
    forall j | 0 <= j < |GuardedCells(live)|
      ensures GuardedCells(live)[j] < k
    {
      GuardedCellsIn(live, GuardedCells(live)[j]);
    }
    Pigeonhole(GuardedCells(live), k);
  }

  // ----------------------------------------------------------- exclusivity

  /** No cell has two live borrows of any kind. */
  ghost predicate Exclusive(live: seq<Borrow>) {
    forall i, j :: 0 <= i < j < |live| ==> live[i].cell != live[j].cell
  }

  ghost predicate AllExclusive<V>(trace: seq<State<V>>) {
    forall i :: 0 <= i < |trace| ==> Exclusive(trace[i].live)
  }

  /** The safety contract of `enter_unguarded`, as the run goes: no call that is
      reached enters a cell, either way, from inside an unguarded borrow of it. */
  ghost predicate Obeys<V>(p: Prog<V>, s: State<V>, k: nat)
    requires Over(p, k) && Sized(s, k)
    decreases p
  {
    match p
    case Then(a, b) => Obeys(a, s, k) && (!Exec(a, s, k).panicked ==> Obeys(b, Exec(a, s, k).end, k))
    case Catch(b) => Obeys(b, s, k)
    case Enter(c, body, refused) =>
      && Unguarded(c) !in s.live
      && if s.active[c] then Obeys(refused, s, k) else Obeys(body, Acquire(s, c), k)
    case EnterUnguarded(c, body, refused) =>
      && Unguarded(c) !in s.live
      && if s.active[c] then Obeys(refused, s, k) else Obeys(body, s.(live := s.live + [Unguarded(c)]), k)
    case IfActive(c, yes, no) => if s.active[c] then Obeys(yes, s, k) else Obeys(no, s, k)
    case _ => true
  }

  lemma ExclusiveConcat<V>(a: seq<State<V>>, b: seq<State<V>>)
    ensures AllExclusive(a + b) <==> AllExclusive(a) && AllExclusive(b)
  {
    if AllExclusive(a + b) {
      forall i | 0 <= i < |a|
        ensures Exclusive(a[i].live)
      {
        assert (a + b)[i] == a[i];
      }
      forall i | 0 <= i < |b|
        ensures Exclusive(b[i].live)
      {
        assert (a + b)[|a| + i] == b[i];
      }
    }
  }

  /** A new borrow stays the only one of its cell exactly when the cell has none. */
  lemma PushExclusive<V>(s: State<V>, k: nat, b: Borrow)
    requires FlagsTell(s, k) && b.cell < k && Exclusive(s.live) && !s.active[b.cell]
    ensures Exclusive(s.live + [b]) <==> Unguarded(b.cell) !in s.live
  {
    var live := s.live + [b];
    if i :| 0 <= i < |s.live| && s.live[i].cell == b.cell {
      assert s.live[i] in s.live;
      assert live[i].cell == live[|s.live|].cell;
    }
  }

  /** A flag that is set leaves no room for an unguarded borrow of its cell. */
  lemma GuardedAlone<V>(s: State<V>, k: nat, c: nat)
    requires FlagsTell(s, k) && Exclusive(s.live) && c < k && s.active[c]
    ensures Unguarded(c) !in s.live
  {
    var i :| 0 <= i < |s.live| && s.live[i] == Guarded(c);
    forall j | 0 <= j < |s.live|
      ensures s.live[j] != Unguarded(c)
    {
      assert i < j ==> s.live[i].cell != s.live[j].cell;
      assert j < i ==> s.live[j].cell != s.live[i].cell;
    }
  }

  /** One borrow around a body: exclusive throughout exactly when its first state
      is and the body's run is. */
  lemma BracketExclusive<V>(s: State<V>, begun: State<V>, inner: seq<State<V>>, closed: State<V>)
    requires Exclusive(s.live) && closed.live == s.live
    ensures AllExclusive([begun] + inner + [closed]) <==> Exclusive(begun.live) && AllExclusive(inner)
  {
    ExclusiveConcat([begun], inner);
    ExclusiveConcat([begun] + inner, [closed]);
    assert AllExclusive([begun]) <==> Exclusive([begun][0].live);
    assert AllExclusive([closed]) <==> Exclusive([closed][0].live);
  }

  /** No cell ever has two live borrows exactly when the run obeys the contract:
      the `&mut` handed to a closure is then unaliased for the whole call, and
      every breach that is reached does alias one. */
  lemma {:induction false} BorrowsExclusive<V>(p: Prog<V>, s: State<V>, k: nat)
    requires Over(p, k) && FlagsTell(s, k) && Exclusive(s.live)
    ensures AllExclusive(Exec(p, s, k).trace) <==> Obeys(p, s, k)
    decreases p, 1
  {
    match p
    case Then(a, b) =>
      BorrowsExclusive(a, s, k);
      FlagsRestored(a, s, k);
      FlagsAlwaysTell(a, s, k);
      var ra := Exec(a, s, k);
      if !ra.panicked {
        BorrowsExclusive(b, ra.end, k);
        ExclusiveConcat(ra.trace, Exec(b, ra.end, k).trace);
      }
    case Catch(b) => BorrowsExclusive(b, s, k);
    case Enter(c, body, refused) => EntryExclusive(p, s, k);
    case EnterUnguarded(c, body, refused) => EntryExclusive(p, s, k);
    case IfActive(c, yes, no) =>
      if s.active[c] { BorrowsExclusive(yes, s, k); } else { BorrowsExclusive(no, s, k); }
    case _ => assert Exec(p, s, k).trace[0].live == s.live;
  }

  lemma {:induction false} EntryExclusive<V>(p: Prog<V>, s: State<V>, k: nat)
    requires Over(p, k) && FlagsTell(s, k) && Exclusive(s.live) && (p.Enter? || p.EnterUnguarded?)
    ensures AllExclusive(Exec(p, s, k).trace) <==> Obeys(p, s, k)
    decreases p, 0
  {
    var c := p.cell;
    if s.active[c] {
      GuardedAlone(s, k, c);
      BorrowsExclusive(p.refused, s, k);
    } else {
      var b := if p.Enter? then Guarded(c) else Unguarded(c);
      var begun := if p.Enter? then Acquire(s, c) else s.(live := s.live + [b]);
      PushTells(s, c, k);
      PushExclusive(s, k, b);
      FlagsRestored(p.body, begun, k);
      FlagsRestored(p, s, k);
      BracketExclusive(s, begun, Exec(p.body, begun, k).trace, Exec(p, s, k).end);
      if Exclusive(begun.live) {
        BorrowsExclusive(p.body, begun, k);
      }
    }
  }

  /** The program never calls `enter` or `enter_unguarded` on the cell. */
  ghost predicate Avoids<V>(p: Prog<V>, cell: nat) {
    match p
    case Then(a, b) => Avoids(a, cell) && Avoids(b, cell)
    case Catch(b) => Avoids(b, cell)
    case Enter(c, b, r) => c != cell && Avoids(b, cell) && Avoids(r, cell)
    case EnterUnguarded(c, b, r) => c != cell && Avoids(b, cell) && Avoids(r, cell)
    case IfActive(_, y, n) => Avoids(y, cell) && Avoids(n, cell)
    case _ => true
  }

  /** A check on the text alone: no closure of `enter_unguarded` names an entry of
      the same cell. */
  ghost predicate Contract<V>(p: Prog<V>) {
    match p
    case Then(a, b) => Contract(a) && Contract(b)
    case Catch(b) => Contract(b)
    case Enter(_, b, r) => Contract(b) && Contract(r)
    case EnterUnguarded(c, b, r) => Avoids(b, c) && Contract(b) && Contract(r)
    case IfActive(_, y, n) => Contract(y) && Contract(n)
    case _ => true
  }

  ghost predicate AvoidsLive<V>(p: Prog<V>, live: seq<Borrow>) {
    forall b :: b in live && b.Unguarded? ==> Avoids(p, b.cell)
  }

  /** A program whose text keeps the contract obeys it on every run. */
  lemma {:induction false} ContractObeys<V>(p: Prog<V>, s: State<V>, k: nat)
    requires Over(p, k) && Sized(s, k) && Contract(p) && AvoidsLive(p, s.live)
    ensures Obeys(p, s, k)
    decreases p
  {
    match p
    case Then(a, b) =>
      ContractObeys(a, s, k);
      FlagsRestored(a, s, k);
      ContractObeys(b, Exec(a, s, k).end, k);
    case Catch(b) => ContractObeys(b, s, k);
    case Enter(c, body, refused) =>
      if s.active[c] { ContractObeys(refused, s, k); } else { ContractObeys(body, Acquire(s, c), k); }
    case EnterUnguarded(c, body, refused) =>
      if s.active[c] { ContractObeys(refused, s, k); }
      else { ContractObeys(body, s.(live := s.live + [Unguarded(c)]), k); }
    case IfActive(c, yes, no) =>
      if s.active[c] { ContractObeys(yes, s, k); } else { ContractObeys(no, s, k); }
    case _ =>
  }

  /** The contract can be broken: entering the same cell from inside an unguarded
      borrow creates a second one. Naming the entry without reaching it does not. */
  lemma ContractNeeded<V>(v: V)
    ensures var s := State([false], [v], []);
            var nested: Prog<V> := Enter(0, Skip, Skip);
            var reached, unreached := EnterUnguarded(0, nested, Skip), EnterUnguarded(0, IfActive(0, nested, Skip), Skip);
            && Over(reached, 1) && Over(unreached, 1) && FlagsTell(s, 1) && Exclusive(s.live)
            && !Contract(reached) && !Obeys(reached, s, 1) && !AllExclusive(Exec(reached, s, 1).trace)
            && !Contract(unreached) && Obeys(unreached, s, 1) && AllExclusive(Exec(unreached, s, 1).trace)
  {
    var s := State([false], [v], []);
    var nested: Prog<V> := Enter(0, Skip, Skip);
    BorrowsExclusive(EnterUnguarded(0, nested, Skip), s, 1);
    BorrowsExclusive(EnterUnguarded(0, IfActive(0, nested, Skip), Skip), s, 1);
  }

  // ------------------------------------------------------ who may write

  /** From one state to the next, the cell's value changes only under a borrow
      that is live already, and that step leaves flags and borrows alone. */
  ghost predicate WriteFramed<V>(s: State<V>, s': State<V>, c: nat) {
    && c < |s.values| && c < |s'.values|
    && (s.values[c] != s'.values[c] ==> Holds(s.live, c) && s'.live == s.live && s'.active == s.active)
  }

  ghost predicate Framed<V>(states: seq<State<V>>, c: nat) {
    forall i :: 0 <= i < |states| - 1 ==> WriteFramed(states[i], states[i + 1], c)
  }

  /** A run's trace ends in its last state. */
  lemma {:induction false} TraceEnds<V>(p: Prog<V>, s: State<V>, k: nat)
    requires Over(p, k) && Sized(s, k)
    ensures var r := Exec(p, s, k); r.trace != [] && r.trace[|r.trace| - 1] == r.end
    decreases p
  {
    match p
    case Then(a, b) =>
      TraceEnds(a, s, k);
      if !Exec(a, s, k).panicked { TraceEnds(b, Exec(a, s, k).end, k); }
    case Catch(b) => TraceEnds(b, s, k);
    case Enter(c, body, refused) =>
      if s.active[c] { TraceEnds(refused, s, k); }
    case EnterUnguarded(c, body, refused) =>
      if s.active[c] { TraceEnds(refused, s, k); }
    case IfActive(c, yes, no) =>
      if s.active[c] { TraceEnds(yes, s, k); } else { TraceEnds(no, s, k); }
    case _ =>
  }

  /** Two framed stretches, the second starting where the first ends. */
  lemma FramedConcat<V>(s: State<V>, a: seq<State<V>>, b: seq<State<V>>, c: nat)
    requires a != [] && Framed([s] + a, c) && Framed([a[|a| - 1]] + b, c)
    ensures Framed([s] + (a + b), c)
  {
    var whole, front, back := [s] + (a + b), [s] + a, [a[|a| - 1]] + b;
    forall i | 0 <= i < |whole| - 1
      ensures WriteFramed(whole[i], whole[i + 1], c)
    {
      if i < |a| {
        assert whole[i] == front[i] && whole[i + 1] == front[i + 1];
      } else {
        assert whole[i] == back[i - |a|] && whole[i + 1] == back[i - |a| + 1];
      }
    }
  }

  lemma FramedPair<V>(s: State<V>, s': State<V>, c: nat)
    requires WriteFramed(s, s', c)
    ensures Framed([s] + [s'], c)
  {
  }

  lemma BracketFramed<V>(s: State<V>, begun: State<V>, inner: seq<State<V>>, closed: State<V>, c: nat)
    requires c < |s.values| && inner != [] && Framed([begun] + inner, c)
    requires begun.values == s.values && closed.values == inner[|inner| - 1].values && c < |closed.values|
    ensures Framed([s] + ([begun] + inner + [closed]), c)
  {
    var last := inner[|inner| - 1];
    FramedPair(s, begun, c);
    FramedConcat(s, [begun], inner, c);
    FramedPair(last, closed, c);
    assert ([begun] + inner)[|inner|] == last;
    FramedConcat(s, [begun] + inner, [closed], c);
  }

  /** Throughout any run, a value changes only while a borrow of its cell is live. */
  lemma {:induction false} ValueFramed<V>(p: Prog<V>, s: State<V>, k: nat, c: nat)
    requires Over(p, k) && Sized(s, k) && c < k
    ensures Framed([s] + Exec(p, s, k).trace, c)
    decreases p
  {
    match p
    case Then(a, b) =>
      ValueFramed(a, s, k, c);
      var ra := Exec(a, s, k);
      TraceEnds(a, s, k);
      if !ra.panicked {
        ValueFramed(b, ra.end, k, c);
        FramedConcat(s, ra.trace, Exec(b, ra.end, k).trace, c);
      }
    case Catch(b) => ValueFramed(b, s, k, c);
    case Enter(d, body, refused) =>
      if s.active[d] { ValueFramed(refused, s, k, c); }
      else {
        var begun := Acquire(s, d);
        ValueFramed(body, begun, k, c);
        TraceEnds(body, begun, k);
        BracketFramed(s, begun, Exec(body, begun, k).trace, Exec(p, s, k).end, c);
      }
    case EnterUnguarded(d, body, refused) =>
      if s.active[d] { ValueFramed(refused, s, k, c); }
      else {
        var begun := s.(live := s.live + [Unguarded(d)]);
        ValueFramed(body, begun, k, c);
        TraceEnds(body, begun, k);
        BracketFramed(s, begun, Exec(body, begun, k).trace, Exec(p, s, k).end, c);
      }
    case IfActive(d, yes, no) =>
      if s.active[d] { ValueFramed(yes, s, k, c); } else { ValueFramed(no, s, k, c); }
    case _ => FramedPair(s, Exec(p, s, k).end, c);
  }

  /** A program that never enters a cell nobody has borrowed leaves its value alone. */
  lemma {:induction false} AvoidedValueKept<V>(p: Prog<V>, s: State<V>, k: nat, c: nat)
    requires Over(p, k) && Sized(s, k) && c < k && !Holds(s.live, c) && Avoids(p, c)
    ensures Exec(p, s, k).end.values[c] == s.values[c]
    decreases p
  {
    match p
    case Then(a, b) =>
      AvoidedValueKept(a, s, k, c);
      FlagsRestored(a, s, k);
      AvoidedValueKept(b, Exec(a, s, k).end, k, c);
    case Catch(b) => AvoidedValueKept(b, s, k, c);
    case Enter(d, body, refused) =>
      if s.active[d] { AvoidedValueKept(refused, s, k, c); } else { AvoidedValueKept(body, Acquire(s, d), k, c); }
    case EnterUnguarded(d, body, refused) =>
      if s.active[d] { AvoidedValueKept(refused, s, k, c); }
      else { AvoidedValueKept(body, s.(live := s.live + [Unguarded(d)]), k, c); }
    case IfActive(d, yes, no) =>
      AvoidedValueKept(yes, s, k, c);
      AvoidedValueKept(no, s, k, c);
    case _ =>
  }

  // -------------------------------------------------- how panics travel

  /** One layer around the place where a program stands. None of them catches. */
  datatype Frame<!V> =
    | First(second: Prog<V>)
    | Second(first: Prog<V>)
    | Entered(cell: nat, refused: Prog<V>)
    | EnteredUnguarded(cell: nat, refused: Prog<V>)
    | Refused(cell: nat, body: Prog<V>)
    | RefusedUnguarded(cell: nat, body: Prog<V>)
    | IfYes(cell: nat, no: Prog<V>)
    | IfNo(cell: nat, yes: Prog<V>)

  function Wrap<V>(frame: Frame<V>, p: Prog<V>): Prog<V> {
    match frame
    case First(second) => Then(p, second)
    case Second(first) => Then(first, p)
    case Entered(c, refused) => Enter(c, p, refused)
    case EnteredUnguarded(c, refused) => EnterUnguarded(c, p, refused)
    case Refused(c, body) => Enter(c, body, p)
    case RefusedUnguarded(c, body) => EnterUnguarded(c, body, p)
    case IfYes(c, no) => IfActive(c, p, no)
    case IfNo(c, yes) => IfActive(c, yes, p)
  }

  /** The program with `p` inside all the layers, the outermost one first. */
  function Plug<V>(layers: seq<Frame<V>>, p: Prog<V>): Prog<V> {
    if layers == [] then p else Wrap(layers[0], Plug(layers[1..], p))
  }

  /** The state in which what is inside the layer starts; `None` when a run from
      `s` never gets there. */
  ghost function Into<V>(frame: Frame<V>, s: State<V>, k: nat): (r: Option<State<V>>)
    requires Over(Wrap(frame, Skip), k) && Sized(s, k)
    ensures r.Some? ==> Sized(r.value, k)
  {
    match frame
    case First(_) => Some(s)
    case Second(first) => if Exec(first, s, k).panicked then None else Some(Exec(first, s, k).end)
    case Entered(c, _) => if s.active[c] then None else Some(Acquire(s, c))
    case EnteredUnguarded(c, _) => if s.active[c] then None else Some(s.(live := s.live + [Unguarded(c)]))
    case Refused(c, _) => if s.active[c] then Some(s) else None
    case RefusedUnguarded(c, _) => if s.active[c] then Some(s) else None
    case IfYes(c, _) => if s.active[c] then Some(s) else None
    case IfNo(c, _) => if s.active[c] then None else Some(s)
  }

  lemma WrapOver<V>(frame: Frame<V>, p: Prog<V>, k: nat)
    requires Over(Wrap(frame, p), k)
    ensures Over(Wrap(frame, Skip), k) && Over(p, k)
  {
  }

  ghost function Inside<V>(layers: seq<Frame<V>>, p: Prog<V>, s: State<V>, k: nat): (r: Option<State<V>>)
    requires Over(Plug(layers, p), k) && Sized(s, k)
    ensures r.Some? ==> Sized(r.value, k)
    decreases |layers|
  {
    if layers == [] then Some(s)
    else
      WrapOver(layers[0], Plug(layers[1..], p), k);
      match Into(layers[0], s, k)
      case None => None
      case Some(s') => Inside(layers[1..], p, s', k)
  }

  lemma {:induction false} PlugOver<V>(layers: seq<Frame<V>>, p: Prog<V>, k: nat)
    requires Over(Plug(layers, p), k)
    ensures Over(p, k)
    decreases |layers|
  {
    if layers != [] {
      WrapOver(layers[0], Plug(layers[1..], p), k);
      PlugOver(layers[1..], p, k);
    }
  }

  /** Nothing is to follow. */
  ghost predicate Last<V>(layers: seq<Frame<V>>) {
    forall i :: 0 <= i < |layers| ==> !layers[i].First?
  }

  lemma PassesLayer<V>(frame: Frame<V>, p: Prog<V>, s: State<V>, k: nat)
    requires Over(Wrap(frame, p), k) && Sized(s, k)
    requires Over(Wrap(frame, Skip), k) && Over(p, k) && Into(frame, s, k).Some?
    requires Exec(p, Into(frame, s, k).value, k).panicked || !frame.First?
    ensures var inner, outer := Exec(p, Into(frame, s, k).value, k), Exec(Wrap(frame, p), s, k);
            outer.panicked == inner.panicked && outer.end.values == inner.end.values
  {
  }

  /** A panic goes through every layer it is raised in: whatever was to follow does
      not run, the values stay as they were at the panic, and flags and borrows are
      back to what they were at the start. What returns normally comes through in
      the same way when nothing is to follow it. */
  lemma {:induction false} ResultPropagates<V>(layers: seq<Frame<V>>, p: Prog<V>, s: State<V>, k: nat)
    requires Over(Plug(layers, p), k) && Sized(s, k) && Inside(layers, p, s, k).Some?
    ensures Over(p, k)
    ensures var inner, outer := Exec(p, Inside(layers, p, s, k).value, k), Exec(Plug(layers, p), s, k);
            inner.panicked || Last(layers) ==>
              outer.panicked == inner.panicked && outer.end == s.(values := inner.end.values)
    decreases |layers|
  {
    PlugOver(layers, p, k);
    FlagsRestored(Plug(layers, p), s, k);
    if layers != [] {
      var rest := Plug(layers[1..], p);
      WrapOver(layers[0], rest, k);
      var s' := Into(layers[0], s, k).value;
      ResultPropagates(layers[1..], p, s', k);
      if Exec(rest, s', k).panicked || !layers[0].First? {
        PassesLayer(layers[0], rest, s, k);
      }
    }
  }

  /** The program is a `Panic` that a run from `s` reaches, with no `Catch` around. */
  ghost predicate ReachesPanic<V>(layers: seq<Frame<V>>, p: Prog<V>, s: State<V>, k: nat)
    requires Over(p, k) && Sized(s, k)
  {
    p == Plug(layers, Panic) && Inside(layers, Panic, s, k).Some?
  }

  /** Where the panic a run ends with was raised. */
  lemma {:induction false} PanicOrigin<V>(p: Prog<V>, s: State<V>, k: nat) returns (layers: seq<Frame<V>>)
    requires Over(p, k) && Sized(s, k) && Exec(p, s, k).panicked
    ensures ReachesPanic(layers, p, s, k)
    decreases p, 0
  {
    match p
    case Panic =>
      layers := [];
    case Then(a, b) =>
      if Exec(a, s, k).panicked {
        layers := OriginWithin(First(b), a, s, k);
      } else {
        layers := OriginWithin(Second(a), b, s, k);
      }
    case Enter(c, body, refused) =>
      if s.active[c] { layers := OriginWithin(Refused(c, body), refused, s, k); }
      else { layers := OriginWithin(Entered(c, refused), body, s, k); }
    case EnterUnguarded(c, body, refused) =>
      if s.active[c] { layers := OriginWithin(RefusedUnguarded(c, body), refused, s, k); }
      else { layers := OriginWithin(EnteredUnguarded(c, refused), body, s, k); }
    case IfActive(c, yes, no) =>
      if s.active[c] { layers := OriginWithin(IfYes(c, no), yes, s, k); }
      else { layers := OriginWithin(IfNo(c, yes), no, s, k); }
  }

  lemma OriginWithin<V>(frame: Frame<V>, inner: Prog<V>, s: State<V>, k: nat) returns (layers: seq<Frame<V>>)
    requires Over(Wrap(frame, Skip), k) && Over(Wrap(frame, inner), k) && Over(inner, k) && Sized(s, k)
    requires Into(frame, s, k).Some? && Exec(inner, Into(frame, s, k).value, k).panicked
    ensures ReachesPanic(layers, Wrap(frame, inner), s, k)
    decreases inner, 1
  {
    var rest := PanicOrigin(inner, Into(frame, s, k).value, k);
    layers := [frame] + rest;
    assert layers[1..] == rest;
  }

  /** A run ends panicked exactly when it reaches a `Panic` outside any `Catch`. */
  lemma PanicsExactly<V(!new)>(p: Prog<V>, s: State<V>, k: nat)
    requires Over(p, k) && Sized(s, k)
    ensures Exec(p, s, k).panicked <==> exists layers :: ReachesPanic(layers, p, s, k)
  {
    if Exec(p, s, k).panicked {
      var layers := PanicOrigin(p, s, k);
    } else if layers :| ReachesPanic(layers, p, s, k) {
      ResultPropagates(layers, Panic, s, k);
    }
  }

  /** The text has no `Panic` outside a `Catch`. */
  ghost predicate Calm<V>(p: Prog<V>) {
    match p
    case Panic => false
    case Then(a, b) => Calm(a) && Calm(b)
    case Enter(_, b, r) => Calm(b) && Calm(r)
    case EnterUnguarded(_, b, r) => Calm(b) && Calm(r)
    case IfActive(_, y, n) => Calm(y) && Calm(n)
    case _ => true
  }

  /** Such a program never unwinds. */
  lemma {:induction false} CalmReturns<V>(p: Prog<V>, s: State<V>, k: nat)
    requires Over(p, k) && Sized(s, k) && Calm(p)
    ensures !Exec(p, s, k).panicked
    decreases p
  {
    match p
    case Then(a, b) =>
      CalmReturns(a, s, k);
      CalmReturns(b, Exec(a, s, k).end, k);
    case Enter(c, body, refused) =>
      if s.active[c] { CalmReturns(refused, s, k); } else { CalmReturns(body, Acquire(s, c), k); }
    case EnterUnguarded(c, body, refused) =>
      if s.active[c] { CalmReturns(refused, s, k); }
      else { CalmReturns(body, s.(live := s.live + [Unguarded(c)]), k); }
    case IfActive(c, yes, no) =>
      if s.active[c] { CalmReturns(yes, s, k); } else { CalmReturns(no, s, k); }
    case _ =>
  }

  /** A `Catch` ends the unwinding and keeps what was done until the panic; what
      follows it goes on from there. */
  lemma CatchContains<V>(layers: seq<Frame<V>>, next: Prog<V>, s: State<V>, k: nat)
    requires Over(Plug(layers, Panic), k) && Over(next, k) && Sized(s, k) && Inside(layers, Panic, s, k).Some?
    ensures var atPanic := s.(values := Inside(layers, Panic, s, k).value.values);
            && Sized(atPanic, k)
            && Exec(Then(Catch(Plug(layers, Panic)), next), s, k).end == Exec(next, atPanic, k).end
            && Exec(Then(Catch(Plug(layers, Panic)), next), s, k).panicked == Exec(next, atPanic, k).panicked
  {
    ResultPropagates(layers, Panic, s, k);
  }

  // --------------------------------------------------- what updates do

  /** Updates of one cell, one after another. */
  function Updates<V>(c: nat, gs: seq<V -> V>): Prog<V> {
    if gs == [] then Skip else Then(Update(c, gs[0]), Updates(c, gs[1..]))
  }

  function ApplyAll<V>(gs: seq<V -> V>, v: V): V {
    if gs == [] then v else ApplyAll(gs[1..], gs[0](v))
  }

  lemma {:induction false} UpdatesApply<V>(c: nat, gs: seq<V -> V>, s: State<V>, k: nat)
    requires c < k && Sized(s, k) && Holds(s.live, c)
    ensures Over(Updates(c, gs), k)
    ensures var r := Exec(Updates(c, gs), s, k);
            !r.panicked && r.end == s.(values := s.values[c := ApplyAll(gs, s.values[c])])
    decreases |gs|
  {
    if gs != [] {
      UpdatesApply(c, gs[1..], s.(values := s.values[c := gs[0](s.values[c])]), k);
    }
  }

  /** Entering a free cell, either way, applies the closure's updates to its value
      in order, each once, and changes nothing else. */
  lemma EntryUpdates<V>(c: nat, gs: seq<V -> V>, refused: Prog<V>, s: State<V>, k: nat)
    requires c < k && Over(refused, k) && Sized(s, k) && !s.active[c]
    ensures Over(Updates(c, gs), k)
    ensures var after := s.(values := s.values[c := ApplyAll(gs, s.values[c])]);
            var guarded, unguarded := Exec(Enter(c, Updates(c, gs), refused), s, k), Exec(EnterUnguarded(c, Updates(c, gs), refused), s, k);
            guarded.end == unguarded.end == after && !guarded.panicked && !unguarded.panicked
  {
    var begun, begunUnguarded := Acquire(s, c), s.(live := s.live + [Unguarded(c)]);
    assert begun.live[|s.live|] == Guarded(c) && begunUnguarded.live[|s.live|] == Unguarded(c);
    UpdatesApply(c, gs, begun, k);
    UpdatesApply(c, gs, begunUnguarded, k);
    FlagsRestored(Enter(c, Updates(c, gs), refused), s, k);
    FlagsRestored(EnterUnguarded(c, Updates(c, gs), refused), s, k);
  }

  // ------------------------------------------------------------ in place

  /** `GuardedCell`. */
  class GuardedCell<V> {
    var active: bool
    var value: V

    constructor (value: V)
      ensures !active && this.value == value
    {
      active := false;
      this.value := value;
    }

    /** `Reset::acquire`. */
    method TryAcquire() returns (granted: bool)
      modifies this`active
      ensures granted == !old(active) && active
    {
      if active {
        return false;
      }
      active := true;
      granted := true;
    }

    /** `Drop for Reset`. */
    method Reset()
      modifies this`active
      ensures !active
    {
      active := false;
    }
  }

  /** One thread's cells, with the borrows on its stack. */
  class Thread<V> {
    const cells: seq<GuardedCell<V>>
    var live: seq<Borrow>

    ghost predicate Apart() {
      forall i, j :: 0 <= i < j < |cells| ==> cells[i] != cells[j]
    }

    ghost function Abs(): State<V>
      reads this, cells
    {
      State(seq(|cells|, i requires 0 <= i < |cells| reads cells => cells[i].active),
            seq(|cells|, i requires 0 <= i < |cells| reads cells => cells[i].value), live)
    }

    /** `Reset::acquire` on cell `c`, and the borrow it protects. */
    method Arm(c: nat) returns (granted: bool)
      requires Apart() && c < |cells|
      modifies this`live, cells
      ensures granted == !old(Abs()).active[c]
      ensures Abs() == if granted then Acquire(old(Abs()), c) else old(Abs())
    {
      granted := cells[c].TryAcquire();
      if granted {
        live := live + [Guarded(c)];
      }
    }

    /** The `Reset` going out of scope. */
    method Disarm(c: nat)
      requires Apart() && c < |cells|
      modifies this`live, cells
      ensures Abs() == Release(old(Abs()), c)
    {
      cells[c].Reset();
      live := PopBorrow(live);
    }

    /** `enter`: arms the flag, runs the closure, clears the flag whether the
        closure returned or unwound. */
    method EnterCell(c: nat, body: Prog<V>, refused: Prog<V>) returns (panicked: bool)
      requires Apart() && Over(Enter(c, body, refused), |cells|)
      modifies this, cells
      ensures Abs() == Exec(Enter(c, body, refused), old(Abs()), |cells|).end
      ensures panicked == Exec(Enter(c, body, refused), old(Abs()), |cells|).panicked
      decreases Enter(c, body, refused), 0
    {
      var granted := Arm(c);
      if !granted {
        panicked := Interpret(refused);
      } else {
        panicked := Interpret(body);
        Disarm(c);
      }
    }

    /** `enter_unguarded`: checks the flag, never writes it. */
    method EnterCellUnguarded(c: nat, body: Prog<V>, refused: Prog<V>) returns (panicked: bool)
      requires Apart() && Over(EnterUnguarded(c, body, refused), |cells|)
      modifies this, cells
      ensures Abs() == Exec(EnterUnguarded(c, body, refused), old(Abs()), |cells|).end
      ensures panicked == Exec(EnterUnguarded(c, body, refused), old(Abs()), |cells|).panicked
      decreases EnterUnguarded(c, body, refused), 0
    {
      ghost var s := Abs();
      if cells[c].active {
        panicked := Interpret(refused);
      } else {
        live := live + [Unguarded(c)];
        assert Abs() == s.(live := s.live + [Unguarded(c)]);
        panicked := Interpret(body);
        ghost var r := Abs();
        live := PopBorrow(live);
        assert Abs() == r.(live := PopBorrow(r.live));
      }
    }

    /** Runs a program on the cells. */
    method Interpret(p: Prog<V>) returns (panicked: bool)
      requires Apart() && Over(p, |cells|)
      modifies this, cells
      ensures Abs() == Exec(p, old(Abs()), |cells|).end && panicked == Exec(p, old(Abs()), |cells|).panicked
      decreases p, 1
    {
      ghost var s := Abs();
      match p
      case Skip => panicked := false;
      case Panic => panicked := true;
      case Then(a, b) =>
        panicked := Interpret(a);
        if !panicked { panicked := Interpret(b); }
      case Catch(b) =>
        var _ := Interpret(b);
        panicked := false;
      case Enter(c, body, refused) => panicked := EnterCell(c, body, refused);
      case EnterUnguarded(c, body, refused) => panicked := EnterCellUnguarded(c, body, refused);
      case Update(c, g) =>
        if Holds(live, c) {
          cells[c].value := g(cells[c].value);
          assert Abs() == s.(values := s.values[c := g(s.values[c])]);
        }
        panicked := false;
      case IfActive(c, yes, no) =>
        if cells[c].active { panicked := Interpret(yes); } else { panicked := Interpret(no); }
    }
  }
}
