/** The ways a region is cut into shards: the indexed view
    (src/region/par_chunks.rs), the lending iterator (src/region/chunks.rs) and
    recursive splits (src/region/shard.rs). A shard is the half-open interval of
    region cells it borrows exclusively. */
module Region {
  import opened Base
  import opened Tiling

  datatype Shard = Shard(lo: nat, hi: nat) {
    ghost predicate Valid() { lo <= hi }
    ghost predicate Has(cell: nat) { lo <= cell < hi }
  }

  // ------------------------------------------------------- indexed view

  /** `ParChunks`: an offset into the region, a length and a clamped chunk size. */
  datatype ParChunks = ParChunks(base: nat, len: nat, chunk: pos) {

    function Count(): nat {
      PartitionCount(len, chunk)
    }

    /** `range`: saturates at the region length for any index. */
    function Range(index: nat): (nat, nat) {
      var start := index * chunk;
      var end := start + chunk;
      (Min(start, len), Min(end, len))
    }

    function GetUncheckedChunk(index: nat): Shard
      requires index < Count()
    {
      var (start, end) := Range(index);
      Shard(base + start, base + end)
    }
  }

  function NewParChunks(cells: Shard, chunkSize: nat): ParChunks
    requires cells.Valid()
  {
    ParChunks(cells.lo, cells.hi - cells.lo, Max(chunkSize, 1))
  }

  /** An index in range names a non-empty, unclamped-start, in-bounds partition;
      any other index names an empty one. */
  lemma RangeInBounds(par: ParChunks, index: nat)
    ensures index < par.Count() <==> par.Range(index).0 < par.Range(index).1
    ensures index < par.Count() ==> par.Range(index).0 == index * par.chunk < par.len
    ensures par.Range(index).0 <= par.Range(index).1 <= par.len
  {
    CountAdjoint(par.len, par.chunk, index);
  }

  /** A view cuts at multiples of the requested size, zero standing for one. */
  lemma ClampedView(cells: Shard, chunkSize: nat, index: nat)
    requires cells.Valid()
    ensures var par, size := NewParChunks(cells, chunkSize), if chunkSize == 0 then 1 else chunkSize;
            && par.Count() == PartitionCount(cells.hi - cells.lo, size)
            && (index < par.Count() ==>
                  par.GetUncheckedChunk(index)
                  == Shard(cells.lo + index * size, Min(cells.lo + index * size + size, cells.hi)))
  {
    RangeInBounds(NewParChunks(cells, chunkSize), index);
  }

  /** Consecutive partitions abut, the first starts the region and the last ends it. */
  lemma RangesAbut(par: ParChunks, index: nat)
    ensures par.Range(index).1 == par.Range(index + 1).0
    ensures par.Range(0).0 == 0
    ensures par.Range(par.Count()).0 == par.len
  {
    assert (index + 1) * par.chunk == index * par.chunk + par.chunk;
    CountIsCeiling(par.len, par.chunk, par.Count());
  }

  /** Every cell lies in exactly one partition, the one its offset divides to. */
  lemma RangesTile(par: ParChunks, cell: nat, index: nat)
    requires cell < par.len
    ensures par.Range(index).0 <= cell < par.Range(index).1 <==> index == cell / par.chunk
    ensures cell / par.chunk < par.Count()
  {
    var q, r := cell / par.chunk, cell % par.chunk;
    assert cell == q * par.chunk + r;
    assert (q + 1) * par.chunk == q * par.chunk + par.chunk;
    assert (index + 1) * par.chunk == index * par.chunk + par.chunk;
    if index < q {
      MulMono(index + 1, q, par.chunk);
    } else if index > q {
      MulMono(q + 1, index, par.chunk);
    }
    RangeInBounds(par, q);
  }

  // ---------------------------------------------------- lending iterator

  /** The state of a `ShardChunks` iterator and its step as a function. */
  datatype ChunksState = ChunksState(rest: Option<Shard>, chunk: pos) {

    ghost predicate Valid() {
      rest.Some? ==> rest.value.Valid()
    }

    ghost function Remaining(): nat
      requires Valid()
    {
      match rest case Some(s) => s.hi - s.lo case None => 0
    }

    ghost function Next(): (r: (ChunksState, Option<Shard>))
      requires Valid()
      ensures r.0.Valid()
    {
      match rest
      case None => (this, None)
      case Some(s) =>
        if s.lo == s.hi then (ChunksState(None, chunk), None)
        else
          var mid := Min(chunk, s.hi - s.lo);
          (ChunksState(Some(Shard(s.lo + mid, s.hi)), chunk), Some(Shard(s.lo, s.lo + mid)))
    }
  }

  /** `ShardChunks`, the iterator object whose `next` takes and reassigns `rest`. */
  class ShardChunks {
    var rest: Option<Shard>
    var chunk: pos

    ghost function State(): ChunksState
      reads this
    {
      ChunksState(rest, chunk)
    }

    /** `WriterShard::chunks`. */
    constructor (cells: Shard, chunkSize: nat)
      requires cells.Valid()
      ensures State() == ChunksState(Some(cells), Max(chunkSize, 1)) && State().Valid()
    {
      rest := Some(cells);
      chunk := Max(chunkSize, 1);
    }

    method Next() returns (item: Option<Shard>)
      requires State().Valid()
      modifies this`rest
      ensures (State(), item) == old(State()).Next() && State().Valid()
    {
      var taken := rest;
      rest := None;
      if taken.None? || taken.value.lo == taken.value.hi {
        return None;
      }
      var slice := taken.value;
      var mid := Min(chunk, slice.hi - slice.lo);
      rest := Some(Shard(slice.lo + mid, slice.hi));
      item := Some(Shard(slice.lo, slice.lo + mid));
    }

    method SizeHint() returns (shards: nat)
      requires State().Valid()
      ensures shards == PartitionCount(State().Remaining(), chunk)
    {
      var remaining := match rest case Some(s) => s.hi - s.lo case None => 0;
      shards := PartitionCount(remaining, chunk);
    }
  }

  /** The iterator after `k` calls of `next`. */
  ghost function After(s: ChunksState, k: nat): (r: ChunksState)
    requires s.Valid()
    ensures r.Valid()
  {
    if k == 0 then s else After(s, k - 1).Next().0
  }

  /** What is left after `k` calls starts where partition `k` of the indexed view
      starts; once that is past the end the iterator is spent. */
  lemma {:induction false} AfterRest(cells: Shard, chunk: pos, k: nat)
    requires cells.Valid()
    ensures var par := NewParChunks(cells, chunk);
            var s := After(ChunksState(Some(cells), chunk), k);
            s.chunk == chunk &&
            s.rest == if k <= par.Count() then Some(Shard(cells.lo + par.Range(k).0, cells.hi)) else None
  {
    var par := NewParChunks(cells, chunk);
    RangesAbut(par, k);
    if k > 0 {
      AfterRest(cells, chunk, k - 1);
      RangesAbut(par, k - 1);
      RangeInBounds(par, k - 1);
    }
  }

  lemma CountAfter(len: nat, chunk: pos, k: nat)
    ensures PartitionCount(len - Min(k * chunk, len), chunk)
            == if k < PartitionCount(len, chunk) then PartitionCount(len, chunk) - k else 0
  {
    var n := PartitionCount(len, chunk);
    CountAdjoint(len, chunk, k);
    if k < n {
      CountIsCeiling(len, chunk, n);
      assert (n - k) * chunk == n * chunk - k * chunk;
      assert (n - k - 1) * chunk == (n - 1) * chunk - k * chunk;
      CountIsCeiling(len - k * chunk, chunk, n - k);
    }
  }

  lemma YieldIsPartition(par: ParChunks, cells: Shard, k: nat)
    requires cells.Valid() && par == NewParChunks(cells, par.chunk)
    ensures var s := ChunksState(Some(Shard(cells.lo + par.Range(k).0, cells.hi)), par.chunk);
            s.Next().1 == if k < par.Count() then Some(par.GetUncheckedChunk(k)) else None
  {
    RangeInBounds(par, k);
  }

  /** The iterator refines the indexed view: call `k` yields partition `k`, then
      `None` for ever, and the reported length is exact throughout. */
  lemma IteratorRefinesView(cells: Shard, chunk: pos, k: nat)
    requires cells.Valid()
    ensures var par := NewParChunks(cells, chunk);
            var s := After(ChunksState(Some(cells), chunk), k);
            && s.Next().1 == (if k < par.Count() then Some(par.GetUncheckedChunk(k)) else None)
            && PartitionCount(s.Remaining(), chunk) == (if k < par.Count() then par.Count() - k else 0)
  {
    var par := NewParChunks(cells, chunk);
    AfterRest(cells, chunk, k);
    CountAfter(par.len, chunk, k);
    RangesAbut(par, k);
    RangeInBounds(par, k);
    YieldIsPartition(par, cells, k);
  }

  /** Each yield lowers the reported length by exactly one. */
  lemma YieldLowersLength(cells: Shard, chunk: pos, k: nat)
    requires cells.Valid()
    ensures var s := After(ChunksState(Some(cells), chunk), k);
            s.Next().1.Some? ==>
            PartitionCount(s.Next().0.Remaining(), chunk) + 1 == PartitionCount(s.Remaining(), chunk)
  {
    IteratorRefinesView(cells, chunk, k);
    IteratorRefinesView(cells, chunk, k + 1);
  }

  // ------------------------------------------------- recursive splitting

  /** `WriterShard::split_at`; `None` is the panic for a cut past the end. */
  function SplitAt(s: Shard, mid: nat): Option<(Shard, Shard)>
    requires s.Valid()
  {
    if mid <= s.hi - s.lo then Some((Shard(s.lo, s.lo + mid), Shard(s.lo + mid, s.hi))) else None
  }

  /** A divide-and-conquer recursion: where each shard is cut, down to the leaves. */
  datatype SplitTree = Leaf | Node(mid: nat, left: SplitTree, right: SplitTree)

  ghost predicate Within(shards: seq<Shard>, len: nat) {
    forall k :: 0 <= k < |shards| ==> shards[k].lo <= shards[k].hi <= len
  }

  /** The shards at the leaves, left to right; `None` when some cut panics. */
  ghost function Leaves(s: Shard, tree: SplitTree): (r: Option<seq<Shard>>)
    requires s.Valid()
    ensures r.Some? ==> Within(r.value, s.hi)
    decreases tree
  {
    match tree
    case Leaf => Some([s])
    case Node(mid, left, right) =>
      match SplitAt(s, mid)
      case None => None
      case Some((a, b)) =>
        match (Leaves(a, left), Leaves(b, right))
        case (Some(x), Some(y)) => Some(x + y)
        case _ => None
  }

  /** What the shards show of a region, one after another. */
  ghost function Shown<T>(shards: seq<Shard>, cells: seq<T>): seq<T>
    requires Within(shards, |cells|)
  {
    if shards == [] then [] else cells[shards[0].lo..shards[0].hi] + Shown(shards[1..], cells)
  }

  lemma ShownCons<T>(first: Shard, rest: seq<Shard>, cells: seq<T>)
    requires first.lo <= first.hi <= |cells| && Within(rest, |cells|)
    ensures Within([first] + rest, |cells|)
    ensures Shown([first] + rest, cells) == cells[first.lo..first.hi] + Shown(rest, cells)
  {
    var shards := [first] + rest;
    assert shards[0] == first && shards[1..] == rest;
  }

  lemma {:induction false} ShownConcat<T>(a: seq<Shard>, b: seq<Shard>, cells: seq<T>)
    requires Within(a, |cells|) && Within(b, |cells|)
    ensures Shown(a + b, cells) == Shown(a, cells) + Shown(b, cells)
    decreases |a|
  {
    if a == [] {
      assert a + b == b;
    } else {
      var first, rest := a[0], a[1..];
      assert a == [first] + rest && a + b == [first] + (rest + b);
      ShownCons(first, rest, cells);
      ShownCons(first, rest + b, cells);
      ShownConcat(rest, b, cells);
      ConcatAssoc(cells[first.lo..first.hi], Shown(rest, cells), Shown(b, cells));
    }
  }

  lemma SliceSplits<T>(cells: seq<T>, lo: nat, cut: nat, hi: nat)
    requires lo <= cut <= hi <= |cells|
    ensures cells[lo..cut] == cells[lo..hi][..cut - lo]
    ensures cells[cut..hi] == cells[lo..hi][cut - lo..]
  {
    var whole := cells[lo..hi];
    var front, back := whole[..cut - lo], whole[cut - lo..];
    assert |front| == |cells[lo..cut]| && |back| == |cells[cut..hi]|;
    forall k | 0 <= k < |front|
      ensures front[k] == cells[lo..cut][k]
    {
      assert front[k] == whole[k] == cells[lo + k];
    }
    forall k | 0 <= k < |back|
      ensures back[k] == cells[cut..hi][k]
    {
      assert back[k] == whole[cut - lo + k] == cells[cut + k];
    }
  }

  /** A split shows the first `mid` cells on the left and the others on the right. */
  lemma SplitShows<T>(s: Shard, mid: nat, cells: seq<T>)
    requires s.Valid() && s.hi <= |cells|
    ensures SplitAt(s, mid).Some? <==> mid <= s.hi - s.lo
    ensures SplitAt(s, mid).Some? ==>
              var (a, b) := SplitAt(s, mid).value;
              && a.Valid() && b.Valid() && a.hi <= |cells| && b.hi <= |cells|
              && cells[a.lo..a.hi] == cells[s.lo..s.hi][..mid]
              && cells[b.lo..b.hi] == cells[s.lo..s.hi][mid..]
  {
    if mid <= s.hi - s.lo {
      var (a, b) := SplitAt(s, mid).value;
      SliceSplits(cells, s.lo, a.hi, s.hi);
    }
  }

  /** However a region is split recursively, the leaves show exactly its cells in
      order. */
  lemma {:induction false} LeavesShowRegion<T>(s: Shard, tree: SplitTree, cells: seq<T>)
    requires s.Valid() && s.hi <= |cells| && Leaves(s, tree).Some?
    ensures Shown(Leaves(s, tree).value, cells) == cells[s.lo..s.hi]
    decreases tree
  {
    match tree
    case Leaf =>
    case Node(mid, left, right) =>
      SplitShows(s, mid, cells);
      var (a, b) := SplitAt(s, mid).value;
      LeavesShowRegion(a, left, cells);
      LeavesShowRegion(b, right, cells);
      ShownConcat(Leaves(a, left).value, Leaves(b, right).value, cells);
  }

  // ---------------------------------------------- ownership of the cells

  /** Who may still reach which cells. `View` records the partitions already
      handed out; `Gone` is a holder that has been dropped. */
  datatype Holder =
    | Writer(shard: Shard)
    | Iter(state: ChunksState)
    | View(par: ParChunks, requested: set<nat>)
    | Gone(was: Holder)
  {
    ghost predicate Valid() {
      match this
      case Writer(shard) => shard.Valid()
      case Iter(state) => state.Valid()
      case View(par, _) => true
      case Gone(was) => was.Valid()
    }

    /** The cells this holder borrows (or borrowed when it was dropped). */
    ghost predicate Owns(cell: nat)
      requires Valid()
    {
      match this
      case Writer(shard) => shard.Has(cell)
      case Iter(state) => state.rest.Some? && state.rest.value.Has(cell)
      case View(par, requested) =>
        par.base <= cell < par.base + par.len && (cell - par.base) / par.chunk !in requested
      case Gone(was) => was.Owns(cell)
    }
  }

  datatype Action =
    | Split(mid: nat)
    | Chunks(chunkSize: nat)
    | NextShard
    | MakeView(chunkSize: nat)
    | Request(index: nat)
    | Drop

  /** What an action turns a holder into. An action the types do not offer, or a
      request that breaks the stated contract, leaves the holder alone; splitting
      past the end panics, which drops the consumed shard. */
  ghost function Apply(h: Holder, action: Action): (r: seq<Holder>)
    requires h.Valid()
    ensures forall k :: 0 <= k < |r| ==> r[k].Valid()
  {
    match (h, action)
    case (Writer(s), Split(mid)) => (
      match SplitAt(s, mid)
      case Some((a, b)) => [Writer(a), Writer(b)]
      case None => [Gone(h)])
    case (Writer(s), Chunks(size)) => [Iter(ChunksState(Some(s), Max(size, 1)))]
    case (Writer(s), MakeView(size)) => [View(NewParChunks(s, size), {})]
    case (Iter(state), NextShard) =>
      var (state', item) := state.Next();
      if item.Some? then [Iter(state'), Writer(item.value)] else [Iter(state')]
    case (View(par, requested), Request(index)) =>
      if index < par.Count() && index !in requested
      then [View(par, requested + {index}), Writer(par.GetUncheckedChunk(index))]
      else [h]
    case (Gone(_), _) => [h]
    case (_, Drop) => [Gone(h)]
    case _ => [h]
  }

  ghost predicate AllValid(hs: seq<Holder>) {
    forall k :: 0 <= k < |hs| ==> hs[k].Valid()
  }

  /** How many holders reach a cell. */
  ghost function Owners(hs: seq<Holder>, cell: nat): nat
    requires AllValid(hs)
  {
    if hs == [] then 0 else (if hs[0].Owns(cell) then 1 else 0) + Owners(hs[1..], cell)
  }

  ghost function Act(hs: seq<Holder>, k: nat, action: Action): (r: seq<Holder>)
    requires AllValid(hs)
    ensures AllValid(r)
  {
    if k < |hs| then hs[..k] + Apply(hs[k], action) + hs[k + 1..] else hs
  }

  ghost function History(hs: seq<Holder>, actions: seq<(nat, Action)>): (r: seq<Holder>)
    requires AllValid(hs)
    ensures AllValid(r)
    decreases |actions|
  {
    if actions == [] then hs
    else History(Act(hs, actions[0].0, actions[0].1), actions[1..])
  }

  lemma {:induction false} OwnersConcat(a: seq<Holder>, b: seq<Holder>, cell: nat)
    requires AllValid(a) && AllValid(b)
    ensures Owners(a + b, cell) == Owners(a, cell) + Owners(b, cell)
  {
    if a == [] {
      assert a + b == b;
    } else {
      OwnersConcat(a[1..], b, cell);
      assert (a + b)[1..] == a[1..] + b;
    }
  }

  ghost predicate InView(h: Holder, cell: nat)
    requires h.View?
  {
    h.par.base <= cell < h.par.base + h.par.len
  }

  lemma ApplyKeepsOwners(h: Holder, action: Action, cell: nat)
    requires h.Valid()
    ensures Owners(Apply(h, action), cell) == Owners([h], cell)
  {
    var r := Apply(h, action);
    if |r| == 1 {
      assert Owners(r, cell) == if r[0].Owns(cell) then 1 else 0;
    } else {
      assert r == [r[0]] + [r[1]];
      OwnersConcat([r[0]], [r[1]], cell);
    }
    if h.View? && action.Request? && InView(h, cell) {
      RangesTile(h.par, cell - h.par.base, action.index);
      RangeInBounds(h.par, action.index);
    }
    if h.View? && action.Request? && action.index < h.par.Count() {
      RangeInBounds(h.par, action.index);
    }
  }

  lemma ActKeepsOwners(hs: seq<Holder>, k: nat, action: Action, cell: nat)
    requires AllValid(hs)
    ensures Owners(Act(hs, k, action), cell) == Owners(hs, cell)
  {
    if k < |hs| {
      ApplyKeepsOwners(hs[k], action, cell);
      OwnersConcat(hs[..k] + Apply(hs[k], action), hs[k + 1..], cell);
      OwnersConcat(hs[..k], Apply(hs[k], action), cell);
      OwnersConcat(hs[..k] + [hs[k]], hs[k + 1..], cell);
      OwnersConcat(hs[..k], [hs[k]], cell);
      assert hs == hs[..k] + [hs[k]] + hs[k + 1..];
    }
  }

  /** Over any sequence of splits, iterator steps, partition requests and drops,
      every cell of the original region has exactly one holder, dead or alive,
      and no holder reaches outside it: live holders stay pairwise disjoint and
      with the dropped ones they cover the region. */
  lemma {:induction false} OwnershipHistory(hs: seq<Holder>, actions: seq<(nat, Action)>, cell: nat)
    requires AllValid(hs)
    ensures Owners(History(hs, actions), cell) == Owners(hs, cell)
    decreases |actions|
  {
    if actions != [] {
      var (k, action) := actions[0];
      ActKeepsOwners(hs, k, action, cell);
      OwnershipHistory(Act(hs, k, action), actions[1..], cell);
    }
  }

  lemma RegionStaysPartitioned(region: Shard, actions: seq<(nat, Action)>, cell: nat)
    requires region.Valid()
    ensures Owners(History([Writer(region)], actions), cell) == if region.Has(cell) then 1 else 0
  {
    OwnershipHistory([Writer(region)], actions, cell);
  }

  /** Two different holders never reach the same cell. */
  lemma HoldersDisjoint(region: Shard, actions: seq<(nat, Action)>, i: nat, j: nat, cell: nat)
    requires region.Valid()
    requires var hs := History([Writer(region)], actions); i < j < |hs|
    ensures var hs := History([Writer(region)], actions);
            !(hs[i].Owns(cell) && hs[j].Owns(cell))
  {
    var hs := History([Writer(region)], actions);
    RegionStaysPartitioned(region, actions, cell);
    var upToJ, fromJ := hs[..j], hs[j..];
    assert hs == upToJ + fromJ;
    OwnersConcat(upToJ, fromJ, cell);
    assert upToJ == upToJ[..i] + upToJ[i..];
    OwnersConcat(upToJ[..i], upToJ[i..], cell);
  }

  // ------------------------------------------------ the actions do happen

  lemma {:induction false} HistoryConcat(hs: seq<Holder>, a: seq<(nat, Action)>, b: seq<(nat, Action)>)
    requires AllValid(hs)
    ensures History(hs, a + b) == History(History(hs, a), b)
    decreases |a|
  {
    if a == [] {
      assert a + b == b;
    } else {
      assert (a + b)[1..] == a[1..] + b;
      HistoryConcat(Act(hs, a[0].0, a[0].1), a[1..], b);
    }
  }

  lemma HistoryOne(hs: seq<Holder>, k: nat, action: Action)
    requires AllValid(hs)
    ensures History(hs, [(k, action)]) == Act(hs, k, action)
  {
    assert [(k, action)][1..] == [];
  }

  /** A split leaves two live shards, the cells below the cut and the others; past
      the end it leaves nobody alive. Dropping a shard leaves nobody alive either. */
  lemma SplitHandsOut(region: Shard, mid: nat, cell: nat)
    requires region.Valid()
    ensures var hs := History([Writer(region)], [(0, Split(mid))]);
            if mid <= region.hi - region.lo then
              && |hs| == 2 && hs[0].Writer? && hs[1].Writer?
              && (hs[0].Owns(cell) <==> region.Has(cell) && cell < region.lo + mid)
              && (hs[1].Owns(cell) <==> region.Has(cell) && cell >= region.lo + mid)
            else hs == [Gone(Writer(region))]
    ensures History([Writer(region)], [(0, Drop)]) == [Gone(Writer(region))]
  {
    HistoryOne([Writer(region)], 0, Split(mid));
    HistoryOne([Writer(region)], 0, Drop);
  }

  /** A shard turned into an iterator that is then stepped `k` times. */
  ghost function Stepped(region: Shard, chunkSize: nat, k: nat): (r: seq<Holder>)
    requires region.Valid()
    ensures AllValid(r)
  {
    if k == 0 then Act([Writer(region)], 0, Chunks(chunkSize))
    else Act(Stepped(region, chunkSize, k - 1), 0, NextShard)
  }

  /** The shards `k` calls of `next` yield, the latest first. */
  ghost function Yielded(start: ChunksState, k: nat): (r: seq<Holder>)
    requires start.Valid()
    ensures AllValid(r)
  {
    if k == 0 then []
    else
      var item := After(start, k - 1).Next().1;
      (if item.Some? then [Writer(item.value)] else []) + Yielded(start, k - 1)
  }

  lemma NextHandsOut(state: ChunksState, others: seq<Holder>)
    requires state.Valid() && AllValid(others)
    ensures AllValid([Iter(state)] + others)
    ensures var (state', item) := state.Next();
            Act([Iter(state)] + others, 0, NextShard)
            == [Iter(state')] + ((if item.Some? then [Writer(item.value)] else []) + others)
  {
  }

  lemma {:induction false} SteppedYields(region: Shard, chunkSize: nat, start: ChunksState, k: nat)
    requires region.Valid() && start == ChunksState(Some(region), Max(chunkSize, 1))
    ensures Stepped(region, chunkSize, k) == [Iter(After(start, k))] + Yielded(start, k)
    decreases k
  {
    if k > 0 {
      SteppedYields(region, chunkSize, start, k - 1);
      NextHandsOut(After(start, k - 1), Yielded(start, k - 1));
    }
  }

  lemma {:induction false} YieldedAt(region: Shard, chunk: pos, k: nat, i: nat)
    requires region.Valid() && i < k <= NewParChunks(region, chunk).Count()
    ensures var par, yielded := NewParChunks(region, chunk), Yielded(ChunksState(Some(region), chunk), k);
            |yielded| == k && yielded[k - 1 - i] == Writer(par.GetUncheckedChunk(i))
    decreases k
  {
    IteratorRefinesView(region, chunk, k - 1);
    if k > 1 {
      YieldedAt(region, chunk, k - 1, if i < k - 1 then i else 0);
    }
  }

  lemma SteppedAt(region: Shard, chunkSize: nat, start: ChunksState, k: nat, j: nat)
    requires region.Valid() && start == ChunksState(Some(region), Max(chunkSize, 1)) && j < |Yielded(start, k)|
    ensures var hs, yielded := Stepped(region, chunkSize, k), Yielded(start, k);
            |hs| == |yielded| + 1 && hs[0].Iter? && hs[j + 1] == yielded[j]
  {
    SteppedYields(region, chunkSize, start, k);
  }

  lemma ClampedOnce(region: Shard, chunkSize: nat)
    requires region.Valid()
    ensures NewParChunks(region, Max(chunkSize, 1)) == NewParChunks(region, chunkSize)
  {
  }

  /** Stepping an iterator `k` times hands out the first `k` partitions of the
      indexed view of the same size, as live shards. */
  lemma IterationHandsOut(region: Shard, chunkSize: nat, k: nat, i: nat)
    requires region.Valid() && i < k <= NewParChunks(region, chunkSize).Count()
    ensures var par, hs := NewParChunks(region, chunkSize), Stepped(region, chunkSize, k);
            |hs| == k + 1 && hs[0].Iter? && hs[k - i] == Writer(par.GetUncheckedChunk(i))
  {
    var size: pos := Max(chunkSize, 1);
    ClampedOnce(region, chunkSize);
    YieldedAt(region, size, k, i);
    SteppedAt(region, chunkSize, ChunksState(Some(region), size), k, k - 1 - i);
  }

  /** A shard turned into a view of which partitions are then requested. */
  ghost function Requested(region: Shard, chunkSize: nat, indices: seq<nat>): (r: seq<Holder>)
    requires region.Valid()
    ensures AllValid(r)
  {
    if indices == [] then Act([Writer(region)], 0, MakeView(chunkSize))
    else Act(Requested(region, chunkSize, indices[..|indices| - 1]), 0, Request(indices[|indices| - 1]))
  }

  ghost predicate Vends(par: ParChunks, index: nat, shard: Shard) {
    index < par.Count() && shard == par.GetUncheckedChunk(index)
  }

  /** Holders of the given shards, the latest first. */
  function Writers(shards: seq<Shard>): (r: seq<Holder>)
    ensures |r| == |shards|
  {
    seq(|shards|, i requires 0 <= i < |shards| => Writer(shards[|shards| - 1 - i]))
  }

  ghost function Asked(indices: seq<nat>): set<nat> {
    set x | x in indices
  }

  lemma RequestHandsOut(par: ParChunks, asked: set<nat>, index: nat, shard: Shard, others: seq<Holder>)
    requires AllValid(others) && Vends(par, index, shard) && index !in asked
    ensures AllValid([View(par, asked)] + others)
    ensures Act([View(par, asked)] + others, 0, Request(index)) == [View(par, asked + {index})] + ([Writer(shard)] + others)
  {
  }

  lemma VendedValid(par: ParChunks, indices: seq<nat>, shards: seq<Shard>)
    requires |shards| == |indices| && forall i :: 0 <= i < |indices| ==> Vends(par, indices[i], shards[i])
    ensures AllValid(Writers(shards))
  {
    forall i | 0 <= i < |shards|
      ensures shards[i].Valid()
    {
      assert Vends(par, indices[i], shards[i]);
      RangeInBounds(par, indices[i]);
    }
  }

  lemma ExtendSets(indices: seq<nat>, shards: seq<Shard>)
    requires |shards| == |indices| > 0 && Distinct(indices)
    ensures var n := |indices| - 1;
            && indices[n] !in Asked(indices[..n]) && Asked(indices) == Asked(indices[..n]) + {indices[n]}
            && Writers(shards) == [Writer(shards[n])] + Writers(shards[..n])
  {
    var n := |indices| - 1;
    assert indices == indices[..n] + [indices[n]];
  }

  /** Requesting distinct partitions of a view, in any order, hands out exactly
      those, as live shards. */
  lemma {:induction false} RequestsHandOut(region: Shard, chunkSize: nat, par: ParChunks, indices: seq<nat>, shards: seq<Shard>)
    requires region.Valid() && par == NewParChunks(region, chunkSize) && Distinct(indices) && |shards| == |indices|
    requires forall i :: 0 <= i < |indices| ==> Vends(par, indices[i], shards[i])
    ensures Requested(region, chunkSize, indices) == [View(par, Asked(indices))] + Writers(shards)
    decreases |indices|
  {
    if indices == [] {
      assert Asked([]) == {} && Writers(shards) == [];
    } else {
      var n := |indices| - 1;
      RequestsHandOut(region, chunkSize, par, indices[..n], shards[..n]);
      VendedValid(par, indices[..n], shards[..n]);
      ExtendSets(indices, shards);
      RequestHandsOut(par, Asked(indices[..n]), indices[n], shards[n], Writers(shards[..n]));
    }
  }
}
