/** The effect of a sequence of requests on the two arenas, and why requests that allocate and
    release every tensor at most once never fail and never let live tensors overlap. */
module ArenaReplay {
  import opened Collections
  import opened MemoryArena
  import opened ArenaPlan
  import opened ArenaSchedule

  datatype AllocationType = ArenaRw | ArenaRwPersistent | OtherMemory
  datatype TensorInfo = TensorInfo(typ: AllocationType, bytes: nat)
  const ARENA_ALIGNMENT := 64

  /** The live blocks and high-water marks of both arenas, and the block last given to each tensor. */
  datatype Arenas = Arenas(rw: seq<ArenaAlloc>, persistent: seq<ArenaAlloc>,
                           rwTop: nat, persistentTop: nat, allocs: seq<ArenaAlloc>)

  function Max(a: nat, b: nat): nat {
    if a < b then b else a
  }

  /** CalculateTensorAllocation, lines 264-275. */
  function Allocate(ts: seq<TensorInfo>, alignment: nat, st: Arenas, t: int): Option<Arenas>
    requires alignment > 0 && 0 <= t < |ts| == |st.allocs|
  {
    match ts[t].typ
    case OtherMemory => Some(st)
    case _ =>
      if alignment > ARENA_ALIGNMENT then None
      else if ts[t].bytes == 0 then Some(st.(allocs := st.allocs[t := ArenaAlloc(0, 0)]))
      else if ts[t].typ == ArenaRw then
        var a := Placement(st.rw, alignment, ts[t].bytes);
        Some(st.(rw := WithPlacement(st.rw, alignment, ts[t].bytes), rwTop := Max(st.rwTop, End(a)),
                 allocs := st.allocs[t := a]))
      else
        var a := Placement(st.persistent, alignment, ts[t].bytes);
        Some(st.(persistent := WithPlacement(st.persistent, alignment, ts[t].bytes),
                 persistentTop := Max(st.persistentTop, End(a)), allocs := st.allocs[t := a]))
  }

  /** CalculateTensorDeallocation, lines 277-283: persistent tensors stay. */
  function Release(ts: seq<TensorInfo>, st: Arenas, t: int): Option<Arenas>
    requires 0 <= t < |ts| == |st.allocs|
  {
    if ts[t].typ != ArenaRw || st.allocs[t].size == 0 then Some(st)
    else if st.allocs[t] in st.rw then Some(st.(rw := Without(st.rw, st.allocs[t])))
    else None
  }

  ghost function Apply(ts: seq<TensorInfo>, alignment: nat, st: Arenas, op: Op): Option<Arenas>
    requires alignment > 0 && 0 <= op.tensor < |ts| == |st.allocs|
  {
    if op.kind == Alloc then Allocate(ts, alignment, st, op.tensor) else Release(ts, st, op.tensor)
  }

  ghost predicate OpsInRange(ts: seq<TensorInfo>, ops: seq<Op>) {
    forall k :: 0 <= k < |ops| ==> 0 <= ops[k].tensor < |ts|
  }

  ghost function Replay(ts: seq<TensorInfo>, alignment: nat, st: Arenas, ops: seq<Op>): (r: Option<Arenas>)
    requires alignment > 0 && |ts| == |st.allocs| && OpsInRange(ts, ops)
    ensures r.Some? ==> |r.value.allocs| == |ts|
  {
    if ops == [] then Some(st)
    else
      match Replay(ts, alignment, st, ops[..|ops| - 1])
      case None => None
      case Some(s) => Apply(ts, alignment, s, ops[|ops| - 1])
  }

  function Empty(ts: seq<TensorInfo>): Arenas {
    Arenas([], [], 0, 0, seq(|ts|, _ => ArenaAlloc(0, 0)))
  }

  /** Every tensor is allocated at most once, and released at most once, after its allocation. */
  ghost predicate WellPaired(ops: seq<Op>) {
    && (forall a, b :: 0 <= a < b < |ops| && ops[a].tensor == ops[b].tensor ==>
        ops[a].kind == Alloc && ops[b].kind == Dealloc)
    && (forall b :: 0 <= b < |ops| && ops[b].kind == Dealloc ==> Op(ops[b].tensor, Alloc) in ops[..b])
  }

  ghost predicate Allocated(ops: seq<Op>, t: int) {
    Op(t, Alloc) in ops
  }

  ghost predicate Live(ops: seq<Op>, t: int) {
    Op(t, Alloc) in ops && Op(t, Dealloc) !in ops
  }

  /** A tensor with a nonempty block in the arena of the given type. */
  predicate Stored(ts: seq<TensorInfo>, typ: AllocationType, t: int) {
    0 <= t < |ts| && ts[t].typ == typ && ts[t].bytes > 0
  }

  /** The tensors in live have pairwise disjoint blocks, all of them in the list. */
  ghost predicate Occupies(ts: seq<TensorInfo>, typ: AllocationType, blocks: seq<ArenaAlloc>,
                           allocs: seq<ArenaAlloc>, live: iset<int>) {
    && |allocs| == |ts| && Packed(blocks)
    && (forall t :: t in live && Stored(ts, typ, t) ==> allocs[t] in blocks && allocs[t].size > 0)
    && (forall t, u :: t in live && u in live && t != u && Stored(ts, typ, t) && Stored(ts, typ, u) ==>
          Disjoint(allocs[t], allocs[u]))
  }

  lemma {:induction false} OccupyMore(ts: seq<TensorInfo>, typ: AllocationType, alignment: nat, blocks: seq<ArenaAlloc>,
                                      allocs: seq<ArenaAlloc>, live: iset<int>, t: int)
    requires Occupies(ts, typ, blocks, allocs, live) && Stored(ts, typ, t) && t !in live && alignment > 0
    ensures Occupies(ts, typ, WithPlacement(blocks, alignment, ts[t].bytes),
                     allocs[t := Placement(blocks, alignment, ts[t].bytes)], live + iset{t})
  {
    PlacementIsSafe(blocks, alignment, ts[t].bytes);
    var a := Placement(blocks, alignment, ts[t].bytes);
    var next := allocs[t := a];
    assert forall u :: u in live ==> u != t;
    forall u | u in live && Stored(ts, typ, u) ensures Disjoint(next[u], a) && Disjoint(a, next[u]) {
      assert next[u] in blocks;
    }
  }

  lemma {:induction false} OccupyLess(ts: seq<TensorInfo>, typ: AllocationType, blocks: seq<ArenaAlloc>,
                                      allocs: seq<ArenaAlloc>, live: iset<int>, t: int)
    requires Occupies(ts, typ, blocks, allocs, live) && Stored(ts, typ, t) && t in live
    ensures Occupies(ts, typ, Without(blocks, allocs[t]), allocs, live - iset{t})
  {
    WithoutIsSafe(blocks, allocs[t]);
    forall u | u in live && u != t && Stored(ts, typ, u) ensures allocs[u].offset != allocs[t].offset {
      assert Disjoint(allocs[t], allocs[u]);
    }
  }

  ghost function LiveSet(ops: seq<Op>): iset<int> {
    iset t | Live(ops, t)
  }

  ghost function AllocatedSet(ops: seq<Op>): iset<int> {
    iset t | Allocated(ops, t)
  }

  /** The block of every tensor allocated so far: sized, aligned and below the high-water mark. */
  ghost predicate Placed(ts: seq<TensorInfo>, alignment: nat, st: Arenas, t: int)
    requires 0 <= t < |ts| == |st.allocs| && alignment > 0
  {
    ts[t].typ != OtherMemory ==>
      && st.allocs[t].size == ts[t].bytes
      && st.allocs[t].offset % alignment == 0
      && End(st.allocs[t]) <= if ts[t].typ == ArenaRw then st.rwTop else st.persistentTop
  }

  ghost predicate Holds(ts: seq<TensorInfo>, alignment: nat, ops: seq<Op>, st: Arenas)
    requires alignment > 0
  {
    && Occupies(ts, ArenaRw, st.rw, st.allocs, LiveSet(ops))
    && Occupies(ts, ArenaRwPersistent, st.persistent, st.allocs, AllocatedSet(ops))
    && (forall t :: 0 <= t < |ts| && Allocated(ops, t) ==> Placed(ts, alignment, st, t))
  }

  lemma {:induction false} PrefixPaired(ops: seq<Op>, k: nat)
    requires WellPaired(ops) && k <= |ops|
    ensures WellPaired(ops[..k])
  {
    forall b | 0 <= b < k && ops[..k][b].kind == Dealloc ensures Op(ops[b].tensor, Alloc) in ops[..k][..b] {
      assert ops[..k][..b] == ops[..b];
    }
  }

  /** In a well-paired sequence an allocation comes first and a release finds its tensor live. */
  lemma {:induction false} LastOp(ops: seq<Op>, op: Op)
    requires WellPaired(ops + [op])
    ensures op.kind == Alloc ==> !Allocated(ops, op.tensor) && Op(op.tensor, Dealloc) !in ops
    ensures op.kind == Dealloc ==> Live(ops, op.tensor)
  {
    var r := ops + [op];
    assert r[|ops|] == op && r[..|ops|] == ops;
    forall a | 0 <= a < |ops| && ops[a].tensor == op.tensor ensures ops[a].kind == Alloc && op.kind == Dealloc {
      assert r[a] == ops[a];
    }
  }

  lemma {:induction false} LiveAfter(ops: seq<Op>, op: Op)
    requires WellPaired(ops + [op])
    ensures LiveSet(ops + [op]) == if op.kind == Alloc then LiveSet(ops) + iset{op.tensor}
            else LiveSet(ops) - iset{op.tensor}
    ensures AllocatedSet(ops + [op]) == if op.kind == Alloc then AllocatedSet(ops) + iset{op.tensor}
            else AllocatedSet(ops)
  {
    hide WellPaired, Live, Allocated;
    LastOp(ops, op);
    LiveAfterAll(ops, op);
  }

  lemma {:induction false} LiveAfterAll(ops: seq<Op>, op: Op)
    requires op.kind == Alloc ==> Op(op.tensor, Dealloc) !in ops
    ensures forall t :: Live(ops + [op], t) <==>
            if op.kind == Alloc then Live(ops, t) || t == op.tensor else Live(ops, t) && t != op.tensor
    ensures forall t :: Allocated(ops + [op], t) <==> Allocated(ops, t) || (op.kind == Alloc && t == op.tensor)
  {
    forall t
      ensures Live(ops + [op], t) <==>
              if op.kind == Alloc then Live(ops, t) || t == op.tensor else Live(ops, t) && t != op.tensor
      ensures Allocated(ops + [op], t) <==> Allocated(ops, t) || (op.kind == Alloc && t == op.tensor)
    {
      AppendedOps(ops, op, t);
    }
  }

  lemma {:induction false} AppendedOps(ops: seq<Op>, op: Op, t: int)
    ensures Op(t, Alloc) in ops + [op] <==> Op(t, Alloc) in ops || op == Op(t, Alloc)
    ensures Op(t, Dealloc) in ops + [op] <==> Op(t, Dealloc) in ops || op == Op(t, Dealloc)
  {
  }

  /** A request for a tensor that has no block in this arena leaves the arena as it is. */
  lemma {:induction false} OccupyOther(ts: seq<TensorInfo>, typ: AllocationType, blocks: seq<ArenaAlloc>,
                                       allocs: seq<ArenaAlloc>, live: iset<int>, t: int, a: ArenaAlloc)
    requires Occupies(ts, typ, blocks, allocs, live) && 0 <= t < |ts| && !Stored(ts, typ, t)
    ensures Occupies(ts, typ, blocks, allocs[t := a], live + iset{t})
  {
    var next := allocs[t := a];
    assert forall u :: 0 <= u < |ts| && u != t ==> next[u] == allocs[u];
  }

  lemma {:induction false} PlacementAligned(blocks: seq<ArenaAlloc>, alignment: nat, size: nat)
    requires Packed(blocks) && alignment > 0 && size > 0
    ensures Placement(blocks, alignment, size).offset % alignment == 0
    ensures Placement(blocks, alignment, size).size == size
  {
  }

  lemma {:induction false} AllocateOccupies(ts: seq<TensorInfo>, alignment: nat, ops: seq<Op>, st: Arenas, t: int)
    requires 1 <= alignment <= ARENA_ALIGNMENT && Holds(ts, alignment, ops, st)
    requires !Allocated(ops, t) && 0 <= t < |ts|
    ensures var r := Allocate(ts, alignment, st, t);
      && r.Some?
      && Occupies(ts, ArenaRw, r.value.rw, r.value.allocs, LiveSet(ops) + iset{t})
      && Occupies(ts, ArenaRwPersistent, r.value.persistent, r.value.allocs, AllocatedSet(ops) + iset{t})
  {
    var s := Allocate(ts, alignment, st, t).value;
    var a := s.allocs[t];
    assert st.allocs[t := st.allocs[t]] == st.allocs;
    if Stored(ts, ArenaRw, t) {
      OccupyMore(ts, ArenaRw, alignment, st.rw, st.allocs, LiveSet(ops), t);
      OccupyOther(ts, ArenaRwPersistent, st.persistent, st.allocs, AllocatedSet(ops), t, a);
    } else if Stored(ts, ArenaRwPersistent, t) {
      OccupyMore(ts, ArenaRwPersistent, alignment, st.persistent, st.allocs, AllocatedSet(ops), t);
      OccupyOther(ts, ArenaRw, st.rw, st.allocs, LiveSet(ops), t, a);
    } else {
      OccupyOther(ts, ArenaRwPersistent, st.persistent, st.allocs, AllocatedSet(ops), t, a);
      OccupyOther(ts, ArenaRw, st.rw, st.allocs, LiveSet(ops), t, a);
    }
  }

  lemma {:induction false} AllocatePlaces(ts: seq<TensorInfo>, alignment: nat, st: Arenas, t: int, u: int)
    requires 1 <= alignment <= ARENA_ALIGNMENT && Packed(st.rw) && Packed(st.persistent)
    requires 0 <= t < |ts| == |st.allocs| && 0 <= u < |ts|
    requires u != t ==> Placed(ts, alignment, st, u)
    ensures var r := Allocate(ts, alignment, st, t); r.Some? && Placed(ts, alignment, r.value, u)
  {
    if Stored(ts, ArenaRw, t) {
      PlacementAligned(st.rw, alignment, ts[t].bytes);
    } else if Stored(ts, ArenaRwPersistent, t) {
      PlacementAligned(st.persistent, alignment, ts[t].bytes);
    }
    hide Packed, Placement, WithPlacement;
  }

  lemma {:induction false} AllocateStep(ts: seq<TensorInfo>, alignment: nat, ops: seq<Op>, st: Arenas, t: int)
    requires 1 <= alignment <= ARENA_ALIGNMENT && Holds(ts, alignment, ops, st)
    requires WellPaired(ops + [Op(t, Alloc)]) && 0 <= t < |ts|
    ensures var r := Allocate(ts, alignment, st, t); r.Some? && Holds(ts, alignment, ops + [Op(t, Alloc)], r.value)
  {
    LastOp(ops, Op(t, Alloc));
    LiveAfter(ops, Op(t, Alloc));
    AllocateOccupies(ts, alignment, ops, st, t);
    var s := Allocate(ts, alignment, st, t).value;
    forall u | 0 <= u < |ts| && Allocated(ops + [Op(t, Alloc)], u) ensures Placed(ts, alignment, s, u) {
      assert u != t ==> Allocated(ops, u);
      AllocatePlaces(ts, alignment, st, t, u);
    }
  }

  lemma {:induction false} ReleaseStep(ts: seq<TensorInfo>, alignment: nat, ops: seq<Op>, st: Arenas, t: int)
    requires 1 <= alignment <= ARENA_ALIGNMENT && Holds(ts, alignment, ops, st)
    requires WellPaired(ops + [Op(t, Dealloc)]) && 0 <= t < |ts|
    ensures var r := Release(ts, st, t);
      r.Some? && Holds(ts, alignment, ops + [Op(t, Dealloc)], r.value)
  {
    LastOp(ops, Op(t, Dealloc));
    LiveAfter(ops, Op(t, Dealloc));
    assert Placed(ts, alignment, st, t);
    if Stored(ts, ArenaRw, t) {
      assert t in LiveSet(ops);
      OccupyLess(ts, ArenaRw, st.rw, st.allocs, LiveSet(ops), t);
    }
    var s := Release(ts, st, t).value;
    forall u | 0 <= u < |ts| && Allocated(ops + [Op(t, Dealloc)], u) ensures Placed(ts, alignment, s, u) {
      assert Allocated(ops, u);
    }
  }

  lemma {:induction false} NothingHeld(ts: seq<TensorInfo>, alignment: nat)
    requires alignment > 0
    ensures Holds(ts, alignment, [], Empty(ts))
  {
  }

  /** A well-paired sequence replays without error, keeps live tensors apart, and gives every
      tensor one block for good. */
  lemma {:induction false} ReplayHolds(ts: seq<TensorInfo>, alignment: nat, ops: seq<Op>)
    requires 1 <= alignment <= ARENA_ALIGNMENT && WellPaired(ops) && OpsInRange(ts, ops)
    ensures var r := Replay(ts, alignment, Empty(ts), ops); r.Some? && Holds(ts, alignment, ops, r.value)
  {
    if ops == [] {
      NothingHeld(ts, alignment);
    } else {
      hide Holds, WellPaired, Replay, Empty;
      var last := |ops| - 1;
      PrefixPaired(ops, last);
      ReplayHolds(ts, alignment, ops[..last]);
      ReplayNext(ts, alignment, Empty(ts), ops, last);
      assert ops[..last + 1] == ops == ops[..last] + [ops[last]];
      ApplyHolds(ts, alignment, ops[..last], Replay(ts, alignment, Empty(ts), ops[..last]).value, ops[last]);
    }
  }

  lemma {:induction false} ApplyHolds(ts: seq<TensorInfo>, alignment: nat, ops: seq<Op>, st: Arenas, op: Op)
    requires 1 <= alignment <= ARENA_ALIGNMENT && Holds(ts, alignment, ops, st) && |st.allocs| == |ts|
    requires WellPaired(ops + [op]) && 0 <= op.tensor < |ts|
    ensures var r := Apply(ts, alignment, st, op); r.Some? && Holds(ts, alignment, ops + [op], r.value)
  {
    hide Holds, WellPaired, Allocate, Release;
    assert op == Op(op.tensor, op.kind);
    if op.kind == Alloc {
      AllocateStep(ts, alignment, ops, st, op.tensor);
    } else {
      ReleaseStep(ts, alignment, ops, st, op.tensor);
    }
  }

  lemma {:induction false} PrefixSucceeds(ts: seq<TensorInfo>, alignment: nat, ops: seq<Op>, k: nat)
    requires 1 <= alignment <= ARENA_ALIGNMENT && WellPaired(ops) && OpsInRange(ts, ops) && k <= |ops|
    ensures Replay(ts, alignment, Empty(ts), ops[..k]).Some?
  {
    PrefixPaired(ops, k);
    ReplayHolds(ts, alignment, ops[..k]);
  }

  lemma {:induction false} ReplayNext(ts: seq<TensorInfo>, alignment: nat, st: Arenas, ops: seq<Op>, k: nat)
    requires alignment > 0 && |ts| == |st.allocs| && OpsInRange(ts, ops) && k < |ops|
    requires Replay(ts, alignment, st, ops[..k]).Some?
    ensures Replay(ts, alignment, st, ops[..k + 1])
            == Apply(ts, alignment, Replay(ts, alignment, st, ops[..k]).value, ops[k])
  {
    assert ops[..k + 1][..k] == ops[..k];
  }

  lemma {:induction false} NotAllocatedAgain(ops: seq<Op>, k: nat, t: int)
    requires WellPaired(ops) && k < |ops| && Allocated(ops[..k], t)
    ensures ops[k] != Op(t, Alloc) && Allocated(ops[..k + 1], t)
  {
    var a :| 0 <= a < k && ops[..k][a] == Op(t, Alloc);
    assert ops[a] == Op(t, Alloc) && ops[..k + 1][a] == Op(t, Alloc);
  }

  lemma {:induction false} BlockIsFinal(ts: seq<TensorInfo>, alignment: nat, ops: seq<Op>, k: nat, t: int)
    requires 1 <= alignment <= ARENA_ALIGNMENT && WellPaired(ops) && OpsInRange(ts, ops)
    requires k <= |ops| && 0 <= t < |ts| && Allocated(ops[..k], t)
    ensures var r, p := Replay(ts, alignment, Empty(ts), ops), Replay(ts, alignment, Empty(ts), ops[..k]);
      r.Some? && p.Some? && r.value.allocs[t] == p.value.allocs[t]
    decreases |ops| - k
  {
    PrefixSucceeds(ts, alignment, ops, k);
    if k == |ops| {
      assert ops[..k] == ops;
    } else {
      NotAllocatedAgain(ops, k, t);
      ReplayNext(ts, alignment, Empty(ts), ops, k);
      ApplyKeeps(ts, alignment, Replay(ts, alignment, Empty(ts), ops[..k]).value, ops[k], t);
      BlockIsFinal(ts, alignment, ops, k + 1, t);
    }
  }

  /** Every live block belongs to a live tensor. */
  ghost predicate OnlyLive(ts: seq<TensorInfo>, ops: seq<Op>, st: Arenas) {
    && |st.allocs| == |ts|
    && forall a :: a in st.rw ==> exists u :: Live(ops, u) && Stored(ts, ArenaRw, u) && st.allocs[u] == a
  }

  lemma {:induction false} AllocateOnlyLive(ts: seq<TensorInfo>, alignment: nat, ops: seq<Op>, st: Arenas, t: int)
    requires 1 <= alignment <= ARENA_ALIGNMENT && Holds(ts, alignment, ops, st) && OnlyLive(ts, ops, st)
    requires WellPaired(ops + [Op(t, Alloc)]) && 0 <= t < |ts|
    ensures OnlyLive(ts, ops + [Op(t, Alloc)], Allocate(ts, alignment, st, t).value)
  {
    LastOp(ops, Op(t, Alloc));
    LiveAfterAll(ops, Op(t, Alloc));
    var next := Allocate(ts, alignment, st, t).value;
    if Stored(ts, ArenaRw, t) {
      PlacementIsSafe(st.rw, alignment, ts[t].bytes);
    }
    hide WellPaired, Live, Occupies, Placement, WithPlacement;
    forall a | a in next.rw
      ensures exists u :: Live(ops + [Op(t, Alloc)], u) && Stored(ts, ArenaRw, u) && next.allocs[u] == a
    {
      if a in st.rw {
        var u :| Live(ops, u) && Stored(ts, ArenaRw, u) && st.allocs[u] == a;
        LiveIsAllocated(ops, u);
        assert Live(ops + [Op(t, Alloc)], u) && next.allocs[u] == a;
      } else {
        assert Live(ops + [Op(t, Alloc)], t) && next.allocs[t] == a;
      }
    }
  }

  lemma {:induction false} LiveIsAllocated(ops: seq<Op>, t: int)
    ensures Live(ops, t) ==> Allocated(ops, t)
  {
  }

  lemma {:induction false} ReleaseOnlyLive(ts: seq<TensorInfo>, alignment: nat, ops: seq<Op>, st: Arenas, t: int)
    requires 1 <= alignment <= ARENA_ALIGNMENT && Holds(ts, alignment, ops, st) && OnlyLive(ts, ops, st)
    requires WellPaired(ops + [Op(t, Dealloc)]) && 0 <= t < |ts| && Release(ts, st, t).Some?
    ensures OnlyLive(ts, ops + [Op(t, Dealloc)], Release(ts, st, t).value)
  {
    LastOp(ops, Op(t, Dealloc));
    LiveAfterAll(ops, Op(t, Dealloc));
    LiveIsAllocated(ops, t);
    assert Placed(ts, alignment, st, t);
    WithoutIsSafe(st.rw, st.allocs[t]);
    var next := Release(ts, st, t).value;
    hide WellPaired, Live, Occupies, Without;
    forall a | a in next.rw
      ensures exists u :: Live(ops + [Op(t, Dealloc)], u) && Stored(ts, ArenaRw, u) && next.allocs[u] == a
    {
      var u :| Live(ops, u) && Stored(ts, ArenaRw, u) && st.allocs[u] == a;
      assert u != t;
      assert Live(ops + [Op(t, Dealloc)], u) && next.allocs[u] == a;
    }
  }

  lemma {:induction false} NothingLive(ts: seq<TensorInfo>, alignment: nat)
    requires alignment > 0
    ensures |Empty(ts).allocs| == |ts| && OpsInRange(ts, []) && OnlyLive(ts, [], Empty(ts))
    ensures Replay(ts, alignment, Empty(ts), []) == Some(Empty(ts))
  {
  }

  lemma {:induction false} ReplayOnlyLive(ts: seq<TensorInfo>, alignment: nat, ops: seq<Op>)
    requires 1 <= alignment <= ARENA_ALIGNMENT && WellPaired(ops) && OpsInRange(ts, ops)
    ensures var r := Replay(ts, alignment, Empty(ts), ops); r.Some? && OnlyLive(ts, ops, r.value)
  {
    hide *;
    if ops == [] {
      NothingLive(ts, alignment);
    } else {
      var last := |ops| - 1;
      InRangeParts(ts, ops, last);
      PrefixPaired(ops, last);
      EmptyHasAllTensors(ts);
      ReplayHolds(ts, alignment, ops[..last]);
      ReplayOnlyLive(ts, alignment, ops[..last]);
      ReplayNext(ts, alignment, Empty(ts), ops, last);
      assert ops[..last + 1] == ops == ops[..last] + [ops[last]];
      ApplyOnlyLive(ts, alignment, ops[..last], Replay(ts, alignment, Empty(ts), ops[..last]).value, ops[last]);
    }
  }

  lemma {:induction false} EmptyHasAllTensors(ts: seq<TensorInfo>)
    ensures |Empty(ts).allocs| == |ts|
  {
  }

  lemma {:induction false} InRangeParts(ts: seq<TensorInfo>, ops: seq<Op>, k: nat)
    requires OpsInRange(ts, ops) && k < |ops|
    ensures OpsInRange(ts, ops[..k]) && 0 <= ops[k].tensor < |ts|
  {
  }

  lemma {:induction false} ApplyOnlyLive(ts: seq<TensorInfo>, alignment: nat, ops: seq<Op>, st: Arenas, op: Op)
    requires 1 <= alignment <= ARENA_ALIGNMENT && Holds(ts, alignment, ops, st) && OnlyLive(ts, ops, st)
    requires |st.allocs| == |ts|
    requires WellPaired(ops + [op]) && 0 <= op.tensor < |ts|
    ensures var r := Apply(ts, alignment, st, op); r.Some? && OnlyLive(ts, ops + [op], r.value)
  {
    hide Holds, OnlyLive, WellPaired, Allocate, Release;
    ApplyHolds(ts, alignment, ops, st, op);
    assert op == Op(op.tensor, op.kind);
    if op.kind == Alloc {
      AllocateOnlyLive(ts, alignment, ops, st, op.tensor);
    } else {
      ReleaseOnlyLive(ts, alignment, ops, st, op.tensor);
    }
  }

  /** Releasing a tensor a second time fails, unless its old block is now the block of a live
      tensor, which then loses it. */
  lemma {:induction false} SecondRelease(ts: seq<TensorInfo>, alignment: nat, ops: seq<Op>, x: int)
    requires 1 <= alignment <= ARENA_ALIGNMENT && WellPaired(ops) && OpsInRange(ts, ops)
    requires Stored(ts, ArenaRw, x) && Allocated(ops, x) && !Live(ops, x)
    ensures var r := Replay(ts, alignment, Empty(ts), ops);
            && r.Some?
            && (Release(ts, r.value, x).Some? <==>
                exists u :: Live(ops, u) && Stored(ts, ArenaRw, u) && r.value.allocs[u] == r.value.allocs[x])
            && (forall u :: Live(ops, u) && Stored(ts, ArenaRw, u) && r.value.allocs[u] == r.value.allocs[x] ==>
                  u != x && r.value.allocs[u] !in Release(ts, r.value, x).value.rw)
  {
    ReplayHolds(ts, alignment, ops);
    ReplayOnlyLive(ts, alignment, ops);
    var st := Replay(ts, alignment, Empty(ts), ops).value;
    assert Placed(ts, alignment, st, x);
    WithoutIsSafe(st.rw, st.allocs[x]);
    hide WellPaired, Replay, Without, Placed;
    forall u | Live(ops, u) && Stored(ts, ArenaRw, u) ensures st.allocs[u] in st.rw {
      assert u in LiveSet(ops);
    }
  }

  /** A request moves no tensor but, when it allocates, its own. */
  lemma {:induction false} ApplyKeeps(ts: seq<TensorInfo>, alignment: nat, st: Arenas, op: Op, t: int)
    requires alignment > 0 && 0 <= op.tensor < |ts| == |st.allocs| && 0 <= t < |ts|
    requires op.kind == Alloc ==> t != op.tensor
    ensures var r := Apply(ts, alignment, st, op); r.Some? ==> r.value.allocs[t] == st.allocs[t]
  {
  }

  /** Two tensors of one arena that are live at the same moment have disjoint blocks in the end. */
  lemma {:induction false} LiveTogetherAreDisjoint(ts: seq<TensorInfo>, alignment: nat, ops: seq<Op>, k: nat, t: int,
                                                   u: int)
    requires 1 <= alignment <= ARENA_ALIGNMENT && WellPaired(ops) && OpsInRange(ts, ops) && k <= |ops|
    requires Live(ops[..k], t) && Live(ops[..k], u) && t != u
    requires 0 <= t < |ts| && 0 <= u < |ts| && ts[t].typ == ts[u].typ != OtherMemory && ts[t].bytes > 0
    requires ts[u].bytes > 0
    ensures var r := Replay(ts, alignment, Empty(ts), ops);
      r.Some? && Disjoint(r.value.allocs[t], r.value.allocs[u])
  {
    BlockIsFinal(ts, alignment, ops, k, t);
    BlockIsFinal(ts, alignment, ops, k, u);
    PrefixPaired(ops, k);
    ReplayHolds(ts, alignment, ops[..k]);
    assert t in LiveSet(ops[..k]) && u in LiveSet(ops[..k]);
    assert t in AllocatedSet(ops[..k]) && u in AllocatedSet(ops[..k]);
  }

  // ---- Releasing later ----

  lemma {:induction false} PostponedIndex(a: seq<Op>, d: seq<Op>, b: seq<Op>, k: nat) returns (was: nat)
    requires k < |a| + |b| + |d|
    ensures was < |a| + |d| + |b| && (a + b + d)[k] == (a + d + b)[was]
    ensures was == if k < |a| then k else if k < |a| + |b| then k + |d| else k - |b|
  {
    was := if k < |a| then k else if k < |a| + |b| then k + |d| else k - |b|;
  }

  lemma {:induction false} MiddleIsReleases(a: seq<Op>, d: seq<Op>, b: seq<Op>)
    requires forall k :: 0 <= k < |d| ==> d[k].kind == Dealloc
    ensures forall m :: |a| <= m < |a| + |d| ==> (a + d + b)[m].kind == Dealloc
  {
    forall m | |a| <= m < |a| + |d| ensures (a + d + b)[m].kind == Dealloc {
      assert (a + d + b)[m] == d[m - |a|];
    }
  }

  /** Moving releases behind later requests keeps every tensor's requests in order. */
  lemma {:induction false} PostponedIsPaired(a: seq<Op>, d: seq<Op>, b: seq<Op>)
    requires WellPaired(a + d + b) && forall k :: 0 <= k < |d| ==> d[k].kind == Dealloc
    ensures WellPaired(a + b + d)
  {
    var r, was := a + b + d, a + d + b;
    MiddleIsReleases(a, d, b);
    forall x, y | 0 <= x < y < |r| && r[x].tensor == r[y].tensor ensures r[x].kind == Alloc && r[y].kind == Dealloc {
      var i := PostponedIndex(a, d, b, x);
      var j := PostponedIndex(a, d, b, y);
      assert i < j;
    }
    forall y | 0 <= y < |r| && r[y].kind == Dealloc ensures Op(r[y].tensor, Alloc) in r[..y] {
      var j := PostponedIndex(a, d, b, y);
      AllocComesFirst(a, d, b, j);
      if y < |a| {
        assert r[..y] == was[..y];
      }
    }
  }

  /** The allocation before a release is not among the releases in between. */
  lemma {:induction false} AllocationOf(ops: seq<Op>, j: nat) returns (i: nat)
    requires WellPaired(ops) && j < |ops| && ops[j].kind == Dealloc
    ensures i < j && ops[i] == Op(ops[j].tensor, Alloc)
  {
    var op := Op(ops[j].tensor, Alloc);
    assert op in ops[..j];
    i :| 0 <= i < j && ops[..j][i] == op;
  }

  lemma {:induction false} AllocComesFirst(a: seq<Op>, d: seq<Op>, b: seq<Op>, j: nat)
    requires j < |a + d + b| && (a + d + b)[j].kind == Dealloc && WellPaired(a + d + b)
    requires forall k :: 0 <= k < |d| ==> d[k].kind == Dealloc
    ensures var op, r := Op((a + d + b)[j].tensor, Alloc), a + b + d;
            && (j < |a| ==> op in a[..j])
            && (|a| <= j < |a| + |d| ==> op in r[..j + |b|])
            && (|a| + |d| <= j ==> op in r[..j - |d|])
  {
    var was, r := a + d + b, a + b + d;
    MiddleIsReleases(a, d, b);
    var op := Op(was[j].tensor, Alloc);
    var i := AllocationOf(was, j);
    hide WellPaired;
    if i < |a| {
      assert r[i] == op && a[i] == op;
      if j < |a| {
        assert a[..j][i] == op;
      } else if j < |a| + |d| {
        assert r[..j + |b|][i] == op;
      } else {
        assert r[..j - |d|][i] == op;
      }
    } else {
      assert i >= |a| + |d|;
      assert r[..j - |d|][i - |d|] == op;
    }
  }

  /** The moment in the postponed sequence that goes with moment k. */
  function PostponedMoment(a: seq<Op>, d: seq<Op>, b: seq<Op>, k: nat): nat {
    if k <= |a| then k else if k <= |a| + |d| then |a| else k - |d|
  }

  /** What is live at a moment is live at the corresponding moment when releases come later. */
  lemma {:induction false} PostponedIsLive(a: seq<Op>, d: seq<Op>, b: seq<Op>, k: nat, t: int)
    requires k <= |a + d + b| && Live((a + d + b)[..k], t)
    requires forall i :: 0 <= i < |d| ==> d[i].kind == Dealloc
    ensures PostponedMoment(a, d, b, k) <= |a + b + d| && Live((a + b + d)[..PostponedMoment(a, d, b, k)], t)
  {
    if k <= |a| {
      assert (a + d + b)[..k] == a[..k] == (a + b + d)[..k];
    } else if k <= |a| + |d| {
      assert (a + d + b)[..k] == a + d[..k - |a|] && (a + b + d)[..|a|] == a;
      assert Op(t, Alloc) !in d[..k - |a|];
    } else {
      var j := k - |a| - |d|;
      assert (a + d + b)[..k] == a + d + b[..j] && (a + b + d)[..|a| + j] == a + b[..j];
      assert Op(t, Alloc) !in d;
    }
  }

  /** A tensor that is never allocated keeps the empty block. */
  lemma {:induction false} NeverAllocatedIsEmpty(ts: seq<TensorInfo>, alignment: nat, ops: seq<Op>, t: int)
    requires alignment > 0 && OpsInRange(ts, ops) && 0 <= t < |ts| && Op(t, Alloc) !in ops
    ensures var r := Replay(ts, alignment, Empty(ts), ops); r.Some? ==> r.value.allocs[t] == ArenaAlloc(0, 0)
  {
    if ops != [] {
      var last := |ops| - 1;
      NeverAllocatedIsEmpty(ts, alignment, ops[..last], t);
      var st := Replay(ts, alignment, Empty(ts), ops[..last]);
      assert ops[last] in ops && ops[last] == Op(ops[last].tensor, ops[last].kind);
      if st.Some? {
        ApplyKeeps(ts, alignment, st.value, ops[last], t);
      }
    }
  }

  /** Replaying in two parts is replaying in one. */
  lemma {:induction false} ReplayConcat(ts: seq<TensorInfo>, alignment: nat, st: Arenas, a: seq<Op>, b: seq<Op>)
    requires alignment > 0 && |ts| == |st.allocs| && OpsInRange(ts, a) && OpsInRange(ts, b)
    ensures OpsInRange(ts, a + b)
    ensures Replay(ts, alignment, st, a + b) ==
              match Replay(ts, alignment, st, a)
              case None => None
              case Some(s) => Replay(ts, alignment, s, b)
  {
    if b == [] {
      assert a + b == a;
    } else {
      var last := |b| - 1;
      ReplayConcat(ts, alignment, st, a, b[..last]);
      assert (a + b)[..|a + b| - 1] == a + b[..last];
    }
  }
}
