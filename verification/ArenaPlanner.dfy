/** The memory planner of tensorflow/lite/arena_planner.cc. */
module ArenaPlanner {
  import opened Collections
  import opened Graphs
  import opened MemoryArena
  import opened ArenaPlan
  import opened ArenaSchedule
  import opened ArenaReplay
  import opened ArenaLifetimes
  import opened ArenaExecution

  /** The allocated tensors, as the source's vector of flags records them. */
  ghost function Seen(queued: seq<bool>): iset<int> {
    iset t | 0 <= t < |queued| && queued[t]
  }

  ghost predicate TensorsOrOptional(g: Graph, tensors: seq<int>) {
    forall k :: 0 <= k < |tensors| ==> tensors[k] == OPTIONAL_TENSOR || IsTensor(g, tensors[k])
  }

  ghost predicate QueueInRange(ts: seq<TensorInfo>, q: seq<AllocationInfo>) {
    forall k :: 0 <= k < |q| ==> 0 <= q[k].tensor < |ts|
  }

  ghost predicate TemporariesInRange(ts: seq<TensorInfo>, g: Graph) {
    forall n, k :: IsNode(g, n) && 0 <= k < |g.nodes[n].temporaries| ==> 0 <= g.nodes[n].temporaries[k] < |ts|
  }

  lemma {:induction false} ConcatInRange(ts: seq<TensorInfo>, a: seq<Op>, b: seq<Op>)
    requires OpsInRange(ts, a) && OpsInRange(ts, b)
    ensures OpsInRange(ts, a + b)
  {
  }

  lemma {:induction false} EntryInRange(g: Graph, ts: seq<TensorInfo>, info: AllocationInfo, first: int, active: int)
    requires TemporariesInRange(ts, g) && 0 <= info.tensor < |ts|
    ensures OpsInRange(ts, EntryOps(g, info, first, active))
  {
    ConcatInRange(ts, if active != first then Temporaries(g, active - 1, Dealloc) else [],
                  Temporaries(g, active, Alloc));
    ConcatInRange(ts, VisitOps(g, info, first, active), [Op(info.tensor, info.kind)]);
  }

  lemma {:induction false} CalculateInRange(g: Graph, ts: seq<TensorInfo>, q: seq<AllocationInfo>, first: int,
                                            last: int, active: int)
    requires QueueInRange(ts, q) && TemporariesInRange(ts, g)
    ensures OpsInRange(ts, Calculate(g, q, first, last, active))
  {
    if q != [] {
      hide EntryOps;
      if q[0].node < first {
        CalculateInRange(g, ts, q[1..], first, last, active);
      } else if q[0].node <= last {
        var next := if q[0].node == active then active + 1 else active;
        CalculateInRange(g, ts, q[1..], first, last, next);
        EntryInRange(g, ts, q[0], first, active);
        ConcatInRange(ts, EntryOps(g, q[0], first, active), Calculate(g, q[1..], first, last, next));
      }
    }
  }

  lemma {:induction false} CalculateStep(g: Graph, q: seq<AllocationInfo>, first: int, last: int, active: int)
    requires q != [] && first <= q[0].node <= last
    ensures Calculate(g, q, first, last, active) == EntryOps(g, q[0], first, active)
              + Calculate(g, q[1..], first, last, if q[0].node == active then active + 1 else active)
  {
  }

  lemma {:induction false} ReplayOne(ts: seq<TensorInfo>, alignment: nat, st: Arenas, op: Op)
    requires alignment > 0 && 0 <= op.tensor < |ts| == |st.allocs|
    ensures Replay(ts, alignment, st, [op]) == Apply(ts, alignment, st, op)
  {
    assert [op][..0] == [];
  }

  lemma {:induction false} NoUses(g: Graph, preserveInputs: bool, i: int)
    requires IsNode(g, i)
    ensures Entries(i, LastUses(g, preserveInputs, i, 0), Dealloc) == []
  {
  }

  lemma {:induction false} UsesStep(g: Graph, preserveInputs: bool, i: int, j: nat)
    requires IsNode(g, i) && j < |g.nodes[i].inputs|
    ensures Entries(i, LastUses(g, preserveInputs, i, j + 1), Dealloc) ==
            Entries(i, LastUses(g, preserveInputs, i, j), Dealloc)
            + if Dies(g, preserveInputs, i, j) then [AllocationInfo(i, g.nodes[i].inputs[j], Dealloc)] else []
  {
    hide Dies, Entries;
    var uses := LastUses(g, preserveInputs, i, j);
    EntriesSnoc(i, uses, g.nodes[i].inputs[j], Dealloc);
    assert uses + [] == uses && Entries(i, uses, Dealloc) + [] == Entries(i, uses, Dealloc);
  }

  lemma {:induction false} OccurrencesStep(s: seq<int>, j: nat)
    requires j < |s|
    ensures forall t :: Occurrences(s[..j + 1], t) == Occurrences(s[..j], t) + if s[j] == t then 1 else 0
  {
    assert s[..j + 1][..j] == s[..j] && s[..j + 1][j] == s[j];
  }

  class Planner {
    const graphInfo: Graph
    const preserveInputs: bool
    const preserveIntermediates: bool
    const tensorAlignment: nat
    const arena: SimpleMemoryArena
    const persistentArena: SimpleMemoryArena
    var allocs: seq<ArenaAlloc>
    var allocQueue: seq<AllocationInfo>

    ghost predicate Valid()
      reads this, arena, persistentArena
    {
      && PlannerRange(graphInfo) && tensorAlignment > 0
      && arena != persistentArena
      && arena.arenaAlignment == persistentArena.arenaAlignment == ARENA_ALIGNMENT
      && Packed(arena.allocs) && Packed(persistentArena.allocs)
      && arena.Buffered() && persistentArena.Buffered()
    }

    ghost function View(): Arenas
      reads this, arena, persistentArena
    {
      Arenas(arena.allocs, persistentArena.allocs, arena.highWaterMark, persistentArena.highWaterMark, allocs)
    }

    constructor (graphInfo: Graph, preserveInputs: bool, preserveIntermediates: bool, tensorAlignment: nat)
      requires PlannerRange(graphInfo) && tensorAlignment > 0
      ensures Valid() && fresh(arena) && fresh(persistentArena)
      ensures this.graphInfo == graphInfo && this.preserveInputs == preserveInputs
      ensures this.preserveIntermediates == preserveIntermediates && this.tensorAlignment == tensorAlignment
      ensures allocQueue == [] && View() == Arenas([], [], 0, 0, [])
    {
      this.graphInfo, this.preserveInputs, this.preserveIntermediates := graphInfo, preserveInputs,
        preserveIntermediates;
      this.tensorAlignment := tensorAlignment;
      var rw := new SimpleMemoryArena(ARENA_ALIGNMENT);
      var persistent := new SimpleMemoryArena(ARENA_ALIGNMENT);
      arena, persistentArena := rw, persistent;
      allocs, allocQueue := [], [];
    }

    /** Lines 53-61: the queue survives. */
    method ResetAllocations()
      requires Valid()
      modifies this`allocs, arena, persistentArena
      ensures Valid() && |allocs| == graphInfo.numTensors
      ensures View() == Arenas([], [], 0, 0, seq(graphInfo.numTensors, _ => ArenaAlloc(0, 0)))
    {
      arena.Clear();
      persistentArena.Clear();
      allocs := seq(graphInfo.numTensors, _ => ArenaAlloc(0, 0));
    }

    // ---- Planning ----

    /** The allocate closure of lines 77-86 applied to a list of tensors. */
    method AllocateAll(node: int, tensors: seq<int>, queued: seq<bool>) returns (after: seq<bool>)
      requires |queued| == graphInfo.numTensors && TensorsOrOptional(graphInfo, tensors)
      modifies this`allocQueue
      ensures |after| == |queued|
      ensures forall t :: 0 <= t < |after| ==> (after[t] <==> queued[t] || t in tensors)
      ensures allocQueue == old(allocQueue) + Entries(node, Fresh(Seen(queued), tensors), Alloc)
    {
      after := queued;
      for k := 0 to |tensors|
        invariant |after| == |queued|
        invariant forall t :: 0 <= t < |after| ==> (after[t] <==> queued[t] || t in tensors[..k])
        invariant allocQueue == old(allocQueue) + Entries(node, Fresh(Seen(queued), tensors[..k]), Alloc)
      {
        var t := tensors[k];
        assert tensors[..k + 1] == tensors[..k] + [t] && tensors[..k + 1][..k] == tensors[..k];
        assert tensors[..k + 1][k] == t;
        if t != OPTIONAL_TENSOR {
          if !after[t] {
            allocQueue := allocQueue + [AllocationInfo(node, t, Alloc)];
            after := after[t := true];
            assert t !in Seen(queued) && t !in tensors[..k];
            EntriesSnoc(node, Fresh(Seen(queued), tensors[..k]), t, Alloc);
          } else {
            assert t in Seen(queued) || t in tensors[..k];
          }
        }
      }
      assert tensors[..|tensors|] == tensors;
    }

    /** Adds the references of a list of tensors. */
    method Count(refcounts: seq<int>, tensors: seq<int>) returns (after: seq<int>)
      requires |refcounts| == graphInfo.numTensors && TensorsOrOptional(graphInfo, tensors)
      ensures |after| == |refcounts|
      ensures forall t :: 0 <= t < |after| ==> after[t] == refcounts[t] + Occurrences(tensors, t)
    {
      after := refcounts;
      for k := 0 to |tensors|
        invariant |after| == |refcounts|
        invariant forall t :: 0 <= t < |after| ==> after[t] == refcounts[t] + Occurrences(tensors[..k], t)
      {
        assert tensors[..k + 1][..k] == tensors[..k] && tensors[..k + 1][k] == tensors[k];
        if tensors[k] != OPTIONAL_TENSOR {
          after := after[tensors[k] := after[tensors[k]] + 1];
        }
      }
      assert tensors[..|tensors|] == tensors;
    }

    /** Lines 137-147: count the references of all nodes to their inputs. */
    method CountReads(refcounts: seq<int>) returns (after: seq<int>)
      requires PlannerRange(graphInfo) && |refcounts| == graphInfo.numTensors
      ensures |after| == |refcounts|
      ensures forall t :: 0 <= t < |after| ==> after[t] == refcounts[t] + ReadsFrom(graphInfo, 0, t)
    {
      after := refcounts;
      for i := 0 to |graphInfo.nodes|
        invariant |after| == |refcounts|
        invariant forall t :: 0 <= t < |after| ==>
                    after[t] + ReadsFrom(graphInfo, i, t) == refcounts[t] + ReadsFrom(graphInfo, 0, t)
      {
        NodeInputsInRange(graphInfo, i);
        after := Count(after, graphInfo.nodes[i].inputs);
      }
    }

    /** Lines 166-179 for node i: drop the references and release what reaches zero. */
    method DropReads(i: int, refcounts: seq<int>, queued: seq<bool>) returns (after: seq<int>)
      requires PlannerRange(graphInfo) && IsNode(graphInfo, i)
      requires |refcounts| == |queued| == graphInfo.numTensors
      requires forall t :: 0 <= t < |refcounts| ==>
                 refcounts[t] == Pins(graphInfo, preserveInputs, t) + ReadsFrom(graphInfo, i, t)
      requires forall t :: 0 <= t < |queued| ==> (queued[t] <==> AllocatedBefore(graphInfo, i + 1, t))
      modifies this`allocQueue
      ensures |after| == |refcounts|
      ensures forall t :: 0 <= t < |after| ==>
                after[t] == Pins(graphInfo, preserveInputs, t) + ReadsFrom(graphInfo, i + 1, t)
      ensures allocQueue == old(allocQueue)
              + Entries(i, LastUses(graphInfo, preserveInputs, i, |graphInfo.nodes[i].inputs|), Dealloc)
    {
      hide Dies, Pins, AllocatedBefore, LastUses, Entries;
      var inputs := graphInfo.nodes[i].inputs;
      NodeInputsInRange(graphInfo, i);
      NoUses(graphInfo, preserveInputs, i);
      after := refcounts;
      for j := 0 to |inputs|
        invariant |after| == |refcounts|
        invariant forall t :: 0 <= t < |after| ==> after[t] == refcounts[t] - Occurrences(inputs[..j], t)
        invariant allocQueue == old(allocQueue) + Entries(i, LastUses(graphInfo, preserveInputs, i, j), Dealloc)
      {
        var t := inputs[j];
        OccurrencesStep(inputs, j);
        CountReachesZero(graphInfo, preserveInputs, i, j);
        UsesStep(graphInfo, preserveInputs, i, j);
        if t != OPTIONAL_TENSOR {
          after := after[t := after[t] - 1];
          if after[t] == 0 {
            if queued[t] {
              allocQueue := allocQueue + [AllocationInfo(i, t, Dealloc)];
            }
          }
        }
      }
      assert inputs[..|inputs|] == inputs;
    }

    /** Lines 104-147: pins first, then one reference per read. */
    method CountReferences() returns (refcounts: seq<int>)
      requires PlannerRange(graphInfo)
      ensures CountsAt(0, refcounts)
    {
      GraphTensorsInRange(graphInfo);
      refcounts := seq(graphInfo.numTensors, _ => 0);
      refcounts := Count(refcounts, graphInfo.outputs);
      refcounts := Count(refcounts, graphInfo.variables);
      if preserveInputs {
        refcounts := Count(refcounts, graphInfo.inputs);
      }
      refcounts := CountReads(refcounts);
    }

    /** Lines 117-135 and 149-154: inputs, variables, and inputs once more. */
    method QueueGiven() returns (queued: seq<bool>)
      requires PlannerRange(graphInfo) && allocQueue == []
      modifies this`allocQueue
      ensures FlagsAt(0, queued)
      ensures allocQueue == Entries(0, GivenTensors(graphInfo), Alloc)
    {
      GraphTensorsInRange(graphInfo);
      queued := seq(graphInfo.numTensors, _ => false);
      assert Seen(queued) == iset{};
      queued := AllocateAll(0, graphInfo.inputs, queued);
      assert Seen(queued) == InputTensors(graphInfo) by {
        forall t | t in InputTensors(graphInfo) ensures IsTensor(graphInfo, t) {
        }
      }
      queued := AllocateAll(0, graphInfo.variables, queued);
      EntriesConcat(0, Fresh(iset{}, graphInfo.inputs), Fresh(InputTensors(graphInfo), graphInfo.variables), Alloc);
      ghost var given := allocQueue;
      assert given == Entries(0, GivenTensors(graphInfo), Alloc);
      NothingFresh(Seen(queued), graphInfo.inputs);
      queued := AllocateAll(0, graphInfo.inputs, queued);
      assert allocQueue == given + [];
    }

    /** Lines 157-179 for node i. */
    method PlanNode(i: int, refcounts: seq<int>, queued: seq<bool>) returns (refcounts': seq<int>, queued': seq<bool>)
      requires PlannerRange(graphInfo) && IsNode(graphInfo, i)
      requires CountsAt(i, refcounts) && FlagsAt(i, queued)
      modifies this`allocQueue
      ensures CountsAt(i + 1, refcounts') && FlagsAt(i + 1, queued')
      ensures allocQueue == old(allocQueue) + Entries(i, NewOutputs(graphInfo, i), Alloc)
                + Entries(i, Releases(graphInfo, preserveInputs, preserveIntermediates, i), Dealloc)
    {
      NodeOutputsInRange(graphInfo, i);
      SeenIsAllocated(graphInfo, i, queued);
      queued' := AllocateAll(i, graphInfo.nodes[i].outputs, queued);
      forall t | 0 <= t < |queued'| ensures queued'[t] <==> AllocatedBefore(graphInfo, i + 1, t) {
        AllocatedNext(graphInfo, i, t);
      }
      refcounts' := refcounts;
      if !preserveIntermediates {
        refcounts' := DropReads(i, refcounts, queued');
      } else {
        assert Entries(i, [], Dealloc) == [];
      }
    }

    /** The reference counts when node i is planned; without releases the counts stay. */
    ghost predicate CountsAt(i: nat, refcounts: seq<int>) {
      && |refcounts| == graphInfo.numTensors
      && (forall t :: 0 <= t < |refcounts| ==>
            refcounts[t] == Pins(graphInfo, preserveInputs, t)
              + ReadsFrom(graphInfo, if preserveIntermediates then 0 else i, t))
    }

    /** The flags of the tensors allocated before node i. */
    ghost predicate FlagsAt(i: nat, queued: seq<bool>) {
      && |queued| == graphInfo.numTensors
      && (forall t :: 0 <= t < |queued| ==> (queued[t] <==> AllocatedBefore(graphInfo, i, t)))
    }

    /** Lines 63-185. */
    method PlanAllocations()
      requires Valid()
      modifies this`allocs, this`allocQueue, arena, persistentArena
      ensures Valid()
      ensures View() == Arenas([], [], 0, 0, seq(graphInfo.numTensors, _ => ArenaAlloc(0, 0)))
      ensures allocQueue == Queue(graphInfo, preserveInputs, preserveIntermediates, |graphInfo.nodes|)
    {
      ResetAllocations();
      BuildQueue();
    }

    /** Lines 68-184: everything but the reset. */
    method BuildQueue()
      requires PlannerRange(graphInfo)
      modifies this`allocQueue
      ensures allocQueue == Queue(graphInfo, preserveInputs, preserveIntermediates, |graphInfo.nodes|)
    {
      allocQueue := [];
      var refcounts := CountReferences();
      var queued := QueueGiven();
      for i := 0 to |graphInfo.nodes|
        invariant CountsAt(i, refcounts) && FlagsAt(i, queued)
        invariant allocQueue == Queue(graphInfo, preserveInputs, preserveIntermediates, i)
      {
        refcounts, queued := PlanNode(i, refcounts, queued);
      }
    }

    // ---- Replaying ----

    /** Lines 264-275. */
    method CalculateTensorAllocation(ts: seq<TensorInfo>, t: int) returns (ok: bool)
      requires Valid() && 0 <= t < |ts| == |allocs|
      modifies this`allocs, arena`allocs, arena`highWaterMark
      modifies persistentArena`allocs, persistentArena`highWaterMark
      ensures Valid() && |allocs| == |ts|
      ensures ok <==> Allocate(ts, tensorAlignment, old(View()), t).Some?
      ensures ok ==> View() == Allocate(ts, tensorAlignment, old(View()), t).value
    {
      ok := true;
      var alloc: ArenaAlloc;
      if ts[t].typ == ArenaRw {
        ok, alloc := arena.Allocate(tensorAlignment, ts[t].bytes);
        if !ok { return; }
        allocs := allocs[t := alloc];
      }
      if ts[t].typ == ArenaRwPersistent {
        ok, alloc := persistentArena.Allocate(tensorAlignment, ts[t].bytes);
        if !ok { return; }
        allocs := allocs[t := alloc];
      }
    }

    /** Lines 277-283. */
    method CalculateTensorDeallocation(ts: seq<TensorInfo>, t: int) returns (ok: bool)
      requires Valid() && 0 <= t < |ts| == |allocs|
      modifies arena`allocs, arena`highWaterMark
      ensures Valid() && |allocs| == |ts|
      ensures ok <==> Release(ts, old(View()), t).Some?
      ensures ok ==> View() == Release(ts, old(View()), t).value
    {
      ok := true;
      if ts[t].typ == ArenaRw {
        ok := arena.Deallocate(allocs[t]);
      }
    }

    /** One request, allocation or release. */
    method Handle(ts: seq<TensorInfo>, t: int, kind: AllocKind) returns (ok: bool)
      requires Valid() && 0 <= t < |ts| == |allocs|
      modifies this`allocs, arena`allocs, arena`highWaterMark
      modifies persistentArena`allocs, persistentArena`highWaterMark
      ensures Valid() && |allocs| == |ts|
      ensures ok <==> Apply(ts, tensorAlignment, old(View()), Op(t, kind)).Some?
      ensures ok ==> View() == Apply(ts, tensorAlignment, old(View()), Op(t, kind)).value
    {
      if kind == Alloc {
        ok := CalculateTensorAllocation(ts, t);
      } else {
        ok := CalculateTensorDeallocation(ts, t);
      }
    }

    /** Lines 285-309: allocate or release the temporaries of a node, if there is such a node. */
    method HandleInternalTensors(ts: seq<TensorInfo>, n: int, kind: AllocKind) returns (ok: bool)
      requires Valid() && |ts| == |allocs| && TemporariesInRange(ts, graphInfo)
      modifies this`allocs, arena`allocs, arena`highWaterMark
      modifies persistentArena`allocs, persistentArena`highWaterMark
      ensures Valid() && |allocs| == |ts| && OpsInRange(ts, Temporaries(graphInfo, n, kind))
      ensures ok <==> Replay(ts, tensorAlignment, old(View()), Temporaries(graphInfo, n, kind)).Some?
      ensures ok ==> View() == Replay(ts, tensorAlignment, old(View()), Temporaries(graphInfo, n, kind)).value
    {
      ok := true;
      if 0 <= n < |graphInfo.nodes| {
        var temporaries := graphInfo.nodes[n].temporaries;
        ghost var ops := Ops(temporaries, kind);
        for k := 0 to |temporaries|
          invariant Valid() && |allocs| == |ts| && OpsInRange(ts, ops[..k])
          invariant Replay(ts, tensorAlignment, old(View()), ops[..k]) == Some(View())
        {
          ReplayNext(ts, tensorAlignment, old(View()), ops, k);
          ok := Handle(ts, temporaries[k], kind);
          if !ok {
            assert ops[..k + 1] + ops[k + 1..] == ops;
            ReplayConcat(ts, tensorAlignment, old(View()), ops[..k + 1], ops[k + 1..]);
            return;
          }
        }
        assert ops[..|ops|] == ops;
      }
    }

    /** Lines 222-237 for one entry. */
    method ProcessEntry(ts: seq<TensorInfo>, info: AllocationInfo, firstNode: int, activeNode: int) returns (ok: bool)
      requires Valid() && |ts| == |allocs| && TemporariesInRange(ts, graphInfo) && 0 <= info.tensor < |ts|
      modifies this`allocs, arena`allocs, arena`highWaterMark
      modifies persistentArena`allocs, persistentArena`highWaterMark
      ensures Valid() && |allocs| == |ts| && OpsInRange(ts, EntryOps(graphInfo, info, firstNode, activeNode))
      ensures ok <==> Replay(ts, tensorAlignment, old(View()), EntryOps(graphInfo, info, firstNode, activeNode)).Some?
      ensures ok ==>
              View() == Replay(ts, tensorAlignment, old(View()), EntryOps(graphInfo, info, firstNode, activeNode)).value
    {
      ghost var op := [Op(info.tensor, info.kind)];
      ok := true;
      ghost var before := View();
      if info.node == activeNode {
        ok := VisitNode(ts, firstNode, activeNode);
      }
      ReplayConcat(ts, tensorAlignment, before, VisitOps(graphInfo, info, firstNode, activeNode), op);
      if !ok {
        return;
      }
      ReplayOne(ts, tensorAlignment, View(), Op(info.tensor, info.kind));
      ok := Handle(ts, info.tensor, info.kind);
    }

    /** Lines 223-230: the first entry of a node. */
    method VisitNode(ts: seq<TensorInfo>, firstNode: int, activeNode: int) returns (ok: bool)
      requires Valid() && |ts| == |allocs| && TemporariesInRange(ts, graphInfo)
      modifies this`allocs, arena`allocs, arena`highWaterMark
      modifies persistentArena`allocs, persistentArena`highWaterMark
      ensures Valid() && |allocs| == |ts| && OpsInRange(ts, StartOps(graphInfo, firstNode, activeNode))
      ensures ok <==> Replay(ts, tensorAlignment, old(View()), StartOps(graphInfo, firstNode, activeNode)).Some?
      ensures ok ==>
              View() == Replay(ts, tensorAlignment, old(View()), StartOps(graphInfo, firstNode, activeNode)).value
    {
      ghost var before := View();
      ghost var free := if activeNode != firstNode then Temporaries(graphInfo, activeNode - 1, Dealloc) else [];
      ok := true;
      if activeNode != firstNode {
        ok := HandleInternalTensors(ts, activeNode - 1, Dealloc);
      }
      assert OpsInRange(ts, Temporaries(graphInfo, activeNode, Alloc));
      ReplayConcat(ts, tensorAlignment, before, free, Temporaries(graphInfo, activeNode, Alloc));
      if !ok {
        return;
      }
      ok := HandleInternalTensors(ts, activeNode, Alloc);
    }

    /** Lines 213-245. */
    method CalculateAllocations(ts: seq<TensorInfo>, firstNode: int, lastNode: int) returns (ok: bool)
      requires Valid() && |ts| == |allocs| && TemporariesInRange(ts, graphInfo) && QueueInRange(ts, allocQueue)
      modifies this`allocs, arena`allocs, arena`highWaterMark
      modifies persistentArena`allocs, persistentArena`highWaterMark
      ensures Valid() && |allocs| == |ts|
      ensures OpsInRange(ts, Requests(graphInfo, allocQueue, firstNode, lastNode))
      ensures ok <==>
              Replay(ts, tensorAlignment, old(View()), Requests(graphInfo, allocQueue, firstNode, lastNode)).Some?
      ensures ok ==>
                View() == Replay(ts, tensorAlignment, old(View()),
                                 Requests(graphInfo, allocQueue, firstNode, lastNode)).value
    {
      hide Replay, Apply;
      var activeNode := firstNode;
      ghost var all := Requests(graphInfo, allocQueue, firstNode, lastNode);
      ghost var done: seq<Op> := [];
      CalculateInRange(graphInfo, ts, allocQueue, firstNode, lastNode, firstNode);
      var k := 0;
      assert allocQueue[0..] == allocQueue;
      ReplayedStart(ts, tensorAlignment, View(), all);
      while k < |allocQueue|
        invariant Valid() && |allocs| == |ts| && 0 <= k <= |allocQueue|
        invariant Replayed(ts, tensorAlignment, old(View()), all, done, View(),
                           Calculate(graphInfo, allocQueue[k..], firstNode, lastNode, activeNode))
      {
        var info := allocQueue[k];
        assert allocQueue[k..][0] == info && allocQueue[k..][1..] == allocQueue[k + 1..];
        if info.node < firstNode {
          k := k + 1;
          continue;
        }
        if info.node > lastNode {
          break;
        }
        ghost var before, ops := View(), EntryOps(graphInfo, info, firstNode, activeNode);
        ghost var rest := Calculate(graphInfo, allocQueue[k + 1..], firstNode, lastNode,
                                    if info.node == activeNode then activeNode + 1 else activeNode);
        CalculateStep(graphInfo, allocQueue[k..], firstNode, lastNode, activeNode);
        ok := ProcessEntry(ts, info, firstNode, activeNode);
        ReplayedStep(ts, tensorAlignment, old(View()), all, done, before, ops, rest);
        if !ok {
          return;
        }
        done := done + ops;
        if info.node == activeNode {
          activeNode := activeNode + 1;
        }
        k := k + 1;
      }
      ghost var before, ops := View(), Temporaries(graphInfo, activeNode - 1, Dealloc);
      ok := HandleInternalTensors(ts, activeNode - 1, Dealloc);
      assert ops + [] == ops;
      ReplayedStep(ts, tensorAlignment, old(View()), all, done, before, ops, []);
      assert all == done + ops;
    }

    /** Lines 247-262: an empty tensor of the shared arena keeps its address. */
    method ResolveTensorAllocation(ts: seq<TensorInfo>, t: int, address: Option<nat>)
      returns (ok: bool, resolved: Option<nat>)
      requires 0 <= t < |ts| == |allocs|
      ensures ok <==> (ts[t].typ == ArenaRw && allocs[t].size != 0 ==> arena.committed)
                      && (ts[t].typ == ArenaRwPersistent ==> persistentArena.committed)
      ensures ok ==> resolved == Resolved(ts[t], allocs[t], address, arena.base, persistentArena.base)
    {
      ok, resolved := true, address;
      if ts[t].typ == ArenaRw && allocs[t].size != 0 {
        ok, resolved := arena.ResolveAlloc(allocs[t]);
      } else if ts[t].typ == ArenaRwPersistent {
        ok, resolved := persistentArena.ResolveAlloc(allocs[t]);
      }
    }

    /** Lines 207-211. */
    method Commit(buffers: (nat, nat)) returns (ok: bool)
      requires Valid()
      modifies arena`committed, arena`buffer, arena`bytes, arena`base
      modifies persistentArena`committed, persistentArena`buffer, persistentArena`bytes, persistentArena`base
      ensures Valid() && ok && Roomy(arena) && Roomy(persistentArena)
      ensures arena.Keeps() && persistentArena.Keeps()
    {
      ok := arena.Commit(buffers.0);
      if ok {
        ok := persistentArena.Commit(buffers.1);
      }
    }

    /** Lines 187-205: the requests of the interval, room for all blocks, and an address for every tensor.
        `buffers` is where new buffers come to lie, if they are needed. */
    method ExecuteAllocations(ts: seq<TensorInfo>, firstNode: int, lastNode: int, addresses: seq<Option<nat>>,
                              buffers: (nat, nat))
      returns (ok: bool, resolved: seq<Option<nat>>)
      requires Valid() && |addresses| == |ts| && TemporariesInRange(ts, graphInfo) && QueueInRange(ts, allocQueue)
      modifies this`allocs, arena, persistentArena
      ensures Valid() && OpsInRange(ts, Requests(graphInfo, allocQueue, firstNode, lastNode))
      ensures ok <==>
              |old(allocs)| <= |ts| && Replay(ts, tensorAlignment, Grown(old(View()), |ts|),
                                              Requests(graphInfo, allocQueue, firstNode, lastNode)).Some?
      ensures ok ==>
              View() == Replay(ts, tensorAlignment, Grown(old(View()), |ts|),
                               Requests(graphInfo, allocQueue, firstNode, lastNode)).value
      ensures ok ==> Roomy(arena) && Roomy(persistentArena) && arena.Keeps() && persistentArena.Keeps()
      ensures ok ==> |resolved| == |ts| == |allocs| && forall t :: 0 <= t < |ts| ==>
              resolved[t] == Resolved(ts[t], allocs[t], addresses[t], arena.base, persistentArena.base)
    {
      hide Replay, Requests;
      resolved := addresses;
      CalculateInRange(graphInfo, ts, allocQueue, firstNode, lastNode, firstNode);
      RequestsInRange(graphInfo, ts, allocQueue, firstNode, lastNode);
      if |ts| < |allocs| {
        return false, resolved;
      }
      allocs := allocs + seq(|ts| - |allocs|, _ => ArenaAlloc(0, 0));
      ok := CalculateAllocations(ts, firstNode, lastNode);
      if !ok {
        return;
      }
      ok := Commit(buffers);
      resolved := ResolveAll(ts, addresses);
    }

    /** Lines 196-202, once both arenas are committed. */
    method ResolveAll(ts: seq<TensorInfo>, addresses: seq<Option<nat>>) returns (resolved: seq<Option<nat>>)
      requires |addresses| == |ts| == |allocs| && arena.committed && persistentArena.committed
      ensures |resolved| == |ts| && forall t :: 0 <= t < |ts| ==>
              resolved[t] == Resolved(ts[t], allocs[t], addresses[t], arena.base, persistentArena.base)
    {
      resolved := addresses;
      for t := 0 to |ts|
        invariant |resolved| == |ts| && forall u :: 0 <= u < |ts| ==>
                    resolved[u] == if u < t then Resolved(ts[u], allocs[u], addresses[u], arena.base,
                                                          persistentArena.base)
                                   else addresses[u]
      {
        var ok, address := ResolveTensorAllocation(ts, t, resolved[t]);
        if !ok {
          assert false;
        }
        resolved := resolved[t := address];
      }
    }

    function LayoutOf(addresses: seq<Option<nat>>): Layout
      reads arena, persistentArena
    {
      Layout(addresses, arena.buffer, |arena.bytes|, persistentArena.buffer, |persistentArena.bytes|)
    }
  }

  /** The address of a tensor: its block, if its memory is in an arena. */
  function Resolved(tensor: TensorInfo, alloc: ArenaAlloc, address: Option<nat>, rwBase: nat, persistentBase: nat)
    : Option<nat>
  {
    match tensor.typ
    case ArenaRw => if alloc.size == 0 then address else Some(rwBase + alloc.offset)
    case ArenaRwPersistent => if alloc.size == 0 then None else Some(persistentBase + alloc.offset)
    case OtherMemory => address
  }

  /** Tensors outside the arenas keep their address. */
  ghost predicate OthersKept(ts: seq<TensorInfo>, before: seq<Option<nat>>, after: seq<Option<nat>>) {
    |before| == |after| == |ts| && forall t :: 0 <= t < |ts| && ts[t].typ == OtherMemory ==> after[t] == before[t]
  }

  /** Tensors with memory in an arena have the address of their block. */
  ghost predicate BlocksResolved(ts: seq<TensorInfo>, allocs: seq<ArenaAlloc>, after: seq<Option<nat>>,
                                 rwBase: nat, persistentBase: nat) {
    && |after| == |allocs| == |ts|
    && (forall t :: 0 <= t < |ts| && ts[t].typ == ArenaRw && allocs[t].size > 0 ==>
          after[t] == Some(rwBase + allocs[t].offset))
    && (forall t :: 0 <= t < |ts| && ts[t].typ == ArenaRwPersistent && allocs[t].size > 0 ==>
          after[t] == Some(persistentBase + allocs[t].offset))
  }

  /** Blocks that are in bounds and apart give addresses that are. */
  lemma {:induction false} BlocksGiveLayout(p: Plan, ts: seq<TensorInfo>, st: Arenas, lay: Layout,
                                            rwBase: nat, persistentBase: nat)
    requires GoodPlan(p, ts, st) && BlocksResolved(ts, st.allocs, lay.addresses, rwBase, persistentBase)
    requires lay.rwStart <= rwBase && rwBase + st.rwTop <= lay.rwStart + lay.rwSize
    requires lay.persistentStart <= persistentBase
    requires persistentBase + st.persistentTop <= lay.persistentStart + lay.persistentSize
    ensures GoodLayout(p, ts, lay)
  {
    hide LiveAt;
    forall i, t | 0 <= i < |p.g.nodes| && LiveAt(p, i, t) && Stored(ts, ArenaRw, t)
      ensures InBuffer(lay.addresses[t], ts[t].bytes, lay.rwStart, lay.rwSize)
    {
      assert st.allocs[t].size == ts[t].bytes;
    }
    forall i, t | 0 <= i < |p.g.nodes| && LiveAt(p, i, t) && Stored(ts, ArenaRwPersistent, t)
      ensures InBuffer(lay.addresses[t], ts[t].bytes, lay.persistentStart, lay.persistentSize)
    {
      assert st.allocs[t].size == ts[t].bytes;
    }
    forall i, t, u | 0 <= i < |p.g.nodes| && LiveAt(p, i, t) && LiveAt(p, i, u) && SameArena(ts, t, u)
      ensures Apart(ts, lay.addresses, t, u)
    {
      assert Disjoint(st.allocs[t], st.allocs[u]);
    }
  }

  /** Committed, with room for every block below the high-water mark. */
  ghost predicate Roomy(arena: SimpleMemoryArena)
    reads arena
  {
    && arena.committed && arena.Buffered() && arena.bytes != []
    && arena.base + arena.highWaterMark <= arena.buffer + |arena.bytes|
  }

  /** Tensors that were added get empty blocks. */
  ghost function Grown(st: Arenas, n: nat): Arenas {
    if |st.allocs| <= n then st.(allocs := st.allocs + seq(n - |st.allocs|, _ => ArenaAlloc(0, 0))) else st
  }

  lemma {:induction false} RequestsInRange(g: Graph, ts: seq<TensorInfo>, q: seq<AllocationInfo>, first: int, last: int)
    requires TemporariesInRange(ts, g) && QueueInRange(ts, q)
    ensures OpsInRange(ts, Requests(g, q, first, last))
  {
    CalculateInRange(g, ts, q, first, last, first);
  }

  /** Of all requests, done are replayed with result now, and rest are to come. */
  ghost predicate Replayed(ts: seq<TensorInfo>, alignment: nat, st: Arenas, all: seq<Op>, done: seq<Op>, now: Arenas,
                           rest: seq<Op>) {
    && alignment > 0 && |ts| == |st.allocs| == |now.allocs| && OpsInRange(ts, done) && OpsInRange(ts, rest)
      && OpsInRange(ts, all)
    && done + rest == all && Replay(ts, alignment, st, done) == Some(now)
  }

  lemma {:induction false} ReplayedStart(ts: seq<TensorInfo>, alignment: nat, st: Arenas, all: seq<Op>)
    requires alignment > 0 && |ts| == |st.allocs| && OpsInRange(ts, all)
    ensures Replayed(ts, alignment, st, all, [], st, all)
  {
    assert [] + all == all;
  }

  lemma {:induction false} ReplayedStep(ts: seq<TensorInfo>, alignment: nat, st: Arenas, all: seq<Op>, done: seq<Op>,
                                        now: Arenas, ops: seq<Op>, rest: seq<Op>)
    requires Replayed(ts, alignment, st, all, done, now, ops + rest)
    ensures OpsInRange(ts, ops) && OpsInRange(ts, rest)
    ensures var r := Replay(ts, alignment, now, ops);
      && (r.None? ==> Replay(ts, alignment, st, all).None?)
      && (r.Some? ==> Replayed(ts, alignment, st, all, done + ops, r.value, rest))
  {
    assert OpsInRange(ts, ops) by {
      forall k | 0 <= k < |ops| ensures 0 <= ops[k].tensor < |ts| {
        assert (ops + rest)[k] == ops[k];
      }
    }
    assert OpsInRange(ts, rest) by {
      forall k | 0 <= k < |rest| ensures 0 <= rest[k].tensor < |ts| {
        assert (ops + rest)[|ops| + k] == rest[k];
      }
    }
    ReplayConcat(ts, alignment, st, done, ops);
    ReplayConcat(ts, alignment, st, done + ops, rest);
    ConcatAssociates(done, ops, rest);
  }

  lemma {:induction false} EntriesSnoc(node: int, tensors: seq<int>, t: int, kind: AllocKind)
    ensures Entries(node, tensors + [t], kind) == Entries(node, tensors, kind) + [AllocationInfo(node, t, kind)]
  {
  }

  lemma {:induction false} EntriesConcat(node: int, a: seq<int>, b: seq<int>, kind: AllocKind)
    ensures Entries(node, a + b, kind) == Entries(node, a, kind) + Entries(node, b, kind)
  {
  }

  lemma {:induction false} NothingFresh(seen: iset<int>, c: seq<int>)
    requires forall t :: t in c && t != OPTIONAL_TENSOR ==> t in seen
    ensures Fresh(seen, c) == []
  {
    if c != [] {
      NothingFresh(seen, c[..|c| - 1]);
    }
  }

  lemma {:induction false} NodeInputsInRange(g: Graph, i: int)
    requires InRange(g) && IsNode(g, i)
    ensures TensorsOrOptional(g, g.nodes[i].inputs)
  {
    forall k | 0 <= k < |g.nodes[i].inputs| && g.nodes[i].inputs[k] != OPTIONAL_TENSOR
      ensures IsTensor(g, g.nodes[i].inputs[k])
    {
      assert Reads(g, i, g.nodes[i].inputs[k]);
    }
  }

  lemma {:induction false} NodeOutputsInRange(g: Graph, i: int)
    requires InRange(g) && IsNode(g, i)
    ensures TensorsOrOptional(g, g.nodes[i].outputs)
  {
    forall k | 0 <= k < |g.nodes[i].outputs| ensures IsTensor(g, g.nodes[i].outputs[k]) {
      assert Produces(g, i, g.nodes[i].outputs[k]);
    }
  }

  lemma {:induction false} GraphTensorsInRange(g: Graph)
    requires PlannerRange(g)
    ensures TensorsOrOptional(g, g.inputs) && TensorsOrOptional(g, g.variables) && TensorsOrOptional(g, g.outputs)
  {
    forall k | 0 <= k < |g.inputs| && g.inputs[k] != OPTIONAL_TENSOR ensures IsTensor(g, g.inputs[k]) {
      assert g.inputs[k] in g.inputs;
    }
    forall k | 0 <= k < |g.variables| ensures IsTensor(g, g.variables[k]) {
      assert g.variables[k] in g.variables;
    }
    forall k | 0 <= k < |g.outputs| ensures IsTensor(g, g.outputs[k]) {
      assert g.outputs[k] in g.outputs;
    }
  }

  lemma {:induction false} SeenIsAllocated(g: Graph, i: int, queued: seq<bool>)
    requires PlannerRange(g) && |queued| == g.numTensors
    requires forall t :: 0 <= t < |queued| ==> (queued[t] <==> AllocatedBefore(g, i, t))
    ensures Seen(queued) == AllocatedTensors(g, i)
  {
    forall t | AllocatedBefore(g, i, t) ensures IsTensor(g, t) {
    }
  }

  lemma {:induction false} AllocatedNext(g: Graph, i: int, t: int)
    requires IsNode(g, i)
    ensures AllocatedBefore(g, i + 1, t) <==> AllocatedBefore(g, i, t) || t in g.nodes[i].outputs
  {
    if m :| m < i && Produces(g, m, t) {
      assert m < i + 1;
    }
    if t in g.nodes[i].outputs {
      assert Produces(g, i, t);
    }
  }

  lemma {:induction false} PlanInRange(p: Plan, ts: seq<TensorInfo>)
    requires PlannerRange(p.g) && PrivateTemporaries(p.g) && |ts| == p.g.numTensors
    ensures QueueInRange(ts, QueueOf(p)) && TemporariesInRange(ts, p.g)
  {
    var q := QueueOf(p);
    QueueElements(p.g, p.preserveInputs, p.preserveIntermediates, |p.g.nodes|);
    forall k | 0 <= k < |q| ensures 0 <= q[k].tensor < |ts| {
      assert q[k] in q;
    }
    forall n, k | IsNode(p.g, n) && 0 <= k < |p.g.nodes[n].temporaries|
      ensures 0 <= p.g.nodes[n].temporaries[k] < |ts|
    {
      assert IsTemporary(p.g, p.g.nodes[n].temporaries[k]);
    }
  }

  /** PlanAllocations and one ExecuteAllocations over all nodes, on a new planner.  When every node with
      temporaries, and every node before it, has a queue entry, it succeeds and gives good addresses. */
  method PlanGraph(p: Plan, ts: seq<TensorInfo>, alignment: nat, before: seq<Option<nat>>, buffers: (nat, nat))
    returns (ok: bool, st: Arenas, lay: Layout)
    requires PlannerRange(p.g) && PrivateTemporaries(p.g) && |ts| == p.g.numTensors && alignment > 0
    requires |before| == |ts|
    ensures ok ==> PlannedBy(p, ts, alignment, st) && OthersKept(ts, before, lay.addresses)
    ensures alignment <= ARENA_ALIGNMENT && Plannable(p) ==> ok && GoodPlan(p, ts, st) && GoodLayout(p, ts, lay)
    ensures alignment <= ARENA_ALIGNMENT && Plannable(p) && ARENA_ALIGNMENT % alignment == 0 ==>
              AlignedLayout(p, ts, alignment, lay)
  {
    hide Replay, Requests, Queue, GoodPlan, GoodLayout, PlannerRange, PrivateTemporaries, QueueInRange,
      TemporariesInRange, AllHaveEntries, AlignedLayout;
    var planner := new Planner(p.g, p.preserveInputs, p.preserveIntermediates, alignment);
    planner.PlanAllocations();
    PlanInRange(p, ts);
    ghost var start := planner.View();
    assert start == Empty(ts);
    assert Grown(start, |ts|) == start;
    var addresses: seq<Option<nat>>;
    ok, addresses := planner.ExecuteAllocations(ts, 0, |p.g.nodes| - 1, before, buffers);
    st := Arenas(planner.arena.allocs, planner.persistentArena.allocs,
                 planner.arena.highWaterMark, planner.persistentArena.highWaterMark, planner.allocs);
    lay := planner.LayoutOf(addresses);
    if alignment <= ARENA_ALIGNMENT && Plannable(p) {
      PlanningSucceeds(p, ts, alignment);
      BlocksGiveLayout(p, ts, st, lay, planner.arena.base, planner.persistentArena.base);
      BlocksAreAligned(p, ts, alignment, st, lay, planner.arena.base, planner.persistentArena.base);
    }
  }

  predicate InArena(ts: seq<TensorInfo>, t: int) {
    Stored(ts, ArenaRw, t) || Stored(ts, ArenaRwPersistent, t)
  }

  /** Tensors that are to have memory in an arena have aligned addresses. */
  ghost predicate AlignedLayout(p: Plan, ts: seq<TensorInfo>, alignment: nat, lay: Layout) {
    && alignment > 0 && |lay.addresses| == |ts|
    && (forall i, t :: 0 <= i < |p.g.nodes| && LiveAt(p, i, t) && InArena(ts, t) ==>
          lay.addresses[t].Some? && lay.addresses[t].value % alignment == 0)
  }

  lemma {:induction false} SumAligned(base: nat, offset: nat, alignment: nat)
    requires alignment > 0 && base % ARENA_ALIGNMENT == 0 && ARENA_ALIGNMENT % alignment == 0 && offset % alignment == 0
    ensures (base + offset) % alignment == 0
  {
    var k, j, q := ARENA_ALIGNMENT / alignment, base / ARENA_ALIGNMENT, offset / alignment;
    assert base == ARENA_ALIGNMENT * j && ARENA_ALIGNMENT == alignment * k && offset == alignment * q;
    assert base + offset == alignment * (k * j + q);
    MultipleIsZero(alignment, k * j + q);
  }

  lemma {:induction false} BlocksAreAligned(p: Plan, ts: seq<TensorInfo>, alignment: nat, st: Arenas, lay: Layout,
                                            rwBase: nat, persistentBase: nat)
    requires Plannable(p) && |ts| == p.g.numTensors && 1 <= alignment <= ARENA_ALIGNMENT
    requires PlannedBy(p, ts, alignment, st) && |st.allocs| == |ts|
    requires BlocksResolved(ts, st.allocs, lay.addresses, rwBase, persistentBase)
    requires rwBase % ARENA_ALIGNMENT == 0 && persistentBase % ARENA_ALIGNMENT == 0
    ensures ARENA_ALIGNMENT % alignment == 0 ==> AlignedLayout(p, ts, alignment, lay)
  {
    hide Plannable, PlannedBy, LiveAt;
    if ARENA_ALIGNMENT % alignment == 0 {
      forall i, t | 0 <= i < |p.g.nodes| && LiveAt(p, i, t) && InArena(ts, t)
        ensures lay.addresses[t].Some? && lay.addresses[t].value % alignment == 0
      {
        PlannedIsPlaced(p, ts, alignment, st, i, t);
        SumAligned(rwBase, st.allocs[t].offset, alignment);
        SumAligned(persistentBase, st.allocs[t].offset, alignment);
      }
    }
  }

  lemma {:induction false} IncrementallyInRange(g: Graph, ts: seq<TensorInfo>, q: seq<AllocationInfo>, cuts: seq<int>)
    requires TemporariesInRange(ts, g) && QueueInRange(ts, q)
    ensures OpsInRange(ts, Incrementally(g, q, cuts))
  {
    if |cuts| >= 2 {
      hide Requests, TemporariesInRange, QueueInRange;
      RequestsInRange(g, ts, q, cuts[0], cuts[1] - 1);
      IncrementallyInRange(g, ts, q, cuts[1..]);
    }
  }

  /** One more interval, in terms of the replay. */
  lemma {:induction false} ReplayInterval(g: Graph, ts: seq<TensorInfo>, alignment: nat, q: seq<AllocationInfo>,
                                          cuts: seq<int>, j: nat, st: Arenas)
    requires alignment > 0 && TemporariesInRange(ts, g) && QueueInRange(ts, q) && j + 1 < |cuts| && |st.allocs| == |ts|
    requires OpsInRange(ts, Incrementally(g, q, cuts[..j + 1]))
    requires Replay(ts, alignment, Empty(ts), Incrementally(g, q, cuts[..j + 1])) == Some(st)
    ensures OpsInRange(ts, Incrementally(g, q, cuts[..j + 2]))
    ensures OpsInRange(ts, Requests(g, q, cuts[j], cuts[j + 1] - 1))
    ensures Replay(ts, alignment, Empty(ts), Incrementally(g, q, cuts[..j + 2]))
            == Replay(ts, alignment, st, Requests(g, q, cuts[j], cuts[j + 1] - 1))
  {
    hide Replay, Requests, Incrementally, QueueInRange, TemporariesInRange;
    RequestsInRange(g, ts, q, cuts[j], cuts[j + 1] - 1);
    IncrementallyNext(g, q, cuts, j);
    ReplayConcat(ts, alignment, Empty(ts), Incrementally(g, q, cuts[..j + 1]),
                 Requests(g, q, cuts[j], cuts[j + 1] - 1));
  }

  /** A failed interval fails the whole. */
  lemma {:induction false} FailedIntervalFails(g: Graph, ts: seq<TensorInfo>, alignment: nat, q: seq<AllocationInfo>,
                                               cuts: seq<int>, j: nat)
    requires alignment > 0 && TemporariesInRange(ts, g) && QueueInRange(ts, q) && j < |cuts|
    requires OpsInRange(ts, Incrementally(g, q, cuts[..j + 1])) && OpsInRange(ts, Incrementally(g, q, cuts))
    requires Replay(ts, alignment, Empty(ts), Incrementally(g, q, cuts[..j + 1])).None?
    ensures Replay(ts, alignment, Empty(ts), Incrementally(g, q, cuts)).None?
  {
    hide Replay, Incrementally, QueueInRange, TemporariesInRange;
    IncrementallyInRange(g, ts, q, cuts[j..]);
    IncrementallySplit(g, q, cuts, j);
    ReplayConcat(ts, alignment, Empty(ts), Incrementally(g, q, cuts[..j + 1]), Incrementally(g, q, cuts[j..]));
  }

  lemma {:induction false} GrownIsSame(st: Arenas)
    ensures Grown(st, |st.allocs|) == st
  {
  }

  /** The cuts go from the first node to behind the last. */
  ghost predicate CutsCover(g: Graph, cuts: seq<int>) {
    |cuts| >= 2 && Increasing(cuts) && cuts[0] == 0 && cuts[|cuts| - 1] == |g.nodes|
  }

  /** One ExecuteAllocations after another on the intervals between the cuts, on one planner. */
  method PlanInIntervals(p: Plan, ts: seq<TensorInfo>, alignment: nat, cuts: seq<int>, before: seq<Option<nat>>,
                         buffers: seq<(nat, nat)>)
    returns (ok: bool, st: Arenas, lay: Layout)
    requires PlannerRange(p.g) && PrivateTemporaries(p.g) && |ts| == p.g.numTensors && alignment > 0
    requires |cuts| == |buffers| + 1 && |before| == |ts|
    ensures OpsInRange(ts, Incrementally(p.g, QueueOf(p), cuts))
    ensures ok <==> Replay(ts, alignment, Empty(ts), Incrementally(p.g, QueueOf(p), cuts)).Some?
    ensures ok ==> Replay(ts, alignment, Empty(ts), Incrementally(p.g, QueueOf(p), cuts)) == Some(st)
    ensures ok ==> OthersKept(ts, before, lay.addresses)
    ensures ok && |cuts| > 1 && GoodPlan(p, ts, st) ==> GoodLayout(p, ts, lay)
  {
    hide Replay, Requests, Queue, PlannerRange, PrivateTemporaries, QueueInRange, TemporariesInRange,
      Incrementally, GoodPlan, GoodLayout;
    var planner := new Planner(p.g, p.preserveInputs, p.preserveIntermediates, alignment);
    planner.PlanAllocations();
    PlanInRange(p, ts);
    ghost var q := QueueOf(p);
    IncrementallyInRange(p.g, ts, q, cuts);
    IncrementallyInRange(p.g, ts, q, cuts[..1]);
    NoInterval(p.g, ts, alignment, q, cuts[..1]);
    var addresses := before;
    for j := 0 to |buffers|
      invariant planner.Valid() && planner.allocQueue == q && |planner.allocs| == |ts| == |addresses|
      invariant OpsInRange(ts, Incrementally(p.g, q, cuts[..j + 1]))
      invariant Replay(ts, alignment, Empty(ts), Incrementally(p.g, q, cuts[..j + 1])) == Some(planner.View())
      invariant OthersKept(ts, before, addresses)
      invariant j > 0 ==> Roomy(planner.arena) && Roomy(planner.persistentArena)
      invariant j > 0 ==>
                  BlocksResolved(ts, planner.allocs, addresses, planner.arena.base, planner.persistentArena.base)
    {
      GrownIsSame(planner.View());
      ReplayInterval(p.g, ts, alignment, q, cuts, j, planner.View());
      ok, addresses := planner.ExecuteAllocations(ts, cuts[j], cuts[j + 1] - 1, addresses, buffers[j]);
      if !ok {
        FailedIntervalFails(p.g, ts, alignment, q, cuts, j + 1);
        return false, Arenas([], [], 0, 0, []), Layout([], 0, 0, 0, 0);
      }
    }
    assert cuts[..|buffers| + 1] == cuts;
    ok, st := true, Arenas(planner.arena.allocs, planner.persistentArena.allocs,
                           planner.arena.highWaterMark, planner.persistentArena.highWaterMark, planner.allocs);
    lay := planner.LayoutOf(addresses);
    if |cuts| > 1 && GoodPlan(p, ts, st) {
      BlocksGiveLayout(p, ts, st, lay, planner.arena.base, planner.persistentArena.base);
    }
  }

  lemma {:induction false} NoInterval(g: Graph, ts: seq<TensorInfo>, alignment: nat, q: seq<AllocationInfo>,
                                      cuts: seq<int>)
    requires |cuts| == 1 && alignment > 0 && OpsInRange(ts, Incrementally(g, q, cuts))
    ensures Replay(ts, alignment, Empty(ts), Incrementally(g, q, cuts)) == Some(Empty(ts))
  {
  }

  /** With a queue entry for every node, planning in intervals leaves what planning in one go leaves:
      the plan the execution theorems are about, and a safe one. */
  lemma {:induction false} IntervalsGiveGoodPlan(p: Plan, ts: seq<TensorInfo>, alignment: nat, cuts: seq<int>)
    requires PlannerRange(p.g) && PrivateTemporaries(p.g) && |ts| == p.g.numTensors && 1 <= alignment <= ARENA_ALIGNMENT
    requires CutsCover(p.g, cuts) && AllHaveEntries(QueueOf(p), 0, |p.g.nodes| - 1)
    ensures OpsInRange(ts, Incrementally(p.g, QueueOf(p), cuts))
    ensures var r := Replay(ts, alignment, Empty(ts), Incrementally(p.g, QueueOf(p), cuts));
            r.Some? && PlannedBy(p, ts, alignment, r.value) && GoodPlan(p, ts, r.value)
  {
    hide Replay, Requests, Queue, GoodPlan, PlannerRange, PrivateTemporaries, Incrementally;
    QueueOrdered(p.g, p.preserveInputs, p.preserveIntermediates, |p.g.nodes|);
    IncrementalEqualsOneShot(p.g, QueueOf(p), cuts);
    assert TemporariesReached(p.g, QueueOf(p), 0);
    PlanningSucceeds(p, ts, alignment);
  }
}
