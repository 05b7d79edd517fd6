/** Planning in intervals where a node without a queue entry opens an interval. A temporary of the
    node before it is released a second time, and what that does depends on who got its block. */
module ArenaExamples {
  import opened Collections
  import opened Graphs
  import opened MemoryArena
  import opened ArenaPlan
  import opened ArenaSchedule
  import opened ArenaReplay

  /** Like AGAIN, with a third node that reads the graph output and writes another one. */
  const TAKEN := Graph(4, [Node([0], [1], [3]), Node([1], [], []), Node([1], [2], [])], [0], [1, 2], [])

  const TENSOR := TensorInfo(ArenaRw, 64)
  const TENSORS := [TENSOR, TENSOR, TENSOR, TENSOR]
  const NONE := ArenaAlloc(0, 0)
  const LOW := ArenaAlloc(0, 64)
  const MIDDLE := ArenaAlloc(64, 64)
  const HIGH := ArenaAlloc(128, 64)

  const NODE_ZERO := [AllocationInfo(0, 0, Alloc), AllocationInfo(0, 1, Alloc), AllocationInfo(0, 0, Dealloc)]
  const NODE_ZERO_OPS := [Op(3, Alloc), Op(0, Alloc), Op(1, Alloc), Op(0, Dealloc), Op(3, Dealloc)]

  // ---- The queues ----

  lemma {:induction false} OneOutput(g: Graph, n: int, t: int)
    requires IsNode(g, n) && g.nodes[n].outputs == [t] && t != OPTIONAL_TENSOR
    ensures NewOutputs(g, n) == if AllocatedBefore(g, n, t) then [] else [t]
  {
    hide AllocatedBefore;
    assert [t][..0] == [];
    assert Fresh(AllocatedTensors(g, n), []) == [];
  }

  lemma {:induction false} OneInput(g: Graph, n: int, t: int)
    requires IsNode(g, n) && g.nodes[n].inputs == [t]
    ensures Releases(g, false, false, n) == if Dies(g, false, n, 0) then [t] else []
  {
    hide Dies;
    assert LastUses(g, false, n, 0) == [];
  }

  lemma {:induction false} OneGiven(g: Graph, t: int)
    requires g.inputs == [t] && t != OPTIONAL_TENSOR && g.variables == []
    ensures GivenTensors(g) == [t]
  {
    assert [t][..0] == [];
    assert Fresh(iset{}, []) == [];
  }

  /** The given tensor, the one produced and the one used up. */
  ghost predicate StartsAlike(g: Graph) {
    && |g.nodes| >= 2 && g.nodes[0] == Node([0], [1], [3]) && ReadsFrom(g, 1, 0) == 0
    && g.inputs == [0] && g.variables == [] && 0 !in g.outputs
  }

  lemma {:induction false} NodeZeroTensors(g: Graph)
    requires StartsAlike(g)
    ensures !AllocatedBefore(g, 0, 1) && Dies(g, false, 0, 0)
  {
    assert forall m :: m < 0 ==> !Produces(g, m, 1);
    assert Given(g, 0) && !Given(g, 1);
    assert [0][1..] == [];
    hide ReadsFrom, Produces;
    assert AllocatedBefore(g, 1, 0);
  }

  lemma {:induction false} NodeZero(g: Graph)
    requires StartsAlike(g)
    ensures Queue(g, false, false, 1) == NODE_ZERO
  {
    NodeZeroTensors(g);
    OneGiven(g, 0);
    OneOutput(g, 0, 1);
    OneInput(g, 0, 0);
    hide Dies, AllocatedBefore, NewOutputs, Releases, GivenTensors;
    assert Queue(g, false, false, 0) == [AllocationInfo(0, 0, Alloc)];
    assert Entries(0, [1], Alloc) == [AllocationInfo(0, 1, Alloc)];
    assert Entries(0, [0], Dealloc) == [AllocationInfo(0, 0, Dealloc)];
  }

  /** A node that reads nothing but a graph output releases nothing. */
  lemma {:induction false} NothingReleased(g: Graph, n: int, t: int)
    requires IsNode(g, n) && g.nodes[n].inputs == [t] && t in g.outputs
    ensures Releases(g, false, false, n) == []
  {
    OneInput(g, n, t);
  }

  lemma {:induction false} NeverRead(g: Graph, i: nat, t: int)
    requires forall n :: i <= n < |g.nodes| ==> t !in g.nodes[n].inputs
    ensures ReadsFrom(g, i, t) == 0
    decreases |g.nodes| - i
  {
    if i < |g.nodes| {
      NotOccurring(g.nodes[i].inputs, t);
      NeverRead(g, i + 1, t);
    }
  }

  lemma {:induction false} NotOccurring(s: seq<int>, t: int)
    requires t !in s
    ensures Occurrences(s, t) == 0
  {
    if s != [] {
      NotOccurring(s[..|s| - 1], t);
    }
  }

  lemma {:induction false} QueueGrows(g: Graph, n: nat, added: seq<int>)
    requires IsNode(g, n) && NewOutputs(g, n) == added && Releases(g, false, false, n) == []
    ensures Queue(g, false, false, n + 1) == Queue(g, false, false, n) + Entries(n, added, Alloc)
  {
    hide NewOutputs, Releases;
    var q := Queue(g, false, false, n) + Entries(n, added, Alloc);
    assert q + Entries(n, [], Dealloc) == q;
  }

  lemma {:induction false} AgainQueueIs()
    ensures Queue(AGAIN, false, false, 2) == NODE_ZERO
  {
    NeverRead(AGAIN, 1, 0);
    NodeZero(AGAIN);
    NothingReleased(AGAIN, 1, 1);
    hide Queue, Releases, ReadsFrom;
    QueueGrows(AGAIN, 1, []);
  }

  lemma {:induction false} TakenQueueIs()
    ensures Queue(TAKEN, false, false, 3) == NODE_ZERO + [AllocationInfo(2, 2, Alloc)]
  {
    NeverRead(TAKEN, 1, 0);
    NodeZero(TAKEN);
    NothingReleased(TAKEN, 1, 1);
    NothingReleased(TAKEN, 2, 1);
    TakenAddsOne();
    hide Queue, Releases, ReadsFrom;
    assert NewOutputs(TAKEN, 1) == [];
    hide NewOutputs;
    QueueGrows(TAKEN, 1, []);
    QueueGrows(TAKEN, 2, [2]);
  }

  lemma {:induction false} TakenAddsOne()
    ensures NewOutputs(TAKEN, 2) == [2]
  {
    OneOutput(TAKEN, 2, 2);
    hide NewOutputs;
    assert !AllocatedBefore(TAKEN, 2, 2);
  }

  // ---- The requests ----

  lemma {:induction false} NodeZeroRequests(g: Graph, rest: seq<AllocationInfo>)
    requires |g.nodes| >= 1 && g.nodes[0].temporaries == [3]
    requires forall e :: e in rest ==> e.node > 0
    ensures Requests(g, NODE_ZERO + rest, 0, 0) == NODE_ZERO_OPS
  {
    var q := NODE_ZERO + rest;
    assert Calculate(g, rest, 0, 0, 1) == [Op(3, Dealloc)] by {
      assert rest != [] ==> rest[0] in rest;
      assert Temporaries(g, 0, Dealloc) == [Op(3, Dealloc)];
    }
    assert q[1..][1..][1..] == rest;
    assert Calculate(g, q[1..][1..], 0, 0, 1) == [Op(0, Dealloc)] + Calculate(g, rest, 0, 0, 1);
    assert Calculate(g, q[1..], 0, 0, 1) == [Op(1, Alloc)] + Calculate(g, q[1..][1..], 0, 0, 1);
    assert Temporaries(g, 0, Alloc) == [Op(3, Alloc)];
    assert Calculate(g, q, 0, 0, 0) == [Op(3, Alloc), Op(0, Alloc)] + Calculate(g, q[1..], 0, 0, 1);
  }

  lemma {:induction false} SkipEarlier(g: Graph, q: seq<AllocationInfo>, rest: seq<AllocationInfo>,
                                       first: int, last: int, active: int)
    requires forall e :: e in q ==> e.node < first
    ensures Calculate(g, q + rest, first, last, active) == Calculate(g, rest, first, last, active)
  {
    hide EntryOps, Temporaries;
    if q == [] {
      assert q + rest == rest;
    } else {
      assert q[0] in q && (q + rest)[1..] == q[1..] + rest;
      SkipEarlier(g, q[1..], rest, first, last, active);
    }
  }

  lemma {:induction false} TakenTail()
    ensures Calculate(TAKEN, [AllocationInfo(2, 2, Alloc)], 1, 2, 1) == [Op(2, Alloc), Op(3, Dealloc)]
  {
    var rest := [AllocationInfo(2, 2, Alloc)];
    assert rest[1..] == [];
    assert Calculate(TAKEN, [], 1, 2, 1) == [Op(3, Dealloc)] by {
      assert Temporaries(TAKEN, 0, Dealloc) == [Op(3, Dealloc)];
    }
    assert EntryOps(TAKEN, rest[0], 1, 1) == [Op(2, Alloc)];
  }

  lemma {:induction false} TakenRequests()
    ensures var q := Queue(TAKEN, false, false, 3);
      && Requests(TAKEN, q, 0, 0) == NODE_ZERO_OPS
      && Requests(TAKEN, q, 1, 2) == [Op(2, Alloc), Op(3, Dealloc)]
  {
    TakenQueueIs();
    var rest := [AllocationInfo(2, 2, Alloc)];
    NodeZeroRequests(TAKEN, rest);
    TakenTail();
    hide Queue, Calculate;
    SkipEarlier(TAKEN, NODE_ZERO, rest, 1, 2, 1);
    assert NODE_ZERO + rest == Queue(TAKEN, false, false, 3);
  }

  // ---- The arena ----

  lemma {:induction false} FirstFit(rw: seq<ArenaAlloc>, n: nat)
    requires n == |rw| <= 2
    requires n >= 1 ==> rw[0] == LOW
    requires n == 2 ==> rw[1] == MIDDLE
    ensures BestGap(rw, 64, 64, n) == n
    ensures Placement(rw, 64, 64) == ArenaAlloc(64 * n, 64)
    ensures WithPlacement(rw, 64, 64) == rw + [ArenaAlloc(64 * n, 64)]
  {
    assert BestGap(rw, 64, 64, 0) == 0;
    if n >= 1 {
      assert !Fits(rw, 64, 64, 0);
      assert BestGap(rw, 64, 64, 1) == 1;
    }
    if n == 2 {
      assert !Fits(rw, 64, 64, 1);
    }
  }

  lemma {:induction false} LowGap()
    ensures Placement([HIGH], 64, 64) == LOW
    ensures WithPlacement([HIGH], 64, 64) == [LOW, HIGH]
  {
    assert BestGap([HIGH], 64, 64, 0) == 0;
    assert Fits([HIGH], 64, 64, 0);
  }

  lemma {:induction false} Removals()
    ensures Without([LOW, MIDDLE, HIGH], MIDDLE) == [LOW, HIGH]
    ensures Without([LOW, HIGH], LOW) == [HIGH]
  {
    var all := [LOW, MIDDLE, HIGH];
    assert all[1..][1..] == [HIGH] && [HIGH][1..] == [] && [LOW, HIGH][1..] == [HIGH];
    assert Without([HIGH], MIDDLE) == [HIGH] && Without([HIGH], LOW) == [HIGH];
    assert Without(all[1..], MIDDLE) == [HIGH];
  }

  lemma {:induction false} OneMore(st: Arenas, ops: seq<Op>, op: Op, s: Arenas)
    requires |st.allocs| == 4 == |s.allocs| && 0 <= op.tensor < 4
    requires OpsInRange(TENSORS, ops) && Replay(TENSORS, 64, st, ops) == Some(s)
    ensures OpsInRange(TENSORS, ops + [op])
    ensures Replay(TENSORS, 64, st, ops + [op]) == Apply(TENSORS, 64, s, op)
  {
    hide Apply;
    assert (ops + [op])[..|ops|] == ops;
  }

  lemma {:induction false} OneAllocation(st: Arenas, t: int, a: ArenaAlloc, rw: seq<ArenaAlloc>)
    requires |st.allocs| == 4 && 0 <= t < 4
    requires Placement(st.rw, 64, 64) == a && WithPlacement(st.rw, 64, 64) == rw
    ensures Apply(TENSORS, 64, st, Op(t, Alloc))
            == Some(st.(rw := rw, rwTop := Max(st.rwTop, End(a)), allocs := st.allocs[t := a]))
  {
    hide Placement, WithPlacement;
    assert TENSORS[t] == TENSOR;
  }

  /** After node 0 the temporary's block and the input's are free, the output's is not. */
  const AFTER_ZERO := Arenas([HIGH], [], 192, 0, [MIDDLE, HIGH, NONE, LOW])

  lemma {:induction false} ZeroAllocated()
    ensures Replay(TENSORS, 64, Empty(TENSORS), NODE_ZERO_OPS[..3])
            == Some(Arenas([LOW, MIDDLE, HIGH], [], 192, 0, [MIDDLE, HIGH, NONE, LOW]))
  {
    var s0 := Empty(TENSORS);
    assert s0.allocs == [NONE, NONE, NONE, NONE];
    var s1 := Arenas([LOW], [], 64, 0, [NONE, NONE, NONE, LOW]);
    var s2 := Arenas([LOW, MIDDLE], [], 128, 0, [MIDDLE, NONE, NONE, LOW]);
    FirstFit([], 0);
    FirstFit([LOW], 1);
    FirstFit([LOW, MIDDLE], 2);
    OneAllocation(s0, 3, LOW, [LOW]);
    OneAllocation(s1, 0, MIDDLE, [LOW, MIDDLE]);
    OneAllocation(s2, 1, HIGH, [LOW, MIDDLE, HIGH]);
    hide Placement, WithPlacement, Apply;
    assert s0.allocs[3 := LOW] == s1.allocs && s1.allocs[0 := MIDDLE] == s2.allocs;
    assert s2.allocs[1 := HIGH] == [MIDDLE, HIGH, NONE, LOW];
    var ops := [Op(3, Alloc)];
    assert [] + ops == ops;
    OneMore(s0, [], Op(3, Alloc), s0);
    OneMore(s0, ops, Op(0, Alloc), s1);
    OneMore(s0, ops + [Op(0, Alloc)], Op(1, Alloc), s2);
    assert NODE_ZERO_OPS[..3] == ops + [Op(0, Alloc)] + [Op(1, Alloc)];
  }

  lemma {:induction false} ZeroPlanned()
    ensures Replay(TENSORS, 64, Empty(TENSORS), NODE_ZERO_OPS) == Some(AFTER_ZERO)
  {
    ZeroAllocated();
    Removals();
    var s0, ops := Empty(TENSORS), NODE_ZERO_OPS[..3];
    var s3 := Arenas([LOW, MIDDLE, HIGH], [], 192, 0, [MIDDLE, HIGH, NONE, LOW]);
    var s4 := s3.(rw := [LOW, HIGH]);
    hide Without, Empty, Replay;
    assert Apply(TENSORS, 64, s3, Op(0, Dealloc)) == Some(s4);
    assert Apply(TENSORS, 64, s4, Op(3, Dealloc)) == Some(AFTER_ZERO);
    OneMore(s0, ops, Op(0, Dealloc), s3);
    OneMore(s0, ops + [Op(0, Dealloc)], Op(3, Dealloc), s4);
    assert NODE_ZERO_OPS == ops + [Op(0, Dealloc)] + [Op(3, Dealloc)];
  }

  lemma {:induction false} TwoIntervals(g: Graph, q: seq<AllocationInfo>, a: int, b: int, c: int)
    ensures Incrementally(g, q, [a, b, c]) == Requests(g, q, a, b - 1) + Requests(g, q, b, c - 1)
  {
    hide Requests;
    var cuts := [a, b, c];
    assert cuts[1..] == [b, c] && cuts[1..][1..] == [c];
    assert Incrementally(g, q, [c]) == [];
    assert Incrementally(g, q, [b, c]) == Requests(g, q, b, c - 1) + [];
  }

  lemma {:induction false} TakenIsPlannable()
    ensures PlannerRange(TAKEN) && SingleProducer(TAKEN)
  {
    forall n, t ensures Produces(TAKEN, n, t) <==> (n == 0 && t == 1) || (n == 2 && t == 2) {
      TakenEdges(n, t);
    }
  }

  lemma {:induction false} TakenEdges(n: int, t: int)
    ensures Produces(TAKEN, n, t) <==> (n == 0 && t == 1) || (n == 2 && t == 2)
  {
  }

  lemma {:induction false} TakenReplayed()
    ensures var ops := NODE_ZERO_OPS + [Op(2, Alloc), Op(3, Dealloc)];
      && OpsInRange(TENSORS, ops)
      && Replay(TENSORS, 64, Empty(TENSORS), ops) == Some(AFTER_ZERO.(allocs := [MIDDLE, HIGH, LOW, LOW]))
  {
    ZeroPlanned();
    LowGap();
    Removals();
    var s0, ops := Empty(TENSORS), NODE_ZERO_OPS + [Op(2, Alloc)];
    var s6 := AFTER_ZERO.(rw := [LOW, HIGH], allocs := [MIDDLE, HIGH, LOW, LOW]);
    OneAllocation(AFTER_ZERO, 2, LOW, [LOW, HIGH]);
    hide Replay, Empty, Without, BestGap, Placement, WithPlacement;
    assert AFTER_ZERO.allocs[2 := LOW] == s6.allocs;
    assert Apply(TENSORS, 64, s6, Op(3, Dealloc)) == Some(s6.(rw := [HIGH]));
    hide Apply;
    OneMore(s0, NODE_ZERO_OPS, Op(2, Alloc), AFTER_ZERO);
    OneMore(s0, ops, Op(3, Dealloc), s6);
    assert NODE_ZERO_OPS + [Op(2, Alloc), Op(3, Dealloc)] == ops + [Op(3, Dealloc)];
  }

  /** After these requests a live tensor's block is no longer in the arena. */
  ghost predicate LosesBlock(ops: seq<Op>, t: int) {
    && 0 <= t < 4 && OpsInRange(TENSORS, ops) && Live(ops, t)
    && var end := Replay(TENSORS, 64, Empty(TENSORS), ops);
    && end.Some? && end.value.allocs[t].size > 0 && end.value.allocs[t] !in end.value.rw
  }

  lemma {:induction false} TakenLosesBlock()
    ensures LosesBlock(NODE_ZERO_OPS + [Op(2, Alloc), Op(3, Dealloc)], 2)
  {
    TakenReplayed();
    hide Replay, Empty, OpsInRange;
    var ops := NODE_ZERO_OPS + [Op(2, Alloc), Op(3, Dealloc)];
    assert Live(ops, 2) by {
      assert ops[5] == Op(2, Alloc);
    }
  }

  lemma {:induction false} TakenOps()
    ensures Incrementally(TAKEN, Queue(TAKEN, false, false, 3), [0, 1, 3])
            == NODE_ZERO_OPS + [Op(2, Alloc), Op(3, Dealloc)]
  {
    TakenRequests();
    TwoIntervals(TAKEN, Queue(TAKEN, false, false, 3), 0, 1, 3);
    hide Requests, Queue, Incrementally;
  }

  /** Here the second release takes a block away from a live tensor: tensor 2 is a graph output, it
      was placed where the temporary had been, and after the last interval its block is free. */
  lemma {:induction false} SecondReleaseTakesBlock()
    ensures PlannerRange(TAKEN) && SingleProducer(TAKEN) && 2 in TAKEN.outputs
    ensures LosesBlock(Incrementally(TAKEN, Queue(TAKEN, false, false, 3), [0, 1, 3]), 2)
  {
    TakenIsPlannable();
    TakenOps();
    TakenLosesBlock();
    hide Queue, Incrementally, PlannerRange, SingleProducer, LosesBlock;
  }

  /** On AGAIN the block is still free, so the second call fails where planning both nodes
      in one call succeeds. */
  lemma {:induction false} SecondReleaseFails()
    ensures PlannerRange(AGAIN) && SingleProducer(AGAIN)
    ensures var q := Queue(AGAIN, false, false, 2);
      var ops, whole := Incrementally(AGAIN, q, [0, 1, 2]), Requests(AGAIN, q, 0, 1);
      && OpsInRange(TENSORS, ops) && Replay(TENSORS, 64, Empty(TENSORS), ops) == None
      && OpsInRange(TENSORS, whole) && Replay(TENSORS, 64, Empty(TENSORS), whole).Some?
  {
    AgainRequests();
    TemporaryReleasedAgain();
    TwoIntervals(AGAIN, Queue(AGAIN, false, false, 2), 0, 1, 2);
    ZeroPlanned();
    hide Requests, Queue, Incrementally, Replay, Empty, PlannerRange, SingleProducer;
    assert Apply(TENSORS, 64, AFTER_ZERO, Op(3, Dealloc)) == None;
    OneMore(Empty(TENSORS), NODE_ZERO_OPS, Op(3, Dealloc), AFTER_ZERO);
  }

  lemma {:induction false} AgainRequests()
    ensures var q := Queue(AGAIN, false, false, 2);
      && Requests(AGAIN, q, 0, 0) == NODE_ZERO_OPS
      && Requests(AGAIN, q, 0, 1) == NODE_ZERO_OPS
  {
    AgainQueueIs();
    NodeZeroRequests(AGAIN, []);
    assert NODE_ZERO + [] == NODE_ZERO;
    LastNodeUnseen(AGAIN, NODE_ZERO, 0);
  }

  /** Without entries after node 0, the interval may as well end there. */
  lemma {:induction false} LastNodeUnseen(g: Graph, q: seq<AllocationInfo>, active: int)
    requires forall e :: e in q ==> e.node == 0
    ensures Calculate(g, q, 0, 0, active) == Calculate(g, q, 0, 1, active)
  {
    hide EntryOps, Temporaries;
    if q != [] {
      assert q[0] in q;
      LastNodeUnseen(g, q[1..], if q[0].node == active then active + 1 else active);
    }
  }
}
