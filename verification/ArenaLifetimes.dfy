/** Which tensors are live while a node runs, for a plan replayed over the whole graph. */
module ArenaLifetimes {
  import opened Collections
  import opened Graphs
  import opened ArenaPlan
  import opened ArenaSchedule
  import opened ArenaReplay
  import opened MemoryArena

  datatype Plan = Plan(g: Graph, preserveInputs: bool, preserveIntermediates: bool)

  ghost function QueueOf(p: Plan): seq<AllocationInfo> {
    Queue(p.g, p.preserveInputs, p.preserveIntermediates, |p.g.nodes|)
  }

  /** Temporaries belong to one node and are not otherwise part of the graph. */
  ghost predicate PrivateTemporaries(g: Graph) {
    && (forall n :: IsNode(g, n) ==> NoDuplicates(g.nodes[n].temporaries))
    && (forall n, x :: IsNode(g, n) && x in g.nodes[n].temporaries ==> IsTemporary(g, x))
    && (forall m, n, x | IsNode(g, m) && IsNode(g, n) ::
          x in g.nodes[m].temporaries && x in g.nodes[n].temporaries ==> m == n)
  }

  ghost predicate IsTemporary(g: Graph, x: int) {
    IsTensor(g, x) && !Given(g, x) && x !in g.outputs && forall m :: !Produces(g, m, x) && !Reads(g, m, x)
  }

  /** The graphs the memory theorems are about: indices in range, temporaries private, and at least
      one queue entry for every node with temporaries and every node before it. */
  ghost predicate Plannable(p: Plan) {
    PlannerRange(p.g) && PrivateTemporaries(p.g) && TemporariesReached(p.g, QueueOf(p), 0)
  }

  /** A node has a queue entry exactly when it is the first to need a tensor or the last to use one. */
  lemma {:induction false} HasEntryIff(p: Plan, n: int)
    requires PlannerRange(p.g)
    ensures HasEntry(QueueOf(p), n) <==>
            exists t :: RequestedAt(p.g, n, t) || ReleasedAt(p.g, p.preserveInputs, p.preserveIntermediates, n, t)
  {
    var q := QueueOf(p);
    ExactLifetimePlan(p.g, p.preserveInputs, p.preserveIntermediates);
    EntryIsElement(q, n);
    if e :| e in q && e.node == n {
      if e.kind == Alloc {
        assert e == AllocationInfo(n, e.tensor, Alloc);
      } else {
        assert e == AllocationInfo(n, e.tensor, Dealloc);
      }
    }
    if t :| RequestedAt(p.g, n, t) || ReleasedAt(p.g, p.preserveInputs, p.preserveIntermediates, n, t) {
      assert AllocationInfo(n, t, Alloc) in q || AllocationInfo(n, t, Dealloc) in q;
    }
  }

  // ---- One block of requests per node ----

  ghost function Requested(p: Plan, i: int): seq<int>
    requires IsNode(p.g, i)
  {
    (if i == 0 then GivenTensors(p.g) else []) + NewOutputs(p.g, i)
  }

  ghost function Released(p: Plan, i: int): seq<int>
    requires IsNode(p.g, i)
  {
    Releases(p.g, p.preserveInputs, p.preserveIntermediates, i)
  }

  /** What node i allocates, temporaries included. */
  ghost function Acquired(p: Plan, i: int): seq<int>
    requires IsNode(p.g, i)
  {
    p.g.nodes[i].temporaries + Requested(p, i)
  }

  /** What node i releases, temporaries included. */
  ghost function Freed(p: Plan, i: int): seq<int>
    requires IsNode(p.g, i)
  {
    Released(p, i) + p.g.nodes[i].temporaries
  }

  lemma {:induction false} OpsOfConcat(q: seq<AllocationInfo>, r: seq<AllocationInfo>, i: int)
    ensures OpsOfNode(q + r, i) == OpsOfNode(q, i) + OpsOfNode(r, i)
  {
    if q == [] {
      assert q + r == r;
    } else {
      assert (q + r)[1..] == q[1..] + r && (q + r)[0] == q[0];
      OpsOfConcat(q[1..], r, i);
      var head := if q[0].node == i then [Op(q[0].tensor, q[0].kind)] else [];
      assert OpsOfNode(q + r, i) == head + OpsOfNode(q[1..] + r, i);
      ConcatAssociates(head, OpsOfNode(q[1..], i), OpsOfNode(r, i));
    }
  }

  lemma {:induction false} OpsOfEntries(n: int, tensors: seq<int>, kind: AllocKind, i: int)
    ensures OpsOfNode(Entries(n, tensors, kind), i) == if n == i then Ops(tensors, kind) else []
  {
    if tensors != [] {
      var e := Entries(n, tensors, kind);
      assert e[1..] == Entries(n, tensors[1..], kind);
      OpsOfEntries(n, tensors[1..], kind, i);
      assert Ops(tensors, kind) == [Op(tensors[0], kind)] + Ops(tensors[1..], kind);
    }
  }

  /** The part of node i's entries that is queued before any node is planned. */
  ghost function Early(p: Plan, i: int): seq<Op> {
    if i == 0 then Ops(GivenTensors(p.g), Alloc) else []
  }

  lemma {:induction false} RequestedOps(p: Plan, i: int)
    requires IsNode(p.g, i)
    ensures Ops(Requested(p, i), Alloc) == Early(p, i) + Ops(NewOutputs(p.g, i), Alloc)
  {
    OpsConcat(GivenTensors(p.g), NewOutputs(p.g, i), Alloc);
    assert [] + NewOutputs(p.g, i) == NewOutputs(p.g, i);
    assert [] + Ops(NewOutputs(p.g, i), Alloc) == Ops(NewOutputs(p.g, i), Alloc);
  }

  lemma {:induction false} FirstOps(p: Plan, i: int)
    ensures OpsOfNode(Queue(p.g, p.preserveInputs, p.preserveIntermediates, 0), i) == Early(p, i)
  {
    assert Queue(p.g, p.preserveInputs, p.preserveIntermediates, 0) == Entries(0, GivenTensors(p.g), Alloc);
    hide Queue, OpsOfNode, Ops, Entries, GivenTensors;
    OpsOfEntries(0, GivenTensors(p.g), Alloc, i);
  }

  lemma {:induction false} OpsBeforeTurn(p: Plan, k: nat, i: int)
    requires IsNode(p.g, i) && k <= i
    ensures OpsOfNode(Queue(p.g, p.preserveInputs, p.preserveIntermediates, k), i) == Early(p, i)
  {
    if k == 0 {
      hide *;
      FirstOps(p, i);
    } else {
      hide Queue, OpsOfNode, Ops, Early, NewOutputs;
      OpsBeforeTurn(p, k - 1, i);
      OpsOfQueueStep(p, k - 1, i);
    }
  }

  lemma {:induction false} OpsAfterTurn(p: Plan, k: nat, i: int)
    requires IsNode(p.g, i) && i < k <= |p.g.nodes|
    ensures OpsOfNode(Queue(p.g, p.preserveInputs, p.preserveIntermediates, k), i) ==
              Ops(Requested(p, i), Alloc) + Ops(Released(p, i), Dealloc)
  {
    hide Queue, OpsOfNode, Ops, Requested, Released, Early, NewOutputs;
    OpsOfQueueStep(p, k - 1, i);
    if i == k - 1 {
      OpsBeforeTurn(p, k - 1, i);
      RequestedOps(p, i);
    } else {
      OpsAfterTurn(p, k - 1, i);
    }
  }

  lemma {:induction false} OpsOfQueueStep(p: Plan, n: nat, i: int)
    requires IsNode(p.g, i) && n < |p.g.nodes|
    ensures var q, r := Queue(p.g, p.preserveInputs, p.preserveIntermediates, n),
            Queue(p.g, p.preserveInputs, p.preserveIntermediates, n + 1);
      && (n != i ==> OpsOfNode(r, i) == OpsOfNode(q, i))
      && (n == i ==> OpsOfNode(r, i) == OpsOfNode(q, i) + Ops(NewOutputs(p.g, i), Alloc) + Ops(Released(p, i), Dealloc))
  {
    var q := Queue(p.g, p.preserveInputs, p.preserveIntermediates, n);
    var a, d := Entries(n, NewOutputs(p.g, n), Alloc), Entries(n, Released(p, n), Dealloc);
    OpsOfConcat(q + a, d, i);
    OpsOfConcat(q, a, i);
    OpsOfEntries(n, NewOutputs(p.g, n), Alloc, i);
    OpsOfEntries(n, Released(p, n), Dealloc, i);
    assert OpsOfNode(q, i) + [] + [] == OpsOfNode(q, i);
  }

  lemma {:induction false} BlockOfNode(p: Plan, i: int)
    requires IsNode(p.g, i)
    ensures Block(p.g, QueueOf(p), i) == Ops(Acquired(p, i), Alloc) + Ops(Freed(p, i), Dealloc)
  {
    OpsAfterTurn(p, |p.g.nodes|, i);
    OpsConcat(p.g.nodes[i].temporaries, Requested(p, i), Alloc);
    OpsConcat(Released(p, i), p.g.nodes[i].temporaries, Dealloc);
    var temps, ops := Temporaries(p.g, i, Alloc), Ops(Requested(p, i), Alloc);
    var dead, free := Ops(Released(p, i), Dealloc), Temporaries(p.g, i, Dealloc);
    assert temps + (ops + dead) + free == (temps + ops) + (dead + free);
  }

  lemma {:induction false} OpsConcat(a: seq<int>, b: seq<int>, kind: AllocKind)
    ensures Ops(a + b, kind) == Ops(a, kind) + Ops(b, kind)
  {
  }

  // ---- Every tensor is acquired by one node and freed by one node, not earlier ----

  lemma {:induction false} RequestedElements(p: Plan, i: int)
    requires PlannerRange(p.g) && IsNode(p.g, i)
    ensures forall t :: t in Requested(p, i) <==> RequestedAt(p.g, i, t)
    ensures NoDuplicates(Requested(p, i))
  {
    NewOutputsElements(p.g, i);
    GivenElements(p.g);
    if i == 0 {
      NoDuplicatesConcat(GivenTensors(p.g), NewOutputs(p.g, i));
    } else {
      assert [] + NewOutputs(p.g, i) == NewOutputs(p.g, i);
    }
  }

  lemma {:induction false} AcquiredElements(p: Plan, i: int)
    requires PlannerRange(p.g) && PrivateTemporaries(p.g) && IsNode(p.g, i)
    ensures forall t :: t in Acquired(p, i) <==> RequestedAt(p.g, i, t) || t in p.g.nodes[i].temporaries
    ensures NoDuplicates(Acquired(p, i))
  {
    RequestedElements(p, i);
    forall t | t in p.g.nodes[i].temporaries ensures t !in Requested(p, i) {
      assert IsTemporary(p.g, t);
    }
    NoDuplicatesConcat(p.g.nodes[i].temporaries, Requested(p, i));
  }

  lemma {:induction false} FreedElements(p: Plan, i: int)
    requires PlannerRange(p.g) && PrivateTemporaries(p.g) && IsNode(p.g, i)
    ensures forall t :: t in Freed(p, i) <==>
              ReleasedAt(p.g, p.preserveInputs, p.preserveIntermediates, i, t) || t in p.g.nodes[i].temporaries
    ensures NoDuplicates(Freed(p, i))
  {
    ReleasesElements(p.g, p.preserveInputs, p.preserveIntermediates, i);
    forall t | t in p.g.nodes[i].temporaries ensures t !in Released(p, i) {
      assert IsTemporary(p.g, t);
    }
    NoDuplicatesConcat(Released(p, i), p.g.nodes[i].temporaries);
  }

  ghost predicate AcquiredBefore(p: Plan, i: int, t: int) {
    exists j :: 0 <= j < i && IsNode(p.g, j) && t in Acquired(p, j)
  }

  ghost predicate FreedBefore(p: Plan, i: int, t: int) {
    exists j :: 0 <= j < i && IsNode(p.g, j) && t in Freed(p, j)
  }

  lemma {:induction false} FirstProducer(g: Graph, m: int, t: int) returns (n: int)
    requires Produces(g, m, t)
    ensures n <= m && Produces(g, n, t) && forall k :: k < n ==> !Produces(g, k, t)
  {
    if k :| k < m && Produces(g, k, t) {
      n := FirstProducer(g, k, t);
    } else {
      n := m;
    }
  }

  lemma {:induction false} AllocatedIsAcquired(p: Plan, i: int, t: int)
    requires PlannerRange(p.g) && PrivateTemporaries(p.g) && 0 <= i <= |p.g.nodes|
    ensures AcquiredBefore(p, i, t) <==>
              (i > 0 && AllocatedBefore(p.g, i, t)) || exists j :: 0 <= j < i && t in p.g.nodes[j].temporaries
  {
    forall j | 0 <= j < i ensures t in Acquired(p, j) <==> RequestedAt(p.g, j, t) || t in p.g.nodes[j].temporaries {
      AcquiredElements(p, j);
    }
    if i > 0 && AllocatedBefore(p.g, i, t) {
      if Given(p.g, t) {
        assert RequestedAt(p.g, 0, t) && t in Acquired(p, 0);
      } else {
        var m :| m < i && Produces(p.g, m, t);
        var n := FirstProducer(p.g, m, t);
        assert RequestedAt(p.g, n, t) && t in Acquired(p, n);
      }
    }
    if j :| 0 <= j < i && t in p.g.nodes[j].temporaries {
      assert t in Acquired(p, j);
    }
  }

  /** No node acquires a tensor that an earlier node acquired. */
  lemma {:induction false} AcquiredOnce(p: Plan, i: int, j: int, t: int)
    requires PlannerRange(p.g) && PrivateTemporaries(p.g) && IsNode(p.g, i) && IsNode(p.g, j)
    requires t in Acquired(p, i) && t in Acquired(p, j)
    ensures i == j
  {
    AcquiredElements(p, i);
    AcquiredElements(p, j);
    if t in p.g.nodes[i].temporaries || t in p.g.nodes[j].temporaries {
      assert IsTemporary(p.g, t);
    }
  }

  lemma {:induction false} FreedOnce(p: Plan, i: int, j: int, t: int)
    requires PlannerRange(p.g) && PrivateTemporaries(p.g) && IsNode(p.g, i) && IsNode(p.g, j)
    requires t in Freed(p, i) && t in Freed(p, j)
    ensures i == j
  {
    FreedElements(p, i);
    FreedElements(p, j);
    if t in p.g.nodes[i].temporaries || t in p.g.nodes[j].temporaries {
      assert IsTemporary(p.g, t);
    }
  }

  lemma {:induction false} FreedIsAcquired(p: Plan, i: int, t: int)
    requires PlannerRange(p.g) && PrivateTemporaries(p.g) && IsNode(p.g, i) && t in Freed(p, i)
    ensures AcquiredBefore(p, i + 1, t)
  {
    FreedElements(p, i);
    AllocatedIsAcquired(p, i + 1, t);
  }

  // ---- The whole schedule is well paired ----

  ghost function Schedule(p: Plan, i: nat): seq<Op> {
    Blocks(p.g, QueueOf(p), 0, i)
  }

  lemma {:induction false} OneBlock(g: Graph, q: seq<AllocationInfo>, i: int)
    ensures Blocks(g, q, i, i + 1) == Block(g, q, i)
  {
    hide Block;
    assert Blocks(g, q, i + 1, i + 1) == [];
  }

  lemma {:induction false} ScheduleNext(p: Plan, i: nat)
    requires i < |p.g.nodes|
    ensures Schedule(p, i + 1) == Schedule(p, i) + Ops(Acquired(p, i), Alloc) + Ops(Freed(p, i), Dealloc)
  {
    hide QueueOf, Block, Ops, Acquired, Freed;
    BlocksSplit(p.g, QueueOf(p), 0, i, i + 1);
    BlockOfNode(p, i);
    OneBlock(p.g, QueueOf(p), i);
    ConcatAssociates(Schedule(p, i), Ops(Acquired(p, i), Alloc), Ops(Freed(p, i), Dealloc));
  }

  lemma {:induction false} AppendAllocs(ops: seq<Op>, tensors: seq<int>)
    requires WellPaired(ops) && NoDuplicates(tensors)
    requires forall t :: t in tensors ==> Op(t, Alloc) !in ops && Op(t, Dealloc) !in ops
    ensures WellPaired(ops + Ops(tensors, Alloc))
  {
    var more := Ops(tensors, Alloc);
    var r := ops + more;
    forall a, b | 0 <= a < b < |r|
      ensures r[a].tensor == r[b].tensor ==> r[a].kind == Alloc && r[b].kind == Dealloc
    {
      if b >= |ops| {
        assert r[b] == Op(tensors[b - |ops|], Alloc) && tensors[b - |ops|] in tensors;
        if a < |ops| {
          assert r[a] == ops[a] && ops[a] in ops;
          assert ops[a] == Op(ops[a].tensor, Alloc) || ops[a] == Op(ops[a].tensor, Dealloc);
        } else {
          assert r[a] == Op(tensors[a - |ops|], Alloc);
        }
      }
    }
    forall b | 0 <= b < |r| && r[b].kind == Dealloc ensures Op(r[b].tensor, Alloc) in r[..b] {
      assert r[..b] == ops[..b];
    }
  }

  lemma {:induction false} AppendDeallocs(ops: seq<Op>, tensors: seq<int>)
    requires WellPaired(ops) && NoDuplicates(tensors)
    requires forall t :: t in tensors ==> Live(ops, t)
    ensures WellPaired(ops + Ops(tensors, Dealloc))
  {
    var more := Ops(tensors, Dealloc);
    var r := ops + more;
    forall a, b | 0 <= a < b < |r|
      ensures r[a].tensor == r[b].tensor ==> r[a].kind == Alloc && r[b].kind == Dealloc
    {
      if b >= |ops| {
        assert r[b] == Op(tensors[b - |ops|], Dealloc) && tensors[b - |ops|] in tensors;
        if a < |ops| {
          assert r[a] == ops[a] && ops[a] in ops;
          assert ops[a] == Op(ops[a].tensor, Alloc) || ops[a] == Op(ops[a].tensor, Dealloc);
        } else {
          assert r[a] == Op(tensors[a - |ops|], Dealloc);
        }
      }
    }
    forall b | 0 <= b < |r| && r[b].kind == Dealloc ensures Op(r[b].tensor, Alloc) in r[..b] {
      if b < |ops| {
        assert r[..b] == ops[..b];
      } else {
        assert tensors[b - |ops|] in tensors && Live(ops, r[b].tensor);
        assert r[..b] == ops + more[..b - |ops|];
      }
    }
  }

  lemma {:induction false} ScheduleElements(p: Plan, i: nat)
    requires PlannerRange(p.g) && PrivateTemporaries(p.g) && i <= |p.g.nodes|
    ensures forall t :: Op(t, Alloc) in Schedule(p, i) <==> AcquiredBefore(p, i, t)
    ensures forall t :: Op(t, Dealloc) in Schedule(p, i) <==> FreedBefore(p, i, t)
  {
    if i > 0 {
      hide Schedule, AcquiredBefore, FreedBefore, Acquired, Freed, PlannerRange, PrivateTemporaries, Ops;
      var n := i - 1;
      ScheduleElements(p, n);
      ScheduleNext(p, n);
      OpsElements(Acquired(p, n), Alloc);
      OpsElements(Freed(p, n), Dealloc);
      forall t ensures Op(t, Alloc) in Schedule(p, i) <==> AcquiredBefore(p, i, t)
               ensures Op(t, Dealloc) in Schedule(p, i) <==> FreedBefore(p, i, t)
      {
        BeforeNext(p, n, t);
      }
    }
  }

  lemma {:induction false} BeforeNext(p: Plan, n: nat, t: int)
    requires IsNode(p.g, n)
    ensures AcquiredBefore(p, n + 1, t) <==> AcquiredBefore(p, n, t) || t in Acquired(p, n)
    ensures FreedBefore(p, n + 1, t) <==> FreedBefore(p, n, t) || t in Freed(p, n)
  {
    hide Acquired, Freed;
    if j :| 0 <= j < n && IsNode(p.g, j) && t in Acquired(p, j) {
      assert j < n + 1;
    }
    if j :| 0 <= j < n && IsNode(p.g, j) && t in Freed(p, j) {
      assert j < n + 1;
    }
  }

  /** The moment the allocations of node i are done. */
  ghost function Moment(p: Plan, i: nat): seq<Op>
    requires i < |p.g.nodes|
  {
    Schedule(p, i) + Ops(Acquired(p, i), Alloc)
  }

  lemma {:induction false} MomentPaired(p: Plan, i: nat)
    requires PlannerRange(p.g) && PrivateTemporaries(p.g) && i < |p.g.nodes| && WellPaired(Schedule(p, i))
    ensures WellPaired(Moment(p, i))
    ensures forall t :: Live(Moment(p, i), t) <==> AcquiredBefore(p, i + 1, t) && !FreedBefore(p, i, t)
  {
    ScheduleElements(p, i);
    AcquiredElements(p, i);
    OpsElements(Acquired(p, i), Alloc);
    forall t | t in Acquired(p, i) ensures !AcquiredBefore(p, i, t) && !FreedBefore(p, i, t) {
      NothingBefore(p, i, t);
    }
    AppendAllocs(Schedule(p, i), Acquired(p, i));
    forall t ensures Live(Moment(p, i), t) <==> AcquiredBefore(p, i + 1, t) && !FreedBefore(p, i, t) {
      BeforeNext(p, i, t);
    }
  }

  lemma {:induction false} NothingBefore(p: Plan, i: nat, t: int)
    requires PlannerRange(p.g) && PrivateTemporaries(p.g) && IsNode(p.g, i) && t in Acquired(p, i)
    ensures !AcquiredBefore(p, i, t) && !FreedBefore(p, i, t)
  {
    forall j | 0 <= j < i ensures t !in Acquired(p, j) && t !in Freed(p, j) {
      if t in Acquired(p, j) {
        AcquiredOnce(p, i, j, t);
      }
      if t in Freed(p, j) {
        FreedAfterAcquired(p, i, j, t);
      }
    }
  }

  lemma {:induction false} FreedAfterAcquired(p: Plan, i: int, j: int, t: int)
    requires PlannerRange(p.g) && PrivateTemporaries(p.g) && IsNode(p.g, i) && IsNode(p.g, j)
    requires t in Acquired(p, i) && t in Freed(p, j)
    ensures i <= j
  {
    FreedIsAcquired(p, j, t);
    var k :| 0 <= k < j + 1 && IsNode(p.g, k) && t in Acquired(p, k);
    AcquiredOnce(p, i, k, t);
  }

  lemma {:induction false} SchedulePaired(p: Plan, i: nat)
    requires PlannerRange(p.g) && PrivateTemporaries(p.g) && i <= |p.g.nodes|
    ensures WellPaired(Schedule(p, i))
  {
    if i > 0 {
      var n := i - 1;
      SchedulePaired(p, n);
      ScheduleNext(p, n);
      MomentPaired(p, n);
      FreedElements(p, n);
      forall t | t in Freed(p, n) ensures Live(Moment(p, n), t) {
        FreedIsAcquired(p, n, t);
        if j :| 0 <= j < n && IsNode(p.g, j) && t in Freed(p, j) {
          FreedOnce(p, n, j, t);
        }
      }
      AppendDeallocs(Moment(p, n), Freed(p, n));
    }
  }

  /** While node i runs, a tensor has memory of its own from its allocation up to its last reader. */
  ghost predicate LiveAt(p: Plan, i: int, t: int) {
    || (IsNode(p.g, i) && t in p.g.nodes[i].temporaries)
    || (AllocatedBefore(p.g, i + 1, t) &&
        forall n :: 0 <= n < i ==> !ReleasedAt(p.g, p.preserveInputs, p.preserveIntermediates, n, t))
  }

  /** The replay agrees: such a tensor is live once the allocations of node i are done. */
  lemma {:induction false} LiveAtMoment(p: Plan, i: nat, t: int)
    requires PlannerRange(p.g) && PrivateTemporaries(p.g) && i < |p.g.nodes| && LiveAt(p, i, t)
    ensures Live(Moment(p, i), t)
  {
    SchedulePaired(p, i);
    MomentPaired(p, i);
    AllocatedIsAcquired(p, i + 1, t);
    forall j | 0 <= j < i ensures t !in Freed(p, j) {
      FreedElements(p, j);
      assert t in p.g.nodes[i].temporaries || t in p.g.nodes[j].temporaries ==> IsTemporary(p.g, t);
    }
  }

  /** The arguments and results of node i are live at node i, as its temporaries are, and so is every
      pinned tensor and every tensor that a node from i on still reads. */
  lemma {:induction false} NeededIsLive(p: Plan, i: int, t: int)
    requires PlannerRange(p.g) && IsNode(p.g, i) && AllocatedBefore(p.g, i + 1, t)
    requires || Pinned(p.g, p.preserveInputs, t) || p.preserveIntermediates
             || (exists n :: n >= i && Reads(p.g, n, t))
             || (SingleProducer(p.g) && !Given(p.g, t) && Produces(p.g, i, t))
    ensures LiveAt(p, i, t)
  {
    forall n | 0 <= n < i ensures !ReleasedAt(p.g, p.preserveInputs, p.preserveIntermediates, n, t) {
      if AllocatedBefore(p.g, n + 1, t) && !Given(p.g, t) {
        var m :| m < n + 1 && Produces(p.g, m, t);
      }
    }
  }

  /** Tensors of one arena that are live at the same node end up in disjoint blocks. */
  lemma {:induction false} DisjointAtNode(p: Plan, ts: seq<TensorInfo>, alignment: nat, i: nat, t: int, u: int)
    requires PlannerRange(p.g) && PrivateTemporaries(p.g) && i < |p.g.nodes|
    requires |ts| == p.g.numTensors && 1 <= alignment <= ARENA_ALIGNMENT
    requires LiveAt(p, i, t) && LiveAt(p, i, u) && t != u && IsTensor(p.g, t) && IsTensor(p.g, u)
    requires ts[t].typ == ts[u].typ != OtherMemory && ts[t].bytes > 0 && ts[u].bytes > 0
    ensures OpsInRange(ts, Schedule(p, |p.g.nodes|))
    ensures var r := Replay(ts, alignment, Empty(ts), Schedule(p, |p.g.nodes|));
      r.Some? && Disjoint(r.value.allocs[t], r.value.allocs[u])
  {
    var ops := Schedule(p, |p.g.nodes|);
    ScheduleInRange(p, ts, |p.g.nodes|);
    SchedulePaired(p, |p.g.nodes|);
    MomentIsPrefix(p, i);
    LiveAtMoment(p, i, t);
    LiveAtMoment(p, i, u);
    LiveTogetherAreDisjoint(ts, alignment, ops, |Moment(p, i)|, t, u);
  }

  lemma {:induction false} MomentIsPrefix(p: Plan, i: nat)
    requires i < |p.g.nodes|
    ensures |Moment(p, i)| <= |Schedule(p, |p.g.nodes|)|
    ensures Schedule(p, |p.g.nodes|)[..|Moment(p, i)|] == Moment(p, i)
  {
    ScheduleNext(p, i);
    BlocksSplit(p.g, QueueOf(p), 0, i + 1, |p.g.nodes|);
    assert Schedule(p, |p.g.nodes|) == Schedule(p, i + 1) + Blocks(p.g, QueueOf(p), i + 1, |p.g.nodes|);
  }

  lemma {:induction false} ScheduleInRange(p: Plan, ts: seq<TensorInfo>, i: nat)
    requires PlannerRange(p.g) && PrivateTemporaries(p.g) && i <= |p.g.nodes| && |ts| == p.g.numTensors
    ensures OpsInRange(ts, Schedule(p, i))
  {
    ScheduleElements(p, i);
    var ops := Schedule(p, i);
    forall k | 0 <= k < |ops| ensures 0 <= ops[k].tensor < |ts| {
      var t := ops[k].tensor;
      assert ops[k] in ops;
      if ops[k].kind == Dealloc {
        assert ops[k] == Op(t, Dealloc);
        var j :| 0 <= j < i && IsNode(p.g, j) && t in Freed(p, j);
        FreedElements(p, j);
        if t in p.g.nodes[j].temporaries { assert IsTemporary(p.g, t); }
      } else {
        assert ops[k] == Op(t, Alloc);
        var j :| 0 <= j < i && IsNode(p.g, j) && t in Acquired(p, j);
        AcquiredElements(p, j);
        if t in p.g.nodes[j].temporaries { assert IsTemporary(p.g, t); }
      }
    }
  }
}
