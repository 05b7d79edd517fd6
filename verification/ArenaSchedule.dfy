/** How the planner replays its queue, node interval by node interval, and interleaves the
    temporaries of the nodes (CalculateAllocations in tensorflow/lite/arena_planner.cc). */
module ArenaSchedule {
  import opened Collections
  import opened Graphs
  import opened ArenaPlan

  /** One request to the arenas. */
  datatype Op = Op(tensor: int, kind: AllocKind)

  ghost function Ops(tensors: seq<int>, kind: AllocKind): seq<Op> {
    seq(|tensors|, k requires 0 <= k < |tensors| => Op(tensors[k], kind))
  }

  lemma {:induction false} OpsElements(tensors: seq<int>, kind: AllocKind)
    ensures forall o :: o in Ops(tensors, kind) <==> o.kind == kind && o.tensor in tensors
  {
    var ops := Ops(tensors, kind);
    forall o: Op | o.kind == kind && o.tensor in tensors ensures o in ops {
      var k :| 0 <= k < |tensors| && tensors[k] == o.tensor;
      assert ops[k] == o;
    }
  }

  /** Lines 285-309; a node index out of range, as for the node before the first, requests nothing. */
  ghost function Temporaries(g: Graph, n: int, kind: AllocKind): seq<Op> {
    if IsNode(g, n) then Ops(g.nodes[n].temporaries, kind) else []
  }

  /** Temporaries are requested and released in the order in which the node lists them. */
  lemma {:induction false} TemporariesAt(g: Graph, n: int, kind: AllocKind, k: nat)
    requires IsNode(g, n) && k < |g.nodes[n].temporaries|
    ensures |Temporaries(g, n, kind)| == |g.nodes[n].temporaries|
    ensures Temporaries(g, n, kind)[k] == Op(g.nodes[n].temporaries[k], kind)
  {
  }

  /** What the first entry of a node triggers. */
  ghost function StartOps(g: Graph, first: int, active: int): seq<Op> {
    (if active != first then Temporaries(g, active - 1, Dealloc) else []) + Temporaries(g, active, Alloc)
  }

  ghost function VisitOps(g: Graph, info: AllocationInfo, first: int, active: int): seq<Op> {
    if info.node == active then StartOps(g, first, active) else []
  }

  /** What one queue entry requests. */
  ghost function EntryOps(g: Graph, info: AllocationInfo, first: int, active: int): seq<Op> {
    VisitOps(g, info, first, active) + [Op(info.tensor, info.kind)]
  }

  /** The requests of lines 219-242 for the rest of the queue. */
  ghost function Calculate(g: Graph, q: seq<AllocationInfo>, first: int, last: int, active: int): seq<Op> {
    if q == [] then Temporaries(g, active - 1, Dealloc)
    else if q[0].node < first then Calculate(g, q[1..], first, last, active)
    else if q[0].node > last then Temporaries(g, active - 1, Dealloc)
    else
      EntryOps(g, q[0], first, active)
      + Calculate(g, q[1..], first, last, if q[0].node == active then active + 1 else active)
  }

  /** Everything one call CalculateAllocations(first, last) requests, in order. */
  ghost function Requests(g: Graph, q: seq<AllocationInfo>, first: int, last: int): seq<Op> {
    Calculate(g, q, first, last, first)
  }

  /** Node n has at least one entry in the queue. */
  ghost predicate HasEntry(q: seq<AllocationInfo>, n: int) {
    q != [] && (q[0].node == n || HasEntry(q[1..], n))
  }

  lemma {:induction false} EntryIsElement(q: seq<AllocationInfo>, n: int)
    ensures HasEntry(q, n) <==> exists e :: e in q && e.node == n
  {
    if q != [] {
      EntryIsElement(q[1..], n);
      assert q == [q[0]] + q[1..];
      if q[0].node == n { assert q[0] in q; }
    }
  }

  ghost predicate AllHaveEntries(q: seq<AllocationInfo>, a: int, b: int) {
    forall n :: a <= n <= b ==> HasEntry(q, n)
  }

  ghost function OpsOfNode(q: seq<AllocationInfo>, n: int): seq<Op> {
    if q == [] then []
    else (if q[0].node == n then [Op(q[0].tensor, q[0].kind)] else []) + OpsOfNode(q[1..], n)
  }

  /** What node n needs: its temporaries around its queue entries. */
  ghost function Block(g: Graph, q: seq<AllocationInfo>, n: int): seq<Op> {
    Temporaries(g, n, Alloc) + OpsOfNode(q, n) + Temporaries(g, n, Dealloc)
  }

  ghost function Blocks(g: Graph, q: seq<AllocationInfo>, a: int, b: int): seq<Op>
    decreases b - a
  {
    if a >= b then [] else Block(g, q, a) + Blocks(g, q, a + 1, b)
  }

  // ---- Replaying an interval visits its nodes one after another ----

  lemma {:induction false} NoEarlierEntry(q: seq<AllocationInfo>, n: int)
    requires SortedByNode(q) && q != [] && n < q[0].node
    ensures !HasEntry(q, n) && OpsOfNode(q, n) == []
  {
    if |q| > 1 {
      NoEarlierEntry(q[1..], n);
    }
  }

  lemma {:induction false} BlocksOfTail(g: Graph, q: seq<AllocationInfo>, a: int, b: int)
    requires q != [] && q[0].node < a
    ensures Blocks(g, q[1..], a, b) == Blocks(g, q, a, b)
    decreases b - a
  {
    hide Temporaries;
    if a < b {
      BlocksOfTail(g, q, a + 1, b);
      assert OpsOfNode(q[1..], a) == OpsOfNode(q, a);
    }
  }

  lemma {:induction false} Regroup<T>(a: seq<T>, b: seq<T>, c: seq<T>, d: seq<T>)
    ensures a + (b + c + d) == (a + b) + c + d
  {
  }

  lemma {:induction false} RegroupBlock<T>(temps: seq<T>, op: seq<T>, ops: seq<T>, free: seq<T>, rest: seq<T>)
    ensures temps + op + (ops + free + rest) == (temps + (op + ops) + free) + rest
  {
  }

  lemma {:induction false} RegroupNext<T>(free: seq<T>, temps: seq<T>, op: seq<T>, rest: seq<T>, blocks: seq<T>)
    requires temps + op + rest == blocks
    ensures free + temps + op + rest == [] + free + blocks
  {
  }

  lemma {:induction false} TailEntries(q: seq<AllocationInfo>, a: int, b: int)
    requires q != [] && q[0].node < a
    ensures AllHaveEntries(q, a, b) <==> AllHaveEntries(q[1..], a, b)
  {
    forall n | a <= n <= b ensures HasEntry(q, n) <==> HasEntry(q[1..], n) {
    }
  }

  /** With node active - 1 in progress, the rest of the queue finishes it and then visits the others. */
  lemma {:induction false} CalculateRest(g: Graph, q: seq<AllocationInfo>, first: int, last: int, active: int)
    requires SortedByNode(q) && first < active <= last + 1
    requires q != [] ==> q[0].node >= active - 1
    requires AllHaveEntries(q, active, last)
    ensures RestHolds(g, q, first, last, active)
  {
    assert active <= last ==> HasEntry(q, active);
    if q != [] {
      if q[0].node > active {
        NoEarlierEntry(q, active);
      }
      if q[0].node > last {
        NoEarlierEntry(q, active - 1);
      } else if q[0].node == active - 1 {
        TailEntries(q, active, last);
        CalculateRest(g, q[1..], first, last, active);
        SameNodeEntry(g, q, first, last, active);
      } else {
        TailEntries(q, active + 1, last);
        CalculateRest(g, q[1..], first, last, active + 1);
        NextNodeEntry(g, q, first, last, active);
      }
    }
  }

  /** What CalculateRest says about the rest of a queue. */
  ghost predicate RestHolds(g: Graph, q: seq<AllocationInfo>, first: int, last: int, active: int) {
    Calculate(g, q, first, last, active) ==
      OpsOfNode(q, active - 1) + Temporaries(g, active - 1, Dealloc) + Blocks(g, q, active, last + 1)
  }

  lemma {:induction false} SameNodeEntry(g: Graph, q: seq<AllocationInfo>, first: int, last: int, active: int)
    requires q != [] && first <= q[0].node == active - 1 <= last
    requires RestHolds(g, q[1..], first, last, active)
    ensures RestHolds(g, q, first, last, active)
  {
    BlocksOfTail(g, q, active, last + 1);
    var op := Op(q[0].tensor, q[0].kind);
    assert EntryOps(g, q[0], first, active) == [op];
    Regroup([op], OpsOfNode(q[1..], active - 1), Temporaries(g, active - 1, Dealloc), Blocks(g, q, active, last + 1));
  }

  lemma {:induction false} NextNodeEntry(g: Graph, q: seq<AllocationInfo>, first: int, last: int, active: int)
    requires q != [] && SortedByNode(q) && first < q[0].node == active <= last
    requires RestHolds(g, q[1..], first, last, active + 1)
    ensures RestHolds(g, q, first, last, active)
  {
    hide Temporaries, Blocks, HasEntry;
    NoEarlierEntry(q, active - 1);
    BlocksOfTail(g, q, active + 1, last + 1);
    RestStep(g, q, active, last);
    var free, temps, op := Temporaries(g, active - 1, Dealloc), Temporaries(g, active, Alloc),
      [Op(q[0].tensor, q[0].kind)];
    var rest := Calculate(g, q[1..], first, last, active + 1);
    assert EntryOps(g, q[0], first, active) == free + temps + op;
    assert OpsOfNode(q, active - 1) == [];
    RegroupNext(free, temps, op, rest, Blocks(g, q, active, last + 1));
  }

  /** The first block of the rest, taken apart at its first entry. */
  lemma {:induction false} RestStep(g: Graph, q: seq<AllocationInfo>, active: int, last: int)
    requires q != [] && q[0].node == active <= last
    ensures Temporaries(g, active, Alloc) + [Op(q[0].tensor, q[0].kind)]
            + (OpsOfNode(q[1..], active) + Temporaries(g, active, Dealloc) + Blocks(g, q, active + 1, last + 1))
            == Blocks(g, q, active, last + 1)
  {
    var temps, op, ops := Temporaries(g, active, Alloc), [Op(q[0].tensor, q[0].kind)], OpsOfNode(q[1..], active);
    var free, rest := Temporaries(g, active, Dealloc), Blocks(g, q, active + 1, last + 1);
    assert OpsOfNode(q, active) == op + ops;
    RegroupBlock(temps, op, ops, free, rest);
    assert Block(g, q, active) == temps + (op + ops) + free;
    assert Blocks(g, q, active, last + 1) == Block(g, q, active) + rest;
  }

  lemma {:induction false} RequestsAreBlocks(g: Graph, q: seq<AllocationInfo>, first: int, last: int)
    requires SortedByNode(q) && first <= last
    requires AllHaveEntries(q, first, last)
    ensures Requests(g, q, first, last) == Blocks(g, q, first, last + 1)
  {
    assert HasEntry(q, first);
    if q[0].node < first {
      TailEntries(q, first, last);
      BlocksOfTail(g, q, first, last + 1);
      RequestsAreBlocks(g, q[1..], first, last);
    } else {
      if q[0].node > first {
        NoEarlierEntry(q, first);
        assert false;
      }
      StartFirst(g, q, first, last);
    }
  }

  lemma {:induction false} FirstEntry(g: Graph, q: seq<AllocationInfo>, first: int, last: int)
    requires q != [] && q[0].node == first <= last
    ensures Requests(g, q, first, last) == Temporaries(g, first, Alloc) + [Op(q[0].tensor, q[0].kind)]
                                           + Calculate(g, q[1..], first, last, first + 1)
  {
    var temps := Temporaries(g, first, Alloc);
    hide Temporaries;
    assert [] + temps == temps;
  }

  lemma {:induction false} StartFirst(g: Graph, q: seq<AllocationInfo>, first: int, last: int)
    requires SortedByNode(q) && q != [] && q[0].node == first <= last
    requires AllHaveEntries(q, first, last)
    ensures Requests(g, q, first, last) == Blocks(g, q, first, last + 1)
  {
    TailEntries(q, first + 1, last);
    BlocksOfTail(g, q, first + 1, last + 1);
    CalculateRest(g, q[1..], first, last, first + 1);
    RestStep(g, q, first, last);
    FirstEntry(g, q, first, last);
    hide Blocks, OpsOfNode, Temporaries, Requests, Calculate, HasEntry, SortedByNode;
  }

  lemma {:induction false} BlocksSplit(g: Graph, q: seq<AllocationInfo>, a: int, b: int, c: int)
    requires a <= b <= c
    ensures Blocks(g, q, a, b) + Blocks(g, q, b, c) == Blocks(g, q, a, c)
    decreases b - a
  {
    if a < b {
      BlocksSplit(g, q, a + 1, b, c);
    }
  }

  /** Calls on the consecutive intervals between the cuts. */
  ghost function Incrementally(g: Graph, q: seq<AllocationInfo>, cuts: seq<int>): seq<Op> {
    if |cuts| < 2 then []
    else Requests(g, q, cuts[0], cuts[1] - 1) + Incrementally(g, q, cuts[1..])
  }

  ghost predicate Increasing(cuts: seq<int>) {
    forall i, j :: 0 <= i < j < |cuts| ==> cuts[i] < cuts[j]
  }

  lemma {:induction false} IncrementallySplit(g: Graph, q: seq<AllocationInfo>, cuts: seq<int>, j: nat)
    requires j < |cuts|
    ensures Incrementally(g, q, cuts) == Incrementally(g, q, cuts[..j + 1]) + Incrementally(g, q, cuts[j..])
  {
    hide Requests;
    if j == 0 {
      assert Incrementally(g, q, cuts[..1]) == [] && cuts[0..] == cuts;
    } else {
      IncrementallySplit(g, q, cuts[1..], j - 1);
      assert cuts[1..][j - 1..] == cuts[j..] && cuts[..j + 1][1..] == cuts[1..][..j];
    }
  }

  lemma {:induction false} IncrementallyNext(g: Graph, q: seq<AllocationInfo>, cuts: seq<int>, j: nat)
    requires j + 1 < |cuts|
    ensures Incrementally(g, q, cuts[..j + 2])
            == Incrementally(g, q, cuts[..j + 1]) + Requests(g, q, cuts[j], cuts[j + 1] - 1)
  {
    hide Requests;
    IncrementallySplit(g, q, cuts[..j + 2], j);
    assert cuts[..j + 2][..j + 1] == cuts[..j + 1] && cuts[..j + 2][j..] == [cuts[j], cuts[j + 1]];
    LastInterval(g, q, cuts[j], cuts[j + 1]);
  }

  lemma {:induction false} LastInterval(g: Graph, q: seq<AllocationInfo>, a: int, b: int)
    ensures Incrementally(g, q, [a, b]) == Requests(g, q, a, b - 1)
  {
    hide Requests;
    assert [a, b][1..] == [b] && Incrementally(g, q, [b]) == [];
  }

  lemma {:induction false} IncrementalIsBlocks(g: Graph, q: seq<AllocationInfo>, cuts: seq<int>)
    requires SortedByNode(q) && |cuts| >= 2 && Increasing(cuts)
    requires AllHaveEntries(q, cuts[0], cuts[|cuts| - 1] - 1)
    ensures Incrementally(g, q, cuts) == Blocks(g, q, cuts[0], cuts[|cuts| - 1])
  {
    var a, b, rest := cuts[0], cuts[1], cuts[1..];
    RequestsAreBlocks(g, q, a, b - 1);
    if |cuts| == 2 {
      assert Incrementally(g, q, rest) == [];
    } else {
      var c := cuts[|cuts| - 1];
      assert rest[0] == b && rest[|rest| - 1] == c;
      IncrementalIsBlocks(g, q, rest);
      BlocksSplit(g, q, a, b, c);
    }
  }

  /** Planning in consecutive intervals requests exactly what planning in one go does. */
  lemma {:induction false} IncrementalEqualsOneShot(g: Graph, q: seq<AllocationInfo>, cuts: seq<int>)
    requires SortedByNode(q) && |cuts| >= 2 && Increasing(cuts)
    requires AllHaveEntries(q, cuts[0], cuts[|cuts| - 1] - 1)
    ensures Incrementally(g, q, cuts) == Requests(g, q, cuts[0], cuts[|cuts| - 1] - 1)
  {
    IncrementalIsBlocks(g, q, cuts);
    RequestsAreBlocks(g, q, cuts[0], cuts[|cuts| - 1] - 1);
  }

  // ---- Nodes without entries or temporaries ----

  /** The requests of the entries of nodes a to b. */
  ghost function OpsBetween(q: seq<AllocationInfo>, a: int, b: int): seq<Op> {
    if q == [] then []
    else (if a <= q[0].node <= b then [Op(q[0].tensor, q[0].kind)] else []) + OpsBetween(q[1..], a, b)
  }

  lemma {:induction false} NoneBetween(q: seq<AllocationInfo>, a: int, b: int)
    requires SortedByNode(q) && q != [] && b < q[0].node
    ensures OpsBetween(q, a, b) == []
  {
    if |q| > 1 {
      NoneBetween(q[1..], a, b);
    }
  }

  lemma {:induction false} OpsBetweenStep(q: seq<AllocationInfo>, a: int, b: int)
    requires SortedByNode(q) && a <= b
    ensures OpsBetween(q, a, b) == OpsOfNode(q, a) + OpsBetween(q, a + 1, b)
  {
    if q != [] {
      OpsBetweenStep(q[1..], a, b);
      if q[0].node > a {
        NoEarlierEntry(q, a);
        assert OpsOfNode(q[1..], a) == [];
      }
    }
  }

  /** Without temporaries, a block is just the entries of its node. */
  lemma {:induction false} BlocksWithoutTemporaries(g: Graph, q: seq<AllocationInfo>, a: int, b: int)
    requires SortedByNode(q) && forall n :: a <= n < b && IsNode(g, n) ==> g.nodes[n].temporaries == []
    ensures Blocks(g, q, a, b) == OpsBetween(q, a, b - 1)
    decreases b - a
  {
    if a < b {
      hide OpsBetween, OpsOfNode;
      BlocksWithoutTemporaries(g, q, a + 1, b);
      OpsBetweenStep(q, a, b - 1);
      BlockWithoutTemporaries(g, q, a);
    } else {
      NothingBetween(q, a, b - 1);
    }
  }

  lemma {:induction false} BlockWithoutTemporaries(g: Graph, q: seq<AllocationInfo>, n: int)
    requires IsNode(g, n) ==> g.nodes[n].temporaries == []
    ensures Block(g, q, n) == OpsOfNode(q, n)
  {
    hide OpsOfNode;
    assert Temporaries(g, n, Alloc) == [] && Temporaries(g, n, Dealloc) == [];
  }

  lemma {:induction false} NothingBetween(q: seq<AllocationInfo>, a: int, b: int)
    requires b < a
    ensures OpsBetween(q, a, b) == []
  {
    if q != [] {
      NothingBetween(q[1..], a, b);
    }
  }

  /** A call up to `last` does what a call up to s - 1 does, except that the later entries come before
      the last temporaries are released. */
  ghost predicate AcrossGap(g: Graph, q: seq<AllocationInfo>, first: int, last: int, active: int, s: int,
                            visits: seq<Op>) {
    && Calculate(g, q, first, s - 1, active) == visits + Temporaries(g, s - 1, Dealloc)
    && Calculate(g, q, first, last, active) == visits + OpsBetween(q, s, last) + Temporaries(g, s - 1, Dealloc)
  }

  /** So it is with an entry for every node before s and none for s. */
  lemma {:induction false} CalculateAcrossGap(g: Graph, q: seq<AllocationInfo>, first: int, last: int, active: int,
                                              s: int)
    returns (visits: seq<Op>)
    requires SortedByNode(q) && first <= active <= s <= last
    requires AllHaveEntries(q, active, s - 1) && !HasEntry(q, s)
    ensures AcrossGap(g, q, first, last, active, s, visits)
  {
    hide Calculate, OpsBetween, AcrossGap;
    if q != [] && q[0].node < s {
      var next := if first <= q[0].node && q[0].node == active then active + 1 else active;
      if q[0].node > active {
        NoEarlierEntry(q, active);
        assert false;
      }
      TailEntries(q, next, s - 1);
      var rest := CalculateAcrossGap(g, q[1..], first, last, next, s);
      visits := EntryAcrossGap(g, q, first, last, active, s, rest);
    } else {
      visits := [];
      EntriesReach(q, active, s);
      EntriesAfterGap(g, q, first, last, s);
    }
  }

  /** Once only later entries are left, the planner has reached the gap. */
  lemma {:induction false} EntriesReach(q: seq<AllocationInfo>, active: int, s: int)
    requires SortedByNode(q) && active <= s && AllHaveEntries(q, active, s - 1) && (q != [] ==> s <= q[0].node)
    ensures active == s
  {
    if q != [] && active < s {
      NoEarlierEntry(q, active);
    }
    assert active <= s - 1 ==> HasEntry(q, active);
  }

  lemma {:induction false} EntryAcrossGap(g: Graph, q: seq<AllocationInfo>, first: int, last: int, active: int,
                                          s: int, rest: seq<Op>)
    returns (visits: seq<Op>)
    requires q != [] && q[0].node < s <= last && first <= active
    requires AcrossGap(g, q[1..], first, last,
                       if first <= q[0].node && q[0].node == active then active + 1 else active, s, rest)
    ensures AcrossGap(g, q, first, last, active, s, visits)
  {
    hide EntryOps, Temporaries;
    assert OpsBetween(q, s, last) == OpsBetween(q[1..], s, last);
    if q[0].node < first {
      visits := rest;
    } else {
      visits := EntryOps(g, q[0], first, active) + rest;
      RegroupVisits(EntryOps(g, q[0], first, active), rest, OpsBetween(q[1..], s, last),
                    Temporaries(g, s - 1, Dealloc));
    }
  }

  lemma {:induction false} RegroupVisits<T>(a: seq<T>, b: seq<T>, c: seq<T>, d: seq<T>)
    ensures a + (b + d) == a + b + d && a + (b + c + d) == a + b + c + d
  {
  }

  lemma {:induction false} EntriesAfterGap(g: Graph, q: seq<AllocationInfo>, first: int, last: int, s: int)
    requires SortedByNode(q) && first <= s <= last && !HasEntry(q, s) && (q != [] ==> q[0].node >= s)
    ensures AcrossGap(g, q, first, last, s, s, [])
  {
    hide Temporaries, EntryOps, HasEntry, SortedByNode;
    assert Calculate(g, q, first, s - 1, s) == Temporaries(g, s - 1, Dealloc);
    hide Calculate, OpsBetween;
    OpsAfterGap(g, q, first, last, s);
  }

  lemma {:induction false} OpsAfterGap(g: Graph, q: seq<AllocationInfo>, first: int, last: int, s: int)
    requires SortedByNode(q) && first <= s <= last && !HasEntry(q, s) && (q != [] ==> q[0].node >= s)
    ensures Calculate(g, q, first, last, s) == OpsBetween(q, s, last) + Temporaries(g, s - 1, Dealloc)
  {
    if q != [] {
      if q[0].node > last {
        NoneBetween(q, s, last);
      } else {
        assert !HasEntry(q[1..], s) && q[0].node != s;
        OpsAfterGap(g, q[1..], first, last, s);
        OneOpAfterGap(g, q, first, last, s);
      }
    }
  }

  lemma {:induction false} OneOpAfterGap(g: Graph, q: seq<AllocationInfo>, first: int, last: int, s: int)
    requires q != [] && first <= s < q[0].node <= last
    requires Calculate(g, q[1..], first, last, s) == OpsBetween(q[1..], s, last) + Temporaries(g, s - 1, Dealloc)
    ensures Calculate(g, q, first, last, s) == OpsBetween(q, s, last) + Temporaries(g, s - 1, Dealloc)
  {
    var op, ops, free := [Op(q[0].tensor, q[0].kind)], OpsBetween(q[1..], s, last), Temporaries(g, s - 1, Dealloc);
    hide Temporaries, StartOps;
    assert EntryOps(g, q[0], first, s) == op;
    hide EntryOps;
    assert OpsBetween(q, s, last) == op + ops;
    assert Calculate(g, q, first, last, s) == op + (ops + free);
    hide Calculate, OpsBetween;
    ConcatAssociates(op, ops, free);
  }

  /** Every node with temporaries, and every node before it, has a queue entry. */
  ghost predicate TemporariesReached(g: Graph, q: seq<AllocationInfo>, first: int) {
    forall n :: IsNode(g, n) && first <= n && g.nodes[n].temporaries != [] ==> AllHaveEntries(q, first, n)
  }

  /** Then an interval requests node after node, but may release the last temporaries late. */
  lemma {:induction false} RequestsPostponed(g: Graph, q: seq<AllocationInfo>, last: int)
    returns (before: seq<Op>, free: seq<Op>, after: seq<Op>)
    requires SortedByNode(q) && 0 <= last && TemporariesReached(g, q, 0)
    ensures Requests(g, q, 0, last) == before + after + free && Blocks(g, q, 0, last + 1) == before + free + after
    ensures forall k :: 0 <= k < |free| ==> free[k].kind == Dealloc
  {
    var s := FirstGap(q, 0, last);
    if s > last {
      RequestsAreBlocks(g, q, 0, last);
      before, free, after := Requests(g, q, 0, last), [], [];
    } else {
      var visits := CalculateAcrossGap(g, q, 0, last, 0, s);
      before, free, after := visits, Temporaries(g, s - 1, Dealloc), OpsBetween(q, s, last);
      forall n | s <= n < last + 1 && IsNode(g, n) ensures g.nodes[n].temporaries == [] {
        assert g.nodes[n].temporaries != [] ==> HasEntry(q, s);
      }
      BlocksWithoutTemporaries(g, q, s, last + 1);
      BlocksSplit(g, q, 0, s, last + 1);
      BlocksUpTo(g, q, s);
    }
  }

  lemma {:induction false} BlocksUpTo(g: Graph, q: seq<AllocationInfo>, s: nat)
    requires SortedByNode(q) && AllHaveEntries(q, 0, s - 1) && (s == 0 ==> !HasEntry(q, 0))
    ensures Blocks(g, q, 0, s) == Calculate(g, q, 0, s - 1, 0)
  {
    if s > 0 {
      RequestsAreBlocks(g, q, 0, s - 1);
    } else {
      NothingUpTo(g, q);
    }
  }

  lemma {:induction false} NothingUpTo(g: Graph, q: seq<AllocationInfo>)
    ensures Calculate(g, q, 0, -1, 0) == []
  {
    if q != [] {
      NothingUpTo(g, q[1..]);
    }
  }

  lemma {:induction false} FirstGap(q: seq<AllocationInfo>, first: int, last: int) returns (s: int)
    requires first <= last + 1
    ensures first <= s <= last + 1 && AllHaveEntries(q, first, s - 1) && (s <= last ==> !HasEntry(q, s))
    decreases last - first
  {
    if first > last || !HasEntry(q, first) {
      s := first;
    } else {
      s := FirstGap(q, first + 1, last);
    }
  }

  // ---- Which temporaries are allocated ----

  lemma {:induction false} TemporaryOps(g: Graph, m: int, n: int, x: int)
    requires IsNode(g, n) && x in g.nodes[n].temporaries
    requires forall k :: IsNode(g, k) && x in g.nodes[k].temporaries ==> k == n
    ensures Op(x, Alloc) in Temporaries(g, m, Alloc) <==> m == n
    ensures Op(x, Alloc) !in Temporaries(g, m, Dealloc)
  {
    if IsNode(g, m) {
      OpsElements(g.nodes[m].temporaries, Alloc);
      OpsElements(g.nodes[m].temporaries, Dealloc);
    }
  }

  /** What one queue entry contributes. */
  lemma {:induction false} TemporaryStep(g: Graph, q: seq<AllocationInfo>, first: int, last: int, active: int,
                                         n: int, x: int)
    requires q != [] && first <= active && q[0].node <= last && q[0].tensor != x
    requires Op(x, Alloc) in Temporaries(g, active, Alloc) <==> active == n
    requires Op(x, Alloc) !in Temporaries(g, active - 1, Dealloc)
    ensures Op(x, Alloc) in Calculate(g, q, first, last, active) <==>
              if q[0].node == active then active == n || Op(x, Alloc) in Calculate(g, q[1..], first, last, active + 1)
              else Op(x, Alloc) in Calculate(g, q[1..], first, last, active)
  {
    hide Temporaries;
  }

  ghost predicate Reached(q: seq<AllocationInfo>, active: int, n: int) {
    active <= n && AllHaveEntries(q, active, n)
  }

  lemma {:induction false} ReachedStep(q: seq<AllocationInfo>, active: int, n: int)
    requires SortedByNode(q) && q != []
    ensures Reached(q, active, n) <==>
              if q[0].node == active then active == n || Reached(q[1..], active + 1, n)
              else Reached(q[1..], active, n)
  {
    if q[0].node < active {
      TailEntries(q, active, n);
    } else if q[0].node == active {
      assert HasEntry(q, active);
      TailEntries(q, active + 1, n);
    } else {
      NoEarlierEntry(q, active);
    }
  }

  lemma {:induction false} TemporaryReached(g: Graph, q: seq<AllocationInfo>, first: int, last: int, active: int,
                                            n: int, x: int)
    requires SortedByNode(q) && first <= active && first <= n <= last
    requires IsNode(g, n) && x in g.nodes[n].temporaries
    requires forall e :: e in q ==> e.tensor != x
    requires forall m :: IsNode(g, m) && x in g.nodes[m].temporaries ==> m == n
    ensures Op(x, Alloc) in Calculate(g, q, first, last, active) <==> Reached(q, active, n)
  {
    TemporaryOps(g, active - 1, n, x);
    TemporaryOps(g, active, n, x);
    hide Temporaries;
    if q == [] || q[0].node > last {
      if active <= n {
        if q != [] { NoEarlierEntry(q, active); }
        assert !HasEntry(q, active);
      }
    } else {
      assert q[0] in q;
      TemporaryStep(g, q, first, last, active, n, x);
      ReachedStep(q, active, n);
      hide Calculate, Reached;
      TemporaryReached(g, q[1..], first, last, if q[0].node == active then active + 1 else active, n, x);
    }
  }

  /** A call allocates the temporaries of node n exactly when no node of the interval up to n
      lacks a queue entry: at the first node without one the planner stops counting. */
  lemma {:induction false} TemporariesAllocatedIff(g: Graph, q: seq<AllocationInfo>, first: int, last: int, n: int,
                                                   x: int)
    requires SortedByNode(q) && first <= n <= last
    requires IsNode(g, n) && x in g.nodes[n].temporaries
    requires forall e :: e in q ==> e.tensor != x
    requires forall m :: IsNode(g, m) && x in g.nodes[m].temporaries ==> m == n
    ensures Op(x, Alloc) in Requests(g, q, first, last) <==> AllHaveEntries(q, first, n)
  {
    TemporaryReached(g, q, first, last, first, n, x);
  }

  /** A graph output read by a node without outputs: node 1 needs no allocation and releases nothing. */
  const STUCK := Graph(4, [Node([0], [1], []), Node([1], [], []), Node([1], [2], [3])], [0], [1, 2], [])

  lemma {:induction false} StuckEdges(n: int, t: int)
    ensures Produces(STUCK, n, t) <==> (n == 0 && t == 1) || (n == 2 && t == 2)
    ensures Reads(STUCK, n, t) <==> (n == 0 && t == 0) || (n == 1 && t == 1) || (n == 2 && t == 1)
  {
  }

  lemma {:induction false} StuckInRange()
    ensures PlannerRange(STUCK) && SingleProducer(STUCK)
  {
    forall n, t ensures Produces(STUCK, n, t) ==> (n == 0 && t == 1) || (n == 2 && t == 2)
                ensures Reads(STUCK, n, t) ==> t == 0 || t == 1
    {
      StuckEdges(n, t);
    }
  }

  lemma {:induction false} StuckQueue(e: AllocationInfo)
    requires e in Queue(STUCK, false, false, 3)
    ensures e.node != 1 && e.tensor != 3
  {
    StuckInRange();
    QueueElements(STUCK, false, false, 3);
    StuckEdges(e.node, e.tensor);
    StuckEdges(0, 1);
    StuckEdges(2, 1);
  }

  lemma {:induction false} StuckRequests(q: seq<AllocationInfo>)
    requires SortedByNode(q) && forall e :: e in q ==> e.node != 1 && e.tensor != 3
    ensures !HasEntry(q, 1) && Op(3, Alloc) !in Requests(STUCK, q, 0, 2)
  {
    EntryIsElement(q, 1);
    TemporariesAllocatedIff(STUCK, q, 0, 2, 2, 3);
  }

  /** So the temporary of node 2 of this well-formed graph is never allocated. */
  lemma {:induction false} TemporaryNeverAllocated()
    ensures PlannerRange(STUCK) && SingleProducer(STUCK) && 3 in STUCK.nodes[2].temporaries
    ensures var q := Queue(STUCK, false, false, 3); !HasEntry(q, 1) && Op(3, Alloc) !in Requests(STUCK, q, 0, 2)
  {
    StuckInRange();
    QueueOrdered(STUCK, false, false, 3);
    ghost var q := Queue(STUCK, false, false, 3);
    forall e | e in q ensures e.node != 1 && e.tensor != 3 {
      StuckQueue(e);
    }
    StuckRequests(q);
  }

  // ---- Which temporaries are released a second time ----

  lemma {:induction false} ReleasedByRest(g: Graph, q: seq<AllocationInfo>, first: int, last: int, active: int, x: int)
    requires SortedByNode(q) && first <= active && first <= last
    requires IsNode(g, first - 1) && x in g.nodes[first - 1].temporaries
    requires forall e :: e in q ==> e.tensor != x
    requires forall m :: IsNode(g, m) && x in g.nodes[m].temporaries ==> m == first - 1
    ensures Op(x, Dealloc) in Calculate(g, q, first, last, active) <==> active == first && !HasEntry(q, first)
  {
    ReleaseOps(g, active - 1, first - 1, x);
    ReleaseOps(g, active, first - 1, x);
    if q != [] {
      assert q[0] in q;
      if q[0].node > last {
        NoEarlierEntry(q, first);
      } else {
        ReleasedByRest(g, q[1..], first, last,
                       if first <= q[0].node && q[0].node == active then active + 1 else active, x);
      }
    }
  }

  lemma {:induction false} ReleaseOps(g: Graph, m: int, n: int, x: int)
    requires IsNode(g, n) && x in g.nodes[n].temporaries
    requires forall k :: IsNode(g, k) && x in g.nodes[k].temporaries ==> k == n
    ensures Op(x, Dealloc) in Temporaries(g, m, Dealloc) <==> m == n
    ensures Op(x, Dealloc) !in Temporaries(g, m, Alloc)
  {
    if IsNode(g, m) {
      OpsElements(g.nodes[m].temporaries, Alloc);
      OpsElements(g.nodes[m].temporaries, Dealloc);
    }
  }

  /** A later interval releases the temporaries of the node before it, which the earlier one
      released, exactly when its own first node has no queue entry. */
  lemma {:induction false} ReleasedAgainIff(g: Graph, q: seq<AllocationInfo>, first: int, last: int, x: int)
    requires SortedByNode(q) && first <= last
    requires IsNode(g, first - 1) && x in g.nodes[first - 1].temporaries
    requires forall e :: e in q ==> e.tensor != x
    requires forall m :: IsNode(g, m) && x in g.nodes[m].temporaries ==> m == first - 1
    ensures Op(x, Dealloc) in Requests(g, q, first, last) <==> !HasEntry(q, first)
  {
    ReleasedByRest(g, q, first, last, first, x);
  }

  /** Node 0 has a temporary; node 1 reads a graph output and needs no queue entry. */
  const AGAIN := Graph(4, [Node([0], [1], [3]), Node([1], [], [])], [0], [1], [])

  lemma {:induction false} AgainEdges(n: int, t: int)
    ensures Produces(AGAIN, n, t) <==> n == 0 && t == 1
    ensures Reads(AGAIN, n, t) <==> (n == 0 && t == 0) || (n == 1 && t == 1)
  {
  }

  lemma {:induction false} AgainQueue()
    ensures PlannerRange(AGAIN) && SingleProducer(AGAIN)
    ensures forall e :: e in Queue(AGAIN, false, false, 2) ==> e.node == 0
  {
    forall n, t ensures Produces(AGAIN, n, t) <==> n == 0 && t == 1
                ensures Reads(AGAIN, n, t) <==> (n == 0 && t == 0) || (n == 1 && t == 1)
    {
      AgainEdges(n, t);
    }
    QueueElements(AGAIN, false, false, 2);
    assert 1 in AGAIN.outputs && Pinned(AGAIN, false, 1);
  }

  lemma {:induction false} NothingInInterval(g: Graph, q: seq<AllocationInfo>, first: int, last: int, active: int)
    requires forall e :: e in q ==> e.node < first
    ensures Calculate(g, q, first, last, active) == Temporaries(g, active - 1, Dealloc)
  {
    if q != [] {
      assert q[0] in q;
      NothingInInterval(g, q[1..], first, last, active);
    }
  }

  /** On this graph, planning node 1 after node 0 requests nothing but that second release. */
  lemma {:induction false} TemporaryReleasedAgain()
    ensures PlannerRange(AGAIN) && SingleProducer(AGAIN)
    ensures Requests(AGAIN, Queue(AGAIN, false, false, 2), 1, 1) == [Op(3, Dealloc)]
  {
    AgainQueue();
    NothingInInterval(AGAIN, Queue(AGAIN, false, false, 2), 1, 1, 1);
    assert Temporaries(AGAIN, 0, Dealloc) == [Op(3, Dealloc)];
  }
}
