/** What partitioning a graph guarantees: which nodes are placed, that the subsets compute what
    the graph computes, and how close their number is to the least possible. */
module PartitionTheorems {
  import opened Collections
  import opened Graphs
  import opened Partitioner
  import opened Execution

  /** A set that contains every node whose inputs it can provide. */
  ghost predicate ClosedUnderReady(g: Graph, nodes: set<int>) {
    forall n :: IsNode(g, n) && Ready(g, n, nodes) ==> n in nodes
  }

  lemma {:induction false} ReadyMonotone(g: Graph, n: int, a: set<int>, b: set<int>)
    requires Ready(g, n, a) && a <= b
    ensures Ready(g, n, b)
  {
  }

  lemma {:induction false} OrderWithin(g: Graph, order: seq<int>, nodes: set<int>)
    requires DependencyOrder(g, order) && ClosedUnderReady(g, nodes)
    ensures Elements(order) <= nodes
  {
    if order != [] {
      var last := |order| - 1;
      PrefixOfOrder(g, order, last);
      OrderWithin(g, order[..last], nodes);
      ReadyMonotone(g, order[last], Elements(order[..last]), nodes);
      assert order == order[..last] + [order[last]];
    }
  }

  /** The placed nodes are the least closed set, cyclic graph or not. */
  lemma {:induction false} PlacedIsLeast(g: Graph, types: seq<SubsetType>, subsets: seq<NodeSubset>)
    requires SaturatedPartition(g, types, subsets)
    ensures ClosedUnderReady(g, Elements(Order(subsets)))
    ensures forall nodes :: ClosedUnderReady(g, nodes) ==> Elements(Order(subsets)) <= nodes
  {
    assert subsets[..|subsets|] == subsets;
    forall nodes | ClosedUnderReady(g, nodes) ensures Elements(Order(subsets)) <= nodes {
      OrderWithin(g, Order(subsets), nodes);
    }
  }

  lemma {:induction false} RankedIsPlaced(g: Graph, rank: seq<nat>, nodes: set<int>, n: int)
    requires Ranks(g, rank) && ClosedUnderReady(g, nodes) && IsNode(g, n)
    ensures n in nodes
    decreases rank[n]
  {
    forall p, t | Reads(g, n, t) && Produces(g, p, t) ensures p in nodes {
      RankedIsPlaced(g, rank, nodes, p);
    }
  }

  ghost predicate AllPlaced(g: Graph, subsets: seq<NodeSubset>) {
    forall n :: IsNode(g, n) ==> n in Order(subsets)
  }

  ghost function Position(order: seq<int>, n: int): (i: nat)
    requires n in order
    ensures i < |order| && order[i] == n
  {
    var i :| 0 <= i < |order| && order[i] == n; i
  }

  /** Every node is placed exactly when the graph is acyclic. */
  lemma {:induction false} CompleteIffAcyclic(g: Graph, types: seq<SubsetType>, subsets: seq<NodeSubset>)
    requires SaturatedPartition(g, types, subsets)
    ensures AllPlaced(g, subsets) <==> Acyclic(g)
  {
    PlacedIsLeast(g, types, subsets);
    var order := Order(subsets);
    if Acyclic(g) {
      var rank :| Ranks(g, rank);
      forall n | IsNode(g, n) ensures n in order {
        RankedIsPlaced(g, rank, Elements(order), n);
      }
    }
    if AllPlaced(g, subsets) {
      var rank := seq(|g.nodes|, n requires 0 <= n < |g.nodes| => assert IsNode(g, n); Position(order, n));
      forall m, n, t | Produces(g, m, t) && Reads(g, n, t) ensures rank[m] < rank[n] {
        assert m in Elements(order[..rank[n]]);
        var j :| 0 <= j < rank[n] && order[j] == m;
      }
      assert Ranks(g, rank);
    }
  }

  /** On an acyclic graph no model output has an epoch outside the subset list. */
  lemma {:induction false} AcyclicInBounds(g: Graph, types: seq<SubsetType>, subsets: seq<NodeSubset>)
    requires SaturatedPartition(g, types, subsets) && Acyclic(g)
    ensures OutputsPlaced(g, subsets)
  {
    CompleteIffAcyclic(g, types, subsets);
  }

  // ---- Cyclic graphs ----

  ghost predicate DependsDirectly(g: Graph, n: int, m: int) {
    exists t :: Reads(g, n, t) && Produces(g, m, t)
  }

  ghost predicate DependencyPath(g: Graph, path: seq<int>) {
    && path != [] && (forall i :: 0 <= i < |path| ==> IsNode(g, path[i]))
    && (forall i :: 0 <= i < |path| - 1 ==> DependsDirectly(g, path[i], path[i + 1]))
  }

  /** Following the producers of its inputs, n leads into a cycle. */
  ghost predicate DependsOnCycle(g: Graph, n: int) {
    exists path :: DependencyPath(g, path) && path[0] == n && !NoDuplicates(path)
  }

  /** In a dependency order, a path of dependencies goes backwards. */
  lemma {:induction false} PathDescends(g: Graph, order: seq<int>, path: seq<int>, i: nat)
    requires DependencyOrder(g, order) && DependencyPath(g, path) && path[0] in order && i < |path|
    ensures forall j :: 0 <= j <= i ==> path[j] in order
    ensures forall j :: 0 <= j < i ==> Position(order, path[i]) < Position(order, path[j])
  {
    if i > 0 {
      PathDescends(g, order, path, i - 1);
      assert DependsDirectly(g, path[i - 1], path[i]);
      ProducerIsEarlier(g, order, path[i - 1], path[i]);
    }
  }

  lemma {:induction false} ProducerIsEarlier(g: Graph, order: seq<int>, n: int, m: int)
    requires DependencyOrder(g, order) && n in order && DependsDirectly(g, n, m)
    ensures m in order && Position(order, m) < Position(order, n)
  {
    var p := Position(order, n);
    var t :| Reads(g, n, t) && Produces(g, m, t);
    assert m in Elements(order[..p]);
    var j :| 0 <= j < p && order[j] == m;
  }

  /** A node outside a closed set waits for another one, which does as well, and so on. */
  lemma {:induction false} WaitingPath(g: Graph, nodes: set<int>, n: int, steps: nat) returns (path: seq<int>)
    requires ClosedUnderReady(g, nodes) && IsNode(g, n) && n !in nodes
    ensures DependencyPath(g, path) && path[0] == n && |path| == steps + 1
    decreases steps
  {
    hide ClosedUnderReady, DependsDirectly;
    if steps == 0 {
      path := [n];
    } else {
      var m := WaitsFor(g, nodes, n);
      var rest := WaitingPath(g, nodes, m, steps - 1);
      PrependToPath(g, n, rest);
      path := [n] + rest;
    }
  }

  lemma {:induction false} WaitsFor(g: Graph, nodes: set<int>, n: int) returns (m: int)
    requires ClosedUnderReady(g, nodes) && IsNode(g, n) && n !in nodes
    ensures IsNode(g, m) && m !in nodes && DependsDirectly(g, n, m)
  {
    assert !Ready(g, n, nodes);
    var p, t :| Reads(g, n, t) && Produces(g, p, t) && p !in nodes;
    m := p;
  }

  lemma {:induction false} PrependToPath(g: Graph, n: int, rest: seq<int>)
    requires DependencyPath(g, rest) && IsNode(g, n) && DependsDirectly(g, n, rest[0])
    ensures DependencyPath(g, [n] + rest)
  {
    hide DependsDirectly;
    var path := [n] + rest;
    forall i | 0 <= i < |path| - 1 ensures DependsDirectly(g, path[i], path[i + 1]) {
      assert i > 0 ==> path[i] == rest[i - 1] && path[i + 1] == rest[i - 1 + 1];
    }
  }

  /** More nodes than the graph has cannot all be different. */
  lemma {:induction false} LongPathRepeats(g: Graph, path: seq<int>)
    requires DependencyPath(g, path) && |path| > |g.nodes|
    ensures !NoDuplicates(path)
  {
    if NoDuplicates(path) {
      DistinctCardinality(path);
      assert Elements(path) <= Below(|g.nodes|);
      SubsetCardinality(Elements(path), Below(|g.nodes|));
    }
  }

  lemma {:induction false} DistinctCardinality(s: seq<int>)
    requires NoDuplicates(s)
    ensures |Elements(s)| == |s|
  {
    if s != [] {
      var last := |s| - 1;
      DistinctCardinality(s[..last]);
      assert s == s[..last] + [s[last]];
      assert Elements(s) == Elements(s[..last]) + {s[last]};
    }
  }

  ghost function Below(n: nat): (s: set<int>)
    ensures |s| == n && forall i :: i in s <==> 0 <= i < n
  {
    if n == 0 then {} else Below(n - 1) + {n - 1}
  }

  /** Exactly the nodes that depend on no cycle are placed. */
  lemma {:induction false} PlacedIffNoCycle(g: Graph, types: seq<SubsetType>, subsets: seq<NodeSubset>, n: int)
    requires SaturatedPartition(g, types, subsets) && IsNode(g, n)
    ensures n in Order(subsets) <==> !DependsOnCycle(g, n)
  {
    var order := Order(subsets);
    if n in order {
      forall path | DependencyPath(g, path) && path[0] == n ensures NoDuplicates(path) {
        forall i, j | 0 <= i < j < |path| ensures path[i] != path[j] {
          PathDescends(g, order, path, j);
        }
      }
    } else {
      PlacedIsLeast(g, types, subsets);
      var path := WaitingPath(g, Elements(order), n, |g.nodes|);
      LongPathRepeats(g, path);
    }
  }

  /** No producer of a model output depends on a cycle: what a caller can check before partitioning. */
  ghost predicate OutputsOffCycles(g: Graph) {
    forall n, t :: t in g.outputs && Produces(g, n, t) ==> !DependsOnCycle(g, n)
  }

  /** Exactly then all epochs of model outputs are indices of subsets. */
  lemma {:induction false} InBoundsIff(g: Graph, types: seq<SubsetType>, subsets: seq<NodeSubset>)
    requires SaturatedPartition(g, types, subsets)
    ensures OutputsPlaced(g, subsets) <==> OutputsOffCycles(g)
  {
    forall n | IsNode(g, n) ensures n in Order(subsets) <==> !DependsOnCycle(g, n) {
      PlacedIffNoCycle(g, types, subsets, n);
    }
    forall t | t in g.outputs && OutputsOffCycles(g) ensures OutputPlaced(g, subsets, t) {
    }
    forall n, t | t in g.outputs && Produces(g, n, t) && OutputsPlaced(g, subsets) ensures !DependsOnCycle(g, n) {
      assert OutputPlaced(g, subsets, t);
    }
  }

  /** A node that reads its own output, which is the model's output. */
  const CYCLE := Graph(1, [Node([0], [0], [])], [], [0], [])

  /** However the nodes are typed, the output of this graph has no subset. */
  lemma {:induction false} CycleIsOutOfBounds(types: seq<SubsetType>, subsets: seq<NodeSubset>)
    requires SaturatedPartition(CYCLE, types, subsets)
    ensures InRange(CYCLE) && SingleProducer(CYCLE)
    ensures !OutputsPlaced(CYCLE, subsets)
  {
    CycleEdges();
    CycleDepends();
    assert 0 in CYCLE.outputs && Produces(CYCLE, 0, 0);
    hide SaturatedPartition, DependsOnCycle, OutputsPlaced, Reads, Produces;
    assert !OutputsOffCycles(CYCLE);
    InBoundsIff(CYCLE, types, subsets);
  }

  lemma {:induction false} CycleEdges()
    ensures forall n, t :: Reads(CYCLE, n, t) <==> n == 0 && t == 0
    ensures forall n, t :: Produces(CYCLE, n, t) <==> n == 0 && t == 0
  {
  }

  lemma {:induction false} CycleDepends()
    ensures DependsOnCycle(CYCLE, 0)
  {
    CycleEdges();
    assert Reads(CYCLE, 0, 0) && Produces(CYCLE, 0, 0);
    assert DependsDirectly(CYCLE, 0, 0);
    hide Reads, Produces, DependsDirectly;
    var path := [0, 0];
    assert DependencyPath(CYCLE, path) && path[0] == path[1];
  }

  // ---- The number of subsets ----

  lemma {:induction false} PrefixStep(subsets: seq<NodeSubset>, k: nat)
    requires k < |subsets|
    ensures Order(subsets[..k + 1]) == Order(subsets[..k]) + subsets[k].nodes
    ensures Prefix(subsets, k) <= Prefix(subsets, k + 1)
  {
    assert subsets[..k + 1][..k] == subsets[..k];
  }

  lemma {:induction false} OrderStartsWith(subsets: seq<NodeSubset>, k: nat)
    requires k <= |subsets|
    ensures |Order(subsets[..k])| <= |Order(subsets)|
    ensures Order(subsets)[..|Order(subsets[..k])|] == Order(subsets[..k])
    decreases |subsets| - k
  {
    if k == |subsets| {
      assert subsets[..k] == subsets;
    } else {
      PrefixStep(subsets, k);
      OrderStartsWith(subsets, k + 1);
    }
  }

  /** Where the nodes of subset k stand in the order. */
  lemma {:induction false} NodeInOrder(subsets: seq<NodeSubset>, k: nat, i: nat)
    requires k < |subsets| && i < |subsets[k].nodes|
    ensures var at := |Order(subsets[..k])| + i;
      && at < |Order(subsets)| && Order(subsets)[at] == subsets[k].nodes[i]
      && Order(subsets)[..at] == Order(subsets[..k]) + subsets[k].nodes[..i]
  {
    PrefixStep(subsets, k);
    OrderStartsWith(subsets, k + 1);
    var at := |Order(subsets[..k])| + i;
    assert Order(subsets)[..at] == Order(subsets[..k + 1])[..at];
    assert Order(subsets)[at] == Order(subsets)[..|Order(subsets[..k + 1])|][at];
  }

  /** A node of subset k waits for nothing but the earlier subsets and the nodes before it. */
  lemma {:induction false} NodeReady(g: Graph, subsets: seq<NodeSubset>, k: nat, i: nat)
    requires DependencyOrder(g, Order(subsets)) && k < |subsets| && i < |subsets[k].nodes|
    ensures var n, done := subsets[k].nodes[i], Prefix(subsets, k) + Elements(subsets[k].nodes[..i]);
      IsNode(g, n) && n in Order(subsets) && n !in done && Ready(g, n, done)
  {
    NodeInOrder(subsets, k, i);
    var at := |Order(subsets[..k])| + i;
    var order := Order(subsets);
    assert Ready(g, order[at], Elements(order[..at]));
    assert order[at] !in order[..at];
    assert Elements(order[..at]) == Prefix(subsets, k) + Elements(subsets[k].nodes[..i]);
  }

  /** The first node of subset k was ready when the subset was opened. */
  lemma {:induction false} FirstOfSubset(g: Graph, subsets: seq<NodeSubset>, k: nat)
    requires DependencyOrder(g, Order(subsets)) && k < |subsets| && subsets[k].nodes != []
    ensures var n := subsets[k].nodes[0]; IsNode(g, n) && n !in Prefix(subsets, k) && Ready(g, n, Prefix(subsets, k))
  {
    NodeReady(g, subsets, k, 0);
    assert Prefix(subsets, k) + Elements(subsets[k].nodes[..0]) == Prefix(subsets, k);
  }

  /** The first node of a subset could not join the subset before, so its type is new. */
  lemma {:induction false} AdjacentTypesDiffer(g: Graph, types: seq<SubsetType>, subsets: seq<NodeSubset>, k: nat)
    requires SaturatedPartition(g, types, subsets) && k + 1 < |subsets|
    ensures subsets[k].typ != subsets[k + 1].typ
  {
    FirstOfSubset(g, subsets, k + 1);
    var n := subsets[k + 1].nodes[0];
    assert n in subsets[k + 1].nodes && Homogeneous(types, subsets[k + 1]);
    assert Saturated(g, types, subsets, k);
  }

  /** Any way to cut a dependency order of nodes into subsets of one type each. */
  ghost predicate Candidate(g: Graph, types: seq<SubsetType>, other: seq<NodeSubset>) {
    && DependencyOrder(g, Order(other))
    && (forall k :: 0 <= k < |other| ==> Homogeneous(types, other[k]))
  }

  lemma {:induction false} SaturatedTakes(g: Graph, types: seq<SubsetType>, subsets: seq<NodeSubset>, k: nat, n: int)
    requires k < |subsets| && |types| == |g.nodes| && Saturated(g, types, subsets, k)
    requires IsNode(g, n) && types[n] == subsets[k].typ && Ready(g, n, Prefix(subsets, k + 1))
    ensures n in Prefix(subsets, k + 1)
  {
  }

  lemma {:induction false} AbsorbNode(g: Graph, types: seq<SubsetType>, subsets: seq<NodeSubset>, m: nat,
                                      other: seq<NodeSubset>, k: nat, i: nat)
    requires SaturatedPartition(g, types, subsets) && Candidate(g, types, other)
    requires 1 <= m <= |subsets| && k < |other| && i < |other[k].nodes|
    requires other[k].typ == subsets[m - 1].typ
    requires Prefix(other, k) + Elements(other[k].nodes[..i]) <= Prefix(subsets, m)
    ensures other[k].nodes[i] in Prefix(subsets, m)
  {
    hide Prefix, Ready, DependencyOrder, Order, Saturated, Elements;
    var n := other[k].nodes[i];
    NodeReady(g, other, k, i);
    ReadyMonotone(g, n, Prefix(other, k) + Elements(other[k].nodes[..i]), Prefix(subsets, m));
    assert n in other[k].nodes && Homogeneous(types, other[k]);
    SaturatedTakes(g, types, subsets, m - 1, n);
  }

  lemma {:induction false} AbsorbNodes(g: Graph, types: seq<SubsetType>, subsets: seq<NodeSubset>, m: nat,
                                       other: seq<NodeSubset>, k: nat, i: nat)
    requires SaturatedPartition(g, types, subsets) && Candidate(g, types, other)
    requires 1 <= m <= |subsets| && k < |other| && i <= |other[k].nodes|
    requires other[k].typ == subsets[m - 1].typ && Prefix(other, k) <= Prefix(subsets, m)
    ensures Elements(other[k].nodes[..i]) <= Prefix(subsets, m)
  {
    hide Prefix, SaturatedPartition, Candidate;
    if i > 0 {
      AbsorbNodes(g, types, subsets, m, other, k, i - 1);
      AbsorbNode(g, types, subsets, m, other, k, i - 1);
      assert other[k].nodes[..i] == other[k].nodes[..i - 1] + [other[k].nodes[i - 1]];
    }
  }

  /** A saturated subset absorbs any later subset of its type whose dependencies it covers. */
  lemma {:induction false} Absorb(g: Graph, types: seq<SubsetType>, subsets: seq<NodeSubset>, m: nat,
                                  other: seq<NodeSubset>, k: nat)
    requires SaturatedPartition(g, types, subsets) && Candidate(g, types, other)
    requires 1 <= m <= |subsets| && k < |other|
    requires other[k].typ == subsets[m - 1].typ && Prefix(other, k) <= Prefix(subsets, m)
    ensures Prefix(other, k + 1) <= Prefix(subsets, m)
  {
    PrefixStep(other, k);
    AbsorbNodes(g, types, subsets, m, other, k, |other[k].nodes|);
    assert other[k].nodes[..|other[k].nodes|] == other[k].nodes;
  }

  ghost predicate TwoTypes(types: seq<SubsetType>) {
    forall n :: 0 <= n < |types| ==> types[n] != Unexplored
  }

  lemma {:induction false} TypeOfSubset(types: seq<SubsetType>, s: NodeSubset)
    requires TwoTypes(types) && Homogeneous(types, s) && s.nodes != []
    ensures s.typ != Unexplored
  {
    var n := s.nodes[0];
    assert n in s.nodes && types[n] == s.typ;
  }

  /** One more subset on each side keeps the containment. */
  lemma {:induction false} ContainsNext(g: Graph, types: seq<SubsetType>, subsets: seq<NodeSubset>, m: nat,
                                        other: seq<NodeSubset>, k: nat)
    requires SaturatedPartition(g, types, subsets) && TwoTypes(types) && Candidate(g, types, other)
    requires m < |subsets| && k < |other| && Prefix(other, k) <= Prefix(subsets, m)
    requires m == 0 ==> other[k].typ == subsets[m].typ
    ensures Prefix(other, k + 1) <= Prefix(subsets, m + 1)
  {
    PrefixStep(subsets, m);
    if other[k].nodes == [] {
      PrefixStep(other, k);
    } else if other[k].typ == subsets[m].typ {
      Absorb(g, types, subsets, m + 1, other, k);
    } else {
      TypeOfSubset(types, other[k]);
      TypeOfSubset(types, subsets[m]);
      TypeOfSubset(types, subsets[m - 1]);
      AdjacentTypesDiffer(g, types, subsets, m - 1);
      Absorb(g, types, subsets, m, other, k);
    }
  }

  /** The first k + lead greedy subsets contain the first k subsets of any candidate; lead is 0
      when both start with the same type and 1 otherwise. */
  lemma {:induction false} GreedyContains(g: Graph, types: seq<SubsetType>, subsets: seq<NodeSubset>,
                                          other: seq<NodeSubset>, k: nat, lead: nat)
    requires SaturatedPartition(g, types, subsets) && TwoTypes(types) && Candidate(g, types, other)
    requires k <= |other| && k + lead <= |subsets| && lead <= 1
    requires lead == 0 && other != [] && subsets != [] ==> other[0].typ == subsets[0].typ
    ensures Prefix(other, k) <= Prefix(subsets, k + lead)
  {
    if k > 0 {
      GreedyContains(g, types, subsets, other, k - 1, lead);
      ContainsNext(g, types, subsets, k + lead - 1, other, k - 1);
    }
  }

  /** No candidate that places the same nodes needs fewer subsets, except that one that starts
      with the other type may need one fewer. */
  lemma {:induction false} GreedyIsShort(g: Graph, types: seq<SubsetType>, subsets: seq<NodeSubset>,
                                         other: seq<NodeSubset>)
    requires SaturatedPartition(g, types, subsets) && TwoTypes(types) && Candidate(g, types, other)
    requires Elements(Order(subsets)) <= Elements(Order(other))
    ensures |subsets| <= |other| + 1
    ensures other != [] && subsets != [] && other[0].typ == subsets[0].typ ==> |subsets| <= |other|
  {
    if subsets != [] {
      var lead := if other != [] && other[0].typ == subsets[0].typ then 0 else 1;
      var last := |subsets| - 1;
      assert other[..|other|] == other;
      if |other| + lead <= last {
        GreedyContains(g, types, subsets, other, |other|, lead);
        LaterNotInPrefix(g, subsets, |other| + lead);
        assert false;
      }
    }
  }

  lemma {:induction false} LaterNotInPrefix(g: Graph, subsets: seq<NodeSubset>, k: nat)
    requires DependencyOrder(g, Order(subsets)) && k < |subsets|
    requires forall j :: 0 <= j < |subsets| ==> subsets[j].nodes != []
    ensures exists n :: n in Order(subsets) && n !in Prefix(subsets, k)
  {
    NodeReady(g, subsets, k, 0);
    var n := subsets[k].nodes[0];
    assert n in Order(subsets) && n !in Prefix(subsets, k);
  }

  lemma {:induction false} SamePlaced(g: Graph, types: seq<SubsetType>, a: seq<NodeSubset>, b: seq<NodeSubset>)
    requires SaturatedPartition(g, types, a) && SaturatedPartition(g, types, b)
    ensures Elements(Order(a)) == Elements(Order(b))
  {
    PlacedIsLeast(g, types, a);
    PlacedIsLeast(g, types, b);
  }

  /** Two greedy partitions open their next subset with the same node. */
  lemma {:induction false} SameFirst(g: Graph, types: seq<SubsetType>, a: seq<NodeSubset>, b: seq<NodeSubset>, k: nat)
    requires GreedyPartition(g, types, a) && GreedyPartition(g, types, b) && k < |a| && k < |b|
    requires Prefix(a, k) == Prefix(b, k)
    ensures a[k].nodes[0] == b[k].nodes[0] && a[k].typ == b[k].typ
  {
    hide Prefix, Ready, DependencyOrder, Saturated;
    FirstOfSubset(g, a, k);
    FirstOfSubset(g, b, k);
    var m, n := a[k].nodes[0], b[k].nodes[0];
    assert OpenedByFirst(g, a, k) && OpenedByFirst(g, b, k);
    assert m == n;
    assert m in a[k].nodes && n in b[k].nodes && Homogeneous(types, a[k]) && Homogeneous(types, b[k]);
  }

  lemma {:induction false} NextContained(g: Graph, types: seq<SubsetType>, a: seq<NodeSubset>, b: seq<NodeSubset>,
                                         k: nat)
    requires SaturatedPartition(g, types, a) && Candidate(g, types, b) && k < |a| && k < |b|
    requires Prefix(a, k) == Prefix(b, k) && a[k].typ == b[k].typ
    ensures Prefix(b, k + 1) <= Prefix(a, k + 1)
  {
    hide Prefix, SaturatedPartition, Candidate;
    PrefixStep(a, k);
    Absorb(g, types, a, k + 1, b, k);
  }

  lemma {:induction false} GreedyIsCandidate(g: Graph, types: seq<SubsetType>, a: seq<NodeSubset>)
    requires GreedyPartition(g, types, a)
    ensures SaturatedPartition(g, types, a) && Candidate(g, types, a)
  {
    hide Prefix, Order, Saturated, OpenedByFirst, DependencyOrder, Ready, Homogeneous;
  }

  lemma {:induction false} SamePrefix(g: Graph, types: seq<SubsetType>, a: seq<NodeSubset>, b: seq<NodeSubset>, k: nat)
    requires GreedyPartition(g, types, a) && GreedyPartition(g, types, b) && k <= |a| && k <= |b|
    ensures Prefix(a, k) == Prefix(b, k)
    ensures forall i :: 0 <= i < k ==> a[i].typ == b[i].typ
  {
    if k == 0 {
      assert a[..0] == b[..0];
    } else {
      hide *;
      GreedyIsCandidate(g, types, a);
      GreedyIsCandidate(g, types, b);
      SamePrefix(g, types, a, b, k - 1);
      SameFirst(g, types, a, b, k - 1);
      NextContained(g, types, a, b, k - 1);
      NextContained(g, types, b, a, k - 1);
    }
  }

  lemma {:induction false} NotLonger(g: Graph, types: seq<SubsetType>, a: seq<NodeSubset>, b: seq<NodeSubset>)
    requires GreedyPartition(g, types, a) && GreedyPartition(g, types, b)
    ensures |b| <= |a|
  {
    if |a| < |b| {
      SamePrefix(g, types, a, b, |a|);
      FirstOfSubset(g, b, |a|);
    }
  }

  /** Counting up from m and starting over, of two nodes that both can join one comes first. */
  lemma {:induction false} SameNext(g: Graph, types: seq<SubsetType>, typ: SubsetType, done: set<int>, m: int,
                                    a: int, b: int)
    requires |types| == |g.nodes| && m in done
    requires CanJoin(g, types, typ, done, a) && CanJoin(g, types, typ, done, b)
    requires !Skipped(m, a, b) && !Skipped(m, b, a)
    ensures a == b
  {
    hide Ready;
  }

  lemma {:induction false} NodeCanJoin(g: Graph, types: seq<SubsetType>, a: seq<NodeSubset>, k: nat, i: nat)
    requires GreedyPartition(g, types, a) && k < |a| && i < |a[k].nodes|
    ensures CanJoin(g, types, a[k].typ, Prefix(a, k) + Elements(a[k].nodes[..i]), a[k].nodes[i])
  {
    hide Prefix, Ready, DependencyOrder, Saturated, Swept, OpenedByFirst, Order;
    NodeReady(g, a, k, i);
    assert a[k].nodes[i] in a[k].nodes && Homogeneous(types, a[k]);
  }

  lemma {:induction false} NotSkipped(g: Graph, types: seq<SubsetType>, a: seq<NodeSubset>, k: nat, i: nat, x: int)
    requires GreedyPartition(g, types, a) && k < |a| && 0 < i < |a[k].nodes|
    requires CanJoin(g, types, a[k].typ, Prefix(a, k) + Elements(a[k].nodes[..i]), x)
    ensures !Skipped(a[k].nodes[i - 1], x, a[k].nodes[i])
  {
    assert Swept(g, types, a, k);
    hide GreedyPartition, CanJoin, Prefix;
  }

  /** Two greedy partitions that agree so far agree on the next node. */
  lemma {:induction false} SameNextNode(g: Graph, types: seq<SubsetType>, a: seq<NodeSubset>, b: seq<NodeSubset>,
                                        k: nat, i: nat)
    requires GreedyPartition(g, types, a) && GreedyPartition(g, types, b) && k < |a| && k < |b|
    requires Prefix(a, k) == Prefix(b, k) && a[k].typ == b[k].typ && 0 < i < |a[k].nodes| && i < |b[k].nodes|
    requires a[k].nodes[..i] == b[k].nodes[..i]
    ensures a[k].nodes[i] == b[k].nodes[i]
  {
    assert |types| == |g.nodes|;
    hide GreedyPartition, CanJoin, Prefix, Skipped;
    var x, y := a[k].nodes, b[k].nodes;
    NodeCanJoin(g, types, a, k, i);
    NodeCanJoin(g, types, b, k, i);
    NotSkipped(g, types, a, k, i, y[i]);
    NotSkipped(g, types, b, k, i, x[i]);
    assert x[..i][i - 1] == x[i - 1] && y[..i][i - 1] == y[i - 1];
    SameNext(g, types, a[k].typ, Prefix(a, k) + Elements(x[..i]), x[i - 1], x[i], y[i]);
  }

  lemma {:induction false} SameNodeLists(g: Graph, types: seq<SubsetType>, a: seq<NodeSubset>, b: seq<NodeSubset>,
                                         k: nat, i: nat)
    requires GreedyPartition(g, types, a) && GreedyPartition(g, types, b) && k < |a| && k < |b|
    requires Prefix(a, k) == Prefix(b, k) && i <= |a[k].nodes| && i <= |b[k].nodes|
    ensures a[k].nodes[..i] == b[k].nodes[..i]
  {
    hide *;
    if i > 0 {
      SameNodeLists(g, types, a, b, k, i - 1);
      SameFirst(g, types, a, b, k);
      if i > 1 {
        SameNextNode(g, types, a, b, k, i - 1);
      }
      var x, y := a[k].nodes, b[k].nodes;
      assert x[..i] == x[..i - 1] + [x[i - 1]] && y[..i] == y[..i - 1] + [y[i - 1]];
    }
  }

  /** A saturated subset is not a proper beginning of another one. */
  lemma {:induction false} NodesNotMore(g: Graph, types: seq<SubsetType>, a: seq<NodeSubset>, b: seq<NodeSubset>,
                                        k: nat)
    requires GreedyPartition(g, types, a) && GreedyPartition(g, types, b) && k < |a| && k < |b|
    requires Prefix(a, k) == Prefix(b, k) && a[k].typ == b[k].typ
    requires |a[k].nodes| <= |b[k].nodes| && b[k].nodes[..|a[k].nodes|] == a[k].nodes
    ensures |a[k].nodes| == |b[k].nodes|
  {
    PrefixStep(a, k);
    assert Saturated(g, types, a, k);
    hide Prefix, GreedyPartition;
    if |a[k].nodes| < |b[k].nodes| {
      NodeCanJoin(g, types, b, k, |a[k].nodes|);
    }
  }

  /** The graph and the types determine the subsets: their number, their types, and their nodes in order. */
  lemma {:induction false} GreedyIsDetermined(g: Graph, types: seq<SubsetType>, a: seq<NodeSubset>, b: seq<NodeSubset>)
    requires GreedyPartition(g, types, a) && GreedyPartition(g, types, b)
    ensures |a| == |b|
    ensures forall k :: 0 <= k < |a| ==> a[k].typ == b[k].typ && a[k].nodes == b[k].nodes
  {
    NotLonger(g, types, a, b);
    NotLonger(g, types, b, a);
    hide *;
    forall k | 0 <= k < |a| ensures a[k].typ == b[k].typ && a[k].nodes == b[k].nodes {
      SamePrefix(g, types, a, b, k);
      SamePrefix(g, types, a, b, k + 1);
      var x, y := a[k].nodes, b[k].nodes;
      assert x[..|x|] == x && y[..|y|] == y;
      if |x| <= |y| {
        SameNodeLists(g, types, a, b, k, |x|);
        NodesNotMore(g, types, a, b, k);
      } else {
        SameNodeLists(g, types, a, b, k, |y|);
        NodesNotMore(g, types, b, a, k);
      }
    }
  }

  /** A node of type P, and another chain of types N -> P: starting with P costs a third subset. */
  const EXAMPLE := Graph(3, [Node([], [0], []), Node([], [1], []), Node([1], [2], [])], [], [2], [])
  const EXAMPLE_TYPES := [SubsetType.Partition, NonPartition, SubsetType.Partition]
  const EXAMPLE_GREEDY := [NodeSubset(SubsetType.Partition, [0], [], []), NodeSubset(NonPartition, [1], [], []),
                           NodeSubset(SubsetType.Partition, [2], [], [])]
  const EXAMPLE_OTHER := [NodeSubset(NonPartition, [1], [], []), NodeSubset(SubsetType.Partition, [0, 2], [], [])]

  lemma {:induction false} ExampleReady(n: int, done: set<int>)
    ensures Ready(EXAMPLE, n, done) <==> (n == 2 ==> 1 in done)
  {
    assert Produces(EXAMPLE, 1, 1) && Reads(EXAMPLE, 2, 1);
    assert forall m, t :: Reads(EXAMPLE, m, t) ==> m == 2 && t == 1;
    assert forall m :: Produces(EXAMPLE, m, 1) ==> m == 1;
  }

  lemma {:induction false} ExampleOrder(order: seq<int>)
    requires order == [0, 1, 2] || order == [1, 0, 2]
    ensures DependencyOrder(EXAMPLE, order)
  {
    forall i | 0 <= i < 3 ensures Ready(EXAMPLE, order[i], Elements(order[..i])) {
      ExampleReady(order[i], Elements(order[..i]));
      assert order[..2][0] == 1 || order[..2][1] == 1;
    }
  }

  lemma {:induction false} ExamplePrefixes()
    ensures Order(EXAMPLE_GREEDY) == [0, 1, 2] && Order(EXAMPLE_OTHER) == [1, 0, 2]
    ensures Prefix(EXAMPLE_GREEDY, 1) == {0} && Prefix(EXAMPLE_GREEDY, 2) == {0, 1}
    ensures Prefix(EXAMPLE_GREEDY, 3) == {0, 1, 2}
  {
    var s := EXAMPLE_GREEDY;
    OrderOfThree(s[0], s[1], s[2]);
    OrderOfTwo(EXAMPLE_OTHER[0], EXAMPLE_OTHER[1]);
    assert s == [s[0], s[1], s[2]] && EXAMPLE_OTHER == [EXAMPLE_OTHER[0], EXAMPLE_OTHER[1]];
  }

  lemma {:induction false} ExampleSaturated(k: nat)
    requires k < 3
    ensures Saturated(EXAMPLE, EXAMPLE_TYPES, EXAMPLE_GREEDY, k)
  {
    ExamplePrefixes();
    ExampleReady(2, {0});
    if k == 0 {
      assert Prefix(EXAMPLE_GREEDY, 1) == {0};
    } else if k == 1 {
      assert Prefix(EXAMPLE_GREEDY, 2) == {0, 1};
    } else {
      assert Prefix(EXAMPLE_GREEDY, 3) == {0, 1, 2};
    }
  }

  /** Each subset starts with the lowest node not yet placed. */
  lemma {:induction false} ExampleFirst(k: nat)
    requires k < 3
    ensures OpenedByFirst(EXAMPLE, EXAMPLE_GREEDY, k) && Homogeneous(EXAMPLE_TYPES, EXAMPLE_GREEDY[k])
  {
    ExamplePrefixes();
    hide Prefix, Ready, Order;
  }

  lemma {:induction false} ThreeAreGreedy(g: Graph, types: seq<SubsetType>, s: seq<NodeSubset>)
    requires |s| == 3 && |types| == |g.nodes| && DependencyOrder(g, Order(s))
    requires forall k :: 0 <= k < 3 ==> s[k].nodes != []
    requires forall k: nat :: k < 3 ==> Homogeneous(types, s[k]) && Saturated(g, types, s, k) && OpenedByFirst(g, s, k)
    requires forall k: nat :: k < 3 ==> |s[k].nodes| == 1
    requires forall n :: IsNode(g, n) ==> n in Prefix(s, 3)
    ensures GreedyPartition(g, types, s)
  {
    hide Prefix, Ready, Order, Saturated, OpenedByFirst, Homogeneous, DependencyOrder;
  }

  lemma {:induction false} ExampleCovers()
    ensures DependencyOrder(EXAMPLE, Order(EXAMPLE_GREEDY))
    ensures forall n :: IsNode(EXAMPLE, n) ==> n in Prefix(EXAMPLE_GREEDY, 3)
  {
    ExamplePrefixes();
    ExampleOrder([0, 1, 2]);
    hide Prefix, Order, DependencyOrder;
  }

  lemma {:induction false} ExampleIsGreedy()
    ensures GreedyPartition(EXAMPLE, EXAMPLE_TYPES, EXAMPLE_GREEDY)
  {
    ExampleCovers();
    hide Prefix, Ready, Order, Saturated, OpenedByFirst, Homogeneous, DependencyOrder, GreedyPartition;
    forall k: nat | k < 3
      ensures Homogeneous(EXAMPLE_TYPES, EXAMPLE_GREEDY[k])
      ensures Saturated(EXAMPLE, EXAMPLE_TYPES, EXAMPLE_GREEDY, k) && OpenedByFirst(EXAMPLE, EXAMPLE_GREEDY, k)
    {
      ExampleSaturated(k);
      ExampleFirst(k);
    }
    ThreeAreGreedy(EXAMPLE, EXAMPLE_TYPES, EXAMPLE_GREEDY);
  }

  /** The bound is reached: the code makes three subsets where starting with the other type makes two. */
  lemma {:induction false} GreedyCanBeOneLonger(subsets: seq<NodeSubset>)
    requires GreedyPartition(EXAMPLE, EXAMPLE_TYPES, subsets)
    ensures TwoTypes(EXAMPLE_TYPES) && Candidate(EXAMPLE, EXAMPLE_TYPES, EXAMPLE_OTHER)
    ensures Elements(Order(EXAMPLE_OTHER)) == Elements(Order(subsets))
    ensures |subsets| == 3 == |EXAMPLE_OTHER| + 1
  {
    ExamplePrefixes();
    ExampleOrder([1, 0, 2]);
    ExampleIsGreedy();
    GreedyIsDetermined(EXAMPLE, EXAMPLE_TYPES, subsets, EXAMPLE_GREEDY);
    SamePlaced(EXAMPLE, EXAMPLE_TYPES, subsets, EXAMPLE_GREEDY);
  }

  lemma {:induction false} OrderOfTwo(a: NodeSubset, b: NodeSubset)
    ensures Order([a, b]) == a.nodes + b.nodes
    ensures [a, b][..1] == [a] && [a, b][..2] == [a, b] && Order([a]) == a.nodes
  {
    assert [a, b][..1] == [a] && [a][..0] == [];
    assert Order([a]) == Order([]) + a.nodes;
    assert Order([a, b]) == Order([a, b][..1]) + b.nodes;
  }

  lemma {:induction false} OrderOfThree(a: NodeSubset, b: NodeSubset, c: NodeSubset)
    ensures Order([a, b, c]) == a.nodes + b.nodes + c.nodes
    ensures [a, b, c][..1] == [a] && [a, b, c][..2] == [a, b] && [a, b, c][..3] == [a, b, c]
    ensures Order([a]) == a.nodes && Order([a, b]) == a.nodes + b.nodes
  {
    OrderOfTwo(a, b);
    assert [a, b, c][..2] == [a, b] && [a, b, c][..1] == [a];
    assert Order([a, b, c]) == Order([a, b, c][..2]) + c.nodes;
  }

  // ---- What the subsets compute ----

  /** Running the subsets one after another gives every tensor the value it has in any complete
      dependency order of the graph, such as the original plan. */
  lemma {:induction false} PartitionPreservesMeaning<V(!new)>(g: Graph, types: seq<SubsetType>,
                                                              subsets: seq<NodeSubset>,
                                           f: Kernel<V>, plan: seq<int>, env: seq<V>)
    requires SingleProducer(g) && SaturatedPartition(g, types, subsets)
    requires DependencyOrder(g, plan) && forall n :: IsNode(g, n) ==> n in plan
    ensures Run(g, f, Order(subsets), env) == Run(g, f, plan, env)
  {
    PlacedIsLeast(g, types, subsets);
    OrderWithin(g, plan, Elements(Order(subsets)));
    assert Elements(Order(subsets)) == Elements(plan);
    OrdersAgree(g, f, Order(subsets), plan, env);
  }

  /** A subset run as one opaque kernel: it sees only its input tensors (everything else is
      scratch memory with arbitrary contents) and hands back only its output tensors. */
  function RunSubset<V>(g: Graph, f: Kernel<V>, s: NodeSubset, env: seq<V>, scratch: seq<V>): seq<V>
    requires |scratch| == |env| && forall i :: 0 <= i < |s.nodes| ==> IsNode(g, s.nodes[i])
  {
    var start := seq(|env|, t requires 0 <= t < |env| => if t in s.inputTensors then env[t] else scratch[t]);
    var end := Run(g, f, s.nodes, start);
    seq(|env|, t requires 0 <= t < |env| => if t in s.outputTensors then end[t] else env[t])
  }

  ghost predicate NodesInRange(g: Graph, subsets: seq<NodeSubset>) {
    forall k, i :: 0 <= k < |subsets| && 0 <= i < |subsets[k].nodes| ==> IsNode(g, subsets[k].nodes[i])
  }

  function RunSubsets<V>(g: Graph, f: Kernel<V>, subsets: seq<NodeSubset>, env: seq<V>,
                         scratch: seq<seq<V>>): (r: seq<V>)
    requires NodesInRange(g, subsets)
    requires |scratch| == |subsets| && forall k :: 0 <= k < |scratch| ==> |scratch[k]| == |env|
    ensures |r| == |env|
  {
    if subsets == [] then env
    else
      var last := |subsets| - 1;
      RunSubset(g, f, subsets[last], RunSubsets(g, f, subsets[..last], env, scratch[..last]), scratch[last])
  }

  /** A tensor a subset can rely on after its first i nodes. */
  ghost predicate Known(g: Graph, s: NodeSubset, i: nat, t: int)
    requires i <= |s.nodes|
  {
    t in s.inputTensors || exists j :: 0 <= j < i && Produces(g, s.nodes[j], t)
  }

  /** What a node reads is an input tensor of its subset or written earlier in the subset. */
  lemma {:induction false} ReadIsKnown(g: Graph, subsets: seq<NodeSubset>, k: nat, i: nat, t: int)
    requires DependencyOrder(g, Order(subsets)) && ExactBoundaries(g, subsets)
    requires k < |subsets| && i < |subsets[k].nodes| && Reads(g, subsets[k].nodes[i], t)
    ensures Known(g, subsets[k], i, t)
  {
    var s := subsets[k];
    assert SubsetReads(g, s, t) by { assert s.nodes[i] in s.nodes; }
    if SubsetProduces(g, s, t) {
      var p :| p in s.nodes && Produces(g, p, t);
      var j :| 0 <= j < |s.nodes| && s.nodes[j] == p;
      NodeReady(g, subsets, k, i);
      NodeReady(g, subsets, k, j);
      assert p in Elements(s.nodes[..i]);
      var j' :| 0 <= j' < i && s.nodes[j'] == p;
    } else {
      assert IsInputOf(g, s, t);
    }
  }

  /** Started from the right input tensors, a subset computes the right values of all it writes. */
  lemma {:induction false} NodeComputes<V(!new)>(g: Graph, s: NodeSubset, order: seq<int>, i: nat,
                                                 f: Kernel<V>, before: seq<V>, full: seq<V>)
    requires i < |s.nodes| && IsNode(g, s.nodes[i]) && s.nodes[i] in order && |before| == |full|
    requires Solves(g, f, order, full, full) && Args(g, s.nodes[i], before) == Args(g, s.nodes[i], full)
    requires forall t :: 0 <= t < |full| && Known(g, s, i, t) ==> before[t] == full[t]
    ensures forall t :: 0 <= t < |full| && Known(g, s, i + 1, t) ==>
              RunNode(g, f, s.nodes[i], before)[t] == full[t]
  {
    hide Args;
    var n := s.nodes[i];
    forall t | 0 <= t < |full| && Known(g, s, i + 1, t) ensures RunNode(g, f, n, before)[t] == full[t] {
      if !Produces(g, n, t) {
        assert Known(g, s, i, t);
      }
    }
  }

  lemma {:induction false} SubsetComputes<V(!new)>(g: Graph, subsets: seq<NodeSubset>, k: nat, i: nat,
                                                   f: Kernel<V>, start: seq<V>, full: seq<V>)
    requires InRange(g) && SingleProducer(g) && NodesInRange(g, subsets)
    requires DependencyOrder(g, Order(subsets)) && ExactBoundaries(g, subsets)
    requires k < |subsets| && i <= |subsets[k].nodes| && |start| == |full| == g.numTensors
    requires Solves(g, f, Order(subsets), full, full)
    requires forall t :: t in subsets[k].inputTensors && 0 <= t < |start| ==> start[t] == full[t]
    ensures forall t :: 0 <= t < |full| && Known(g, subsets[k], i, t) ==>
              Run(g, f, subsets[k].nodes[..i], start)[t] == full[t]
  {
    var s := subsets[k];
    if i > 0 {
      SubsetComputes(g, subsets, k, i - 1, f, start, full);
      var n := s.nodes[i - 1];
      assert s.nodes[..i][..i - 1] == s.nodes[..i - 1];
      var before, after := Run(g, f, s.nodes[..i - 1], start), Run(g, f, s.nodes[..i], start);
      assert after == RunNode(g, f, n, before);
      hide Run, RunNode, Known, Solves, DependencyOrder, Order, ExactBoundaries, Reads;
      forall t | Reads(g, n, t) && 0 <= t < |full| ensures before[t] == full[t] {
        ReadIsKnown(g, subsets, k, i - 1, t);
      }
      ArgsAgree(g, n, before, full);
      NodeReady(g, subsets, k, i - 1);
      NodeComputes(g, s, Order(subsets), i - 1, f, before, full);
    }
  }

  /** After the first k isolated subsets, the tensors later readers may look at are right:
      those no node writes, and those the first k subsets hand back. */
  ghost predicate VisibleAgree<V>(g: Graph, subsets: seq<NodeSubset>, k: nat, env: seq<V>, full: seq<V>)
    requires k <= |subsets|
  {
    && |env| == |full|
    && (forall t :: 0 <= t < |env| && !Produced(g, t) ==> env[t] == full[t])
    && (forall j, t :: 0 <= t < |env| && 0 <= j < k && HasOutput(subsets, j, t) ==> env[t] == full[t])
  }

  /** An input tensor of subset k is unproduced or an output tensor of an earlier subset. */
  lemma {:induction false} InputIsVisible(g: Graph, subsets: seq<NodeSubset>, k: nat, t: int)
    requires SingleProducer(g) && DependencyOrder(g, Order(subsets)) && ExactBoundaries(g, subsets)
    requires k < |subsets| && t in subsets[k].inputTensors && Produced(g, t)
    ensures exists j :: 0 <= j < k && HasOutput(subsets, j, t)
  {
    var s := subsets[k];
    assert IsInputOf(g, s, t);
    var n :| n in s.nodes && Reads(g, n, t);
    var i :| 0 <= i < |s.nodes| && s.nodes[i] == n;
    var p :| Produces(g, p, t);
    NodeReady(g, subsets, k, i);
    assert p !in s.nodes;
    assert p in Prefix(subsets, k);
    InOrder(subsets[..k], p);
    var j :| 0 <= j < k && p in subsets[..k][j].nodes;
    assert SubsetProduces(g, subsets[j], t) && SubsetReads(g, subsets[k], t);
    assert IsOutputOf(g, subsets, j, t);
    assert HasOutput(subsets, j, t);
  }

  lemma {:induction false} IsolatedStep<V(!new)>(g: Graph, subsets: seq<NodeSubset>, k: nat,
                                                 f: Kernel<V>, env: seq<V>, scratch: seq<V>, full: seq<V>)
    requires InRange(g) && SingleProducer(g) && NodesInRange(g, subsets)
    requires DependencyOrder(g, Order(subsets)) && ExactBoundaries(g, subsets)
    requires k < |subsets| && |env| == |scratch| == |full| == g.numTensors
    requires Solves(g, f, Order(subsets), full, full)
    requires VisibleAgree(g, subsets, k, env, full)
    ensures VisibleAgree(g, subsets, k + 1, RunSubset(g, f, subsets[k], env, scratch), full)
  {
    var s := subsets[k];
    var start := seq(|env|, t requires 0 <= t < |env| => if t in s.inputTensors then env[t] else scratch[t]);
    forall t | t in s.inputTensors && 0 <= t < |start| ensures start[t] == full[t] {
      if Produced(g, t) {
        InputIsVisible(g, subsets, k, t);
      }
    }
    SubsetComputes(g, subsets, k, |s.nodes|, f, start, full);
    assert s.nodes[..|s.nodes|] == s.nodes;
    var r := RunSubset(g, f, s, env, scratch);
    forall t | 0 <= t < |env| && t in s.outputTensors ensures r[t] == full[t] && Produced(g, t) {
      assert IsOutputOf(g, subsets, k, t);
      var n :| n in s.nodes && Produces(g, n, t);
      var j :| 0 <= j < |s.nodes| && s.nodes[j] == n;
      assert Known(g, s, |s.nodes|, t);
    }
    forall j, t | 0 <= t < |env| && 0 <= j < k + 1 && HasOutput(subsets, j, t) ensures r[t] == full[t] {
    }
  }

  lemma {:induction false} IsolatedPrefix<V(!new)>(g: Graph, subsets: seq<NodeSubset>, k: nat,
                                                   f: Kernel<V>, env: seq<V>, scratch: seq<seq<V>>, full: seq<V>)
    requires InRange(g) && SingleProducer(g) && NodesInRange(g, subsets)
    requires DependencyOrder(g, Order(subsets)) && ExactBoundaries(g, subsets)
    requires |scratch| == |subsets| && forall j :: 0 <= j < |scratch| ==> |scratch[j]| == |env|
    requires k <= |subsets| && |env| == |full| == g.numTensors
    requires Solves(g, f, Order(subsets), full, full)
    requires forall t :: 0 <= t < |env| && !Produced(g, t) ==> env[t] == full[t]
    ensures NodesInRange(g, subsets[..k])
    ensures VisibleAgree(g, subsets, k, RunSubsets(g, f, subsets[..k], env, scratch[..k]), full)
  {
    if k > 0 {
      IsolatedPrefix(g, subsets, k - 1, f, env, scratch, full);
      hide DependencyOrder, Order, ExactBoundaries, Solves, VisibleAgree, InRange, SingleProducer;
      assert subsets[..k][..k - 1] == subsets[..k - 1] && scratch[..k][..k - 1] == scratch[..k - 1];
      IsolatedStep(g, subsets, k - 1, f, RunSubsets(g, f, subsets[..k - 1], env, scratch[..k - 1]), scratch[k - 1],
                   full);
    }
  }

  lemma {:induction false} OutputIsListed(g: Graph, subsets: seq<NodeSubset>, n: int, t: int)
    requires ExactBoundaries(g, subsets) && Produces(g, n, t) && n in Order(subsets) && t in g.outputs
    ensures exists k :: 0 <= k < |subsets| && HasOutput(subsets, k, t)
  {
    InOrder(subsets, n);
    var k :| 0 <= k < |subsets| && n in subsets[k].nodes;
    assert SubsetProduces(g, subsets[k], t);
    assert IsOutputOf(g, subsets, k, t);
    assert HasOutput(subsets, k, t);
  }

  lemma {:induction false} GreedyFacts(g: Graph, types: seq<SubsetType>, subsets: seq<NodeSubset>)
    requires SaturatedPartition(g, types, subsets)
    ensures NodesInRange(g, subsets) && DependencyOrder(g, Order(subsets))
  {
    forall k, i | 0 <= k < |subsets| && 0 <= i < |subsets[k].nodes| ensures IsNode(g, subsets[k].nodes[i]) {
      assert Homogeneous(types, subsets[k]) && subsets[k].nodes[i] in subsets[k].nodes;
    }
  }

  lemma {:induction false} SolvesItself<V(!new)>(g: Graph, f: Kernel<V>, order: seq<int>, env: seq<V>, full: seq<V>)
    requires Solves(g, f, order, env, full)
    ensures Solves(g, f, order, full, full)
  {
  }

  lemma {:induction false} UnproducedKept<V(!new)>(g: Graph, f: Kernel<V>, order: seq<int>, env: seq<V>, full: seq<V>)
    requires Solves(g, f, order, env, full)
    ensures |full| == |env| && forall t :: 0 <= t < |env| && !Produced(g, t) ==> env[t] == full[t]
  {
  }

  lemma {:induction false} OutputIsVisible<V(!new)>(g: Graph, subsets: seq<NodeSubset>, t: int, env: seq<V>,
                                                    full: seq<V>)
    requires InRange(g) && |env| == |full| == g.numTensors && ExactBoundaries(g, subsets) && t in g.outputs
    requires forall n :: IsNode(g, n) ==> n in Order(subsets)
    requires VisibleAgree(g, subsets, |subsets|, env, full)
    ensures IsTensor(g, t) && env[t] == full[t]
  {
    hide ExactBoundaries, Order;
    if n :| Produces(g, n, t) {
      OutputIsListed(g, subsets, n, t);
    }
  }

  /** The boundary lists carry exactly enough: running every subset in isolation, whatever its
      scratch memory holds, gives the model outputs their value in the original plan. */
  lemma {:induction false} IsolatedSubsetsPreserveOutputs<V(!new)>(g: Graph, types: seq<SubsetType>,
                                                                   subsets: seq<NodeSubset>,
                                                f: Kernel<V>, plan: seq<int>, env: seq<V>, scratch: seq<seq<V>>)
    requires InRange(g) && SingleProducer(g) && |env| == g.numTensors
    requires SaturatedPartition(g, types, subsets) && ExactBoundaries(g, subsets)
    requires DependencyOrder(g, plan) && forall n :: IsNode(g, n) ==> n in plan
    requires |scratch| == |subsets| && forall j :: 0 <= j < |scratch| ==> |scratch[j]| == |env|
    ensures NodesInRange(g, subsets)
    ensures forall t :: t in g.outputs ==> RunSubsets(g, f, subsets, env, scratch)[t] == Run(g, f, plan, env)[t]
  {
    hide Run, RunSubsets, Order, ExactBoundaries, NodesInRange, Solves, SaturatedPartition, VisibleAgree;
    GreedyFacts(g, types, subsets);
    PartitionPreservesMeaning(g, types, subsets, f, plan, env);
    var full := Run(g, f, plan, env);
    RunSolves(g, f, Order(subsets), env);
    SolvesItself(g, f, Order(subsets), env, full);
    UnproducedKept(g, f, Order(subsets), env, full);
    IsolatedPrefix(g, subsets, |subsets|, f, env, scratch, full);
    assert subsets[..|subsets|] == subsets && scratch[..|scratch|] == scratch;
    PlacedIsLeast(g, types, subsets);
    OrderWithin(g, plan, Elements(Order(subsets)));
    forall t | t in g.outputs ensures RunSubsets(g, f, subsets, env, scratch)[t] == full[t] {
      OutputIsVisible(g, subsets, t, RunSubsets(g, f, subsets, env, scratch), full);
    }
  }

  // ---- The whole call ----

  /** Lines 224-231 of graph_info.cc: the types follow nodesToPartition, the result is the greedy
      partition, and its boundary lists are exact unless a model output depends on a cycle. */
  method PartitionGraph(info: Graph, nodesToPartition: seq<int>)
    returns (subsets: seq<NodeSubset>, types: seq<SubsetType>, inBounds: bool)
    requires InRange(info) && SingleProducer(info)
    requires forall n :: n in nodesToPartition ==> IsNode(info, n)
    ensures |types| == |info.nodes|
    ensures forall n :: IsNode(info, n) ==>
              types[n] == if n in nodesToPartition then SubsetType.Partition else NonPartition
    ensures GreedyPartition(info, types, subsets)
    ensures inBounds <==> OutputsOffCycles(info)
    ensures inBounds ==> ExactBoundaries(info, subsets)
  {
    var impl := new PartitionImpl(info, nodesToPartition);
    types := impl.nodeType;
    assert forall n :: 0 <= n < |types| ==> IsNode(info, n);
    inBounds := impl.Partition();
    subsets := impl.nodeSubsets;
    InBoundsIff(info, types, subsets);
  }
}
