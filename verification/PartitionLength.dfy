/** How many subsets partitioning a graph takes: the number of type changes along dependency paths
    decides it, and says on the graph alone when no other partition is shorter. */
module PartitionLength {
  import opened Collections
  import opened Graphs
  import opened Partitioner
  import opened PartitionTheorems

  // ---- Type changes along a path ----

  ghost predicate TypedPath(g: Graph, types: seq<SubsetType>, path: seq<int>) {
    |types| == |g.nodes| && DependencyPath(g, path)
  }

  /** How often the type changes from a node of the path to the next. */
  ghost function Changes(types: seq<SubsetType>, path: seq<int>): nat
    requires forall i :: 0 <= i < |path| ==> 0 <= path[i] < |types|
  {
    if |path| <= 1 then 0
    else (if types[path[0]] != types[path[1]] then 1 else 0) + Changes(types, path[1..])
  }

  ghost function EndType(types: seq<SubsetType>, path: seq<int>): SubsetType
    requires path != [] && forall i :: 0 <= i < |path| ==> 0 <= path[i] < |types|
  {
    types[path[|path| - 1]]
  }

  /** The least index of a subset that can hold the first node of the path, when subset 0 has type `first`. */
  ghost function Level(types: seq<SubsetType>, first: SubsetType, path: seq<int>): nat
    requires path != [] && forall i :: 0 <= i < |path| ==> 0 <= path[i] < |types|
  {
    Changes(types, path) + if EndType(types, path) == first then 0 else 1
  }

  lemma {:induction false} TailOfPath(g: Graph, types: seq<SubsetType>, first: SubsetType, path: seq<int>)
    requires TypedPath(g, types, path) && |path| > 1
    ensures TypedPath(g, types, path[1..]) && DependsDirectly(g, path[0], path[1])
    ensures Level(types, first, path) ==
            Level(types, first, path[1..]) + if types[path[0]] != types[path[1]] then 1 else 0
  {
    hide DependsDirectly;
    var rest := path[1..];
    forall i | 0 <= i < |rest| - 1 ensures DependsDirectly(g, rest[i], rest[i + 1]) {
      var j := i + 1;
      assert DependsDirectly(g, path[j], path[j + 1]);
    }
  }

  lemma {:induction false} LongerPath(g: Graph, types: seq<SubsetType>, first: SubsetType, n: int, rest: seq<int>)
    requires TypedPath(g, types, rest) && IsNode(g, n) && DependsDirectly(g, n, rest[0])
    ensures TypedPath(g, types, [n] + rest)
    ensures Level(types, first, [n] + rest) == Level(types, first, rest) + if types[n] != types[rest[0]] then 1 else 0
  {
    hide DependsDirectly;
    PrependToPath(g, n, rest);
    assert ([n] + rest)[1..] == rest;
  }

  // ---- No subset comes before the level of its nodes ----

  /** A producer of a node of subset k is in subset k, before it, or in an earlier subset. */
  lemma {:induction false} ProducerSubset(g: Graph, subsets: seq<NodeSubset>, k: nat, i: nat, m: int)
    returns (j: nat, at: nat)
    requires DependencyOrder(g, Order(subsets)) && k < |subsets| && i < |subsets[k].nodes|
    requires DependsDirectly(g, subsets[k].nodes[i], m)
    ensures j <= k && at < |subsets[j].nodes| && subsets[j].nodes[at] == m && (j == k ==> at < i)
  {
    NodeReady(g, subsets, k, i);
    var t :| Reads(g, subsets[k].nodes[i], t) && Produces(g, m, t);
    if m in subsets[k].nodes[..i] {
      var a :| 0 <= a < i && subsets[k].nodes[a] == m;
      j, at := k, a;
    } else {
      j, at := SubsetInPrefix(subsets, k, m);
    }
  }

  lemma {:induction false} SubsetInPrefix(subsets: seq<NodeSubset>, k: nat, m: int) returns (j: nat, at: nat)
    requires k <= |subsets| && m in Prefix(subsets, k)
    ensures j < k && at < |subsets[j].nodes| && subsets[j].nodes[at] == m
  {
    InOrder(subsets[..k], m);
    var l :| 0 <= l < k && m in subsets[..k][l].nodes;
    var a :| 0 <= a < |subsets[l].nodes| && subsets[l].nodes[a] == m;
    j, at := l, a;
  }

  /** Whatever the partition, the first node of a path is not in a subset before its level. */
  lemma {:induction false} LevelIsLeast(g: Graph, types: seq<SubsetType>, other: seq<NodeSubset>, k: nat, i: nat,
                                        path: seq<int>)
    requires Candidate(g, types, other) && TypedPath(g, types, path)
    requires k < |other| && i < |other[k].nodes| && other[k].nodes[i] == path[0]
    ensures Level(types, other[0].typ, path) <= k
    decreases |path|
  {
    hide DependsDirectly, DependencyOrder, Order;
    var n := path[0];
    assert n in other[k].nodes && Homogeneous(types, other[k]) && types[n] == other[k].typ;
    if |path| > 1 {
      TailOfPath(g, types, other[0].typ, path);
      var m := path[1];
      var j, at := ProducerSubset(g, other, k, i, m);
      LevelIsLeast(g, types, other, j, at, path[1..]);
      assert m in other[j].nodes && Homogeneous(types, other[j]);
    }
  }

  // ---- A saturated subset holds nothing above its index ----

  lemma {:induction false} Alternates(g: Graph, types: seq<SubsetType>, subsets: seq<NodeSubset>, k: nat)
    requires SaturatedPartition(g, types, subsets) && TwoTypes(types) && 2 <= k < |subsets|
    ensures subsets[k - 2].typ == subsets[k].typ != subsets[k - 1].typ
  {
    AdjacentTypesDiffer(g, types, subsets, k - 2);
    AdjacentTypesDiffer(g, types, subsets, k - 1);
    TypeOfSubset(types, subsets[k - 2]);
    TypeOfSubset(types, subsets[k - 1]);
    TypeOfSubset(types, subsets[k]);
  }

  /** A node of subset k waits for one that subset k - 2 could not take either. */
  lemma {:induction false} WaitsForLate(g: Graph, types: seq<SubsetType>, subsets: seq<NodeSubset>, k: nat, i: nat)
    returns (j: nat, at: nat)
    requires SaturatedPartition(g, types, subsets) && TwoTypes(types) && 2 <= k < |subsets| && i < |subsets[k].nodes|
    ensures k - 1 <= j <= k && at < |subsets[j].nodes| && (j == k ==> at < i)
    ensures DependsDirectly(g, subsets[k].nodes[i], subsets[j].nodes[at])
  {
    var n := subsets[k].nodes[i];
    Alternates(g, types, subsets, k);
    NodeReady(g, subsets, k, i);
    assert n in subsets[k].nodes && Homogeneous(types, subsets[k]) && Saturated(g, types, subsets, k - 2);
    PrefixStep(subsets, k - 1);
    assert !Ready(g, n, Prefix(subsets, k - 1));
    var m, t :| Reads(g, n, t) && Produces(g, m, t) && m !in Prefix(subsets, k - 1);
    assert DependsDirectly(g, n, m);
    j, at := ProducerSubset(g, subsets, k, i, m);
    NotEarlier(subsets, k - 1, j, at);
  }

  lemma {:induction false} NotEarlier(subsets: seq<NodeSubset>, k: nat, j: nat, at: nat)
    requires k <= |subsets| && j < |subsets| && at < |subsets[j].nodes| && subsets[j].nodes[at] !in Prefix(subsets, k)
    ensures k <= j
  {
    InOrder(subsets[..k], subsets[j].nodes[at]);
  }

  lemma {:induction false} SubsetOfNode(g: Graph, types: seq<SubsetType>, subsets: seq<NodeSubset>, k: nat, i: nat)
    requires SaturatedPartition(g, types, subsets) && k < |subsets| && i < |subsets[k].nodes|
    ensures IsNode(g, subsets[k].nodes[i]) && types[subsets[k].nodes[i]] == subsets[k].typ
  {
    hide DependencyOrder, Order, Saturated, Ready;
    NodeReady(g, subsets, k, i);
    assert subsets[k].nodes[i] in subsets[k].nodes && Homogeneous(types, subsets[k]);
  }

  /** The first two subsets differ in type, and a single node is path enough there. */
  lemma {:induction false} LevelOfNode(g: Graph, types: seq<SubsetType>, subsets: seq<NodeSubset>, k: nat, i: nat)
    requires SaturatedPartition(g, types, subsets) && k < 2 && k < |subsets| && i < |subsets[k].nodes|
    ensures TypedPath(g, types, [subsets[k].nodes[i]]) && Level(types, subsets[0].typ, [subsets[k].nodes[i]]) == k
  {
    SubsetOfNode(g, types, subsets, k, i);
    if k == 1 {
      AdjacentTypesDiffer(g, types, subsets, 0);
    }
    assert |types| == |g.nodes|;
  }

  /** From every node of subset k of a saturated partition some path has level k. */
  lemma {:induction false} LevelIsReached(g: Graph, types: seq<SubsetType>, subsets: seq<NodeSubset>, k: nat, i: nat)
    returns (path: seq<int>)
    requires SaturatedPartition(g, types, subsets) && TwoTypes(types) && k < |subsets| && i < |subsets[k].nodes|
    ensures TypedPath(g, types, path) && path[0] == subsets[k].nodes[i]
    ensures Level(types, subsets[0].typ, path) == k
    decreases k, i
  {
    assert |types| == |g.nodes|;
    hide SaturatedPartition, DependsDirectly, Changes, EndType;
    var n := subsets[k].nodes[i];
    SubsetOfNode(g, types, subsets, k, i);
    if k < 2 {
      path := [n];
      LevelOfNode(g, types, subsets, k, i);
    } else {
      Alternates(g, types, subsets, k);
      var j, at := WaitsForLate(g, types, subsets, k, i);
      var rest := LevelIsReached(g, types, subsets, j, at);
      SubsetOfNode(g, types, subsets, j, at);
      LongerPath(g, types, subsets[0].typ, n, rest);
      path := [n] + rest;
    }
  }

  // ---- The number of subsets ----

  /** A path that starts at a node partitioning places. */
  ghost predicate PlacedPath(g: Graph, types: seq<SubsetType>, path: seq<int>) {
    TypedPath(g, types, path) && !DependsOnCycle(g, path[0])
  }

  lemma {:induction false} PathIsPlaced(g: Graph, types: seq<SubsetType>, subsets: seq<NodeSubset>,
                                        other: seq<NodeSubset>, path: seq<int>)
    returns (k: nat, i: nat)
    requires SaturatedPartition(g, types, subsets) && PlacedPath(g, types, path)
    requires Elements(Order(other)) == Elements(Order(subsets))
    ensures k < |other| && i < |other[k].nodes| && other[k].nodes[i] == path[0]
  {
    hide DependsOnCycle, SaturatedPartition;
    PlacedIffNoCycle(g, types, subsets, path[0]);
    assert path[0] in Elements(Order(subsets));
    assert other[..|other|] == other;
    k, i := SubsetInPrefix(other, |other|, path[0]);
  }

  /** A saturated partition has one subset more than the highest level of any path. */
  lemma {:induction false} LengthIsHighestLevel(g: Graph, types: seq<SubsetType>, subsets: seq<NodeSubset>)
    requires SaturatedPartition(g, types, subsets) && TwoTypes(types) && subsets != []
    ensures forall path :: PlacedPath(g, types, path) ==> Level(types, subsets[0].typ, path) < |subsets|
    ensures exists path :: PlacedPath(g, types, path) && Level(types, subsets[0].typ, path) == |subsets| - 1
  {
    forall path | PlacedPath(g, types, path) ensures Level(types, subsets[0].typ, path) < |subsets| {
      LevelOfRival(g, types, subsets, subsets, path);
    }
    var path := HighestPath(g, types, subsets);
  }

  lemma {:induction false} LevelOfRival(g: Graph, types: seq<SubsetType>, subsets: seq<NodeSubset>,
                                        other: seq<NodeSubset>, path: seq<int>)
    requires SaturatedPartition(g, types, subsets) && Candidate(g, types, other) && PlacedPath(g, types, path)
    requires Elements(Order(other)) == Elements(Order(subsets))
    ensures other != [] && Level(types, other[0].typ, path) < |other|
  {
    hide Level, DependsOnCycle, SaturatedPartition, Candidate;
    var k, i := PathIsPlaced(g, types, subsets, other, path);
    LevelIsLeast(g, types, other, k, i, path);
  }

  lemma {:induction false} HighestPath(g: Graph, types: seq<SubsetType>, subsets: seq<NodeSubset>)
    returns (path: seq<int>)
    requires SaturatedPartition(g, types, subsets) && TwoTypes(types) && subsets != []
    ensures PlacedPath(g, types, path) && Level(types, subsets[0].typ, path) == |subsets| - 1
  {
    hide Level, DependsOnCycle, DependencyOrder, Saturated, Order;
    var last := |subsets| - 1;
    path := LevelIsReached(g, types, subsets, last, 0);
    NodeReady(g, subsets, last, 0);
    PlacedIffNoCycle(g, types, subsets, path[0]);
  }

  // ---- Paths down to a node that is ready at the start ----

  lemma {:induction false} AppendToPath(g: Graph, types: seq<SubsetType>, path: seq<int>, m: int)
    requires TypedPath(g, types, path) && IsNode(g, m) && DependsDirectly(g, path[|path| - 1], m)
    ensures TypedPath(g, types, path + [m])
    ensures Changes(types, path + [m]) == Changes(types, path) + if EndType(types, path) != types[m] then 1 else 0
    decreases |path|
  {
    hide DependsDirectly;
    if |path| == 1 {
      assert path + [m] == [path[0], m];
      assert (path + [m])[1..] == [m];
    } else {
      TailOfPath(g, types, Unexplored, path);
      AppendToPath(g, types, path[1..], m);
      assert (path + [m])[1..] == path[1..] + [m];
      PrependToPath(g, path[0], path[1..] + [m]);
      assert [path[0]] + (path[1..] + [m]) == path + [m];
    }
  }

  lemma {:induction false} PlacedPathIsShort(g: Graph, types: seq<SubsetType>, path: seq<int>)
    requires PlacedPath(g, types, path)
    ensures |path| <= |g.nodes|
  {
    if |path| > |g.nodes| {
      LongPathRepeats(g, path);
    }
  }

  /** Every path goes on to a node that is ready at the start, with no fewer changes. */
  lemma {:induction false} DownToReady(g: Graph, types: seq<SubsetType>, path: seq<int>) returns (long: seq<int>)
    requires PlacedPath(g, types, path)
    ensures PlacedPath(g, types, long) && Ready(g, long[|long| - 1], {})
    ensures Changes(types, long) >= Changes(types, path)
    ensures EndType(types, long) != EndType(types, path) ==> Changes(types, long) > Changes(types, path)
    decreases |g.nodes| - |path|
  {
    var end := path[|path| - 1];
    if Ready(g, end, {}) {
      long := path;
    } else {
      var m, t :| Reads(g, end, t) && Produces(g, m, t);
      assert DependsDirectly(g, end, m);
      AppendToPath(g, types, path, m);
      PlacedPathIsShort(g, types, path + [m]);
      assert (path + [m])[0] == path[0];
      long := DownToReady(g, types, path + [m]);
    }
  }

  // ---- A saturated partition for every ready node ----

  /** Some subsets of a saturated partition, with the last one still open. */
  ghost predicate Growing(g: Graph, types: seq<SubsetType>, subsets: seq<NodeSubset>) {
    && |types| == |g.nodes| && subsets != []
    && DependencyOrder(g, Order(subsets))
    && (forall k :: 0 <= k < |subsets| ==> subsets[k].nodes != [] && Homogeneous(types, subsets[k]))
    && (forall k :: 0 <= k < |subsets| - 1 ==> Saturated(g, types, subsets, k))
  }

  ghost function Placed(subsets: seq<NodeSubset>): set<int> {
    Elements(Order(subsets))
  }

  ghost function WithNode(subsets: seq<NodeSubset>, n: int): seq<NodeSubset>
    requires subsets != []
  {
    var last := |subsets| - 1;
    subsets[last := subsets[last].(nodes := subsets[last].nodes + [n])]
  }

  lemma {:induction false} OrderOfWithNode(subsets: seq<NodeSubset>, n: int)
    requires subsets != []
    ensures Order(WithNode(subsets, n)) == Order(subsets) + [n]
    ensures forall k: nat :: k < |subsets| ==> Prefix(WithNode(subsets, n), k) == Prefix(subsets, k)
  {
    var last, next := |subsets| - 1, WithNode(subsets, n);
    assert next[..last] == subsets[..last];
    forall k: nat | k < |subsets| ensures Prefix(next, k) == Prefix(subsets, k) {
      assert next[..k] == subsets[..k];
    }
  }

  lemma {:induction false} OrderOfOpened(subsets: seq<NodeSubset>, s: NodeSubset)
    ensures Order(subsets + [s]) == Order(subsets) + s.nodes
    ensures forall k: nat :: k <= |subsets| ==> Prefix(subsets + [s], k) == Prefix(subsets, k)
  {
    assert (subsets + [s])[..|subsets|] == subsets;
    forall k: nat | k <= |subsets| ensures Prefix(subsets + [s], k) == Prefix(subsets, k) {
      assert (subsets + [s])[..k] == subsets[..k];
    }
  }

  lemma {:induction false} SamePrefixSaturated(g: Graph, types: seq<SubsetType>, a: seq<NodeSubset>,
                                               b: seq<NodeSubset>, k: nat)
    requires k < |a| && k < |b| && |types| == |g.nodes| && Saturated(g, types, a, k)
    requires a[k].typ == b[k].typ && Prefix(a, k + 1) == Prefix(b, k + 1)
    ensures Saturated(g, types, b, k)
  {
  }

  /** A ready node of its type joins the last subset. */
  lemma {:induction false} JoinKeepsGrowing(g: Graph, types: seq<SubsetType>, subsets: seq<NodeSubset>, n: int)
    requires Growing(g, types, subsets) && IsNode(g, n) && types[n] == subsets[|subsets| - 1].typ
    requires n !in Placed(subsets) && Ready(g, n, Placed(subsets))
    ensures Growing(g, types, WithNode(subsets, n)) && Order(WithNode(subsets, n)) == Order(subsets) + [n]
  {
    hide Saturated, DependencyOrder, Prefix, Order, Ready;
    var next := WithNode(subsets, n);
    OrderOfWithNode(subsets, n);
    ExtendOrder(g, Order(subsets), n);
    forall k | 0 <= k < |next| - 1 ensures Saturated(g, types, next, k) {
      SamePrefixSaturated(g, types, subsets, next, k);
    }
  }

  /** When none of its type is ready, the last subset is closed and another node opens the next. */
  lemma {:induction false} OpenKeepsGrowing(g: Graph, types: seq<SubsetType>, subsets: seq<NodeSubset>, n: int)
    requires Growing(g, types, subsets) && IsNode(g, n) && Saturated(g, types, subsets, |subsets| - 1)
    requires n !in Placed(subsets) && Ready(g, n, Placed(subsets))
    ensures var next := subsets + [NodeSubset(types[n], [n], [], [])];
            Growing(g, types, next) && Order(next) == Order(subsets) + [n]
  {
    hide Saturated, DependencyOrder, Prefix, Order, Ready;
    var next := subsets + [NodeSubset(types[n], [n], [], [])];
    OrderOfOpened(subsets, next[|subsets|]);
    ExtendOrder(g, Order(subsets), n);
    forall k | 0 <= k < |next| - 1 ensures Saturated(g, types, next, k) {
      SamePrefixSaturated(g, types, subsets, next, k);
    }
  }

  lemma {:induction false} RoomLeft(g: Graph, order: seq<int>)
    requires DependencyOrder(g, order)
    ensures |order| <= |g.nodes|
  {
    DistinctCardinality(order);
    assert Elements(order) <= Below(|g.nodes|);
    SubsetCardinality(Elements(order), Below(|g.nodes|));
  }

  /** Taking ready nodes as long as there are any, those of the current type first, ends saturated. */
  lemma {:induction false} GrowToSaturated(g: Graph, types: seq<SubsetType>, subsets: seq<NodeSubset>)
    returns (done: seq<NodeSubset>)
    requires Growing(g, types, subsets)
    ensures SaturatedPartition(g, types, done) && done != [] && done[0].typ == subsets[0].typ
    decreases |g.nodes| - |Order(subsets)|
  {
    hide Saturated, DependencyOrder, Order, Ready;
    var last := |subsets| - 1;
    WholePrefix(subsets);
    if n :| IsNode(g, n) && types[n] == subsets[last].typ && n !in Placed(subsets) && Ready(g, n, Placed(subsets)) {
      JoinKeepsGrowing(g, types, subsets, n);
      RoomLeft(g, Order(WithNode(subsets, n)));
      done := GrowToSaturated(g, types, WithNode(subsets, n));
    } else {
      NoneJoins(g, types, subsets);
      if n :| IsNode(g, n) && n !in Placed(subsets) && Ready(g, n, Placed(subsets)) {
        OpenKeepsGrowing(g, types, subsets, n);
        var next := subsets + [NodeSubset(types[n], [n], [], [])];
        RoomLeft(g, Order(next));
        done := GrowToSaturated(g, types, next);
      } else {
        done := subsets;
      }
    }
  }

  lemma {:induction false} WholePrefix(subsets: seq<NodeSubset>)
    ensures Prefix(subsets, |subsets|) == Placed(subsets)
  {
    assert subsets[..|subsets|] == subsets;
  }

  lemma {:induction false} NoneJoins(g: Graph, types: seq<SubsetType>, subsets: seq<NodeSubset>)
    requires |types| == |g.nodes| && subsets != []
    requires !exists n | IsNode(g, n) && types[n] == subsets[|subsets| - 1].typ ::
               n !in Placed(subsets) && Ready(g, n, Placed(subsets))
    ensures Saturated(g, types, subsets, |subsets| - 1)
  {
    WholePrefix(subsets);
  }

  lemma {:induction false} OrderOfOne(s: NodeSubset)
    ensures Order([s]) == s.nodes
  {
    OrderOfOpened([], s);
    assert Order([]) == [] && [] + [s] == [s] && [] + s.nodes == s.nodes;
  }

  lemma {:induction false} SingleIsGrowing(g: Graph, types: seq<SubsetType>, n: int)
    requires |types| == |g.nodes| && IsNode(g, n) && Ready(g, n, {})
    ensures Growing(g, types, [NodeSubset(types[n], [n], [], [])])
  {
    OrderOfOne(NodeSubset(types[n], [n], [], []));
    assert DependencyOrder(g, []);
    hide Order, Ready, Saturated, DependencyOrder;
    ExtendOrder(g, [], n);
    assert [] + [n] == [n];
  }

  /** Partitioning can start with the type of any node that is ready at the start. */
  lemma {:induction false} StartsWithAnyReady(g: Graph, types: seq<SubsetType>, n: int)
    returns (subsets: seq<NodeSubset>)
    requires |types| == |g.nodes| && IsNode(g, n) && Ready(g, n, {})
    ensures SaturatedPartition(g, types, subsets) && subsets != [] && subsets[0].typ == types[n]
  {
    SingleIsGrowing(g, types, n);
    hide *;
    subsets := GrowToSaturated(g, types, [NodeSubset(types[n], [n], [], [])]);
  }

  // ---- When no partition is shorter ----

  /** The type the code starts with: that of the lowest-numbered node that is ready at the start. */
  ghost predicate OpeningType(g: Graph, types: seq<SubsetType>, typ: SubsetType)
    requires |types| == |g.nodes|
  {
    exists n :: IsNode(g, n) && Ready(g, n, {}) && types[n] == typ
                && forall m :: IsNode(g, m) && m < n ==> !Ready(g, m, {})
  }

  lemma {:induction false} CodeOpensWith(g: Graph, types: seq<SubsetType>, subsets: seq<NodeSubset>, typ: SubsetType)
    requires GreedyPartition(g, types, subsets) && OpeningType(g, types, typ)
    ensures subsets != [] && subsets[0].typ == typ
  {
    var n :| IsNode(g, n) && Ready(g, n, {}) && types[n] == typ
      && forall m :: IsNode(g, m) && m < n ==> !Ready(g, m, {});
    NothingBefore(subsets);
    assert subsets != [];
    FirstOfSubset(g, subsets, 0);
    assert OpenedByFirst(g, subsets, 0);
    assert subsets[0].nodes[0] == n;
    assert n in subsets[0].nodes && Homogeneous(types, subsets[0]);
  }

  lemma {:induction false} NothingBefore(subsets: seq<NodeSubset>)
    ensures Prefix(subsets, 0) == {}
  {
    assert subsets[..0] == [];
  }

  /** Every path that ends in the other type has a rival with as many changes that ends in `first`. */
  ghost predicate StartsWell(g: Graph, types: seq<SubsetType>, first: SubsetType) {
    forall path :: PlacedPath(g, types, path) && EndType(types, path) != first ==>
      exists best :: PlacedPath(g, types, best) && EndType(types, best) == first
        && Changes(types, best) >= Changes(types, path)
  }

  /** Another way to cut the same nodes. */
  ghost predicate Rival(g: Graph, types: seq<SubsetType>, subsets: seq<NodeSubset>, other: seq<NodeSubset>) {
    Candidate(g, types, other) && Elements(Order(other)) == Elements(Order(subsets))
  }

  lemma {:induction false} StartingWellIsShortest(g: Graph, types: seq<SubsetType>, subsets: seq<NodeSubset>,
                                                  other: seq<NodeSubset>)
    requires SaturatedPartition(g, types, subsets) && TwoTypes(types) && subsets != []
    requires Rival(g, types, subsets, other) && StartsWell(g, types, subsets[0].typ)
    ensures |subsets| <= |other|
  {
    hide SaturatedPartition, DependsOnCycle, DependsDirectly, Candidate, Changes, EndType;
    var first := subsets[0].typ;
    var path := HighestPath(g, types, subsets);
    LevelOfRival(g, types, subsets, other, path);
    if EndType(types, path) != first {
      var best :| PlacedPath(g, types, best) && EndType(types, best) == first
        && Changes(types, best) >= Changes(types, path);
      LevelOfRival(g, types, subsets, other, best);
    }
  }

  /** Otherwise starting with the other type is possible and saves a subset. */
  lemma {:induction false} StartingBadlyIsLonger(g: Graph, types: seq<SubsetType>, subsets: seq<NodeSubset>)
    returns (other: seq<NodeSubset>)
    requires SaturatedPartition(g, types, subsets) && TwoTypes(types) && subsets != []
    requires !StartsWell(g, types, subsets[0].typ)
    ensures Rival(g, types, subsets, other) && |other| < |subsets|
  {
    var first := subsets[0].typ;
    var path :| PlacedPath(g, types, path) && EndType(types, path) != first && HasMostChanges(g, types, first, path);
    var n := OtherReady(g, types, first, path);
    other := StartsWithAnyReady(g, types, n);
    SamePlaced(g, types, subsets, other);
    OtherIsShorter(g, types, subsets, other, path);
  }

  /** No path that ends in `first` has as many changes. */
  ghost predicate HasMostChanges(g: Graph, types: seq<SubsetType>, first: SubsetType, path: seq<int>)
    requires forall i :: 0 <= i < |path| ==> 0 <= path[i] < |types|
  {
    forall best :: PlacedPath(g, types, best) && EndType(types, best) == first ==>
      Changes(types, best) < Changes(types, path)
  }

  lemma {:induction false} OtherReady(g: Graph, types: seq<SubsetType>, first: SubsetType, path: seq<int>)
    returns (n: int)
    requires PlacedPath(g, types, path) && EndType(types, path) != first && HasMostChanges(g, types, first, path)
    ensures IsNode(g, n) && Ready(g, n, {}) && types[n] != first
  {
    hide DependsOnCycle, DependsDirectly, Ready, Changes;
    var long := DownToReady(g, types, path);
    n := long[|long| - 1];
  }

  lemma {:induction false} OtherIsShorter(g: Graph, types: seq<SubsetType>, subsets: seq<NodeSubset>,
                                          other: seq<NodeSubset>, path: seq<int>)
    requires SaturatedPartition(g, types, subsets) && SaturatedPartition(g, types, other) && TwoTypes(types)
    requires subsets != [] && other != [] && other[0].typ != subsets[0].typ
    requires PlacedPath(g, types, path) && EndType(types, path) != subsets[0].typ
    requires HasMostChanges(g, types, subsets[0].typ, path)
    ensures |other| < |subsets|
  {
    SaturatedIsCandidate(g, types, subsets);
    TypeOfSubset(types, subsets[0]);
    TypeOfSubset(types, other[0]);
    hide SaturatedPartition, DependsOnCycle, DependsDirectly, Candidate, Changes;
    LevelOfRival(g, types, subsets, subsets, path);
    var high := HighestPath(g, types, other);
    LevelOfRival(g, types, subsets, subsets, high);
  }

  lemma {:induction false} SaturatedIsCandidate(g: Graph, types: seq<SubsetType>, subsets: seq<NodeSubset>)
    requires SaturatedPartition(g, types, subsets)
    ensures Candidate(g, types, subsets)
  {
  }

  /** The code's partition is the shortest exactly when, among the paths off cycles, none that ends in
      the other type has more type changes than all that end in the type the code starts with. */
  lemma {:induction false} ShortestIff(g: Graph, types: seq<SubsetType>, subsets: seq<NodeSubset>, first: SubsetType)
    requires GreedyPartition(g, types, subsets) && TwoTypes(types) && OpeningType(g, types, first)
    ensures (forall other :: Rival(g, types, subsets, other) ==> |subsets| <= |other|) <==> StartsWell(g, types, first)
  {
    hide OpeningType, SaturatedPartition, StartsWell, Rival, OpenedByFirst;
    CodeOpensWith(g, types, subsets, first);
    if StartsWell(g, types, first) {
      forall other | Rival(g, types, subsets, other) ensures |subsets| <= |other| {
        StartingWellIsShortest(g, types, subsets, other);
      }
    } else {
      var other := StartingBadlyIsLonger(g, types, subsets);
    }
  }

  /** In particular it is the shortest if every node that is ready at the start has that type. */
  lemma {:induction false} OneReadyTypeStartsWell(g: Graph, types: seq<SubsetType>, first: SubsetType)
    requires |types| == |g.nodes| && forall n :: IsNode(g, n) && Ready(g, n, {}) ==> types[n] == first
    ensures StartsWell(g, types, first)
  {
    forall path | PlacedPath(g, types, path) && EndType(types, path) != first
      ensures exists best ::
                PlacedPath(g, types, best) && EndType(types, best) == first
                && Changes(types, best) >= Changes(types, path)
    {
      var best := DownToReady(g, types, path);
    }
  }
}
