/** The partitioner of tensorflow/lite/graph_info.cc: repeated sweeps over the nodes that
    collect every ready node of the current type into the current subset ("epoch"). */
module Partitioner {
  import opened Collections
  import opened Graphs

  datatype SubsetType = Unexplored | Partition | NonPartition

  datatype NodeSubset = NodeSubset(typ: SubsetType, nodes: seq<int>,
                                   inputTensors: seq<int>, outputTensors: seq<int>)

  const EPOCH_NOT_READY := -1
  const EPOCH_ALWAYS_READY := -2

  /** All nodes of the subsets, subset after subset. */
  ghost function Order(subsets: seq<NodeSubset>): seq<int> {
    if subsets == [] then []
    else Order(subsets[..|subsets| - 1]) + subsets[|subsets| - 1].nodes
  }

  /** The nodes of the first k subsets. */
  ghost function Prefix(subsets: seq<NodeSubset>, k: nat): set<int>
    requires k <= |subsets|
  {
    Elements(Order(subsets[..k]))
  }

  /** Subset k writes tensor t. */
  ghost predicate SubsetProduces(g: Graph, s: NodeSubset, t: int) {
    exists n :: n in s.nodes && Produces(g, n, t)
  }

  ghost predicate SubsetReads(g: Graph, s: NodeSubset, t: int) {
    exists n :: n in s.nodes && Reads(g, n, t)
  }

  ghost predicate Homogeneous(types: seq<SubsetType>, s: NodeSubset) {
    forall n :: n in s.nodes ==> 0 <= n < |types| && types[n] == s.typ
  }

  /** Subset k is as large as it can be: no further node of its type was ready when it was closed. */
  ghost predicate Saturated(g: Graph, types: seq<SubsetType>, subsets: seq<NodeSubset>, k: nat)
    requires k < |subsets| && |types| == |g.nodes|
  {
    forall n :: IsNode(g, n) && types[n] == subsets[k].typ && n !in Prefix(subsets, k + 1)
      ==> !Ready(g, n, Prefix(subsets, k + 1))
  }

  /** Subset k was opened by the lowest-numbered node that was ready after the first k subsets. */
  ghost predicate OpenedByFirst(g: Graph, subsets: seq<NodeSubset>, k: nat)
    requires k < |subsets|
  {
    subsets[k].nodes != [] ==>
      forall n :: IsNode(g, n) && n < subsets[k].nodes[0] && n !in Prefix(subsets, k) ==>
        !Ready(g, n, Prefix(subsets, k))
  }

  /** After the nodes in done, x can join a subset of the given type. */
  ghost predicate CanJoin(g: Graph, types: seq<SubsetType>, typ: SubsetType, done: set<int>, x: int)
    requires |types| == |g.nodes|
  {
    IsNode(g, x) && types[x] == typ && x !in done && Ready(g, x, done)
  }

  /** Counting up from m and starting over behind the last node, x comes before n. */
  predicate Skipped(m: int, x: int, n: int) {
    if m < n then m < x < n else x > m || x < n
  }

  /** Every further node of subset k is the next one that could join, counting up from the node before it
      and starting over behind the last node. */
  ghost predicate Swept(g: Graph, types: seq<SubsetType>, subsets: seq<NodeSubset>, k: nat)
    requires k < |subsets| && |types| == |g.nodes|
  {
    forall i, x :: 0 < i < |subsets[k].nodes| && Skipped(subsets[k].nodes[i - 1], x, subsets[k].nodes[i]) ==>
      !CanJoin(g, types, subsets[k].typ, Prefix(subsets, k) + Elements(subsets[k].nodes[..i]), x)
  }

  /** Any choice of the first node of a subset, which is then as large as it can be. */
  ghost predicate SaturatedPartition(g: Graph, types: seq<SubsetType>, subsets: seq<NodeSubset>) {
    && |types| == |g.nodes|
    && DependencyOrder(g, Order(subsets))
    && (forall k :: 0 <= k < |subsets| ==> subsets[k].nodes != [] && Homogeneous(types, subsets[k]))
    && (forall k :: 0 <= k < |subsets| ==> Saturated(g, types, subsets, k))
    && (forall n :: IsNode(g, n) && n !in Prefix(subsets, |subsets|) ==> !Ready(g, n, Prefix(subsets, |subsets|)))
  }

  /** What partitioning promises about the nodes of the subsets. */
  ghost predicate GreedyPartition(g: Graph, types: seq<SubsetType>, subsets: seq<NodeSubset>) {
    && SaturatedPartition(g, types, subsets)
    && (forall k :: 0 <= k < |subsets| ==> OpenedByFirst(g, subsets, k))
    && (forall k :: 0 <= k < |subsets| ==> Swept(g, types, subsets, k))
  }

  ghost predicate HasInput(subsets: seq<NodeSubset>, k: int, t: int) {
    0 <= k < |subsets| && t in subsets[k].inputTensors
  }

  ghost predicate HasOutput(subsets: seq<NodeSubset>, k: int, t: int) {
    0 <= k < |subsets| && t in subsets[k].outputTensors
  }

  ghost predicate StrictlySorted(s: seq<int>) {
    forall i, j :: 0 <= i < j < |s| ==> s[i] < s[j]
  }

  /** The tensors a subset's boundary lists must name. */
  ghost predicate IsInputOf(g: Graph, s: NodeSubset, t: int) {
    SubsetReads(g, s, t) && !SubsetProduces(g, s, t)
  }

  ghost predicate IsOutputOf(g: Graph, subsets: seq<NodeSubset>, k: nat, t: int)
    requires k < |subsets|
  {
    && SubsetProduces(g, subsets[k], t)
    && (t in g.outputs || exists j :: 0 <= j < |subsets| && j != k && SubsetReads(g, subsets[j], t))
  }

  ghost predicate ExactBoundaries(g: Graph, subsets: seq<NodeSubset>) {
    forall k :: 0 <= k < |subsets| ==>
      && StrictlySorted(subsets[k].inputTensors)
      && StrictlySorted(subsets[k].outputTensors)
      && (forall t :: t in subsets[k].inputTensors <==> IsInputOf(g, subsets[k], t))
      && (forall t :: t in subsets[k].outputTensors <==> IsOutputOf(g, subsets, k, t))
  }

  /** The fields the sweeps update, as a value. */
  datatype Progress = Progress(subsets: seq<NodeSubset>, tensorEpochs: seq<int>, nodeEpochs: seq<int>)

  ghost predicate Shapes(g: Graph, types: seq<SubsetType>, p: Progress) {
    && InRange(g) && SingleProducer(g)
    && |types| == |g.nodes| == |p.nodeEpochs| && |p.tensorEpochs| == g.numTensors
    && (forall n :: 0 <= n < |types| ==> types[n] != Unexplored)
  }

  /** Node and tensor epochs record exactly which subset a node was placed in. */
  ghost predicate EpochsAgree(g: Graph, types: seq<SubsetType>, p: Progress)
    requires Shapes(g, types, p)
  {
    && (forall n :: IsNode(g, n) ==> -1 <= p.nodeEpochs[n] < |p.subsets|)
    && (forall n, k :: 0 <= k < |p.subsets| ==>
          (n in p.subsets[k].nodes <==> IsNode(g, n) && p.nodeEpochs[n] == k))
    && (forall n, t :: Produces(g, n, t) ==> p.tensorEpochs[t] == p.nodeEpochs[n])
    && (forall t :: IsTensor(g, t) && !Produced(g, t) ==> p.tensorEpochs[t] == EPOCH_ALWAYS_READY)
  }

  ghost predicate Types(g: Graph, types: seq<SubsetType>, p: Progress)
    requires Shapes(g, types, p)
  {
    && (forall k :: 0 <= k < |p.subsets| ==> Homogeneous(types, p.subsets[k]))
    && (forall k :: 0 <= k < |p.subsets| ==> (p.subsets[k].typ == Unexplored <==> p.subsets[k].nodes == []))
    && (forall k :: 0 <= k < |p.subsets| - 1 ==> p.subsets[k].nodes != [])
  }

  /** A node is placed no earlier than the tensors it reads. */
  ghost predicate ReadsPlaced(g: Graph, types: seq<SubsetType>, p: Progress)
    requires Shapes(g, types, p)
  {
    forall n, t :: Reads(g, n, t) && p.nodeEpochs[n] >= 0 ==>
      p.tensorEpochs[t] == EPOCH_ALWAYS_READY || 0 <= p.tensorEpochs[t] <= p.nodeEpochs[n]
  }

  /** Some node of epoch k reads t, which another epoch or none produces. */
  ghost predicate ReadFrom(g: Graph, types: seq<SubsetType>, p: Progress, k: int, t: int)
    requires Shapes(g, types, p)
  {
    exists n :: Reads(g, n, t) && p.nodeEpochs[n] == k && p.tensorEpochs[t] != k
  }

  /** t belongs to epoch k and some node of another epoch reads it. */
  ghost predicate ReadBy(g: Graph, types: seq<SubsetType>, p: Progress, k: int, t: int)
    requires Shapes(g, types, p)
  {
    exists n :: Reads(g, n, t) && p.tensorEpochs[t] == k && p.nodeEpochs[n] >= 0 && p.nodeEpochs[n] != k
  }

  /** The boundary lists so far, up to order and repetition and without model outputs. */
  ghost predicate Boundaries(g: Graph, types: seq<SubsetType>, p: Progress)
    requires Shapes(g, types, p)
  {
    && (forall k, t :: 0 <= k < |p.subsets| ==> (HasInput(p.subsets, k, t) <==> ReadFrom(g, types, p, k, t)))
    && (forall k, t :: 0 <= k < |p.subsets| ==> (HasOutput(p.subsets, k, t) <==> ReadBy(g, types, p, k, t)))
  }

  /** Nodes of the type of closed epoch k that are not in epochs 0..k wait for a tensor that is not, either. */
  ghost predicate ClosedEpoch(g: Graph, types: seq<SubsetType>, p: Progress, k: int)
    requires Shapes(g, types, p) && 0 <= k < |p.subsets|
  {
    forall n :: IsNode(g, n) && types[n] == p.subsets[k].typ && !(0 <= p.nodeEpochs[n] <= k) ==>
      exists t :: Reads(g, n, t) && (p.tensorEpochs[t] == EPOCH_NOT_READY || p.tensorEpochs[t] > k)
  }

  /** Lower-numbered nodes than the first of epoch k that are not in epochs before k wait for a tensor that is not,
      either. */
  ghost predicate FirstEpoch(g: Graph, types: seq<SubsetType>, p: Progress, k: int)
    requires Shapes(g, types, p) && 0 <= k < |p.subsets|
  {
    p.subsets[k].nodes != [] ==>
      forall n :: IsNode(g, n) && n < p.subsets[k].nodes[0] && !(0 <= p.nodeEpochs[n] < k) ==>
        exists t :: Reads(g, n, t) && (p.tensorEpochs[t] == EPOCH_NOT_READY || p.tensorEpochs[t] >= k)
  }

  ghost predicate FirstEpochs(g: Graph, types: seq<SubsetType>, p: Progress)
    requires Shapes(g, types, p)
  {
    forall k :: 0 <= k < |p.subsets| ==> FirstEpoch(g, types, p, k)
  }

  /** All subsets, finished or not, list their nodes in the order the sweeps meet them. */
  ghost predicate SweepOrder(g: Graph, types: seq<SubsetType>, p: Progress)
    requires Shapes(g, types, p)
  {
    FirstEpochs(g, types, p) && forall k :: 0 <= k < |p.subsets| ==> Swept(g, types, p.subsets, k)
  }

  /** Since it placed the last node of the current subset, the sweep found no eligible node before n. */
  ghost predicate NoneSince(g: Graph, types: seq<SubsetType>, p: Progress, n: int)
    requires Shapes(g, types, p) && p.subsets != []
  {
    var nodes := p.subsets[|p.subsets| - 1].nodes;
    nodes != [] ==>
      forall x :: IsNode(g, x) && Skipped(nodes[|nodes| - 1], x, n) ==> !Eligible(g, types, p, x)
  }

  ghost predicate NoneSkipped(g: Graph, types: seq<SubsetType>, p: Progress, n: int)
    requires Shapes(g, types, p) && p.subsets != []
  {
    NoneBefore(g, types, p, n) && NoneSince(g, types, p, n)
  }

  /** While the current subset is empty, the sweep found no eligible node before the given one. */
  ghost predicate NoneBefore(g: Graph, types: seq<SubsetType>, p: Progress, n: int)
    requires Shapes(g, types, p) && p.subsets != []
  {
    p.subsets[|p.subsets| - 1].nodes == [] ==> forall m :: IsNode(g, m) && m < n ==> !Eligible(g, types, p, m)
  }

  ghost predicate Inv(g: Graph, types: seq<SubsetType>, p: Progress) {
    && Shapes(g, types, p)
    && EpochsAgree(g, types, p)
    && Types(g, types, p)
    && ReadsPlaced(g, types, p)
    && Boundaries(g, types, p)
    && DependencyOrder(g, Order(p.subsets))
    && (forall k :: 0 <= k < |p.subsets| - 1 ==> ClosedEpoch(g, types, p, k))
  }

  /** The check of lines 140-160: node n can join the current subset. */
  ghost predicate Eligible(g: Graph, types: seq<SubsetType>, p: Progress, n: int)
    requires Shapes(g, types, p) && IsNode(g, n) && p.subsets != []
  {
    && p.nodeEpochs[n] == EPOCH_NOT_READY
    && (forall t :: Reads(g, n, t) ==> p.tensorEpochs[t] != EPOCH_NOT_READY)
    && (p.subsets[|p.subsets| - 1].typ == Unexplored || p.subsets[|p.subsets| - 1].typ == types[n])
  }

  /** How placing n changes the fields (lists only up to order and repetition). */
  ghost predicate PlaceStep(g: Graph, types: seq<SubsetType>, p: Progress, n: int, q: Progress)
    requires Shapes(g, types, p) && IsNode(g, n) && p.subsets != []
  {
    var last := |p.subsets| - 1;
    && |q.subsets| == |p.subsets| && |q.tensorEpochs| == |p.tensorEpochs|
    && q.nodeEpochs == p.nodeEpochs[n := last]
    && (forall t :: 0 <= t < |p.tensorEpochs| ==>
          q.tensorEpochs[t] == if Produces(g, n, t) then last else p.tensorEpochs[t])
    && (forall k :: 0 <= k < last ==>
          q.subsets[k].typ == p.subsets[k].typ && q.subsets[k].nodes == p.subsets[k].nodes)
    && q.subsets[last].typ == types[n]
    && q.subsets[last].nodes == p.subsets[last].nodes + [n]
    && (forall k, t :: HasInput(q.subsets, k, t) <==>
          HasInput(p.subsets, k, t) || (k == last && Reads(g, n, t) && q.tensorEpochs[t] != last))
    && (forall k, t :: HasOutput(q.subsets, k, t) <==>
          HasOutput(p.subsets, k, t) || (0 <= k < last && Reads(g, n, t) && q.tensorEpochs[t] == k))
  }

  /** The current subset takes the type of its first node (lines 153-155). */
  ghost function Typed(p: Progress, typ: SubsetType): Progress
    requires p.subsets != []
  {
    var last := |p.subsets| - 1;
    p.(subsets := p.subsets[last := p.subsets[last].(typ := typ)])
  }

  lemma {:induction false} TypedIsPlaceable(g: Graph, types: seq<SubsetType>, p: Progress, n: int)
    requires Shapes(g, types, p) && EpochsAgree(g, types, p) && IsNode(g, n) && p.subsets != []
    ensures var q := Typed(p, types[n]); Shapes(g, types, q) && EpochsAgree(g, types, q)
  {
  }

  lemma {:induction false} TypedStep(g: Graph, types: seq<SubsetType>, p: Progress, n: int, q: Progress)
    requires Shapes(g, types, p) && IsNode(g, n) && p.subsets != []
    requires Shapes(g, types, Typed(p, types[n])) && PlaceStep(g, types, Typed(p, types[n]), n, q)
    ensures PlaceStep(g, types, p, n, q)
  {
  }

  /** The effect of lines 170-186 after the inputs seen so far. */
  ghost predicate Linked(base: seq<NodeSubset>, now: seq<NodeSubset>, epochs: seq<int>, seen: seq<int>) {
    && |now| == |base| > 0
    && (forall t :: t in seen && t != OPTIONAL_TENSOR ==> 0 <= t < |epochs|)
    && (forall k :: 0 <= k < |base| ==> now[k].typ == base[k].typ && now[k].nodes == base[k].nodes)
    && (forall k, t :: HasInput(now, k, t) <==>
          HasInput(base, k, t) || (k == |base| - 1 && t in seen && t != OPTIONAL_TENSOR && epochs[t] != k))
    && (forall k, t :: HasOutput(now, k, t) <==>
          HasOutput(base, k, t) || (0 <= k < |base| - 1 && t in seen && t != OPTIONAL_TENSOR && epochs[t] == k))
  }

  ghost function WithInput(s: NodeSubset, t: int): NodeSubset {
    s.(inputTensors := s.inputTensors + [t])
  }

  ghost function WithOutput(s: NodeSubset, t: int): NodeSubset {
    s.(outputTensors := s.outputTensors + [t])
  }

  lemma {:induction false} LinkStep(base: seq<NodeSubset>, now: seq<NodeSubset>, next: seq<NodeSubset>,
                                    epochs: seq<int>, seen: seq<int>, t: int)
    requires Linked(base, now, epochs, seen) && t != OPTIONAL_TENSOR
    requires 0 <= t < |epochs| && epochs[t] < |base|
    requires var last := |base| - 1;
      next == if epochs[t] == last then now
              else if epochs[t] < 0 then now[last := WithInput(now[last], t)]
              else now[last := WithInput(now[last], t)][epochs[t] := WithOutput(now[epochs[t]], t)]
    ensures Linked(base, next, epochs, seen + [t])
  {
    forall k, u
      ensures HasOutput(next, k, u) <==>
                HasOutput(base, k, u) ||
                (0 <= k < |base| - 1 && u in seen + [t] && u != OPTIONAL_TENSOR && epochs[u] == k)
    {
      assert HasOutput(next, k, u) <==> HasOutput(now, k, u) || (0 <= k == epochs[t] < |base| - 1 && u == t);
    }
    forall k, u
      ensures HasInput(next, k, u) <==>
                HasInput(base, k, u) ||
                (k == |base| - 1 && u in seen + [t] && u != OPTIONAL_TENSOR && epochs[u] != k)
    {
      assert HasInput(next, k, u) <==> HasInput(now, k, u) || (k == |base| - 1 && epochs[t] != k && u == t);
    }
  }

  lemma {:induction false} LinkedIsPlaced(g: Graph, types: seq<SubsetType>, p: Progress, n: int, q: Progress,
                                          base: seq<NodeSubset>)
    requires Shapes(g, types, p) && IsNode(g, n) && p.subsets != []
    requires |q.tensorEpochs| == |p.tensorEpochs| && q.nodeEpochs == p.nodeEpochs[n := |p.subsets| - 1]
    requires forall t :: 0 <= t < |p.tensorEpochs| ==>
               q.tensorEpochs[t] == if t in g.nodes[n].outputs then |p.subsets| - 1 else p.tensorEpochs[t]
    requires var last := |p.subsets| - 1;
      p.subsets[last].typ == types[n]
        && base == p.subsets[last := p.subsets[last].(nodes := p.subsets[last].nodes + [n])]
    requires Linked(base, q.subsets, q.tensorEpochs, g.nodes[n].inputs)
    ensures PlaceStep(g, types, p, n, q)
  {
    var last := |p.subsets| - 1;
    forall k, t
      ensures HasOutput(base, k, t) <==> HasOutput(p.subsets, k, t)
      ensures HasInput(base, k, t) <==> HasInput(p.subsets, k, t)
    {
    }
  }

  lemma {:induction false} OrderOfPrefix(s: seq<NodeSubset>, s': seq<NodeSubset>)
    requires |s| == |s'|
    requires forall k :: 0 <= k < |s| ==> s[k].nodes == s'[k].nodes
    ensures Order(s) == Order(s')
  {
    if s != [] {
      OrderOfPrefix(s[..|s| - 1], s'[..|s| - 1]);
    }
  }

  lemma {:induction false} InOrder(s: seq<NodeSubset>, n: int)
    ensures n in Order(s) <==> exists k :: 0 <= k < |s| && n in s[k].nodes
  {
    if s != [] {
      InOrder(s[..|s| - 1], n);
      if n in Order(s[..|s| - 1]) {
        var k :| 0 <= k < |s| - 1 && n in s[..|s| - 1][k].nodes;
        assert n in s[k].nodes;
      }
      if k :| 0 <= k < |s| && n in s[k].nodes {
        if k < |s| - 1 { assert n in s[..|s| - 1][k].nodes; }
      }
    }
  }

  lemma {:induction false} ExtendOrder(g: Graph, order: seq<int>, n: int)
    requires DependencyOrder(g, order) && IsNode(g, n)
    requires n !in order && Ready(g, n, Elements(order))
    ensures DependencyOrder(g, order + [n])
  {
    forall i | 0 <= i < |order| + 1
      ensures Ready(g, (order + [n])[i], Elements((order + [n])[..i]))
    {
      if i == |order| {
        assert (order + [n])[..i] == order;
      } else {
        assert (order + [n])[..i] == order[..i];
      }
    }
  }

  /** In the epochs' terms and in the order's terms, a node is ready under the same condition. */
  lemma {:induction false} EligibleIsReady(g: Graph, types: seq<SubsetType>, p: Progress, n: int)
    requires Shapes(g, types, p) && EpochsAgree(g, types, p) && IsNode(g, n) && p.subsets != []
    requires Eligible(g, types, p, n)
    ensures n !in Order(p.subsets)
    ensures Ready(g, n, Elements(Order(p.subsets)))
  {
    InOrder(p.subsets, n);
    forall m, t | Reads(g, n, t) && Produces(g, m, t) ensures m in Order(p.subsets) {
      var k := p.nodeEpochs[m];
      assert m in p.subsets[k].nodes;
      InOrder(p.subsets, m);
    }
  }

  /** The order of the placed nodes grows by n. */
  lemma {:induction false} PlaceExtendsOrder(g: Graph, types: seq<SubsetType>, p: Progress, n: int, q: Progress)
    requires Shapes(g, types, p) && IsNode(g, n) && p.subsets != []
    requires PlaceStep(g, types, p, n, q)
    ensures Order(q.subsets) == Order(p.subsets) + [n]
  {
    var last := |p.subsets| - 1;
    OrderOfPrefix(p.subsets[..last], q.subsets[..last]);
  }

  lemma {:induction false} PlaceKeepsEpochs(g: Graph, types: seq<SubsetType>, p: Progress, n: int, q: Progress)
    requires Shapes(g, types, p) && EpochsAgree(g, types, p) && IsNode(g, n) && p.subsets != []
    requires Eligible(g, types, p, n) && PlaceStep(g, types, p, n, q)
    ensures Shapes(g, types, q) && EpochsAgree(g, types, q)
  {
  }

  lemma {:induction false} PlaceKeepsTypes(g: Graph, types: seq<SubsetType>, p: Progress, n: int, q: Progress)
    requires Shapes(g, types, p) && EpochsAgree(g, types, p) && Types(g, types, p)
    requires IsNode(g, n) && p.subsets != []
    requires Eligible(g, types, p, n) && PlaceStep(g, types, p, n, q)
    ensures Shapes(g, types, q) && Types(g, types, q)
  {
  }

  lemma {:induction false} PlaceKeepsReads(g: Graph, types: seq<SubsetType>, p: Progress, n: int, q: Progress)
    requires Shapes(g, types, p) && EpochsAgree(g, types, p) && ReadsPlaced(g, types, p)
    requires IsNode(g, n) && p.subsets != []
    requires Eligible(g, types, p, n) && PlaceStep(g, types, p, n, q)
    ensures Shapes(g, types, q) && ReadsPlaced(g, types, q)
  {
    forall m, t | Reads(g, m, t) && q.nodeEpochs[m] >= 0
      ensures q.tensorEpochs[t] == EPOCH_ALWAYS_READY || 0 <= q.tensorEpochs[t] <= q.nodeEpochs[m]
    {
      if Produced(g, t) {
        var k :| Produces(g, k, t);
      }
    }
  }

  lemma {:induction false} PlaceKeepsClosed(g: Graph, types: seq<SubsetType>, p: Progress, n: int, q: Progress, k: int)
    requires Shapes(g, types, p) && EpochsAgree(g, types, p) && IsNode(g, n) && 0 <= k < |p.subsets| - 1
    requires Eligible(g, types, p, n) && PlaceStep(g, types, p, n, q)
    requires ClosedEpoch(g, types, p, k)
    ensures Shapes(g, types, q) && ClosedEpoch(g, types, q, k)
  {
    forall m | IsNode(g, m) && types[m] == q.subsets[k].typ && !(0 <= q.nodeEpochs[m] <= k)
      ensures exists t :: Reads(g, m, t) && (q.tensorEpochs[t] == EPOCH_NOT_READY || q.tensorEpochs[t] > k)
    {
      var t :| Reads(g, m, t) && (p.tensorEpochs[t] == EPOCH_NOT_READY || p.tensorEpochs[t] > k);
      assert q.tensorEpochs[t] == EPOCH_NOT_READY || q.tensorEpochs[t] > k;
    }
  }

  lemma {:induction false} PlaceKeepsFirst(g: Graph, types: seq<SubsetType>, p: Progress, n: int, q: Progress, k: int)
    requires Shapes(g, types, p) && EpochsAgree(g, types, p) && Types(g, types, p) && IsNode(g, n)
    requires 0 <= k < |p.subsets|
    requires Eligible(g, types, p, n) && PlaceStep(g, types, p, n, q) && NoneBefore(g, types, p, n)
    requires FirstEpoch(g, types, p, k) && Shapes(g, types, q)
    ensures FirstEpoch(g, types, q, k)
  {
    forall m | IsNode(g, m) && q.subsets[k].nodes != [] && m < q.subsets[k].nodes[0] && !(0 <= q.nodeEpochs[m] < k)
      ensures exists t :: Reads(g, m, t) && (q.tensorEpochs[t] == EPOCH_NOT_READY || q.tensorEpochs[t] >= k)
    {
      if p.subsets[k].nodes == [] {
        assert m !in p.subsets[k].nodes;
        assert !Eligible(g, types, p, m);
        var t :| Reads(g, m, t) && p.tensorEpochs[t] == EPOCH_NOT_READY;
        assert q.tensorEpochs[t] == EPOCH_NOT_READY || q.tensorEpochs[t] >= k;
      } else {
        var t :| Reads(g, m, t) && (p.tensorEpochs[t] == EPOCH_NOT_READY || p.tensorEpochs[t] >= k);
        assert q.tensorEpochs[t] == EPOCH_NOT_READY || q.tensorEpochs[t] >= k;
      }
    }
  }

  lemma {:induction false} PlaceKeepsFirsts(g: Graph, types: seq<SubsetType>, p: Progress, n: int, q: Progress)
    requires Inv(g, types, p) && IsNode(g, n) && p.subsets != [] && FirstEpochs(g, types, p)
    requires NoneBefore(g, types, p, n)
    requires Eligible(g, types, p, n) && PlaceStep(g, types, p, n, q) && Shapes(g, types, q)
    ensures FirstEpochs(g, types, q)
  {
    hide FirstEpoch, EpochsAgree, Types, ReadsPlaced, Boundaries, DependencyOrder, ClosedEpoch, Eligible, NoneBefore;
    forall k | 0 <= k < |q.subsets| ensures FirstEpoch(g, types, q, k) {
      PlaceKeepsFirst(g, types, p, n, q, k);
    }
  }

  lemma {:induction false} PlacedIsInOrder(g: Graph, types: seq<SubsetType>, p: Progress, x: int)
    requires Shapes(g, types, p) && EpochsAgree(g, types, p) && IsNode(g, x)
    ensures p.nodeEpochs[x] != EPOCH_NOT_READY ==> x in Order(p.subsets)
  {
    InOrder(p.subsets, x);
    if p.nodeEpochs[x] >= 0 {
      assert x in p.subsets[p.nodeEpochs[x]].nodes;
    }
  }

  lemma {:induction false} ReadyIsEligible(g: Graph, types: seq<SubsetType>, p: Progress, x: int)
    requires Shapes(g, types, p) && EpochsAgree(g, types, p) && p.subsets != []
    requires CanJoin(g, types, p.subsets[|p.subsets| - 1].typ, Elements(Order(p.subsets)), x)
    ensures Eligible(g, types, p, x)
  {
    PlacedIsInOrder(g, types, p, x);
    forall t | Reads(g, x, t) ensures p.tensorEpochs[t] != EPOCH_NOT_READY {
      if Produced(g, t) {
        var m :| Produces(g, m, t);
        assert m in Order(p.subsets);
        InOrder(p.subsets, m);
      }
    }
  }

  lemma {:induction false} PrefixOfLast(subsets: seq<NodeSubset>)
    requires subsets != []
    ensures var last := |subsets| - 1;
      Prefix(subsets, last) + Elements(subsets[last].nodes) == Elements(Order(subsets))
  {
  }

  /** Subsets that are not touched stay swept. */
  lemma {:induction false} SweptStays(g: Graph, types: seq<SubsetType>, s: seq<NodeSubset>, s': seq<NodeSubset>, k: nat)
    requires k < |s| && k < |s'| && |types| == |g.nodes| && Swept(g, types, s, k)
    requires forall j :: 0 <= j <= k ==> s'[j].nodes == s[j].nodes
    requires s'[k].typ == s[k].typ
    ensures Swept(g, types, s', k)
  {
    OrderOfPrefix(s[..k], s'[..k]);
    hide CanJoin, Skipped, Order;
    var nodes := s[k].nodes;
    forall i, x | 0 < i < |nodes| && Skipped(nodes[i - 1], x, nodes[i])
      ensures !CanJoin(g, types, s'[k].typ, Prefix(s', k) + Elements(nodes[..i]), x)
    {
      assert !CanJoin(g, types, s[k].typ, Prefix(s, k) + Elements(nodes[..i]), x);
    }
  }

  lemma {:induction false} PlaceKeepsSwept(g: Graph, types: seq<SubsetType>, p: Progress, n: int, q: Progress)
    requires Inv(g, types, p) && IsNode(g, n) && p.subsets != [] && NoneSince(g, types, p, n)
    requires Eligible(g, types, p, n) && PlaceStep(g, types, p, n, q)
    requires Swept(g, types, p.subsets, |p.subsets| - 1)
    ensures Swept(g, types, q.subsets, |p.subsets| - 1)
  {
    var last := |p.subsets| - 1;
    var was, nodes := p.subsets[last].nodes, q.subsets[last].nodes;
    OrderOfPrefix(p.subsets[..last], q.subsets[..last]);
    PrefixOfLast(p.subsets);
    assert was != [] ==> p.subsets[last].typ == types[n] == q.subsets[last].typ;
    forall i, x | 0 < i < |nodes| && Skipped(nodes[i - 1], x, nodes[i])
      ensures !CanJoin(g, types, q.subsets[last].typ, Prefix(q.subsets, last) + Elements(nodes[..i]), x)
    {
      if i < |was| {
        assert nodes[..i] == was[..i];
        assert !CanJoin(g, types, p.subsets[last].typ, Prefix(p.subsets, last) + Elements(was[..i]), x);
      } else {
        assert nodes[..i] == was;
        if CanJoin(g, types, p.subsets[last].typ, Elements(Order(p.subsets)), x) {
          ReadyIsEligible(g, types, p, x);
        }
      }
    }
  }

  lemma {:induction false} PlacementKeepsOrder(g: Graph, types: seq<SubsetType>, p: Progress, n: int, q: Progress)
    requires Inv(g, types, p) && IsNode(g, n) && p.subsets != []
    requires Eligible(g, types, p, n) && PlaceStep(g, types, p, n, q) && Shapes(g, types, q)
    ensures SweepOrder(g, types, p) && NoneSkipped(g, types, p, n) ==>
            SweepOrder(g, types, q) && NoneSkipped(g, types, q, n + 1)
  {
    hide FirstEpochs, EpochsAgree, Types, ReadsPlaced, Boundaries, DependencyOrder, ClosedEpoch, Eligible, Swept,
      Order;
    if SweepOrder(g, types, p) && NoneSkipped(g, types, p, n) {
      PlaceKeepsFirsts(g, types, p, n, q);
      PlaceKeepsSwept(g, types, p, n, q);
      forall k | 0 <= k < |q.subsets| ensures Swept(g, types, q.subsets, k) {
        if k < |p.subsets| - 1 {
          SweptStays(g, types, p.subsets, q.subsets, k);
        }
      }
    }
  }

  lemma {:induction false} NoneUntil(g: Graph, types: seq<SubsetType>, p: Progress, n: int)
    requires Shapes(g, types, p) && p.subsets != [] && IsNode(g, n)
    ensures NoneSkipped(g, types, p, n) && !Eligible(g, types, p, n) ==> NoneSkipped(g, types, p, n + 1)
  {
    hide Eligible;
  }

  /** The next sweep goes on where the last one ended. */
  lemma {:induction false} NoneAgain(g: Graph, types: seq<SubsetType>, p: Progress)
    requires Shapes(g, types, p) && EpochsAgree(g, types, p) && p.subsets != []
    requires NoneSkipped(g, types, p, |g.nodes|)
    ensures NoneSkipped(g, types, p, 0)
  {
    var nodes := p.subsets[|p.subsets| - 1].nodes;
    assert nodes != [] ==> nodes[|nodes| - 1] in nodes;
    hide Eligible;
  }

  /** Placing an eligible node keeps every invariant. */
  lemma {:induction false} PlaceKeepsInv(g: Graph, types: seq<SubsetType>, p: Progress, n: int, q: Progress)
    requires Inv(g, types, p) && IsNode(g, n) && p.subsets != []
    requires Eligible(g, types, p, n) && PlaceStep(g, types, p, n, q)
    ensures Inv(g, types, q)
  {
    EligibleIsReady(g, types, p, n);
    PlaceExtendsOrder(g, types, p, n, q);
    ExtendOrder(g, Order(p.subsets), n);
    PlaceKeepsEpochs(g, types, p, n, q);
    PlaceKeepsTypes(g, types, p, n, q);
    PlaceKeepsReads(g, types, p, n, q);
    PlaceKeepsBoundaries(g, types, p, n, q);
    forall k | 0 <= k < |q.subsets| - 1 ensures ClosedEpoch(g, types, q, k) {
      PlaceKeepsClosed(g, types, p, n, q, k);
    }
  }

  /** Placing n in the last epoch adds exactly n's own reads to the cross-epoch reads. */
  lemma {:induction false} PlaceChangesReads(g: Graph, types: seq<SubsetType>, p: Progress, n: int, q: Progress,
                                             k: int, t: int)
    requires Inv(g, types, p) && IsNode(g, n) && p.subsets != []
    requires Eligible(g, types, p, n) && PlaceStep(g, types, p, n, q)
    requires Shapes(g, types, q) && 0 <= k < |p.subsets|
    ensures ReadFrom(g, types, q, k, t) <==>
              ReadFrom(g, types, p, k, t) || (k == |p.subsets| - 1 && Reads(g, n, t) && q.tensorEpochs[t] != k)
    ensures ReadBy(g, types, q, k, t) <==>
              ReadBy(g, types, p, k, t) || (k < |p.subsets| - 1 && Reads(g, n, t) && q.tensorEpochs[t] == k)
  {
    if m :| Reads(g, m, t) && p.nodeEpochs[m] == k && p.tensorEpochs[t] != k {
      assert q.nodeEpochs[m] == k && q.tensorEpochs[t] != k;
    }
    if m :| Reads(g, m, t) && p.tensorEpochs[t] == k && p.nodeEpochs[m] >= 0 && p.nodeEpochs[m] != k {
      assert q.tensorEpochs[t] == k && q.nodeEpochs[m] == p.nodeEpochs[m];
    }
    if m :| Reads(g, m, t) && q.nodeEpochs[m] == k && q.tensorEpochs[t] != k && m != n {
      assert p.nodeEpochs[m] == k && p.tensorEpochs[t] != k;
    }
    if m :| Reads(g, m, t) && q.tensorEpochs[t] == k && q.nodeEpochs[m] >= 0 && q.nodeEpochs[m] != k && m != n {
      assert p.tensorEpochs[t] == k && p.nodeEpochs[m] == q.nodeEpochs[m];
    }
  }

  lemma {:induction false} PlaceKeepsBoundaries(g: Graph, types: seq<SubsetType>, p: Progress, n: int, q: Progress)
    requires Inv(g, types, p) && IsNode(g, n) && p.subsets != []
    requires Eligible(g, types, p, n) && PlaceStep(g, types, p, n, q)
    requires Shapes(g, types, q)
    ensures Boundaries(g, types, q)
  {
    var last := |p.subsets| - 1;
    forall k, t | 0 <= k <= last
      ensures HasInput(q.subsets, k, t) <==> ReadFrom(g, types, q, k, t)
      ensures HasOutput(q.subsets, k, t) <==> ReadBy(g, types, q, k, t)
    {
      PlaceChangesReads(g, types, p, n, q, k, t);
    }
  }

  ghost function Unplaced(p: Progress): set<int> {
    set n | 0 <= n < |p.nodeEpochs| && p.nodeEpochs[n] == EPOCH_NOT_READY
  }

  lemma {:induction false} PlacedShrinks(p: Progress, q: Progress, n: int)
    requires 0 <= n < |p.nodeEpochs| && p.nodeEpochs[n] == EPOCH_NOT_READY
    requires q.nodeEpochs == p.nodeEpochs[n := |q.subsets| - 1] && q.subsets != []
    ensures Unplaced(q) < Unplaced(p)
  {
    assert n in Unplaced(p) && n !in Unplaced(q);
  }

  /** No node can join the current subset. */
  ghost predicate Exhausted(g: Graph, types: seq<SubsetType>, p: Progress)
    requires Shapes(g, types, p) && p.subsets != []
  {
    forall n :: IsNode(g, n) ==> !Eligible(g, types, p, n)
  }

  /** Between two subsets: the invariant holds and every subset is nonempty and closed. */
  ghost predicate BetweenSubsets(g: Graph, types: seq<SubsetType>, p: Progress) {
    && Inv(g, types, p)
    && (forall k :: 0 <= k < |p.subsets| ==> p.subsets[k].nodes != [])
    && (forall k :: 0 <= k < |p.subsets| ==> ClosedEpoch(g, types, p, k))
    && SweepOrder(g, types, p)
  }

  ghost function Opened(p: Progress): Progress {
    p.(subsets := p.subsets + [NodeSubset(Unexplored, [], [], [])])
  }

  lemma {:induction false} OpenedEpochs(g: Graph, types: seq<SubsetType>, p: Progress)
    requires BetweenSubsets(g, types, p)
    ensures var q := Opened(p);
      Shapes(g, types, q) && EpochsAgree(g, types, q) && Types(g, types, q) && ReadsPlaced(g, types, q)
  {
    hide Boundaries, ClosedEpoch, DependencyOrder, Order, Reads, Produces;
  }

  lemma {:induction false} OpenedBoundaries(g: Graph, types: seq<SubsetType>, p: Progress)
    requires BetweenSubsets(g, types, p)
    requires var q := Opened(p); Shapes(g, types, q) && EpochsAgree(g, types, q)
    ensures Boundaries(g, types, Opened(p))
  {
    hide ClosedEpoch, DependencyOrder, Order, Reads, Produces, EpochsAgree, Types, ReadsPlaced;
    var q := Opened(p);
    forall k, t | 0 <= k < |q.subsets|
      ensures HasInput(q.subsets, k, t) <==> ReadFrom(g, types, q, k, t)
      ensures HasOutput(q.subsets, k, t) <==> ReadBy(g, types, q, k, t)
    {
      if k < |p.subsets| {
        assert HasInput(q.subsets, k, t) == HasInput(p.subsets, k, t);
        assert HasOutput(q.subsets, k, t) == HasOutput(p.subsets, k, t);
        assert ReadFrom(g, types, q, k, t) == ReadFrom(g, types, p, k, t);
        assert ReadBy(g, types, q, k, t) == ReadBy(g, types, p, k, t);
      } else {
        NothingInNextEpoch(g, types, q, k, t);
      }
    }
  }

  lemma {:induction false} OpenSubset(g: Graph, types: seq<SubsetType>, p: Progress)
    requires BetweenSubsets(g, types, p)
    ensures Inv(g, types, p.(subsets := p.subsets + [NodeSubset(Unexplored, [], [], [])]))
    ensures SweepOrder(g, types, p.(subsets := p.subsets + [NodeSubset(Unexplored, [], [], [])]))
  {
    hide DependencyOrder, Reads, Produces, EpochsAgree, Types, ReadsPlaced, Boundaries;
    var q := Opened(p);
    OpenedEpochs(g, types, p);
    OpenedBoundaries(g, types, p);
    assert q.subsets[..|p.subsets|] == p.subsets;
    assert Order(q.subsets) == Order(p.subsets);
    forall k | 0 <= k < |q.subsets| - 1 ensures ClosedEpoch(g, types, q, k) {
      assert ClosedEpoch(g, types, p, k);
    }
    forall k | 0 <= k < |q.subsets| ensures FirstEpoch(g, types, q, k) {
      assert k < |p.subsets| ==> FirstEpoch(g, types, p, k);
    }
    hide FirstEpoch, ClosedEpoch;
    forall k | 0 <= k < |q.subsets| ensures Swept(g, types, q.subsets, k) {
      if k < |p.subsets| {
        SweptStays(g, types, p.subsets, q.subsets, k);
      }
    }
  }

  lemma {:induction false} NothingInNextEpoch(g: Graph, types: seq<SubsetType>, q: Progress, k: int, t: int)
    requires Shapes(g, types, q) && EpochsAgree(g, types, q)
    requires k == |q.subsets| - 1 >= 0 && q.subsets[k].nodes == []
    ensures !ReadFrom(g, types, q, k, t) && !ReadBy(g, types, q, k, t)
  {
    forall n | IsNode(g, n) ensures q.nodeEpochs[n] != k {
      assert n !in q.subsets[k].nodes;
    }
    if IsTensor(g, t) && Produced(g, t) {
      var m :| Produces(g, m, t);
    }
  }

  /** An exhausted subset is closed. */
  lemma {:induction false} CloseSubset(g: Graph, types: seq<SubsetType>, p: Progress)
    requires Inv(g, types, p) && p.subsets != [] && Exhausted(g, types, p)
    requires p.subsets[|p.subsets| - 1].nodes != [] && SweepOrder(g, types, p)
    ensures BetweenSubsets(g, types, p)
  {
    var last := |p.subsets| - 1;
    forall n | IsNode(g, n) && types[n] == p.subsets[last].typ && !(0 <= p.nodeEpochs[n] <= last)
      ensures exists t :: Reads(g, n, t) && p.tensorEpochs[t] == EPOCH_NOT_READY
    {
      assert !Eligible(g, types, p, n);
    }
    assert ClosedEpoch(g, types, p, last);
  }

  lemma {:induction false} DropKeepsEpochs(g: Graph, types: seq<SubsetType>, p: Progress)
    requires Shapes(g, types, p) && EpochsAgree(g, types, p)
    requires p.subsets != [] && p.subsets[|p.subsets| - 1].nodes == []
    ensures EpochsAgree(g, types, p.(subsets := p.subsets[..|p.subsets| - 1]))
  {
    var last := |p.subsets| - 1;
    forall n | IsNode(g, n) ensures p.nodeEpochs[n] != last {
      assert n !in p.subsets[last].nodes;
    }
  }

  lemma {:induction false} DropKeepsBoundaries(g: Graph, types: seq<SubsetType>, p: Progress)
    requires Shapes(g, types, p) && Boundaries(g, types, p) && p.subsets != []
    ensures Boundaries(g, types, p.(subsets := p.subsets[..|p.subsets| - 1]))
  {
    var last := |p.subsets| - 1;
    var q := p.(subsets := p.subsets[..last]);
    forall k, t | 0 <= k < last
      ensures HasInput(q.subsets, k, t) <==> ReadFrom(g, types, q, k, t)
      ensures HasOutput(q.subsets, k, t) <==> ReadBy(g, types, q, k, t)
    {
      assert HasInput(q.subsets, k, t) == HasInput(p.subsets, k, t);
      assert HasOutput(q.subsets, k, t) == HasOutput(p.subsets, k, t);
      assert ReadFrom(g, types, q, k, t) == ReadFrom(g, types, p, k, t);
      assert ReadBy(g, types, q, k, t) == ReadBy(g, types, p, k, t);
    }
  }

  lemma {:induction false} DropKeepsTypes(g: Graph, types: seq<SubsetType>, p: Progress)
    requires Inv(g, types, p) && p.subsets != [] && p.subsets[|p.subsets| - 1].nodes == []
    ensures var q := p.(subsets := p.subsets[..|p.subsets| - 1]);
      Shapes(g, types, q) && Types(g, types, q) && ReadsPlaced(g, types, q)
  {
    hide Boundaries, DependencyOrder, Order, ClosedEpoch;
    var q := p.(subsets := p.subsets[..|p.subsets| - 1]);
    assert Shapes(g, types, q);
    assert Types(g, types, q);
  }

  lemma {:induction false} DropKeepsInv(g: Graph, types: seq<SubsetType>, p: Progress)
    requires Inv(g, types, p) && p.subsets != [] && p.subsets[|p.subsets| - 1].nodes == [] && SweepOrder(g, types, p)
    ensures BetweenSubsets(g, types, p.(subsets := p.subsets[..|p.subsets| - 1]))
  {
    var last := |p.subsets| - 1;
    var q := p.(subsets := p.subsets[..last]);
    assert Order(q.subsets) == Order(p.subsets);
    DropKeepsEpochs(g, types, p);
    DropKeepsTypes(g, types, p);
    DropKeepsBoundaries(g, types, p);
    hide Shapes, Types, ReadsPlaced, EpochsAgree, Boundaries, DependencyOrder, Order;
    forall k | 0 <= k < |q.subsets| ensures ClosedEpoch(g, types, q, k) && FirstEpoch(g, types, q, k) {
      assert ClosedEpoch(g, types, p, k) && FirstEpoch(g, types, p, k);
    }
    forall k | 0 <= k < |q.subsets| ensures Swept(g, types, q.subsets, k) {
      SweptStays(g, types, p.subsets, q.subsets, k);
    }
  }

  /** An empty exhausted subset means that no unplaced node is ready, and it can be dropped. */
  lemma {:induction false} DropEmptySubset(g: Graph, types: seq<SubsetType>, p: Progress)
    requires Inv(g, types, p) && p.subsets != [] && Exhausted(g, types, p)
    requires p.subsets[|p.subsets| - 1].nodes == [] && SweepOrder(g, types, p)
    ensures BetweenSubsets(g, types, p.(subsets := p.subsets[..|p.subsets| - 1]))
    ensures forall n :: IsNode(g, n) && p.nodeEpochs[n] == EPOCH_NOT_READY ==>
              exists t :: Reads(g, n, t) && p.tensorEpochs[t] == EPOCH_NOT_READY
  {
    DropKeepsInv(g, types, p);
    forall n | IsNode(g, n) && p.nodeEpochs[n] == EPOCH_NOT_READY
      ensures exists t :: Reads(g, n, t) && p.tensorEpochs[t] == EPOCH_NOT_READY
    {
      assert !Eligible(g, types, p, n);
    }
  }

  lemma {:induction false} InPrefix(g: Graph, types: seq<SubsetType>, p: Progress, k: nat, n: int)
    requires Shapes(g, types, p) && EpochsAgree(g, types, p) && k <= |p.subsets| && IsNode(g, n)
    ensures n in Prefix(p.subsets, k) <==> 0 <= p.nodeEpochs[n] < k
  {
    InOrder(p.subsets[..k], n);
    if 0 <= p.nodeEpochs[n] < k {
      assert n in p.subsets[..k][p.nodeEpochs[n]].nodes;
    }
  }

  /** A node that waits for a tensor not yet placed by epoch k is not ready after the first k subsets. */
  lemma {:induction false} WaitingIsNotReady(g: Graph, types: seq<SubsetType>, p: Progress, k: nat, n: int, t: int)
    requires Shapes(g, types, p) && EpochsAgree(g, types, p) && k <= |p.subsets|
    requires Reads(g, n, t) && (p.tensorEpochs[t] == EPOCH_NOT_READY || p.tensorEpochs[t] >= k)
    ensures !Ready(g, n, Prefix(p.subsets, k))
  {
    assert Produced(g, t);
    var m :| Produces(g, m, t);
    InPrefix(g, types, p, k, m);
  }

  lemma {:induction false} FinishedIsOpenedByFirst(g: Graph, types: seq<SubsetType>, p: Progress)
    requires Shapes(g, types, p) && EpochsAgree(g, types, p) && FirstEpochs(g, types, p)
    ensures forall k :: 0 <= k < |p.subsets| ==> OpenedByFirst(g, p.subsets, k)
  {
    forall k: nat, n | k < |p.subsets| && p.subsets[k].nodes != [] && IsNode(g, n) && n < p.subsets[k].nodes[0]
      && n !in Prefix(p.subsets, k)
      ensures !Ready(g, n, Prefix(p.subsets, k))
    {
      InPrefix(g, types, p, k, n);
      assert FirstEpoch(g, types, p, k);
      var t :| Reads(g, n, t) && (p.tensorEpochs[t] == EPOCH_NOT_READY || p.tensorEpochs[t] >= k);
      WaitingIsNotReady(g, types, p, k, n, t);
    }
  }

  /** A node that a closed epoch could not take was not ready when the epoch was closed. */
  lemma {:induction false} ClosedIsSaturated(g: Graph, types: seq<SubsetType>, p: Progress, k: nat)
    requires Shapes(g, types, p) && EpochsAgree(g, types, p) && k < |p.subsets| && ClosedEpoch(g, types, p, k)
    ensures Saturated(g, types, p.subsets, k)
  {
    forall n | IsNode(g, n) && types[n] == p.subsets[k].typ && n !in Prefix(p.subsets, k + 1)
      ensures !Ready(g, n, Prefix(p.subsets, k + 1))
    {
      InPrefix(g, types, p, k + 1, n);
      var t :| Reads(g, n, t) && (p.tensorEpochs[t] == EPOCH_NOT_READY || p.tensorEpochs[t] > k);
      hide Prefix, Ready, EpochsAgree, Reads;
      WaitingIsNotReady(g, types, p, k + 1, n, t);
    }
  }

  /** When no subset can be opened any more, the subsets are a greedy partition. */
  lemma {:induction false} FinishedIsGreedy(g: Graph, types: seq<SubsetType>, p: Progress)
    requires BetweenSubsets(g, types, p)
    requires forall n :: IsNode(g, n) && p.nodeEpochs[n] == EPOCH_NOT_READY ==>
               exists t :: Reads(g, n, t) && p.tensorEpochs[t] == EPOCH_NOT_READY
    ensures GreedyPartition(g, types, p.subsets)
  {
    FinishedIsOpenedByFirst(g, types, p);
    forall k | 0 <= k < |p.subsets| ensures Saturated(g, types, p.subsets, k) {
      ClosedIsSaturated(g, types, p, k);
    }
    forall n | IsNode(g, n) && n !in Prefix(p.subsets, |p.subsets|)
      ensures !Ready(g, n, Prefix(p.subsets, |p.subsets|))
    {
      InPrefix(g, types, p, |p.subsets|, n);
      assert -1 <= p.nodeEpochs[n] < |p.subsets|;
      hide Prefix, Ready, EpochsAgree, Reads, Saturated, OpenedByFirst, ClosedEpoch, FirstEpochs, DependencyOrder,
        Order, Boundaries, ReadsPlaced, Types, Swept;
      var t :| Reads(g, n, t) && p.tensorEpochs[t] == EPOCH_NOT_READY;
      WaitingIsNotReady(g, types, p, |p.subsets|, n, t);
    }
    hide Prefix, Ready, EpochsAgree, Reads, Saturated, OpenedByFirst, ClosedEpoch, FirstEpochs, DependencyOrder,
      Order, Boundaries, ReadsPlaced, Swept;
  }

  ghost predicate Sorted(s: seq<int>) {
    forall i, j :: 0 <= i < j < |s| ==> s[i] <= s[j]
  }

  /** Inserts x before the first element that is not smaller. */
  method Insert(sorted: seq<int>, x: int) returns (r: seq<int>)
    requires Sorted(sorted)
    ensures Sorted(r)
    ensures forall y :: y in r <==> y in sorted || y == x
  {
    var j := 0;
    while j < |sorted| && sorted[j] < x
      invariant 0 <= j <= |sorted|
      invariant forall a :: 0 <= a < j ==> sorted[a] < x
    {
      j := j + 1;
    }
    r := sorted[..j] + [x] + sorted[j..];
    InsertedAt(sorted, j, x);
  }

  lemma {:induction false} InsertedAt(sorted: seq<int>, j: nat, x: int)
    requires Sorted(sorted) && j <= |sorted|
    requires (forall a :: 0 <= a < j ==> sorted[a] < x) && (j < |sorted| ==> x <= sorted[j])
    ensures var r := sorted[..j] + [x] + sorted[j..]; Sorted(r) && forall y :: y in r <==> y in sorted || y == x
  {
    var r := sorted[..j] + [x] + sorted[j..];
    assert sorted == sorted[..j] + sorted[j..];
    forall y ensures y in r <==> y in sorted || y == x {
      InsertedElement(sorted[..j], sorted[j..], x, y);
    }
    forall a, b | 0 <= a < b < |r| ensures r[a] <= r[b] {
      InsertedIndex(sorted, j, x, a);
      InsertedIndex(sorted, j, x, b);
    }
  }

  lemma {:induction false} InsertedElement(before: seq<int>, after: seq<int>, x: int, y: int)
    ensures y in before + [x] + after <==> y in before + after || y == x
  {
  }

  lemma {:induction false} InsertedIndex(s: seq<int>, j: nat, x: int, a: nat)
    requires j <= |s| && a <= |s|
    ensures (s[..j] + [x] + s[j..])[a] == if a < j then s[a] else if a == j then x else s[a - 1]
  {
  }

  /** Insertion sort, standing for std::sort. */
  method Sort(items: seq<int>) returns (sorted: seq<int>)
    ensures Sorted(sorted)
    ensures forall y :: y in sorted <==> y in items
  {
    sorted := [];
    for i := 0 to |items|
      invariant Sorted(sorted)
      invariant forall y :: y in sorted <==> y in items[..i]
    {
      assert items[..i + 1] == items[..i] + [items[i]];
      sorted := Insert(sorted, items[i]);
    }
    assert items[..|items|] == items;
  }

  /** Lines 110-114: sort, then drop every element equal to its predecessor. */
  method Uniquefy(items: seq<int>) returns (unique: seq<int>)
    ensures StrictlySorted(unique)
    ensures forall x :: x in unique <==> x in items
  {
    var sorted := Sort(items);
    unique := [];
    for i := 0 to |sorted|
      invariant forall x :: x in unique <==> x in sorted[..i]
      invariant forall a, b :: 0 <= a < b < |unique| ==> unique[a] < unique[b]
      invariant i > 0 ==> unique != [] && unique[|unique| - 1] == sorted[i - 1]
      invariant i == 0 ==> unique == []
    {
      assert sorted[..i + 1] == sorted[..i] + [sorted[i]];
      if i == 0 || sorted[i] != unique[|unique| - 1] {
        unique := unique + [sorted[i]];
      }
    }
    assert sorted[..|sorted|] == sorted;
  }

  class PartitionImpl {
    const info: Graph
    var nodeSubsets: seq<NodeSubset>
    var nodeType: seq<SubsetType>
    var tensorEpochs: seq<int>
    var nodeEpochs: seq<int>

    ghost function View(): Progress
      reads this
    {
      Progress(nodeSubsets, tensorEpochs, nodeEpochs)
    }

    /** Lines 54-64. */
    constructor (info: Graph, nodesToPartition: seq<int>)
      requires forall n :: n in nodesToPartition ==> IsNode(info, n)
      ensures this.info == info && |nodeType| == |info.nodes|
      ensures forall n :: IsNode(info, n) ==>
                nodeType[n] == if n in nodesToPartition then SubsetType.Partition else NonPartition
    {
      this.info := info;
      nodeSubsets, tensorEpochs, nodeEpochs := [], [], [];
      nodeType := seq(|info.nodes|, _ => NonPartition);
      new;
      for i := 0 to |nodesToPartition|
        invariant |nodeType| == |info.nodes|
        invariant forall n :: n in nodesToPartition ==> IsNode(info, n)
        invariant forall n :: IsNode(info, n) ==>
                    nodeType[n] == if n in nodesToPartition[..i] then SubsetType.Partition else NonPartition
      {
        assert nodesToPartition[i] in nodesToPartition;
        nodeType := nodeType[nodesToPartition[i] := SubsetType.Partition];
      }
    }

    /** Lines 143-150: all inputs of the node are assigned to an epoch or need none. */
    method InputsReady(nodeIndex: int) returns (ready: bool)
      requires Shapes(info, nodeType, View()) && IsNode(info, nodeIndex)
      ensures ready <==> forall t :: Reads(info, nodeIndex, t) ==> tensorEpochs[t] != EPOCH_NOT_READY
    {
      var inputs := info.nodes[nodeIndex].inputs;
      for i := 0 to |inputs|
        invariant forall t :: Reads(info, nodeIndex, t) && t in inputs[..i] ==> tensorEpochs[t] != EPOCH_NOT_READY
      {
        assert inputs[i] != OPTIONAL_TENSOR ==> Reads(info, nodeIndex, inputs[i]);
        if inputs[i] != OPTIONAL_TENSOR && tensorEpochs[inputs[i]] == EPOCH_NOT_READY {
          return false;
        }
      }
      return true;
    }

    /** Lines 135-191. */
    method UpdateNode(nodeIndex: int) returns (placed: bool)
      requires Inv(info, nodeType, View()) && nodeSubsets != [] && IsNode(info, nodeIndex)
      modifies this`nodeSubsets, this`tensorEpochs, this`nodeEpochs
      ensures Inv(info, nodeType, View()) && |nodeSubsets| == |old(nodeSubsets)|
      ensures old(SweepOrder(info, nodeType, View()) && NoneSkipped(info, nodeType, View(), nodeIndex)) ==>
                SweepOrder(info, nodeType, View()) && NoneSkipped(info, nodeType, View(), nodeIndex + 1)
      ensures placed <==> old(Eligible(info, nodeType, View(), nodeIndex))
      ensures !placed ==> View() == old(View())
      ensures placed ==> Order(nodeSubsets) == old(Order(nodeSubsets)) + [nodeIndex]
      ensures placed ==> nodeEpochs == old(nodeEpochs)[nodeIndex := |nodeSubsets| - 1]
    {
      hide EpochsAgree, Types, ReadsPlaced, Boundaries, DependencyOrder, Order, ClosedEpoch, SweepOrder, NoneSkipped,
        PlaceStep;
      var currentEpoch := |nodeSubsets| - 1;
      NoneUntil(info, nodeType, View(), nodeIndex);
      if nodeEpochs[nodeIndex] != EPOCH_NOT_READY {
        return false;
      }
      var ready := InputsReady(nodeIndex);
      if !ready {
        return false;
      }
      ghost var before := View();
      if nodeSubsets[currentEpoch].typ == Unexplored {
        nodeSubsets := nodeSubsets[currentEpoch := nodeSubsets[currentEpoch].(typ := nodeType[nodeIndex])];
      }
      if nodeSubsets[currentEpoch].typ == nodeType[nodeIndex] {
        TypedIsPlaceable(info, nodeType, before, nodeIndex);
        ghost var typed := View();
        assert typed == Typed(before, nodeType[nodeIndex]);
        Place(nodeIndex);
        TypedStep(info, nodeType, before, nodeIndex, View());
        PlaceKeepsInv(info, nodeType, before, nodeIndex, View());
        PlacementKeepsOrder(info, nodeType, before, nodeIndex, View());
        PlaceExtendsOrder(info, nodeType, before, nodeIndex, View());
        return true;
      } else {
        return false;
      }
    }

    /** Lines 161-186: the updates that assign a node to the current epoch. */
    method Place(nodeIndex: int)
      requires Shapes(info, nodeType, View()) && EpochsAgree(info, nodeType, View())
      requires nodeSubsets != [] && IsNode(info, nodeIndex)
      requires nodeEpochs[nodeIndex] == EPOCH_NOT_READY
      requires nodeSubsets[|nodeSubsets| - 1].typ == nodeType[nodeIndex]
      modifies this`nodeSubsets, this`tensorEpochs, this`nodeEpochs
      ensures PlaceStep(info, nodeType, old(View()), nodeIndex, View())
    {
      var node := info.nodes[nodeIndex];
      var currentEpoch := |nodeSubsets| - 1;
      nodeEpochs := nodeEpochs[nodeIndex := currentEpoch];
      AppendNode(nodeIndex);
      ghost var appended := nodeSubsets;
      for i := 0 to |node.outputs|
        invariant nodeEpochs == old(nodeEpochs)[nodeIndex := currentEpoch] && nodeSubsets == appended
        invariant |tensorEpochs| == |old(tensorEpochs)|
        invariant forall t :: 0 <= t < |tensorEpochs| ==>
                    tensorEpochs[t] == if t in node.outputs[..i] then currentEpoch else old(tensorEpochs)[t]
      {
        assert Produces(info, nodeIndex, node.outputs[i]);
        tensorEpochs := tensorEpochs[node.outputs[i] := currentEpoch];
      }
      assert node.outputs[..|node.outputs|] == node.outputs;
      ghost var base, epochs := nodeSubsets, tensorEpochs;
      for i := 0 to |node.inputs|
        invariant tensorEpochs == epochs && nodeEpochs == old(nodeEpochs)[nodeIndex := currentEpoch]
        invariant Linked(base, nodeSubsets, tensorEpochs, node.inputs[..i])
      {
        var t := node.inputs[i];
        assert node.inputs[..i + 1] == node.inputs[..i] + [t];
        if t == OPTIONAL_TENSOR {
          continue;
        }
        assert Reads(info, nodeIndex, t);
        var inputEpoch := tensorEpochs[t];
        assert inputEpoch <= currentEpoch by {
          if Produced(info, t) {
            var m :| Produces(info, m, t);
          }
        }
        ghost var before := nodeSubsets;
        if inputEpoch != currentEpoch {
          AppendInput(currentEpoch, t);
          if inputEpoch >= 0 {
            AppendOutput(inputEpoch, t);
          }
        }
        LinkStep(base, before, nodeSubsets, tensorEpochs, node.inputs[..i], t);
      }
      assert node.inputs[..|node.inputs|] == node.inputs;
      LinkedIsPlaced(info, nodeType, old(View()), nodeIndex, View(), base);
    }

    method AppendNode(n: int)
      requires nodeSubsets != []
      modifies this`nodeSubsets
      ensures var last := |old(nodeSubsets)| - 1;
        nodeSubsets == old(nodeSubsets)[last := old(nodeSubsets)[last].(nodes := old(nodeSubsets)[last].nodes + [n])]
    {
      var last := |nodeSubsets| - 1;
      nodeSubsets := nodeSubsets[last := nodeSubsets[last].(nodes := nodeSubsets[last].nodes + [n])];
    }

    method AppendInput(k: int, t: int)
      requires 0 <= k < |nodeSubsets|
      modifies this`nodeSubsets
      ensures nodeSubsets == old(nodeSubsets)[k := WithInput(old(nodeSubsets)[k], t)]
    {
      nodeSubsets := nodeSubsets[k := nodeSubsets[k].(inputTensors := nodeSubsets[k].inputTensors + [t])];
    }

    method AppendOutput(k: int, t: int)
      requires 0 <= k < |nodeSubsets|
      modifies this`nodeSubsets
      ensures nodeSubsets == old(nodeSubsets)[k := WithOutput(old(nodeSubsets)[k], t)]
    {
      nodeSubsets := nodeSubsets[k := nodeSubsets[k].(outputTensors := nodeSubsets[k].outputTensors + [t])];
    }

    /** Lines 194-206: sweep over all nodes until a whole sweep places none. */
    method BuildNodeSubset()
      requires BetweenSubsets(info, nodeType, View())
      modifies this`nodeSubsets, this`tensorEpochs, this`nodeEpochs
      ensures Inv(info, nodeType, View()) && |nodeSubsets| == |old(nodeSubsets)| + 1
      ensures Exhausted(info, nodeType, View()) && SweepOrder(info, nodeType, View())
      ensures Unplaced(View()) <= old(Unplaced(View()))
      ensures nodeSubsets[|nodeSubsets| - 1].nodes != [] ==> Unplaced(View()) < old(Unplaced(View()))
    {
      hide EpochsAgree, Types, ReadsPlaced, Boundaries, DependencyOrder, Order, ClosedEpoch, Eligible, SweepOrder;
      OpenSubset(info, nodeType, View());
      nodeSubsets := nodeSubsets + [NodeSubset(Unexplored, [], [], [])];
      assert NoneSkipped(info, nodeType, View(), 0);
      while true
        invariant Inv(info, nodeType, View()) && |nodeSubsets| == |old(nodeSubsets)| + 1
        invariant SweepOrder(info, nodeType, View()) && NoneSkipped(info, nodeType, View(), 0)
        invariant Unplaced(View()) <= old(Unplaced(View()))
        invariant nodeSubsets[|nodeSubsets| - 1].nodes != [] ==> Unplaced(View()) < old(Unplaced(View()))
        decreases |Unplaced(View())|
      {
        ghost var start := View();
        var didSomething := Sweep();
        if !didSomething {
          return;
        }
        ProperSubsetCardinality(Unplaced(View()), Unplaced(start));
      }
    }

    /** Lines 198-203: one sweep over all nodes. */
    method Sweep() returns (didSomething: bool)
      requires Inv(info, nodeType, View()) && nodeSubsets != []
      requires SweepOrder(info, nodeType, View()) && NoneSkipped(info, nodeType, View(), 0)
      modifies this`nodeSubsets, this`tensorEpochs, this`nodeEpochs
      ensures Inv(info, nodeType, View()) && |nodeSubsets| == |old(nodeSubsets)|
      ensures SweepOrder(info, nodeType, View()) && NoneSkipped(info, nodeType, View(), 0)
      ensures didSomething ==> Unplaced(View()) < old(Unplaced(View()))
      ensures !didSomething ==> View() == old(View()) && Exhausted(info, nodeType, View())
    {
      hide EpochsAgree, Types, ReadsPlaced, Boundaries, DependencyOrder, Order, ClosedEpoch, Unplaced, SweepOrder;
      didSomething := false;
      for nodeIndex := 0 to |info.nodes|
        invariant Inv(info, nodeType, View()) && |nodeSubsets| == |old(nodeSubsets)|
        invariant SweepOrder(info, nodeType, View())
        invariant NoneSkipped(info, nodeType, View(), nodeIndex)
        invariant didSomething ==> Unplaced(View()) < old(Unplaced(View()))
        invariant !didSomething ==> View() == old(View())
        invariant !didSomething ==> forall n :: 0 <= n < nodeIndex ==> !Eligible(info, nodeType, View(), n)
      {
        ghost var before := View();
        var placed := UpdateNode(nodeIndex);
        if placed {
          PlacedShrinks(before, View(), nodeIndex);
          didSomething := true;
        }
      }
      NoneAgain(info, nodeType, View());
    }

    /** Lines 77-80: the outputs of a node start out not ready. */
    method MarkNotReady(nodeIndex: int)
      requires InRange(info) && IsNode(info, nodeIndex) && |tensorEpochs| == info.numTensors
      modifies this`tensorEpochs
      ensures |tensorEpochs| == info.numTensors
      ensures forall t :: IsTensor(info, t) ==>
                tensorEpochs[t] == if Produces(info, nodeIndex, t) then EPOCH_NOT_READY else old(tensorEpochs)[t]
    {
      var outputs := info.nodes[nodeIndex].outputs;
      for i := 0 to |outputs|
        invariant |tensorEpochs| == info.numTensors
        invariant forall t :: IsTensor(info, t) ==>
                    tensorEpochs[t] == if t in outputs[..i] then EPOCH_NOT_READY else old(tensorEpochs)[t]
      {
        assert Produces(info, nodeIndex, outputs[i]);
        tensorEpochs := tensorEpochs[outputs[i] := EPOCH_NOT_READY];
      }
    }

    /** Lines 69-92: open subsets until one stays empty. */
    method Explore()
      requires InRange(info) && SingleProducer(info) && |nodeType| == |info.nodes|
      requires forall n :: 0 <= n < |nodeType| ==> nodeType[n] != Unexplored
      modifies this`nodeSubsets, this`tensorEpochs, this`nodeEpochs
      ensures BetweenSubsets(info, nodeType, View())
      ensures GreedyPartition(info, nodeType, nodeSubsets)
    {
      MarkAllNotReady();
      while true
        invariant BetweenSubsets(info, nodeType, View())
        decreases |Unplaced(View())|
      {
        ghost var before := View();
        BuildNodeSubset();
        if nodeSubsets[|nodeSubsets| - 1].nodes == [] {
          DropEmptySubset(info, nodeType, View());
          nodeSubsets := nodeSubsets[..|nodeSubsets| - 1];
          break;
        }
        CloseSubset(info, nodeType, View());
        ProperSubsetCardinality(Unplaced(View()), Unplaced(before));
      }
      FinishedIsGreedy(info, nodeType, View());
    }

    /** Lines 67-81: nothing is placed, and exactly the tensors that some node produces are not ready. */
    method MarkAllNotReady()
      requires InRange(info) && SingleProducer(info) && |nodeType| == |info.nodes|
      requires forall n :: 0 <= n < |nodeType| ==> nodeType[n] != Unexplored
      modifies this`nodeSubsets, this`tensorEpochs, this`nodeEpochs
      ensures nodeSubsets == [] && BetweenSubsets(info, nodeType, View())
    {
      nodeSubsets := [];
      tensorEpochs := seq(info.numTensors, _ => EPOCH_ALWAYS_READY);
      nodeEpochs := seq(|info.nodes|, _ => EPOCH_NOT_READY);
      for nodeIndex := 0 to |info.nodes|
        invariant nodeSubsets == [] && nodeEpochs == seq(|info.nodes|, _ => EPOCH_NOT_READY)
        invariant |tensorEpochs| == info.numTensors
        invariant forall t :: IsTensor(info, t) ==>
                    (tensorEpochs[t] == EPOCH_NOT_READY || tensorEpochs[t] == EPOCH_ALWAYS_READY)
        invariant forall t :: IsTensor(info, t) ==>
                    (tensorEpochs[t] == EPOCH_NOT_READY <==> exists n :: 0 <= n < nodeIndex && Produces(info, n, t))
      {
        MarkNotReady(nodeIndex);
      }
      assert Order(nodeSubsets) == [];
      assert Inv(info, nodeType, View());
    }

    /** Lines 94-104: model outputs leave their subset.  The source indexes the subset list with
        the epoch of each output; inBounds tells whether all those indices exist. */
    method MarkModelOutputs() returns (inBounds: bool)
      requires BetweenSubsets(info, nodeType, View())
      modifies this`nodeSubsets
      ensures inBounds <==> OutputsPlaced(info, old(nodeSubsets))
      ensures inBounds ==> Marked(old(nodeSubsets), nodeSubsets, tensorEpochs, info.outputs)
      ensures !inBounds ==> SameNodes(old(nodeSubsets), nodeSubsets)
    {
      for i := 0 to |info.outputs|
        invariant Marked(old(nodeSubsets), nodeSubsets, tensorEpochs, info.outputs[..i])
        invariant forall t :: t in info.outputs[..i] ==> tensorEpochs[t] != EPOCH_NOT_READY
      {
        var t := info.outputs[i];
        assert info.outputs[..i + 1] == info.outputs[..i] + [t];
        assert t in info.outputs;
        var outputEpoch := tensorEpochs[t];
        EpochOfOutput(info, nodeType, old(View()), t);
        ghost var before := nodeSubsets;
        if outputEpoch == EPOCH_ALWAYS_READY {
          continue;
        }
        if !(0 <= outputEpoch < |nodeSubsets|) {
          return false;
        }
        AppendOutput(outputEpoch, t);
        MarkStep(old(nodeSubsets), before, nodeSubsets, tensorEpochs, info.outputs[..i], t);
      }
      assert info.outputs[..|info.outputs|] == info.outputs;
      forall t | t in info.outputs ensures OutputPlaced(info, old(nodeSubsets), t) {
        EpochOfOutput(info, nodeType, old(View()), t);
      }
      return true;
    }

    /** Lines 67-118. */
    method Partition() returns (inBounds: bool)
      requires InRange(info) && SingleProducer(info) && |nodeType| == |info.nodes|
      requires forall n :: 0 <= n < |nodeType| ==> nodeType[n] != Unexplored
      modifies this`nodeSubsets, this`tensorEpochs, this`nodeEpochs
      ensures GreedyPartition(info, nodeType, nodeSubsets)
      ensures inBounds <==> OutputsPlaced(info, nodeSubsets)
      ensures inBounds ==> ExactBoundaries(info, nodeSubsets)
    {
      hide EpochsAgree, Types, ReadsPlaced, Boundaries, ClosedEpoch, SweepOrder, GreedyPartition, ExactBoundaries,
        Order, DependencyOrder;
      Explore();
      ghost var explored := View();
      inBounds := MarkModelOutputs();
      SameNodesSameOrder(explored.subsets, nodeSubsets);
      GreedySameNodes(info, nodeType, explored.subsets, nodeSubsets);
      if !inBounds {
        return;
      }
      ghost var marked := nodeSubsets;
      for i := 0 to |nodeSubsets|
        invariant tensorEpochs == explored.tensorEpochs && nodeEpochs == explored.nodeEpochs
        invariant SameNodes(marked, nodeSubsets)
        invariant SameLists(marked, nodeSubsets)
        invariant forall k :: 0 <= k < i ==>
                    StrictlySorted(nodeSubsets[k].inputTensors) && StrictlySorted(nodeSubsets[k].outputTensors)
      {
        var inputTensors := Uniquefy(nodeSubsets[i].inputTensors);
        var outputTensors := Uniquefy(nodeSubsets[i].outputTensors);
        ghost var before := nodeSubsets;
        nodeSubsets := nodeSubsets[i := nodeSubsets[i].(inputTensors := inputTensors, outputTensors := outputTensors)];
        SameListsStep(marked, before, nodeSubsets, i);
      }
      SameNodesSameOrder(explored.subsets, nodeSubsets);
      GreedySameNodes(info, nodeType, explored.subsets, nodeSubsets);
      MarkedIsExact(info, nodeType, explored, marked, nodeSubsets);
    }
  }

  /** Every node that produces a model output was placed. */
  ghost predicate OutputsPlaced(g: Graph, subsets: seq<NodeSubset>) {
    forall t :: t in g.outputs ==> OutputPlaced(g, subsets, t)
  }

  ghost predicate OutputPlaced(g: Graph, subsets: seq<NodeSubset>, t: int) {
    forall n :: Produces(g, n, t) ==> n in Order(subsets)
  }

  ghost predicate SameNodes(s: seq<NodeSubset>, s': seq<NodeSubset>) {
    && |s| == |s'|
    && (forall k :: 0 <= k < |s| ==> s'[k].typ == s[k].typ && s'[k].nodes == s[k].nodes)
  }

  ghost predicate SameLists(s: seq<NodeSubset>, s': seq<NodeSubset>) {
    && (forall k, t :: HasInput(s', k, t) <==> HasInput(s, k, t))
    && (forall k, t :: HasOutput(s', k, t) <==> HasOutput(s, k, t))
  }

  lemma {:induction false} SameListsStep(s: seq<NodeSubset>, now: seq<NodeSubset>, next: seq<NodeSubset>, i: int)
    requires SameLists(s, now) && 0 <= i < |now| == |next|
    requires forall k :: 0 <= k < |now| && k != i ==> next[k] == now[k]
    requires forall t :: t in next[i].inputTensors <==> t in now[i].inputTensors
    requires forall t :: t in next[i].outputTensors <==> t in now[i].outputTensors
    ensures SameLists(s, next)
  {
    forall k, t
      ensures HasInput(next, k, t) == HasInput(now, k, t) && HasOutput(next, k, t) == HasOutput(now, k, t)
    {
    }
  }

  /** The effect of lines 96-104 after the model outputs seen so far. */
  ghost predicate Marked(base: seq<NodeSubset>, now: seq<NodeSubset>, epochs: seq<int>, seen: seq<int>) {
    && SameNodes(base, now)
    && (forall t :: t in seen ==> 0 <= t < |epochs|)
    && (forall k, t :: HasInput(now, k, t) <==> HasInput(base, k, t))
    && (forall k, t :: HasOutput(now, k, t) <==>
          HasOutput(base, k, t) || (0 <= k < |base| && t in seen && epochs[t] == k))
  }

  lemma {:induction false} MarkStep(base: seq<NodeSubset>, now: seq<NodeSubset>, next: seq<NodeSubset>,
                                    epochs: seq<int>, seen: seq<int>, t: int)
    requires Marked(base, now, epochs, seen)
    requires 0 <= t < |epochs| && 0 <= epochs[t] < |base|
    requires next == now[epochs[t] := WithOutput(now[epochs[t]], t)]
    ensures Marked(base, next, epochs, seen + [t])
  {
    forall k, u
      ensures HasInput(next, k, u) == HasInput(base, k, u)
      ensures HasOutput(next, k, u) <==> HasOutput(base, k, u) || (0 <= k < |base| && u in seen + [t] && epochs[u] == k)
    {
      assert HasInput(next, k, u) == HasInput(now, k, u);
      assert HasOutput(next, k, u) <==> HasOutput(now, k, u) || (k == epochs[t] && u == t);
    }
  }

  /** The epoch of a tensor is NOT_READY exactly when its producer was not placed. */
  lemma {:induction false} EpochOfOutput(g: Graph, types: seq<SubsetType>, p: Progress, t: int)
    requires Shapes(g, types, p) && EpochsAgree(g, types, p) && IsTensor(g, t)
    ensures p.tensorEpochs[t] == EPOCH_ALWAYS_READY || -1 <= p.tensorEpochs[t] < |p.subsets|
    ensures p.tensorEpochs[t] == EPOCH_NOT_READY <==> !OutputPlaced(g, p.subsets, t)
  {
    if n :| Produces(g, n, t) {
      InOrder(p.subsets, n);
      if p.nodeEpochs[n] >= 0 {
        assert n in p.subsets[p.nodeEpochs[n]].nodes;
      }
    }
  }

  lemma {:induction false} SameNodesSameOrder(s: seq<NodeSubset>, s': seq<NodeSubset>)
    requires SameNodes(s, s')
    ensures forall k: nat :: k <= |s| ==> Prefix(s, k) == Prefix(s', k)
    ensures Order(s) == Order(s')
  {
    OrderOfPrefix(s, s');
    forall k: nat | k <= |s| ensures Prefix(s, k) == Prefix(s', k) {
      OrderOfPrefix(s[..k], s'[..k]);
    }
  }

  lemma {:induction false} GreedySameNodes(g: Graph, types: seq<SubsetType>, s: seq<NodeSubset>, s': seq<NodeSubset>)
    requires GreedyPartition(g, types, s) && SameNodes(s, s')
    requires forall k: nat :: k <= |s| ==> Prefix(s, k) == Prefix(s', k)
    requires Order(s) == Order(s')
    ensures GreedyPartition(g, types, s')
  {
    forall k | 0 <= k < |s'| ensures Saturated(g, types, s', k) && OpenedByFirst(g, s', k) {
      assert Saturated(g, types, s, k) && OpenedByFirst(g, s, k);
    }
    forall k | 0 <= k < |s'| ensures Swept(g, types, s', k) {
      SweptStays(g, types, s, s', k);
    }
  }

  /** Tensor epochs and the subsets' nodes say the same about who produces a tensor. */
  lemma {:induction false} SubsetOfEpoch(g: Graph, types: seq<SubsetType>, p: Progress, s: seq<NodeSubset>, k: int,
                                         t: int)
    requires Shapes(g, types, p) && EpochsAgree(g, types, p) && SameNodes(p.subsets, s) && 0 <= k < |s|
    ensures SubsetProduces(g, s[k], t) <==> IsTensor(g, t) && p.tensorEpochs[t] == k
    ensures SubsetReads(g, s[k], t) <==> exists n :: Reads(g, n, t) && p.nodeEpochs[n] == k
  {
    if IsTensor(g, t) && p.tensorEpochs[t] == k {
      var n :| Produces(g, n, t);
      assert n in s[k].nodes;
    }
    if n :| Reads(g, n, t) && p.nodeEpochs[n] == k {
      assert n in s[k].nodes;
    }
    if n :| n in s[k].nodes && Reads(g, n, t) {
      assert p.nodeEpochs[n] == k;
    }
  }

  lemma {:induction false} MarkedIsExact(g: Graph, types: seq<SubsetType>, p: Progress, marked: seq<NodeSubset>,
                                         s: seq<NodeSubset>)
    requires Inv(g, types, p) && Marked(p.subsets, marked, p.tensorEpochs, g.outputs)
    requires SameNodes(marked, s) && SameLists(marked, s)
    requires forall k :: 0 <= k < |s| ==> StrictlySorted(s[k].inputTensors) && StrictlySorted(s[k].outputTensors)
    ensures ExactBoundaries(g, s)
  {
    forall k, t | 0 <= k < |s|
      ensures t in s[k].inputTensors <==> IsInputOf(g, s[k], t)
      ensures t in s[k].outputTensors <==> IsOutputOf(g, s, k, t)
    {
      SubsetOfEpoch(g, types, p, s, k, t);
      assert t in s[k].inputTensors <==> HasInput(s, k, t);
      assert HasInput(s, k, t) <==> HasInput(marked, k, t);
      assert HasInput(marked, k, t) <==> HasInput(p.subsets, k, t);
      assert t in s[k].outputTensors <==> HasOutput(s, k, t);
      assert HasOutput(s, k, t) <==> HasOutput(marked, k, t);
      assert HasOutput(marked, k, t) <==> HasOutput(p.subsets, k, t) || (t in g.outputs && p.tensorEpochs[t] == k);
      ReadByIsReads(g, types, p, s, k, t);
    }
  }

  lemma {:induction false} ReadByIsReads(g: Graph, types: seq<SubsetType>, p: Progress, s: seq<NodeSubset>, k: int,
                                         t: int)
    requires Shapes(g, types, p) && EpochsAgree(g, types, p) && SameNodes(p.subsets, s) && 0 <= k < |s|
    ensures ReadBy(g, types, p, k, t) <==>
              && SubsetProduces(g, s[k], t)
              && exists j :: 0 <= j < |s| && j != k && SubsetReads(g, s[j], t)
  {
    SubsetOfEpoch(g, types, p, s, k, t);
    if j :| 0 <= j < |s| && j != k && SubsetReads(g, s[j], t) {
      SubsetOfEpoch(g, types, p, s, j, t);
    }
    if n :| Reads(g, n, t) && p.tensorEpochs[t] == k && p.nodeEpochs[n] >= 0 && p.nodeEpochs[n] != k {
      SubsetOfEpoch(g, types, p, s, p.nodeEpochs[n], t);
    }
  }
}
