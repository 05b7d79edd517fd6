/** Inference graphs as the TensorFlow Lite partitioner and memory planner see them:
    nodes that read and write tensors, both named by index. */
module Graphs {
  import opened Collections

  /** The index that marks an omitted optional input (kOptionalTensor). */
  const OPTIONAL_TENSOR := -1

  datatype Node = Node(inputs: seq<int>, outputs: seq<int>, temporaries: seq<int>)

  datatype Graph = Graph(numTensors: nat, nodes: seq<Node>,
                         inputs: seq<int>, outputs: seq<int>, variables: seq<int>)

  predicate IsTensor(g: Graph, t: int) {
    0 <= t < g.numTensors
  }

  predicate IsNode(g: Graph, n: int) {
    0 <= n < |g.nodes|
  }

  predicate Reads(g: Graph, n: int, t: int) {
    IsNode(g, n) && t != OPTIONAL_TENSOR && t in g.nodes[n].inputs
  }

  predicate Produces(g: Graph, n: int, t: int) {
    IsNode(g, n) && t in g.nodes[n].outputs
  }

  /** Every index the source uses to address a per-tensor vector is in range. */
  ghost predicate InRange(g: Graph) {
    && (forall n, t :: Reads(g, n, t) ==> IsTensor(g, t))
    && (forall n, t :: Produces(g, n, t) ==> IsTensor(g, t))
    && (forall t :: t in g.outputs ==> IsTensor(g, t))
  }

  /** Static single assignment: no tensor is written by two nodes. */
  ghost predicate SingleProducer(g: Graph) {
    forall m, n, t :: Produces(g, m, t) && Produces(g, n, t) ==> m == n
  }

  ghost predicate Produced(g: Graph, t: int) {
    exists n :: Produces(g, n, t)
  }

  /** All producers of n's inputs are in done. */
  ghost predicate Ready(g: Graph, n: int, done: set<int>) {
    forall p, t :: Reads(g, n, t) && Produces(g, p, t) ==> p in done
  }

  /** An order in which every node runs at most once, and only after the producers of its inputs. */
  ghost predicate DependencyOrder(g: Graph, order: seq<int>) {
    && NoDuplicates(order)
    && (forall i :: 0 <= i < |order| ==> IsNode(g, order[i]))
    && (forall i :: 0 <= i < |order| ==> Ready(g, order[i], Elements(order[..i])))
  }

  /** A rank that grows along every data dependency; a graph has one exactly when it is acyclic. */
  ghost predicate Ranks(g: Graph, rank: seq<nat>) {
    && |rank| == |g.nodes|
    && (forall m, n, t :: Produces(g, m, t) && Reads(g, n, t) ==> rank[m] < rank[n])
  }

  ghost predicate Acyclic(g: Graph) {
    exists rank :: Ranks(g, rank)
  }
}
