/** The lifetime plan of tensorflow/lite/arena_planner.cc: which node asks for the allocation and
    which for the release of each tensor, as a chronological queue. */
module ArenaPlan {
  import opened Collections
  import opened Graphs

  datatype AllocKind = Alloc | Dealloc
  datatype AllocationInfo = AllocationInfo(node: int, tensor: int, kind: AllocKind)

  /** Indices the planner uses; only graph inputs and node inputs may be the optional tensor. */
  ghost predicate PlannerRange(g: Graph) {
    && InRange(g)
    && (forall t :: t in g.inputs && t != OPTIONAL_TENSOR ==> IsTensor(g, t))
    && (forall t :: t in g.variables ==> IsTensor(g, t))
  }

  /** Tensors that hold a value before the first node runs. */
  predicate Given(g: Graph, t: int) {
    t != OPTIONAL_TENSOR && (t in g.inputs || t in g.variables)
  }

  /** Tensors that are allocated once the outputs of the nodes before i are. */
  ghost predicate AllocatedBefore(g: Graph, i: int, t: int) {
    Given(g, t) || exists m :: m < i && Produces(g, m, t)
  }

  /** Tensors that are never released. */
  predicate Pinned(g: Graph, preserveInputs: bool, t: int) {
    t in g.outputs || t in g.variables || (preserveInputs && t in g.inputs)
  }

  // ---- The queue, segment by segment ----

  /** The first occurrences in candidates of tensors that are not in seen. */
  ghost function Fresh(seen: iset<int>, candidates: seq<int>): seq<int> {
    if candidates == [] then []
    else
      var last := |candidates| - 1;
      var t := candidates[last];
      if t == OPTIONAL_TENSOR || t in seen || t in candidates[..last] then Fresh(seen, candidates[..last])
      else Fresh(seen, candidates[..last]) + [t]
  }

  ghost function InputTensors(g: Graph): iset<int> {
    iset t | t in g.inputs && t != OPTIONAL_TENSOR
  }

  ghost function AllocatedTensors(g: Graph, i: int): iset<int> {
    iset t | AllocatedBefore(g, i, t)
  }

  ghost function GivenTensors(g: Graph): seq<int> {
    Fresh(iset{}, g.inputs) + Fresh(InputTensors(g), g.variables)
  }

  ghost function NewOutputs(g: Graph, i: int): seq<int>
    requires IsNode(g, i)
  {
    Fresh(AllocatedTensors(g, i), g.nodes[i].outputs)
  }

  ghost function Occurrences(s: seq<int>, t: int): nat {
    if s == [] then 0 else Occurrences(s[..|s| - 1], t) + if s[|s| - 1] == t then 1 else 0
  }

  /** How often the nodes from i on read t. */
  ghost function ReadsFrom(g: Graph, i: nat, t: int): nat
    decreases |g.nodes| - i
  {
    if i >= |g.nodes| then 0 else Occurrences(g.nodes[i].inputs, t) + ReadsFrom(g, i + 1, t)
  }

  /** Of the first j inputs of node i, those read for the last time there and free to go. */
  ghost function LastUses(g: Graph, preserveInputs: bool, i: int, j: nat): seq<int>
    requires IsNode(g, i) && j <= |g.nodes[i].inputs|
  {
    if j == 0 then []
    else
      LastUses(g, preserveInputs, i, j - 1)
      + if Dies(g, preserveInputs, i, j - 1) then [g.nodes[i].inputs[j - 1]] else []
  }

  ghost predicate Dies(g: Graph, preserveInputs: bool, i: int, j: nat)
    requires IsNode(g, i) && j < |g.nodes[i].inputs|
  {
    var t := g.nodes[i].inputs[j];
    && t != OPTIONAL_TENSOR && !Pinned(g, preserveInputs, t)
    && t !in g.nodes[i].inputs[j + 1..] && ReadsFrom(g, i + 1, t) == 0
    && AllocatedBefore(g, i + 1, t)
  }

  ghost function Releases(g: Graph, preserveInputs: bool, preserveIntermediates: bool, i: int): seq<int>
    requires IsNode(g, i)
  {
    if preserveIntermediates then [] else LastUses(g, preserveInputs, i, |g.nodes[i].inputs|)
  }

  ghost function Entries(node: int, tensors: seq<int>, kind: AllocKind): seq<AllocationInfo> {
    seq(|tensors|, k requires 0 <= k < |tensors| => AllocationInfo(node, tensors[k], kind))
  }

  lemma {:induction false} EntriesElements(node: int, tensors: seq<int>, kind: AllocKind)
    ensures forall e :: e in Entries(node, tensors, kind) <==> e.node == node && e.kind == kind && e.tensor in tensors
  {
    var q := Entries(node, tensors, kind);
    forall e: AllocationInfo | e.node == node && e.kind == kind && e.tensor in tensors ensures e in q {
      var k :| 0 <= k < |tensors| && tensors[k] == e.tensor;
      assert q[k] == e;
    }
  }

  /** The queue once the nodes before i are planned. */
  ghost function Queue(g: Graph, preserveInputs: bool, preserveIntermediates: bool, i: nat): seq<AllocationInfo>
    requires i <= |g.nodes|
  {
    if i == 0 then Entries(0, GivenTensors(g), Alloc)
    else
      Queue(g, preserveInputs, preserveIntermediates, i - 1)
      + Entries(i - 1, NewOutputs(g, i - 1), Alloc)
      + Entries(i - 1, Releases(g, preserveInputs, preserveIntermediates, i - 1), Dealloc)
  }

  // ---- What the segments contain ----

  lemma {:induction false} FreshElements(seen: iset<int>, c: seq<int>)
    ensures forall t :: t in Fresh(seen, c) <==> t in c && t != OPTIONAL_TENSOR && t !in seen
    ensures NoDuplicates(Fresh(seen, c))
  {
    if c != [] {
      FreshElements(seen, c[..|c| - 1]);
      assert c == c[..|c| - 1] + [c[|c| - 1]];
    }
  }

  lemma {:induction false} GivenElements(g: Graph)
    ensures forall t :: t in GivenTensors(g) <==> Given(g, t)
    ensures NoDuplicates(GivenTensors(g))
  {
    var a, b := Fresh(iset{}, g.inputs), Fresh(InputTensors(g), g.variables);
    FreshElements(iset{}, g.inputs);
    FreshElements(InputTensors(g), g.variables);
    NoDuplicatesConcat(a, b);
  }

  lemma {:induction false} NoDuplicatesConcat(a: seq<int>, b: seq<int>)
    requires NoDuplicates(a) && NoDuplicates(b) && forall t :: t in a ==> t !in b
    ensures NoDuplicates(a + b)
  {
    var r := a + b;
    forall i, j | 0 <= i < j < |r| ensures r[i] != r[j] {
      if i < |a| <= j {
        assert r[i] == a[i] && a[i] in a && r[j] == b[j - |a|] && b[j - |a|] in b;
      }
    }
  }

  lemma {:induction false} OccurrencesPositive(s: seq<int>, t: int)
    ensures Occurrences(s, t) > 0 <==> t in s
  {
    if s != [] {
      OccurrencesPositive(s[..|s| - 1], t);
      assert s == s[..|s| - 1] + [s[|s| - 1]];
    }
  }

  lemma {:induction false} ReadsFromPositive(g: Graph, i: nat, t: int)
    requires t != OPTIONAL_TENSOR
    ensures ReadsFrom(g, i, t) > 0 <==> exists n :: i <= n && Reads(g, n, t)
    decreases |g.nodes| - i
  {
    if i < |g.nodes| {
      ReadsFromPositive(g, i + 1, t);
      OccurrencesPositive(g.nodes[i].inputs, t);
      if n :| i <= n && Reads(g, n, t) {
        if n != i {
          assert i + 1 <= n;
        }
      }
      if Occurrences(g.nodes[i].inputs, t) > 0 {
        assert Reads(g, i, t);
      }
    }
  }

  lemma {:induction false} LastUsesElements(g: Graph, preserveInputs: bool, i: int, j: nat)
    requires IsNode(g, i) && j <= |g.nodes[i].inputs|
    ensures forall t :: t in LastUses(g, preserveInputs, i, j) <==>
              exists k :: 0 <= k < j && g.nodes[i].inputs[k] == t && Dies(g, preserveInputs, i, k)
    ensures NoDuplicates(LastUses(g, preserveInputs, i, j))
  {
    if j > 0 {
      LastUsesElements(g, preserveInputs, i, j - 1);
      var inputs := g.nodes[i].inputs;
      var uses := LastUses(g, preserveInputs, i, j - 1);
      forall t | t in uses ensures t != inputs[j - 1] {
        var k :| 0 <= k < j - 1 && inputs[k] == t && Dies(g, preserveInputs, i, k);
        assert inputs[j - 1] == inputs[k + 1..][j - 1 - (k + 1)];
      }
      AppendFresh(uses, inputs[j - 1]);
      assert uses + [] == uses;
    }
  }

  /** t is released by node i: its last reader, unless t is pinned or was never allocated. */
  ghost predicate ReleasedAt(g: Graph, preserveInputs: bool, preserveIntermediates: bool, i: int, t: int) {
    && !preserveIntermediates && !Pinned(g, preserveInputs, t)
    && Reads(g, i, t) && (forall n :: n > i ==> !Reads(g, n, t))
    && AllocatedBefore(g, i + 1, t)
  }

  lemma {:induction false} ReleasesElements(g: Graph, preserveInputs: bool, preserveIntermediates: bool, i: int)
    requires IsNode(g, i)
    ensures forall t :: t in Releases(g, preserveInputs, preserveIntermediates, i) <==>
              ReleasedAt(g, preserveInputs, preserveIntermediates, i, t)
    ensures NoDuplicates(Releases(g, preserveInputs, preserveIntermediates, i))
  {
    var inputs := g.nodes[i].inputs;
    LastUsesElements(g, preserveInputs, i, |inputs|);
    forall t ensures t in Releases(g, preserveInputs, preserveIntermediates, i) <==>
                       ReleasedAt(g, preserveInputs, preserveIntermediates, i, t)
    {
      if t != OPTIONAL_TENSOR {
        ReadsFromPositive(g, i + 1, t);
      }
      if ReleasedAt(g, preserveInputs, preserveIntermediates, i, t) {
        var k := LastIndex(inputs, t);
        assert Dies(g, preserveInputs, i, k);
      }
    }
  }

  lemma {:induction false} LastIndex(s: seq<int>, t: int) returns (k: nat)
    requires t in s
    ensures k < |s| && s[k] == t && t !in s[k + 1..]
  {
    k := |s| - 1;
    while s[k] != t
      invariant k < |s| && t !in s[k + 1..] && t in s[..k + 1]
      decreases k
    {
      assert s[k..] == [s[k]] + s[k + 1..];
      assert s[..k + 1] == s[..k] + [s[k]];
      k := k - 1;
    }
  }

  // ---- The exact lifetime plan ----

  /** t is allocated by node i: by node 0 if it is given, by its first producer otherwise. */
  ghost predicate RequestedAt(g: Graph, i: int, t: int) {
    if Given(g, t) then i == 0 else Produces(g, i, t) && forall m :: m < i ==> !Produces(g, m, t)
  }

  /** Exactly the entries that belong in a queue whose nodes before i are planned. */
  ghost predicate Belongs(g: Graph, preserveInputs: bool, preserveIntermediates: bool, i: int, e: AllocationInfo) {
    match e.kind
    case Alloc => RequestedAt(g, e.node, e.tensor) && (Given(g, e.tensor) || e.node < i)
    case Dealloc => ReleasedAt(g, preserveInputs, preserveIntermediates, e.node, e.tensor) && e.node < i
  }

  lemma {:induction false} NewOutputsElements(g: Graph, n: int)
    requires PlannerRange(g) && IsNode(g, n)
    ensures forall t :: t in NewOutputs(g, n) <==> !Given(g, t) && RequestedAt(g, n, t)
    ensures NoDuplicates(NewOutputs(g, n))
  {
    FreshElements(AllocatedTensors(g, n), g.nodes[n].outputs);
    forall t ensures t in NewOutputs(g, n) <==> !Given(g, t) && RequestedAt(g, n, t) {
      assert t in g.nodes[n].outputs <==> Produces(g, n, t);
    }
  }

  /** Planning node n adds exactly the entries of node n. */
  lemma {:induction false} BelongsStep(g: Graph, preserveInputs: bool, preserveIntermediates: bool, n: nat,
                                       e: AllocationInfo)
    requires PlannerRange(g) && IsNode(g, n)
    ensures Belongs(g, preserveInputs, preserveIntermediates, n + 1, e) <==>
              || Belongs(g, preserveInputs, preserveIntermediates, n, e)
              || (e.kind == Alloc && e.node == n && e.tensor in NewOutputs(g, n))
              || (e.kind == Dealloc && e.node == n && e.tensor in Releases(g, preserveInputs, preserveIntermediates, n))
  {
    NewOutputsElements(g, n);
    ReleasesElements(g, preserveInputs, preserveIntermediates, n);
  }

  lemma {:induction false} QueueElements(g: Graph, preserveInputs: bool, preserveIntermediates: bool, i: nat)
    requires PlannerRange(g) && i <= |g.nodes|
    ensures forall e :: e in Queue(g, preserveInputs, preserveIntermediates, i) <==>
              Belongs(g, preserveInputs, preserveIntermediates, i, e)
  {
    if i == 0 {
      GivenElements(g);
      EntriesElements(0, GivenTensors(g), Alloc);
    } else {
      QueueElements(g, preserveInputs, preserveIntermediates, i - 1);
      EntriesElements(i - 1, NewOutputs(g, i - 1), Alloc);
      EntriesElements(i - 1, Releases(g, preserveInputs, preserveIntermediates, i - 1), Dealloc);
      forall e ensures e in Queue(g, preserveInputs, preserveIntermediates, i) <==>
                         Belongs(g, preserveInputs, preserveIntermediates, i, e)
      {
        BelongsStep(g, preserveInputs, preserveIntermediates, i - 1, e);
      }
    }
  }

  /** Chronological order. */
  ghost predicate SortedByNode(q: seq<AllocationInfo>) {
    forall a, b :: 0 <= a < b < |q| ==> q[a].node <= q[b].node
  }

  /** Of two entries for one tensor the first allocates and the second releases it. */
  ghost predicate AllocThenDealloc(q: seq<AllocationInfo>) {
    forall a, b :: 0 <= a < b < |q| && q[a].tensor == q[b].tensor ==> q[a].kind == Alloc && q[b].kind == Dealloc
  }

  lemma {:induction false} QueueOrdered(g: Graph, preserveInputs: bool, preserveIntermediates: bool, i: nat)
    requires PlannerRange(g) && i <= |g.nodes|
    ensures SortedByNode(Queue(g, preserveInputs, preserveIntermediates, i))
    ensures forall e :: e in Queue(g, preserveInputs, preserveIntermediates, i) ==>
            0 <= e.node && (e.node < i || e.node == 0)
  {
    if i > 0 {
      QueueOrdered(g, preserveInputs, preserveIntermediates, i - 1);
      var q := Queue(g, preserveInputs, preserveIntermediates, i - 1);
      var next := Queue(g, preserveInputs, preserveIntermediates, i);
      forall a, b | 0 <= a < b < |next| ensures next[a].node <= next[b].node {
        assert b >= |q| ==> next[b].node == i - 1;
        if a < |q| {
          assert next[a] == q[a] && q[a] in q;
        }
      }
    }
  }

  lemma {:induction false} AppendEntries(q: seq<AllocationInfo>, node: int, tensors: seq<int>, kind: AllocKind)
    requires AllocThenDealloc(q) && NoDuplicates(tensors)
    requires forall e :: e in q && e.tensor in tensors ==> e.kind == Alloc && kind == Dealloc
    ensures AllocThenDealloc(q + Entries(node, tensors, kind))
  {
    var more := Entries(node, tensors, kind);
    var r := q + more;
    forall a, b | 0 <= a < b < |r| && r[a].tensor == r[b].tensor ensures r[a].kind == Alloc && r[b].kind == Dealloc {
      if b >= |q| {
        assert r[b] == more[b - |q|] && more[b - |q|].tensor == tensors[b - |q|];
        if a < |q| {
          assert r[a] == q[a] && q[a] in q;
        }
      }
    }
  }

  lemma {:induction false} QueuePaired(g: Graph, preserveInputs: bool, preserveIntermediates: bool, i: nat)
    requires PlannerRange(g) && i <= |g.nodes|
    ensures AllocThenDealloc(Queue(g, preserveInputs, preserveIntermediates, i))
  {
    if i == 0 {
      GivenElements(g);
      AppendEntries([], 0, GivenTensors(g), Alloc);
      assert [] + Entries(0, GivenTensors(g), Alloc) == Entries(0, GivenTensors(g), Alloc);
    } else {
      var n := i - 1;
      var q := Queue(g, preserveInputs, preserveIntermediates, n);
      QueuePaired(g, preserveInputs, preserveIntermediates, n);
      QueueElements(g, preserveInputs, preserveIntermediates, n);
      NewOutputsElements(g, n);
      ReleasesElements(g, preserveInputs, preserveIntermediates, n);
      EntriesElements(n, NewOutputs(g, n), Alloc);
      AppendEntries(q, n, NewOutputs(g, n), Alloc);
      AppendEntries(q + Entries(n, NewOutputs(g, n), Alloc), n, Releases(g, preserveInputs, preserveIntermediates, n),
                    Dealloc);
    }
  }

  /** The exact lifetime plan, for every graph: the queue is chronological, its entries are
      exactly the first requests and last uses, and no tensor is allocated or released twice. */
  lemma {:induction false} ExactLifetimePlan(g: Graph, preserveInputs: bool, preserveIntermediates: bool)
    requires PlannerRange(g)
    ensures var q := Queue(g, preserveInputs, preserveIntermediates, |g.nodes|);
      && SortedByNode(q) && AllocThenDealloc(q)
      && (forall n, t :: AllocationInfo(n, t, Alloc) in q <==> RequestedAt(g, n, t))
      && (forall n, t :: AllocationInfo(n, t, Dealloc) in q <==>
          ReleasedAt(g, preserveInputs, preserveIntermediates, n, t))
  {
    QueueOrdered(g, preserveInputs, preserveIntermediates, |g.nodes|);
    QueuePaired(g, preserveInputs, preserveIntermediates, |g.nodes|);
    QueueElements(g, preserveInputs, preserveIntermediates, |g.nodes|);
  }

  // ---- The order of entries of one node ----

  /** x stands in c before any y. */
  ghost predicate FirstBefore(c: seq<int>, x: int, y: int) {
    exists p :: 0 <= p < |c| && c[p] == x && y !in c[..p + 1]
  }

  /** y stands in c behind every x. */
  ghost predicate LastBefore(c: seq<int>, x: int, y: int) {
    exists p :: 0 <= p < |c| && c[p] == y && x !in c[p..]
  }

  /** How two entries of one node follow each other: allocations first, given tensors before outputs, in the
      order in which inputs, variables and outputs are listed; then releases, by the last position as an input. */
  ghost predicate Follows(g: Graph, e: AllocationInfo, f: AllocationInfo) {
    match (e.kind, f.kind)
    case (Alloc, Alloc) =>
      if Given(g, e.tensor) then Given(g, f.tensor) ==> FirstBefore(g.inputs + g.variables, e.tensor, f.tensor)
      else !Given(g, f.tensor) && IsNode(g, e.node) && FirstBefore(g.nodes[e.node].outputs, e.tensor, f.tensor)
    case (Alloc, Dealloc) => true
    case (Dealloc, Alloc) => false
    case (Dealloc, Dealloc) => IsNode(g, e.node) && LastBefore(g.nodes[e.node].inputs, e.tensor, f.tensor)
  }

  ghost predicate NodesInOrder(g: Graph, q: seq<AllocationInfo>) {
    forall a, b :: 0 <= a < b < |q| && q[a].node == q[b].node ==> Follows(g, q[a], q[b])
  }

  lemma {:induction false} FreshInOrder(seen: iset<int>, c: seq<int>, i: nat, j: nat)
    requires i < j < |Fresh(seen, c)|
    ensures FirstBefore(c, Fresh(seen, c)[i], Fresh(seen, c)[j])
  {
    var last := |c| - 1;
    var before, all := Fresh(seen, c[..last]), Fresh(seen, c);
    FreshElements(seen, c[..last]);
    if j < |before| {
      FreshInOrder(seen, c[..last], i, j);
      var p :| 0 <= p < last && c[..last][p] == all[i] && all[j] !in c[..last][..p + 1];
      assert c[..last][..p + 1] == c[..p + 1];
    } else {
      assert before[i] in before;
      var p :| 0 <= p < last && c[..last][p] == before[i];
      assert c[p] == all[i] && all[j] == c[last];
      assert c[last] !in c[..p + 1] by {
        assert forall k :: 0 <= k <= p ==> c[k] == c[..last][k];
      }
    }
  }

  lemma {:induction false} FirstBeforeConcat(a: seq<int>, b: seq<int>, x: int, y: int)
    requires FirstBefore(a, x, y) || (y !in a && FirstBefore(b, x, y))
    ensures FirstBefore(a + b, x, y)
  {
    var c := a + b;
    if FirstBefore(a, x, y) {
      var p :| 0 <= p < |a| && a[p] == x && y !in a[..p + 1];
      assert c[..p + 1] == a[..p + 1];
    } else {
      var p :| 0 <= p < |b| && b[p] == x && y !in b[..p + 1];
      assert c[..|a| + p + 1] == a + b[..p + 1];
      assert c[|a| + p] == x;
    }
  }

  lemma {:induction false} GivenInOrder(g: Graph, i: nat, j: nat)
    requires i < j < |GivenTensors(g)|
    ensures FirstBefore(g.inputs + g.variables, GivenTensors(g)[i], GivenTensors(g)[j])
  {
    var a, b := Fresh(iset{}, g.inputs), Fresh(InputTensors(g), g.variables);
    FreshElements(iset{}, g.inputs);
    FreshElements(InputTensors(g), g.variables);
    var x, y := (a + b)[i], (a + b)[j];
    if j < |a| {
      FreshInOrder(iset{}, g.inputs, i, j);
    } else {
      assert b[j - |a|] in b;
      if i < |a| {
        assert a[i] in a;
        var p :| 0 <= p < |g.inputs| && g.inputs[p] == x;
        assert y !in g.inputs[..p + 1];
      } else {
        FreshInOrder(InputTensors(g), g.variables, i - |a|, j - |a|);
      }
    }
    FirstBeforeConcat(g.inputs, g.variables, x, y);
  }

  lemma {:induction false} UsesInOrder(g: Graph, preserveInputs: bool, n: int, j: nat, a: nat, b: nat)
    requires IsNode(g, n) && j <= |g.nodes[n].inputs| && a < b < |LastUses(g, preserveInputs, n, j)|
    ensures LastBefore(g.nodes[n].inputs, LastUses(g, preserveInputs, n, j)[a], LastUses(g, preserveInputs, n, j)[b])
  {
    var uses := LastUses(g, preserveInputs, n, j - 1);
    if b < |uses| {
      hide LastBefore, Dies;
      UsesInOrder(g, preserveInputs, n, j - 1, a, b);
    } else {
      assert uses[a] in uses;
      hide Dies;
      NotUsedAgain(g, preserveInputs, n, j - 1, uses[a]);
    }
  }

  lemma {:induction false} NotUsedAgain(g: Graph, preserveInputs: bool, n: int, j: nat, t: int)
    requires IsNode(g, n) && j <= |g.nodes[n].inputs| && t in LastUses(g, preserveInputs, n, j)
    ensures t !in g.nodes[n].inputs[j..]
  {
    var inputs := g.nodes[n].inputs;
    LastUsesElements(g, preserveInputs, n, j);
    hide LastUses;
    var k :| 0 <= k < j && inputs[k] == t && Dies(g, preserveInputs, n, k);
    assert t !in inputs[k + 1..];
    assert inputs[j..] == inputs[k + 1..][j - (k + 1)..];
  }

  lemma {:induction false} AppendInOrder(g: Graph, q: seq<AllocationInfo>, more: seq<AllocationInfo>)
    requires NodesInOrder(g, q) && NodesInOrder(g, more)
    requires forall e, f :: e in q && f in more && e.node == f.node ==> Follows(g, e, f)
    ensures NodesInOrder(g, q + more)
  {
    hide Follows;
    var r := q + more;
    forall a, b | 0 <= a < b < |r| && r[a].node == r[b].node ensures Follows(g, r[a], r[b]) {
      if b < |q| {
        assert r[a] == q[a] && r[b] == q[b];
      } else if a < |q| {
        assert r[a] in q && r[b] == more[b - |q|] && more[b - |q|] in more;
      } else {
        assert r[a] == more[a - |q|] && r[b] == more[b - |q|];
      }
    }
  }

  lemma {:induction false} GivenEntriesInOrder(g: Graph)
    ensures NodesInOrder(g, Entries(0, GivenTensors(g), Alloc))
  {
    var q, ts := Entries(0, GivenTensors(g), Alloc), GivenTensors(g);
    GivenElements(g);
    forall a, b | 0 <= a < b < |q| ensures Follows(g, q[a], q[b]) {
      GivenInOrder(g, a, b);
      assert ts[a] in ts && ts[b] in ts;
    }
  }

  lemma {:induction false} OutputEntriesInOrder(g: Graph, n: nat)
    requires PlannerRange(g) && IsNode(g, n)
    ensures NodesInOrder(g, Entries(n, NewOutputs(g, n), Alloc))
  {
    var q, ts := Entries(n, NewOutputs(g, n), Alloc), NewOutputs(g, n);
    NewOutputsElements(g, n);
    forall a, b | 0 <= a < b < |q| ensures Follows(g, q[a], q[b]) {
      FreshInOrder(AllocatedTensors(g, n), g.nodes[n].outputs, a, b);
      assert ts[a] in ts && ts[b] in ts;
    }
  }

  lemma {:induction false} ReleaseEntriesInOrder(g: Graph, preserveInputs: bool, preserveIntermediates: bool, n: nat)
    requires IsNode(g, n)
    ensures NodesInOrder(g, Entries(n, Releases(g, preserveInputs, preserveIntermediates, n), Dealloc))
  {
    var ts := Releases(g, preserveInputs, preserveIntermediates, n);
    var q := Entries(n, ts, Dealloc);
    forall a, b | 0 <= a < b < |q| ensures Follows(g, q[a], q[b]) {
      UsesInOrder(g, preserveInputs, n, |g.nodes[n].inputs|, a, b);
    }
  }

  /** The entries of one node, too, come in a definite order. */
  lemma {:induction false} QueueInOrder(g: Graph, preserveInputs: bool, preserveIntermediates: bool, i: nat)
    requires PlannerRange(g) && i <= |g.nodes|
    ensures NodesInOrder(g, Queue(g, preserveInputs, preserveIntermediates, i))
  {
    if i == 0 {
      GivenEntriesInOrder(g);
    } else {
      var n := i - 1;
      var q := Queue(g, preserveInputs, preserveIntermediates, n);
      var added := Entries(n, NewOutputs(g, n), Alloc);
      var freed := Entries(n, Releases(g, preserveInputs, preserveIntermediates, n), Dealloc);
      QueueInOrder(g, preserveInputs, preserveIntermediates, n);
      QueueOrdered(g, preserveInputs, preserveIntermediates, n);
      QueueElements(g, preserveInputs, preserveIntermediates, n);
      NewOutputsElements(g, n);
      EntriesElements(n, NewOutputs(g, n), Alloc);
      EntriesElements(n, Releases(g, preserveInputs, preserveIntermediates, n), Dealloc);
      OutputEntriesInOrder(g, n);
      ReleaseEntriesInOrder(g, preserveInputs, preserveIntermediates, n);
      hide NodesInOrder, Queue, NewOutputs, Releases, FirstBefore, LastBefore, Entries;
      forall e, f | e in q && f in added && e.node == f.node ensures Follows(g, e, f) {
        assert Belongs(g, preserveInputs, preserveIntermediates, n, e);
      }
      AppendInOrder(g, q, added);
      forall e, f | e in q + added && f in freed && e.node == f.node ensures Follows(g, e, f) {
        if e in q {
          assert Belongs(g, preserveInputs, preserveIntermediates, n, e);
        }
      }
      AppendInOrder(g, q + added, freed);
    }
  }

  // ---- Counting references ----

  lemma {:induction false} OccurrencesSplit(s: seq<int>, j: nat, t: int)
    requires j <= |s|
    ensures Occurrences(s, t) == Occurrences(s[..j], t) + Occurrences(s[j..], t)
    decreases |s|
  {
    if j == |s| {
      assert s[..j] == s && s[j..] == [];
    } else {
      var last := |s| - 1;
      OccurrencesSplit(s[..last], j, t);
      assert s[..last][..j] == s[..j];
      assert s[j..][..|s[j..]| - 1] == s[..last][j..];
      assert s[j..][|s[j..]| - 1] == s[last];
    }
  }

  /** The references that keep a pinned tensor's count above zero. */
  ghost function Pins(g: Graph, preserveInputs: bool, t: int): nat {
    Occurrences(g.outputs, t) + Occurrences(g.variables, t) + if preserveInputs then Occurrences(g.inputs, t) else 0
  }

  lemma {:induction false} PinsPositive(g: Graph, preserveInputs: bool, t: int)
    ensures Pins(g, preserveInputs, t) > 0 <==> Pinned(g, preserveInputs, t)
  {
    OccurrencesPositive(g.outputs, t);
    OccurrencesPositive(g.variables, t);
    OccurrencesPositive(g.inputs, t);
  }

  /** The reference count drops to zero exactly at a last use. */
  lemma {:induction false} CountReachesZero(g: Graph, preserveInputs: bool, i: nat, j: nat)
    requires IsNode(g, i) && j < |g.nodes[i].inputs|
    ensures var t := g.nodes[i].inputs[j];
      Dies(g, preserveInputs, i, j) <==>
        && t != OPTIONAL_TENSOR && AllocatedBefore(g, i + 1, t)
        && Pins(g, preserveInputs, t) + ReadsFrom(g, i, t) - Occurrences(g.nodes[i].inputs[..j + 1], t) == 0
  {
    var inputs := g.nodes[i].inputs;
    var t := inputs[j];
    PinsPositive(g, preserveInputs, t);
    OccurrencesSplit(inputs, j + 1, t);
    OccurrencesPositive(inputs[j + 1..], t);
  }
}
