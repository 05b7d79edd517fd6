/** What a graph of pure operations computes: nodes run one after another, and each run of a
    node replaces its output tensors by a function of its input tensors. */
module Execution {
  import opened Collections
  import opened Graphs

  /** The value node n writes to tensor t, given its arguments in input order. */
  type Kernel<!V> = (int, seq<Option<V>>, int) -> V

  function Args<V>(g: Graph, n: int, env: seq<V>): seq<Option<V>>
    requires IsNode(g, n)
  {
    seq(|g.nodes[n].inputs|, i requires 0 <= i < |g.nodes[n].inputs| =>
      var t := g.nodes[n].inputs[i]; if 0 <= t < |env| then Some(env[t]) else None)
  }

  function RunNode<V>(g: Graph, f: Kernel<V>, n: int, env: seq<V>): seq<V>
    requires IsNode(g, n)
  {
    seq(|env|, t requires 0 <= t < |env| =>
      if t in g.nodes[n].outputs then f(n, Args(g, n, env), t) else env[t])
  }

  function Run<V>(g: Graph, f: Kernel<V>, order: seq<int>, env: seq<V>): seq<V>
    requires forall i :: 0 <= i < |order| ==> IsNode(g, order[i])
    ensures |Run(g, f, order, env)| == |env|
  {
    if order == [] then env
    else RunNode(g, f, order[|order| - 1], Run(g, f, order[..|order| - 1], env))
  }

  /** Every node of the order has its outputs in agreement with its inputs, and everything that
      no node of the order writes is as it was at the start. */
  ghost predicate Solves<V(!new)>(g: Graph, f: Kernel<V>, order: seq<int>, env: seq<V>, result: seq<V>) {
    && |result| == |env|
    && (forall n, t :: n in order && Produces(g, n, t) && 0 <= t < |env| ==> result[t] == f(n, Args(g, n, result), t))
    && (forall t :: 0 <= t < |env| && (forall n :: n in order ==> !Produces(g, n, t)) ==> result[t] == env[t])
  }

  lemma {:induction false} ArgsAgree<V>(g: Graph, n: int, a: seq<V>, b: seq<V>)
    requires IsNode(g, n) && |a| == |b|
    requires forall t :: Reads(g, n, t) && 0 <= t < |a| ==> a[t] == b[t]
    ensures Args(g, n, a) == Args(g, n, b)
  {
    forall i | 0 <= i < |g.nodes[n].inputs| ensures Args(g, n, a)[i] == Args(g, n, b)[i] {
      var t := g.nodes[n].inputs[i];
      if 0 <= t < |a| {
        assert Reads(g, n, t);
      }
    }
  }

  /** A node that ran earlier is not disturbed by a later node of a dependency order. */
  lemma {:induction false} LaterNodeKeeps<V>(g: Graph, f: Kernel<V>, order: seq<int>, m: int, env: seq<V>)
    requires SingleProducer(g) && DependencyOrder(g, order) && order != []
    requires m in order[..|order| - 1]
    ensures var n := order[|order| - 1];
      && Args(g, m, RunNode(g, f, n, env)) == Args(g, m, env)
      && forall t :: Produces(g, m, t) ==> !Produces(g, n, t)
  {
    var last := |order| - 1;
    var n := order[last];
    var i :| 0 <= i < last && order[i] == m;
    forall t | Reads(g, m, t) ensures !Produces(g, n, t) {
      assert n !in Elements(order[..i]);
    }
    ArgsAgree(g, m, RunNode(g, f, n, env), env);
  }

  lemma {:induction false} PrefixOfOrder(g: Graph, order: seq<int>, k: int)
    requires DependencyOrder(g, order) && 0 <= k <= |order|
    ensures DependencyOrder(g, order[..k])
  {
    forall i | 0 <= i < k ensures Ready(g, order[..k][i], Elements(order[..k][..i])) {
      assert order[..k][..i] == order[..i];
    }
  }

  /** Running a dependency order solves the graph's equations. */
  lemma {:induction false} RunSolves<V(!new)>(g: Graph, f: Kernel<V>, order: seq<int>, env: seq<V>)
    requires SingleProducer(g) && DependencyOrder(g, order)
    ensures Solves(g, f, order, env, Run(g, f, order, env))
  {
    if order != [] {
      var last := |order| - 1;
      var before, n := order[..last], order[last];
      PrefixOfOrder(g, order, last);
      RunSolves(g, f, before, env);
      var e := Run(g, f, before, env);
      var r := Run(g, f, order, env);
      assert order == before + [n];
      assert Args(g, n, r) == Args(g, n, e) by {
        forall t | Reads(g, n, t) ensures !Produces(g, n, t) {
          assert n !in Elements(order[..last]);
        }
        ArgsAgree(g, n, r, e);
      }
      forall m, t | m in order && Produces(g, m, t) && 0 <= t < |env|
        ensures r[t] == f(m, Args(g, m, r), t)
      {
        if m != n {
          LaterNodeKeeps(g, f, order, m, e);
        }
      }
    }
  }

  /** The equations have one solution: two solutions that start alike agree on everything. */
  lemma {:induction false} SolutionsAgree<V(!new)>(g: Graph, f: Kernel<V>, order: seq<int>, k: nat, env: seq<V>,
                                                   a: seq<V>, b: seq<V>)
    requires SingleProducer(g) && DependencyOrder(g, order) && k <= |order|
    requires Solves(g, f, order, env, a) && Solves(g, f, order, env, b)
    ensures forall n, t :: n in order[..k] && Produces(g, n, t) && 0 <= t < |env| ==> a[t] == b[t]
  {
    if k > 0 {
      SolutionsAgree(g, f, order, k - 1, env, a, b);
      var n := order[k - 1];
      forall t | Reads(g, n, t) && 0 <= t < |env| ensures a[t] == b[t] {
        if m :| m in order && Produces(g, m, t) {
          assert m in Elements(order[..k - 1]);
        }
      }
      ArgsAgree(g, n, a, b);
      assert order[..k] == order[..k - 1] + [n];
    }
  }

  /** Any two dependency orders of the same nodes compute the same tensors. */
  lemma {:induction false} OrdersAgree<V(!new)>(g: Graph, f: Kernel<V>, order: seq<int>, order': seq<int>, env: seq<V>)
    requires SingleProducer(g) && DependencyOrder(g, order) && DependencyOrder(g, order')
    requires Elements(order) == Elements(order')
    ensures Run(g, f, order, env) == Run(g, f, order', env)
  {
    var a, b := Run(g, f, order, env), Run(g, f, order', env);
    RunSolves(g, f, order, env);
    RunSolves(g, f, order', env);
    assert forall n :: n in order <==> n in Elements(order);
    assert forall n :: n in order' <==> n in Elements(order');
    assert Solves(g, f, order, env, b);
    SolutionsAgree(g, f, order, |order|, env, a, b);
    assert order[..|order|] == order;
  }
}
