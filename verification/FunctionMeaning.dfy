/** A converted function computes what the part of the graph it was made of computes: for every
    meaning of the ops, all arguments and every order of execution. */
module FunctionMeaning {
  import opened Collections
  import opened FunctionConversion

  /** Output `i` of the op of a graph node, applied to its inputs. */
  type Kernel<!V> = (nat, seq<V>, nat) -> V

  /** The tensors computed so far, and the body positions that have run. */
  datatype State<!K, V> = State(values: imap<K, V>, done: set<nat>)

  ghost function Lookup<K(!new), V(!new)>(values: imap<K, V>, keys: seq<K>): Option<seq<V>> {
    if forall i :: 0 <= i < |keys| ==> keys[i] in values then
      Some(seq(|keys|, i requires 0 <= i < |keys| => values[keys[i]]))
    else None
  }

  // ---- Running the graph, with the inputs fed ----

  ghost function Fed<V>(inputs: seq<Output>, args: seq<V>): imap<Output, V>
    requires |inputs| == |args|
  {
    imap o: Output | o in inputs :: args[Find(inputs, o).value]
  }

  ghost function Sources(node: GraphNode): seq<Output>
    requires forall i :: 0 <= i < |node.inputs| ==> node.inputs[i].Some?
  {
    seq(|node.inputs|, i requires 0 <= i < |node.inputs| => node.inputs[i].value)
  }

  /** Control edges from body nodes make the node wait. */
  ghost predicate MayRun(g: Graph, body: seq<nat>, done: set<nat>, n: nat)
    requires n < |g|
  {
    forall i, c :: 0 <= i < |g[n].controls| && 0 <= c < |body| && body[c] == g[n].controls[i] ==> c in done
  }

  ghost predicate Computes(g: Graph, inputs: seq<Output>, n: nat, o: Output)
    requires n < |g|
  {
    o.node == n && o.index < NumOutputs(g[n].outputs) && o !in inputs
  }

  ghost function WithOutputs<V(!new)>(g: Graph, f: Kernel<V>, inputs: seq<Output>, values: imap<Output, V>, n: nat,
                                      args: seq<V>): imap<Output, V>
    requires n < |g|
  {
    imap o: Output | o in values || Computes(g, inputs, n, o) ::
      if Computes(g, inputs, n, o) then f(n, args, o.index) else values[o]
  }

  ghost function RunNode<V(!new)>(g: Graph, f: Kernel<V>, body: seq<nat>, inputs: seq<Output>, s: State<Output, V>,
                                  b: nat): Option<State<Output, V>>
    requires b < |body| && body[b] < |g|
  {
    var n := body[b];
    if (forall i :: 0 <= i < |g[n].inputs| ==> g[n].inputs[i].Some?) && MayRun(g, body, s.done, n) then
      match Lookup(s.values, Sources(g[n]))
      case Some(args) => Some(State(WithOutputs(g, f, inputs, s.values, n, args), s.done + {b}))
      case None => None
    else None
  }

  /** The state after running body positions in the given order; None if a node is not ready. */
  ghost function RunGraph<V(!new)>(g: Graph, f: Kernel<V>, body: seq<nat>, inputs: seq<Output>, args: seq<V>,
                                   order: seq<nat>): Option<State<Output, V>>
    requires |inputs| == |args|
    requires forall b :: 0 <= b < |body| ==> body[b] < |g|
    requires forall i :: 0 <= i < |order| ==> order[i] < |body|
  {
    if order == [] then Some(State(Fed(inputs, args), {}))
    else
      var last := |order| - 1;
      match RunGraph(g, f, body, inputs, args, order[..last])
      case Some(s) => RunNode(g, f, body, inputs, s, order[last])
      case None => None
  }

  ghost function GraphResult<V(!new)>(g: Graph, f: Kernel<V>, body: seq<nat>, inputs: seq<Output>,
                                      outputs: seq<Output>, args: seq<V>, order: seq<nat>): Option<seq<V>>
    requires |inputs| == |args|
    requires forall b :: 0 <= b < |body| ==> body[b] < |g|
    requires forall i :: 0 <= i < |order| ==> order[i] < |body|
  {
    match RunGraph(g, f, body, inputs, args, order)
    case Some(s) => Lookup(s.values, outputs)
    case None => None
  }

  // ---- Calling the function ----

  ghost function Bound<V>(inputArgs: seq<string>, args: seq<V>): imap<string, V>
    requires |inputArgs| == |args|
  {
    imap x: string | x in inputArgs :: args[Find(inputArgs, x).value]
  }

  /** A control input that names a node of the function makes the node wait. */
  ghost predicate MayCall(fdef: FunctionDef, done: set<nat>, d: NodeDef) {
    forall i, c | 0 <= i < |d.controls| && 0 <= c < |fdef.nodeDefs| ::
      d.controls[i] == "^" + fdef.nodeDefs[c].name ==> c in done
  }

  ghost function Publish<V>(values: imap<string, V>, f: Kernel<V>, name: string, outputs: seq<OutputArg>, origin: nat,
                            args: seq<V>, upTo: nat): imap<string, V>
    requires upTo <= NumOutputs(outputs)
  {
    if upTo == 0 then values
    else
      Publish(values, f, name, outputs, origin, args, upTo - 1)
        [RefOf(name, outputs, upTo - 1) := f(origin, args, upTo - 1)]
  }

  ghost function CallNode<V(!new)>(g: Graph, f: Kernel<V>, fdef: FunctionDef, s: State<string, V>,
                                   b: nat): Option<State<string, V>>
    requires b < |fdef.nodeDefs| && fdef.nodeDefs[b].origin < |g|
  {
    var d := fdef.nodeDefs[b];
    if MayCall(fdef, s.done, d) then
      match Lookup(s.values, d.inputs)
      case Some(args) =>
        var outputs := g[d.origin].outputs;
        Some(State(Publish(s.values, f, d.name, outputs, d.origin, args, NumOutputs(outputs)), s.done + {b}))
      case None => None
    else None
  }

  ghost function RunCall<V(!new)>(g: Graph, f: Kernel<V>, fdef: FunctionDef, args: seq<V>,
                                  order: seq<nat>): Option<State<string, V>>
    requires |fdef.inputArgs| == |args|
    requires forall b :: 0 <= b < |fdef.nodeDefs| ==> fdef.nodeDefs[b].origin < |g|
    requires forall i :: 0 <= i < |order| ==> order[i] < |fdef.nodeDefs|
  {
    if order == [] then Some(State(Bound(fdef.inputArgs, args), {}))
    else
      var last := |order| - 1;
      match RunCall(g, f, fdef, args, order[..last])
      case Some(s) => CallNode(g, f, fdef, s, order[last])
      case None => None
  }

  ghost function Returned(fdef: FunctionDef): seq<string>
    requires forall k :: 0 <= k < |fdef.outputArgs| ==> fdef.outputArgs[k] in fdef.ret
  {
    seq(|fdef.outputArgs|, k requires 0 <= k < |fdef.outputArgs| => fdef.ret[fdef.outputArgs[k]])
  }

  ghost function CallResult<V(!new)>(g: Graph, f: Kernel<V>, fdef: FunctionDef, args: seq<V>,
                                     order: seq<nat>): Option<seq<V>>
    requires |fdef.inputArgs| == |args|
    requires forall b :: 0 <= b < |fdef.nodeDefs| ==> fdef.nodeDefs[b].origin < |g|
    requires forall i :: 0 <= i < |order| ==> order[i] < |fdef.nodeDefs|
    requires forall k :: 0 <= k < |fdef.outputArgs| ==> fdef.outputArgs[k] in fdef.ret
  {
    match RunCall(g, f, fdef, args, order)
    case Some(s) => Lookup(s.values, Returned(fdef))
    case None => None
  }

  // ---- The two runs stay in step ----

  ghost predicate Good(g: Graph, body: seq<nat>, inputs: seq<Output>, outputs: seq<Output>, fdef: FunctionDef) {
    && ValidGraph(g) && Converted(g, body, inputs, outputs, fdef)
    && NoDuplicates(body) && NoDuplicates(inputs)
  }

  ghost function Ref(g: Graph, body: seq<nat>, inputs: seq<Output>, fdef: FunctionDef, o: Output): Option<string>
    requires |fdef.inputArgs| == |inputs| && |fdef.nodeDefs| == |body|
  {
    Reference(g, inputs, fdef.inputArgs, body, NodeNamesOf(fdef.nodeDefs), o)
  }

  /** The function holds exactly the values the graph does, under their references. */
  ghost predicate SameTensor<V(!new)>(s: State<Output, V>, t: State<string, V>, o: Output, r: Option<string>) {
    && (o in s.values <==> r.Some? && r.value in t.values)
    && (o in s.values ==> s.values[o] == t.values[r.value])
  }

  ghost predicate InStep<V(!new)>(g: Graph, body: seq<nat>, inputs: seq<Output>, fdef: FunctionDef,
                                  s: State<Output, V>, t: State<string, V>)
    requires |fdef.inputArgs| == |inputs| && |fdef.nodeDefs| == |body|
  {
    s.done == t.done && forall o: Output :: SameTensor(s, t, o, Ref(g, body, inputs, fdef, o))
  }

  lemma {:induction false} PublishedAt<V>(values: imap<string, V>, f: Kernel<V>, name: string,
                                          outputs: seq<OutputArg>, origin: nat, args: seq<V>, upTo: nat, x: string)
    requires upTo <= NumOutputs(outputs) && forall i: nat :: i < upTo ==> x != RefOf(name, outputs, i)
    ensures var next := Publish(values, f, name, outputs, origin, args, upTo);
            (x in next <==> x in values) && (x in values ==> next[x] == values[x])
  {
    if upTo > 0 {
      PublishedAt(values, f, name, outputs, origin, args, upTo - 1, x);
    }
  }

  lemma {:induction false} PublishedOutput<V>(g: Graph, n: nat, values: imap<string, V>, f: Kernel<V>, name: string,
                                              args: seq<V>, upTo: nat, i: nat)
    requires n < |g| && ValidNode(g, g[n]) && ':' !in name && i < upTo <= NumOutputs(g[n].outputs)
    ensures var next := Publish(values, f, name, g[n].outputs, n, args, upTo); var x := RefOf(name, g[n].outputs, i);
            x in next && next[x] == f(n, args, i)
  {
    hide RefOf, NumOutputs;
    if i < upTo - 1 {
      PublishedOutput(g, n, values, f, name, args, upTo - 1, i);
      if RefOf(name, g[n].outputs, i) == RefOf(name, g[n].outputs, upTo - 1) {
        RefInjective(g, n, name, i, n, name, upTo - 1);
      }
    }
  }

  lemma {:induction false} SameArguments<V(!new)>(g: Graph, body: seq<nat>, inputs: seq<Output>, fdef: FunctionDef,
                                                  s: State<Output, V>, t: State<string, V>, os: seq<Output>,
                                                  refs: seq<string>)
    requires |fdef.inputArgs| == |inputs| && |fdef.nodeDefs| == |body| && InStep(g, body, inputs, fdef, s, t)
    requires |os| == |refs| && forall i :: 0 <= i < |os| ==> Some(refs[i]) == Ref(g, body, inputs, fdef, os[i])
    ensures Lookup(s.values, os) == Lookup(t.values, refs)
  {
    forall i | 0 <= i < |os|
      ensures os[i] in s.values <==> refs[i] in t.values
      ensures os[i] in s.values ==> s.values[os[i]] == t.values[refs[i]]
    {
      assert SameTensor(s, t, os[i], Ref(g, body, inputs, fdef, os[i]));
    }
    if Lookup(s.values, os).Some? {
      assert Lookup(s.values, os).value == Lookup(t.values, refs).value;
    }
  }

  lemma {:induction false} FindUnique<T>(s: seq<T>, i: nat)
    requires i < |s| && NoDuplicates(s)
    ensures Find(s, s[i]) == Some(i)
  {
  }

  /** Argument and node names of the function are all different. */
  lemma {:induction false} NamesDiffer(g: Graph, body: seq<nat>, inputs: seq<Output>, outputs: seq<Output>,
                                       fdef: FunctionDef)
    requires Good(g, body, inputs, outputs, fdef)
    ensures NoDuplicates(NodeNamesOf(fdef.nodeDefs)) && NoDuplicates(fdef.inputArgs)
    ensures forall k, b :: 0 <= k < |inputs| && 0 <= b < |body| ==> fdef.inputArgs[k] != fdef.nodeDefs[b].name
  {
    var names := NodeNamesOf(fdef.nodeDefs);
    PartsDiffer(fdef.outputArgs, fdef.inputArgs, names);
    forall k, b | 0 <= k < |inputs| && 0 <= b < |body| ensures fdef.inputArgs[k] != fdef.nodeDefs[b].name {
      assert names[b] == fdef.nodeDefs[b].name;
    }
  }

  lemma {:induction false} PartsDiffer(x: seq<string>, y: seq<string>, z: seq<string>)
    requires NoDuplicates(x + y + z)
    ensures NoDuplicates(y) && NoDuplicates(z) && forall i, j :: 0 <= i < |y| && 0 <= j < |z| ==> y[i] != z[j]
  {
    var all := x + y + z;
    forall i, j | 0 <= i < j < |y| ensures y[i] != y[j] {
      assert all[|x| + i] == y[i] && all[|x| + j] == y[j];
    }
    forall i, j | 0 <= i < j < |z| ensures z[i] != z[j] {
      assert all[|x| + |y| + i] == z[i] && all[|x| + |y| + j] == z[j];
    }
    forall i, j | 0 <= i < |y| && 0 <= j < |z| ensures y[i] != z[j] {
      assert all[|x| + i] == y[i] && all[|x| + |y| + j] == z[j];
    }
  }

  lemma {:induction false} SameControls(g: Graph, body: seq<nat>, inputs: seq<Output>, outputs: seq<Output>,
                                        fdef: FunctionDef, done: set<nat>, b: nat)
    requires Good(g, body, inputs, outputs, fdef) && b < |body|
    ensures MayRun(g, body, done, body[b]) <==> MayCall(fdef, done, fdef.nodeDefs[b])
  {
    var names := NodeNamesOf(fdef.nodeDefs);
    var n, d := g[body[b]], fdef.nodeDefs[b];
    assert ConvertedNode(g, body, inputs, fdef.inputArgs, names, d, b);
    forall i, c | 0 <= i < |n.controls| && 0 <= c < |body|
      ensures body[c] == n.controls[i] <==> d.controls[i] == "^" + fdef.nodeDefs[c].name
    {
      var r := ControlName(inputs, fdef.inputArgs, body, names, n.controls[i]);
      assert d.controls[i] == "^" + r.value;
      SameControl(g, body, inputs, outputs, fdef, n.controls[i], c);
      CaretInjective(r.value, fdef.nodeDefs[c].name);
    }
  }

  lemma {:induction false} CaretInjective(x: string, y: string)
    ensures "^" + x == "^" + y <==> x == y
  {
    assert ("^" + x)[1..] == x && ("^" + y)[1..] == y;
  }

  /** A control source gets the name of node c exactly when it is node c. */
  lemma {:induction false} SameControl(g: Graph, body: seq<nat>, inputs: seq<Output>, outputs: seq<Output>,
                                       fdef: FunctionDef, src: nat, c: nat)
    requires Good(g, body, inputs, outputs, fdef) && c < |body|
    ensures body[c] == src <==>
            ControlName(inputs, fdef.inputArgs, body, NodeNamesOf(fdef.nodeDefs), src) == Some(fdef.nodeDefs[c].name)
  {
    NamesDiffer(g, body, inputs, outputs, fdef);
    assert NodeNamesOf(fdef.nodeDefs)[c] == fdef.nodeDefs[c].name;
    hide Converted, ValidGraph;
    FindUnique(body, c);
  }

  /** No other reference of the function is written when node b runs. */
  lemma {:induction false} OtherReference(g: Graph, body: seq<nat>, inputs: seq<Output>, outputs: seq<Output>,
                                          fdef: FunctionDef, b: nat, o: Output, i: nat)
    requires Good(g, body, inputs, outputs, fdef) && b < |body| && i < NumOutputs(g[body[b]].outputs)
    requires Ref(g, body, inputs, fdef, o).Some? && !Computes(g, inputs, body[b], o)
    ensures Ref(g, body, inputs, fdef, o).value != RefOf(fdef.nodeDefs[b].name, g[body[b]].outputs, i)
  {
    NamesDiffer(g, body, inputs, outputs, fdef);
    var names := NodeNamesOf(fdef.nodeDefs);
    assert names[b] == fdef.nodeDefs[b].name;
    if o in inputs {
      RefHasSeparator(names[b], g[body[b]].outputs, i);
      assert ':' !in fdef.inputArgs[Find(inputs, o).value];
    } else {
      var c := Find(body, o.node).value;
      assert c != b && names[c] != names[b];
      if RefOf(names[c], g[o.node].outputs, o.index) == RefOf(names[b], g[body[b]].outputs, i) {
        RefInjective(g, o.node, names[c], o.index, body[b], names[b], i);
      }
    }
  }

  lemma {:induction false} TensorStaysInStep<V(!new)>(g: Graph, f: Kernel<V>, body: seq<nat>, inputs: seq<Output>,
                                                      outputs: seq<Output>, fdef: FunctionDef,
                                                      s: State<Output, V>, t: State<string, V>, b: nat, args: seq<V>,
                                                      o: Output)
    requires Good(g, body, inputs, outputs, fdef) && b < |body| && InStep(g, body, inputs, fdef, s, t)
    ensures var node := g[body[b]];
            var s' := State(WithOutputs(g, f, inputs, s.values, body[b], args), s.done + {b});
            var t' := State(Publish(t.values, f, fdef.nodeDefs[b].name, node.outputs, body[b], args,
                                    NumOutputs(node.outputs)), t.done + {b});
            SameTensor(s', t', o, Ref(g, body, inputs, fdef, o))
  {
    var n, name := body[b], fdef.nodeDefs[b].name;
    var r := Ref(g, body, inputs, fdef, o);
    assert SameTensor(s, t, o, r);
    assert name == NodeNamesOf(fdef.nodeDefs)[b];
    if Computes(g, inputs, n, o) {
      FindUnique(body, b);
      assert r == Some(RefOf(name, g[n].outputs, o.index));
      PublishedOutput(g, n, t.values, f, name, args, NumOutputs(g[n].outputs), o.index);
    } else if r.Some? {
      forall i: nat | i < NumOutputs(g[n].outputs) ensures r.value != RefOf(name, g[n].outputs, i) {
        OtherReference(g, body, inputs, outputs, fdef, b, o, i);
      }
      PublishedAt(t.values, f, name, g[n].outputs, n, args, NumOutputs(g[n].outputs), r.value);
    }
  }

  /** A node is ready in the function exactly when it is in the graph, and then they stay in step. */
  lemma {:induction false} NodeStaysInStep<V(!new)>(g: Graph, f: Kernel<V>, body: seq<nat>, inputs: seq<Output>,
                                                    outputs: seq<Output>, fdef: FunctionDef,
                                                    s: State<Output, V>, t: State<string, V>, b: nat)
    requires Good(g, body, inputs, outputs, fdef) && b < |body| && InStep(g, body, inputs, fdef, s, t)
    ensures var s', t' := RunNode(g, f, body, inputs, s, b), CallNode(g, f, fdef, t, b);
            (s'.Some? <==> t'.Some?) && (s'.Some? ==> InStep(g, body, inputs, fdef, s'.value, t'.value))
  {
    var n, d := body[b], fdef.nodeDefs[b];
    assert ConvertedNode(g, body, inputs, fdef.inputArgs, NodeNamesOf(fdef.nodeDefs), d, b);
    SameControls(g, body, inputs, outputs, fdef, s.done, b);
    SameArguments(g, body, inputs, fdef, s, t, Sources(g[n]), d.inputs);
    var s' := RunNode(g, f, body, inputs, s, b);
    if s'.Some? {
      var args := Lookup(s.values, Sources(g[n])).value;
      forall o: Output
        ensures SameTensor(s'.value, CallNode(g, f, fdef, t, b).value, o, Ref(g, body, inputs, fdef, o))
      {
        TensorStaysInStep(g, f, body, inputs, outputs, fdef, s, t, b, args, o);
      }
    }
  }

  lemma {:induction false} StartsInStep<V(!new)>(g: Graph, body: seq<nat>, inputs: seq<Output>, outputs: seq<Output>,
                                                 fdef: FunctionDef, args: seq<V>)
    requires Good(g, body, inputs, outputs, fdef) && |inputs| == |args|
    ensures InStep(g, body, inputs, fdef, State(Fed(inputs, args), {}), State(Bound(fdef.inputArgs, args), {}))
  {
    NamesDiffer(g, body, inputs, outputs, fdef);
    var s, t := State(Fed(inputs, args), {}), State(Bound(fdef.inputArgs, args), {});
    forall o: Output ensures SameTensor(s, t, o, Ref(g, body, inputs, fdef, o)) {
      var r := Ref(g, body, inputs, fdef, o);
      if o in inputs {
        FindUnique(fdef.inputArgs, Find(inputs, o).value);
      } else if r.Some? {
        var c := Find(body, o.node).value;
        RefHasSeparator(NodeNamesOf(fdef.nodeDefs)[c], g[o.node].outputs, o.index);
        assert forall k :: 0 <= k < |inputs| ==> ':' !in fdef.inputArgs[k];
      }
    }
  }

  lemma {:induction false} RunsStayInStep<V(!new)>(g: Graph, f: Kernel<V>, body: seq<nat>, inputs: seq<Output>,
                                                   outputs: seq<Output>, fdef: FunctionDef,
                                                   args: seq<V>, order: seq<nat>)
    requires Good(g, body, inputs, outputs, fdef) && |inputs| == |args|
    requires forall i :: 0 <= i < |order| ==> order[i] < |body|
    ensures forall b :: 0 <= b < |body| ==> body[b] < |g| && fdef.nodeDefs[b].origin == body[b]
    ensures var s, t := RunGraph(g, f, body, inputs, args, order), RunCall(g, f, fdef, args, order);
            (s.Some? <==> t.Some?) && (s.Some? ==> InStep(g, body, inputs, fdef, s.value, t.value))
  {
    if order == [] {
      StartsInStep(g, body, inputs, outputs, fdef, args);
    } else {
      var last := |order| - 1;
      RunsStayInStep(g, f, body, inputs, outputs, fdef, args, order[..last]);
      var s, t := RunGraph(g, f, body, inputs, args, order[..last]), RunCall(g, f, fdef, args, order[..last]);
      if s.Some? {
        NodeStaysInStep(g, f, body, inputs, outputs, fdef, s.value, t.value, order[last]);
      }
    }
  }

  /** For every kernel, arguments and order of execution the function returns what the graph computes
      with its inputs fed, and is stuck exactly when the graph is. */
  lemma {:induction false} ConversionPreservesMeaning<V(!new)>(g: Graph, f: Kernel<V>, body: seq<nat>,
                                                               inputs: seq<Output>, outputs: seq<Output>,
                                                               fdef: FunctionDef, args: seq<V>, order: seq<nat>)
    requires Good(g, body, inputs, outputs, fdef) && |inputs| == |args|
    requires forall i :: 0 <= i < |order| ==> order[i] < |body|
    ensures forall b :: 0 <= b < |body| ==> body[b] < |g| && fdef.nodeDefs[b].origin == body[b]
    ensures forall k :: 0 <= k < |outputs| ==> fdef.outputArgs[k] in fdef.ret
    ensures CallResult(g, f, fdef, args, order) == GraphResult(g, f, body, inputs, outputs, args, order)
  {
    RunsStayInStep(g, f, body, inputs, outputs, fdef, args, order);
    var s, t := RunGraph(g, f, body, inputs, args, order), RunCall(g, f, fdef, args, order);
    if s.Some? {
      SameArguments(g, body, inputs, fdef, s.value, t.value, outputs, Returned(fdef));
    }
  }

  /** Nothing dangles: every data input and return value is an argument or an output of a node of the
      function, and every control input names one of them. */
  ghost predicate Resolves(g: Graph, fdef: FunctionDef, x: string)
    requires forall b :: 0 <= b < |fdef.nodeDefs| ==> fdef.nodeDefs[b].origin < |g|
  {
    || x in fdef.inputArgs
    || exists b, i: nat :: 0 <= b < |fdef.nodeDefs| && i < NumOutputs(g[fdef.nodeDefs[b].origin].outputs)
         && x == RefOf(fdef.nodeDefs[b].name, g[fdef.nodeDefs[b].origin].outputs, i)
  }

  lemma {:induction false} ReferenceResolves(g: Graph, body: seq<nat>, inputs: seq<Output>, outputs: seq<Output>,
                                             fdef: FunctionDef, o: Output)
    requires Good(g, body, inputs, outputs, fdef) && Ref(g, body, inputs, fdef, o).Some?
    ensures forall b :: 0 <= b < |body| ==> fdef.nodeDefs[b].origin == body[b] < |g|
    ensures Resolves(g, fdef, Ref(g, body, inputs, fdef, o).value)
  {
    if o !in inputs {
      var b := Find(body, o.node).value;
      assert Ref(g, body, inputs, fdef, o).value
        == RefOf(fdef.nodeDefs[b].name, g[fdef.nodeDefs[b].origin].outputs, o.index);
    }
  }

  lemma {:induction false} ConversionIsClosed(g: Graph, body: seq<nat>, inputs: seq<Output>, outputs: seq<Output>,
                                              fdef: FunctionDef)
    requires Good(g, body, inputs, outputs, fdef)
    ensures forall b :: 0 <= b < |fdef.nodeDefs| ==> fdef.nodeDefs[b].origin < |g|
    ensures forall b, i :: 0 <= b < |body| && 0 <= i < |fdef.nodeDefs[b].inputs| ==>
            Resolves(g, fdef, fdef.nodeDefs[b].inputs[i])
    ensures forall b, i :: 0 <= b < |body| && 0 <= i < |fdef.nodeDefs[b].controls| ==>
              var x := fdef.nodeDefs[b].controls[i];
              |x| > 0 && x[0] == '^' && (x[1..] in fdef.inputArgs || x[1..] in NodeNamesOf(fdef.nodeDefs))
    ensures forall y :: y in fdef.ret ==> y in fdef.outputArgs && Resolves(g, fdef, fdef.ret[y])
  {
    var names := NodeNamesOf(fdef.nodeDefs);
    assert forall b :: 0 <= b < |body| ==> ConvertedNode(g, body, inputs, fdef.inputArgs, names, fdef.nodeDefs[b], b);
    forall b, i | 0 <= b < |body| && 0 <= i < |fdef.nodeDefs[b].inputs|
      ensures Resolves(g, fdef, fdef.nodeDefs[b].inputs[i])
    {
      ReferenceResolves(g, body, inputs, outputs, fdef, g[body[b]].inputs[i].value);
    }
    forall k | 0 <= k < |outputs| ensures Resolves(g, fdef, fdef.ret[fdef.outputArgs[k]]) {
      ReferenceResolves(g, body, inputs, outputs, fdef, outputs[k]);
    }
    forall b, i | 0 <= b < |body| && 0 <= i < |fdef.nodeDefs[b].controls|
      ensures var x := fdef.nodeDefs[b].controls[i];
              |x| > 0 && x[0] == '^' && (x[1..] in fdef.inputArgs || x[1..] in names)
    {
      var c := ControlName(inputs, fdef.inputArgs, body, names, g[body[b]].controls[i]);
      assert fdef.nodeDefs[b].controls[i] == "^" + c.value;
      assert fdef.nodeDefs[b].controls[i][1..] == c.value;
    }
  }
}
