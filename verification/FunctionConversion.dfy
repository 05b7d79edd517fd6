/** Turning part of a graph into a function definition: GraphToFunctionDef and its helpers in
    tensorflow/c/c_api_function.cc. */
module FunctionConversion {
  import opened Collections
  import opened NodeNames

  datatype Result<+T> = Ok(value: T) | InvalidArgument

  /** One output argument of an op, the number of tensors it stands for, and whether they are references. */
  datatype OutputArg = OutputArg(name: string, count: nat, isRef: bool)

  /** Output `index` of node `node`, as an edge source, a function input or a function output. */
  datatype Output = Output(node: nat, index: nat)

  /** A data input without an edge is None. */
  datatype GraphNode = GraphNode(name: string, inputs: seq<Option<Output>>, controls: seq<nat>, outputs: seq<OutputArg>)

  type Graph = seq<GraphNode>

  /** A node of the function: the op and attributes of graph node `origin` under a new name, its
      data inputs by reference, and its control inputs. */
  datatype NodeDef = NodeDef(origin: nat, name: string, inputs: seq<string>, controls: seq<string>)

  datatype FunctionDef = FunctionDef(inputArgs: seq<string>, outputArgs: seq<string>,
                                     nodeDefs: seq<NodeDef>, ret: map<string, string>)

  function NumOutputs(outputs: seq<OutputArg>): nat {
    if outputs == [] then 0 else outputs[0].count + NumOutputs(outputs[1..])
  }

  /** "<node>:<output argument>:<position>" for the flat output index i. */
  function RefOf(node: string, outputs: seq<OutputArg>, i: nat): string
    requires i < NumOutputs(outputs)
  {
    if i < outputs[0].count then node + ":" + outputs[0].name + ":" + Decimal(i)
    else RefOf(node, outputs[1..], i - outputs[0].count)
  }

  /** Whether the output with flat index i has a reference type. */
  predicate IsRefOutput(outputs: seq<OutputArg>, i: nat)
    requires i < NumOutputs(outputs)
  {
    if i < outputs[0].count then outputs[0].isRef else IsRefOutput(outputs[1..], i - outputs[0].count)
  }

  ghost predicate ValidOutput(g: Graph, o: Output) {
    o.node < |g| && o.index < NumOutputs(g[o.node].outputs)
  }

  ghost predicate ValidNode(g: Graph, n: GraphNode) {
    && n.name != "" && ':' !in n.name
    && (forall i, j :: 0 <= i < j < |n.outputs| ==> n.outputs[i].name != n.outputs[j].name)
    && (forall i :: 0 <= i < |n.outputs| ==> ':' !in n.outputs[i].name)
    && (forall i :: 0 <= i < |n.inputs| && n.inputs[i].Some? ==> ValidOutput(g, n.inputs[i].value))
    && (forall i :: 0 <= i < |n.controls| ==> n.controls[i] < |g|)
  }

  /** What a TensorFlow graph guarantees about names and edges. */
  ghost predicate ValidGraph(g: Graph) {
    && (forall n :: 0 <= n < |g| ==> ValidNode(g, g[n]))
    && (forall m, n :: 0 <= m < n < |g| ==> g[m].name != g[n].name)
  }

  /** Distinct body nodes, distinct inputs, and output names for all outputs or for none. */
  ghost predicate ValidRequest(g: Graph, body: seq<nat>, inputs: seq<Output>, outputs: seq<Output>,
                               outputNames: seq<string>) {
    && (forall b :: 0 <= b < |body| ==> body[b] < |g|) && NoDuplicates(body)
    && (forall k :: 0 <= k < |inputs| ==> ValidOutput(g, inputs[k])) && NoDuplicates(inputs)
    && (forall k :: 0 <= k < |outputs| ==> ValidOutput(g, outputs[k]))
    && (outputNames == [] || |outputNames| == |outputs|)
  }

  // ---- What a conversion must produce ----

  function Find<T(==)>(s: seq<T>, x: T): (r: Option<nat>)
    ensures r.Some? <==> x in s
    ensures r.Some? ==> r.value < |s| && s[r.value] == x
  {
    if s == [] then None
    else
      var last := |s| - 1;
      assert s == s[..last] + [s[last]];
      if s[last] == x then Some(last) else Find(s[..last], x)
  }

  /** How the function refers to a tensor of the graph: by the input that stands for it, else as an
      output of its node if that is in the body. */
  ghost function Reference(g: Graph, inputs: seq<Output>, inputArgs: seq<string>, body: seq<nat>, names: seq<string>,
                           o: Output): Option<string>
    requires |inputs| == |inputArgs| && |body| == |names|
  {
    match Find(inputs, o)
    case Some(k) => Some(inputArgs[k])
    case None =>
      match Find(body, o.node)
      case Some(b) => if ValidOutput(g, o) then Some(RefOf(names[b], g[o.node].outputs, o.index)) else None
      case None => None
  }

  /** How the function names a node for control edges: as the body node, else as the last input it provides. */
  ghost function ControlName(inputs: seq<Output>, inputArgs: seq<string>, body: seq<nat>, names: seq<string>,
                             n: nat): Option<string>
    requires |inputs| == |inputArgs| && |body| == |names|
  {
    match Find(body, n)
    case Some(b) => Some(names[b])
    case None =>
      match Find(Nodes(inputs), n)
      case Some(k) => Some(inputArgs[k])
      case None => None
  }

  function Nodes(inputs: seq<Output>): (r: seq<nat>)
    ensures |r| == |inputs|
  {
    seq(|inputs|, k requires 0 <= k < |inputs| => inputs[k].node)
  }

  ghost predicate Available(g: Graph, body: seq<nat>, inputs: seq<Output>, o: Output) {
    o in inputs || (o.node in body && ValidOutput(g, o))
  }

  /** Every input edge of a body node exists and comes from the body or the inputs. */
  ghost predicate NodeConvertible(g: Graph, body: seq<nat>, inputs: seq<Output>, n: nat)
    requires n < |g|
  {
    && (forall i :: 0 <= i < |g[n].inputs| ==> g[n].inputs[i].Some? && Available(g, body, inputs, g[n].inputs[i].value))
    && (forall i :: 0 <= i < |g[n].controls| ==> g[n].controls[i] in body || g[n].controls[i] in Nodes(inputs))
  }

  ghost predicate Convertible(g: Graph, body: seq<nat>, inputs: seq<Output>, outputs: seq<Output>,
                              outputNames: seq<string>)
    requires forall b :: 0 <= b < |body| ==> body[b] < |g|
  {
    && NoDuplicates(outputNames)
    && (forall b :: 0 <= b < |body| ==> NodeConvertible(g, body, inputs, body[b]))
    && (forall k :: 0 <= k < |outputs| ==> Available(g, body, inputs, outputs[k]))
  }

  ghost function NodeNamesOf(nodeDefs: seq<NodeDef>): seq<string> {
    seq(|nodeDefs|, b requires 0 <= b < |nodeDefs| => nodeDefs[b].name)
  }

  ghost predicate ConvertedNode(g: Graph, body: seq<nat>, inputs: seq<Output>, inputArgs: seq<string>,
                                names: seq<string>, d: NodeDef, b: nat)
    requires b < |body| == |names| && |inputs| == |inputArgs| && body[b] < |g|
  {
    var n := g[body[b]];
    && d.origin == body[b] && d.name == names[b]
    && |d.inputs| == |n.inputs| && |d.controls| == |n.controls|
    && (forall i :: 0 <= i < |n.inputs| ==>
          n.inputs[i].Some? && Some(d.inputs[i]) == Reference(g, inputs, inputArgs, body, names, n.inputs[i].value))
    && (forall i :: 0 <= i < |n.controls| ==>
          var c := ControlName(inputs, inputArgs, body, names, n.controls[i]);
          c.Some? && d.controls[i] == "^" + c.value)
  }

  /** The names given out are pairwise distinct; arguments match the pattern, nodes have no separator. */
  ghost predicate GoodNames(outputArgs: seq<string>, inputArgs: seq<string>, names: seq<string>) {
    && NoDuplicates(outputArgs + inputArgs + names)
    && (forall k :: 0 <= k < |inputArgs| ==> IsArgName(inputArgs[k]))
    && (forall b :: 0 <= b < |names| ==> names[b] != "" && ':' !in names[b])
  }

  /** Each name is what uniquifying its original gives, against the names in use before it. */
  ghost predicate NamedAfter(used: set<string>, originals: seq<string>, names: seq<string>) {
    |names| == |originals|
    && forall k :: 0 <= k < |names| ==> IsUniquified(used + Elements(names[..k]), originals[k], names[k])
  }

  ghost function NormalizedNames(g: Graph, tensors: seq<Output>): (r: seq<string>)
    requires forall k :: 0 <= k < |tensors| ==> tensors[k].node < |g|
    ensures |r| == |tensors|
  {
    seq(|tensors|, k requires 0 <= k < |tensors| => Normalized(g[tensors[k].node].name))
  }

  ghost function NamesIn(g: Graph, body: seq<nat>): (r: seq<string>)
    requires forall b :: 0 <= b < |body| ==> body[b] < |g|
    ensures |r| == |body|
  {
    seq(|body|, b requires 0 <= b < |body| => g[body[b]].name)
  }

  /** Output arguments have the given names or the normal forms of their nodes' names; inputs have the
      normal forms, body nodes the names, of the nodes they come from; and all are made unique in turn. */
  ghost predicate RightlyNamed(g: Graph, body: seq<nat>, inputs: seq<Output>, outputs: seq<Output>,
                               outputNames: seq<string>, fdef: FunctionDef) {
    && (forall k :: 0 <= k < |inputs| ==> inputs[k].node < |g|)
    && (forall k :: 0 <= k < |outputs| ==> outputs[k].node < |g|) && (forall b :: 0 <= b < |body| ==> body[b] < |g|)
    && (outputNames != [] ==> fdef.outputArgs == outputNames)
    && (outputNames == [] ==> NamedAfter({}, NormalizedNames(g, outputs), fdef.outputArgs))
    && NamedAfter(Elements(fdef.outputArgs), NormalizedNames(g, inputs), fdef.inputArgs)
    && NamedAfter(Elements(fdef.outputArgs + fdef.inputArgs), NamesIn(g, body), NodeNamesOf(fdef.nodeDefs))
  }

  lemma {:induction false} NameOneMore(used: set<string>, originals: seq<string>, names: seq<string>, name: string,
                                       all: set<string>)
    requires |names| < |originals| && NamedAfter(used, originals[..|names|], names) && all == used + Elements(names)
    requires IsUniquified(all, originals[|names|], name)
    ensures NamedAfter(used, originals[..|names| + 1], names + [name])
  {
    hide IsUniquified;
    var more := names + [name];
    forall k | 0 <= k < |more| ensures IsUniquified(used + Elements(more[..k]), originals[k], more[k]) {
      if k < |names| {
        assert more[..k] == names[..k];
        assert IsUniquified(used + Elements(names[..k]), originals[..|names|][k], names[k]);
      } else {
        assert more[..k] == names;
      }
    }
  }

  lemma {:induction false} ElementsConcat<T>(a: seq<T>, b: seq<T>)
    ensures Elements(a + b) == Elements(a) + Elements(b)
  {
  }

  /** A function definition that refers to everything by the right name. */
  ghost predicate Converted(g: Graph, body: seq<nat>, inputs: seq<Output>, outputs: seq<Output>, fdef: FunctionDef) {
    var names := NodeNamesOf(fdef.nodeDefs);
    && |fdef.inputArgs| == |inputs| && |fdef.outputArgs| == |outputs| && |fdef.nodeDefs| == |body|
    && GoodNames(fdef.outputArgs, fdef.inputArgs, names)
    && (forall b :: 0 <= b < |body| ==>
          body[b] < |g| && ConvertedNode(g, body, inputs, fdef.inputArgs, names, fdef.nodeDefs[b], b))
    && fdef.ret.Keys == (set k | 0 <= k < |outputs| :: fdef.outputArgs[k])
    && (forall k :: 0 <= k < |outputs| ==>
          Some(fdef.ret[fdef.outputArgs[k]]) == Reference(g, inputs, fdef.inputArgs, body, names, outputs[k]))
  }

  // ---- References are unambiguous ----

  function Start(outputs: seq<OutputArg>, a: nat): nat
    requires a <= |outputs|
  {
    NumOutputs(outputs[..a])
  }

  lemma {:induction false} NumOutputsConcat(x: seq<OutputArg>, y: seq<OutputArg>)
    ensures NumOutputs(x + y) == NumOutputs(x) + NumOutputs(y)
  {
    if x == [] {
      assert x + y == y;
    } else {
      assert (x + y)[1..] == x[1..] + y;
      NumOutputsConcat(x[1..], y);
    }
  }

  lemma {:induction false} StartStep(outputs: seq<OutputArg>, a: nat)
    requires a < |outputs|
    ensures Start(outputs, a + 1) == Start(outputs, a) + outputs[a].count <= NumOutputs(outputs)
  {
    assert outputs[..a + 1] == outputs[..a] + [outputs[a]];
    NumOutputsConcat(outputs[..a], [outputs[a]]);
    assert outputs == outputs[..a + 1] + outputs[a + 1..];
    NumOutputsConcat(outputs[..a + 1], outputs[a + 1..]);
  }

  /** The k-th tensor of output argument a. */
  lemma {:induction false} RefOfAt(node: string, outputs: seq<OutputArg>, a: nat, k: nat)
    requires a < |outputs| && k < outputs[a].count
    ensures Start(outputs, a) + k < NumOutputs(outputs)
    ensures RefOf(node, outputs, Start(outputs, a) + k) == node + ":" + outputs[a].name + ":" + Decimal(k)
  {
    StartStep(outputs, a);
    if a > 0 {
      assert outputs[..a][1..] == outputs[1..][..a - 1];
      RefOfAt(node, outputs[1..], a - 1, k);
    }
  }

  /** All tensors of a reference argument are references, and only those. */
  lemma {:induction false} IsRefOutputAt(outputs: seq<OutputArg>, a: nat, k: nat)
    requires a < |outputs| && k < outputs[a].count
    ensures Start(outputs, a) + k < NumOutputs(outputs)
    ensures IsRefOutput(outputs, Start(outputs, a) + k) <==> outputs[a].isRef
  {
    StartStep(outputs, a);
    if a > 0 {
      assert outputs[..a][1..] == outputs[1..][..a - 1];
      IsRefOutputAt(outputs[1..], a - 1, k);
    }
  }

  /** Every flat index is the k-th tensor of some output argument. */
  lemma {:induction false} RefForm(node: string, outputs: seq<OutputArg>, i: nat) returns (a: nat, k: nat)
    requires i < NumOutputs(outputs)
    ensures a < |outputs| && k < outputs[a].count && i == Start(outputs, a) + k
    ensures RefOf(node, outputs, i) == node + ":" + outputs[a].name + ":" + Decimal(k)
  {
    if i < outputs[0].count {
      a, k := 0, i;
    } else {
      var a', k' := RefForm(node, outputs[1..], i - outputs[0].count);
      a, k := a' + 1, k';
      assert outputs[..a][1..] == outputs[1..][..a'];
    }
  }

  lemma {:induction false} RefHasSeparator(node: string, outputs: seq<OutputArg>, i: nat)
    requires i < NumOutputs(outputs)
    ensures ':' in RefOf(node, outputs, i)
  {
    var a, k := RefForm(node, outputs, i);
    var tail := outputs[a].name + ":" + Decimal(k);
    assert RefOf(node, outputs, i) == node + [':'] + tail;
    assert RefOf(node, outputs, i)[|node|] == ':';
  }

  lemma {:induction false} RefParts(x: string, s: string, k: nat, y: string, t: string, l: nat)
    requires ':' !in x && ':' !in y && ':' !in s && ':' !in t
    requires x + ":" + s + ":" + Decimal(k) == y + ":" + t + ":" + Decimal(l)
    ensures x == y && s == t && k == l
  {
    hide Decimal;
    assert x + ":" + s + ":" + Decimal(k) == x + [':'] + (s + ":" + Decimal(k));
    assert y + ":" + t + ":" + Decimal(l) == y + [':'] + (t + ":" + Decimal(l));
    SplitAtSeparator(x, y, s + ":" + Decimal(k), t + ":" + Decimal(l), ':');
    SplitAtSeparator(s, t, Decimal(k), Decimal(l), ':');
    DecimalInjective(k, l);
  }

  /** A reference determines the node it points to and the flat output index. */
  lemma {:induction false} RefInjective(g: Graph, m: nat, x: string, i: nat, n: nat, y: string, j: nat)
    requires m < |g| && n < |g| && ValidNode(g, g[m]) && ValidNode(g, g[n]) && ':' !in x && ':' !in y
    requires i < NumOutputs(g[m].outputs) && j < NumOutputs(g[n].outputs)
    requires RefOf(x, g[m].outputs, i) == RefOf(y, g[n].outputs, j)
    ensures x == y && (m == n ==> i == j)
  {
    var a, k := RefForm(x, g[m].outputs, i);
    var b, l := RefForm(y, g[n].outputs, j);
    hide RefOf, NumOutputs, Decimal, Start;
    RefParts(x, g[m].outputs[a].name, k, y, g[n].outputs[b].name, l);
  }

  // ---- The maps the conversion builds ----

  ghost function Get<K, V>(m: map<K, V>, k: K): Option<V> {
    if k in m then Some(m[k]) else None
  }

  /** tensor_renaming holds exactly the references of the tensors seen so far. */
  ghost predicate Renames(g: Graph, renaming: map<string, string>, inputs: seq<Output>, inputArgs: seq<string>,
                          body: seq<nat>, names: seq<string>) {
    && |inputs| == |inputArgs| && |body| == |names|
    && (forall o: Output :: RenamesTensor(g, renaming, inputs, inputArgs, body, names, o))
  }

  ghost predicate RenamesTensor(g: Graph, renaming: map<string, string>, inputs: seq<Output>, inputArgs: seq<string>,
                                body: seq<nat>, names: seq<string>, o: Output)
    requires |inputs| == |inputArgs| && |body| == |names|
  {
    o.node < |g| ==> Get(renaming, Key(g[o.node].name, o.index)) == Reference(g, inputs, inputArgs, body, names, o)
  }

  /** name_mapping_ holds exactly the control names of the nodes seen so far. */
  ghost predicate Maps(g: Graph, mapping: map<string, string>, inputs: seq<Output>, inputArgs: seq<string>,
                       body: seq<nat>, names: seq<string>) {
    && |inputs| == |inputArgs| && |body| == |names|
    && (forall n :: 0 <= n < |g| ==> Get(mapping, g[n].name) == ControlName(inputs, inputArgs, body, names, n))
  }

  lemma {:induction false} KeysDiffer(g: Graph, o: Output, p: Output)
    requires ValidGraph(g) && o.node < |g| && p.node < |g| && o != p
    ensures Key(g[o.node].name, o.index) != Key(g[p.node].name, p.index)
  {
    assert ValidNode(g, g[o.node]) && ValidNode(g, g[p.node]);
    if Key(g[o.node].name, o.index) == Key(g[p.node].name, p.index) {
      KeyInjective(g[o.node].name, o.index, g[p.node].name, p.index);
      NamesDiffer(g, o.node, p.node);
    }
  }

  lemma {:induction false} NamesDiffer(g: Graph, m: nat, n: nat)
    requires ValidGraph(g) && m < |g| && n < |g| && g[m].name == g[n].name
    ensures m == n
  {
  }

  lemma {:induction false} FindSnoc<T>(s: seq<T>, y: T, x: T)
    ensures Find(s + [y], x) == if x == y then Some(|s|) else Find(s, x)
  {
    assert (s + [y])[..|s|] == s;
  }

  lemma {:induction false} RenameInput(g: Graph, renaming: map<string, string>, inputs: seq<Output>,
                                       inputArgs: seq<string>, o: Output, name: string)
    requires ValidGraph(g) && Renames(g, renaming, inputs, inputArgs, [], []) && o.node < |g|
    ensures Renames(g, renaming[Key(g[o.node].name, o.index) := name], inputs + [o], inputArgs + [name], [], [])
  {
    var next := renaming[Key(g[o.node].name, o.index) := name];
    forall p: Output ensures RenamesTensor(g, next, inputs + [o], inputArgs + [name], [], [], p) {
      assert RenamesTensor(g, renaming, inputs, inputArgs, [], [], p);
      FindSnoc(inputs, o, p);
      if p.node < |g| && p != o {
        KeysDiffer(g, o, p);
      }
    }
  }

  lemma {:induction false} MapInput(g: Graph, mapping: map<string, string>, inputs: seq<Output>,
                                    inputArgs: seq<string>, o: Output, name: string)
    requires ValidGraph(g) && Maps(g, mapping, inputs, inputArgs, [], []) && o.node < |g|
    ensures Maps(g, mapping[g[o.node].name := name], inputs + [o], inputArgs + [name], [], [])
  {
    assert Nodes(inputs + [o]) == Nodes(inputs) + [o.node];
    forall n | 0 <= n < |g|
      ensures Get(mapping[g[o.node].name := name], g[n].name)
              == ControlName(inputs + [o], inputArgs + [name], [], [], n)
    {
      FindSnoc(Nodes(inputs), o.node, n);
      if g[n].name == g[o.node].name {
        NamesDiffer(g, n, o.node);
      }
    }
  }

  lemma {:induction false} MapBody(g: Graph, mapping: map<string, string>, inputs: seq<Output>, inputArgs: seq<string>,
                                   body: seq<nat>, names: seq<string>, m: nat, name: string)
    requires ValidGraph(g) && Maps(g, mapping, inputs, inputArgs, body, names) && m < |g|
    ensures Maps(g, mapping[g[m].name := name], inputs, inputArgs, body + [m], names + [name])
  {
    forall n | 0 <= n < |g|
      ensures Get(mapping[g[m].name := name], g[n].name)
              == ControlName(inputs, inputArgs, body + [m], names + [name], n)
    {
      FindSnoc(body, m, n);
      if g[n].name == g[m].name {
        NamesDiffer(g, n, m);
      }
    }
  }

  /** What recording the outputs of a node does to tensor_renaming (lines 375-389). */
  ghost predicate OutputsRecorded(renaming: map<string, string>, next: map<string, string>, node: GraphNode,
                                  name: string, upTo: nat)
    requires upTo <= NumOutputs(node.outputs)
  {
    && (forall key :: key in renaming ==> key in next && next[key] == renaming[key])
    && (forall i: nat :: i < upTo ==> Key(node.name, i) in next)
    && (forall i: nat :: i < upTo && Key(node.name, i) !in renaming ==>
        next[Key(node.name, i)] == RefOf(name, node.outputs, i))
    && (forall key :: key in next && key !in renaming ==> exists i: nat :: i < upTo && key == Key(node.name, i))
  }

  lemma {:induction false} RenameBody(g: Graph, renaming: map<string, string>, next: map<string, string>,
                                      inputs: seq<Output>, inputArgs: seq<string>,
                                      body: seq<nat>, names: seq<string>, m: nat, name: string)
    requires ValidGraph(g) && Renames(g, renaming, inputs, inputArgs, body, names) && m < |g| && m !in body
    requires OutputsRecorded(renaming, next, g[m], name, NumOutputs(g[m].outputs))
    ensures Renames(g, next, inputs, inputArgs, body + [m], names + [name])
  {
    forall o: Output ensures RenamesTensor(g, next, inputs, inputArgs, body + [m], names + [name], o) {
      assert RenamesTensor(g, renaming, inputs, inputArgs, body, names, o);
      FindSnoc(body, m, o.node);
      if o.node < |g| {
        RenameBodyTensor(g, renaming, next, m, name, o);
      }
    }
  }

  lemma {:induction false} RenameBodyTensor(g: Graph, renaming: map<string, string>, next: map<string, string>,
                                            m: nat, name: string, o: Output)
    requires ValidGraph(g) && m < |g| && o.node < |g|
    requires OutputsRecorded(renaming, next, g[m], name, NumOutputs(g[m].outputs))
    ensures var key := Key(g[o.node].name, o.index);
      Get(next, key) == if key in renaming then Some(renaming[key])
                        else if o.node == m && ValidOutput(g, o) then Some(RefOf(name, g[m].outputs, o.index)) else None
  {
    var key := Key(g[o.node].name, o.index);
    if key in next && key !in renaming {
      var i: nat :| i < NumOutputs(g[m].outputs) && key == Key(g[m].name, i);
      if o != Output(m, i) {
        KeysDiffer(g, o, Output(m, i));
      }
    }
  }

  // ---- The conversion ----

  /** Lines 334-345. */
  method NameOutputs(names: NodeNameMapping, g: Graph, outputs: seq<Output>, outputNames: seq<string>)
    returns (ok: bool, outputArgs: seq<string>)
    requires names.Valid() && names.usedNames == {} && names.nameMapping == map[]
    requires forall k :: 0 <= k < |outputs| ==> outputs[k].node < |g|
    requires outputNames == [] || |outputNames| == |outputs|
    modifies names
    ensures names.Valid() && names.nameMapping == map[]
    ensures ok <==> NoDuplicates(outputNames)
    ensures ok ==> |outputArgs| == |outputs| && NoDuplicates(outputArgs) && names.usedNames == Elements(outputArgs)
    ensures ok && outputNames != [] ==> outputArgs == outputNames
    ensures ok && outputNames == [] ==> NamedAfter({}, NormalizedNames(g, outputs), outputArgs)
    ensures ok && outputNames == [] ==> forall k :: 0 <= k < |outputArgs| ==> IsArgName(outputArgs[k])
  {
    hide IsUniquified, NormalizedNames, NamedAfter;
    outputArgs := [];
    ghost var originals := NormalizedNames(g, outputs);
    NothingNamedYet({}, originals);
    for i := 0 to |outputs|
      invariant names.Valid() && names.nameMapping == map[]
      invariant |outputArgs| == i && NoDuplicates(outputArgs) && names.usedNames == Elements(outputArgs)
      invariant outputNames != [] ==> outputArgs == outputNames[..i]
      invariant outputNames == [] ==> forall k :: 0 <= k < i ==> IsArgName(outputArgs[k])
      invariant outputNames == [] ==> NamedAfter({}, originals[..i], outputArgs)
    {
      if outputNames != [] {
        ok := names.UseOutputName(outputNames[i]);
        if !ok {
          var k :| 0 <= k < i && outputArgs[k] == outputNames[i];
          assert outputNames[k] == outputNames[i];
          return;
        }
        AppendFresh(outputArgs, outputNames[i]);
        outputArgs := outputArgs + [outputNames[i]];
      } else {
        ghost var used := names.usedNames;
        var name := names.GetOutputName(g[outputs[i].node].name);
        NormalizedNameAt(g, outputs, i);
        NameOneMore({}, originals, outputArgs, name, used);
        UniquifiedForm(used, originals[i], name);
        AppendFresh(outputArgs, name);
        outputArgs := outputArgs + [name];
      }
    }
    ok := true;
    assert originals[..|outputs|] == originals;
    assert outputNames != [] ==> outputArgs == outputNames;
  }

  lemma {:induction false} NothingNamedYet(used: set<string>, originals: seq<string>)
    ensures NamedAfter(used, originals[..0], [])
  {
  }

  lemma {:induction false} NormalizedNameAt(g: Graph, tensors: seq<Output>, k: nat)
    requires k < |tensors| && forall i :: 0 <= i < |tensors| ==> tensors[i].node < |g|
    ensures NormalizedNames(g, tensors)[k] == Normalized(g[tensors[k].node].name)
  {
  }

  lemma {:induction false} NothingNamed(g: Graph)
    ensures Renames(g, map[], [], [], [], []) && Maps(g, map[], [], [], [], [])
  {
    forall o: Output ensures RenamesTensor(g, map[], [], [], [], [], o) {
    }
  }

  /** Lines 348-356. */
  method NameInputs(names: NodeNameMapping, g: Graph, inputs: seq<Output>, ghost outputArgs: seq<string>)
    returns (inputArgs: seq<string>, renaming: map<string, string>)
    requires ValidGraph(g) && forall k :: 0 <= k < |inputs| ==> inputs[k].node < |g|
    requires names.Valid() && names.nameMapping == map[]
    requires NoDuplicates(outputArgs) && names.usedNames == Elements(outputArgs)
    modifies names
    ensures names.Valid() && Maps(g, names.nameMapping, inputs, inputArgs, [], [])
    ensures GoodNames(outputArgs, inputArgs, []) && names.usedNames == Elements(outputArgs + inputArgs)
    ensures Renames(g, renaming, inputs, inputArgs, [], [])
    ensures NamedAfter(Elements(outputArgs), NormalizedNames(g, inputs), inputArgs)
  {
    inputArgs, renaming := [], map[];
    NothingNamed(g);
    hide Renames, Maps, ValidNode, IsUniquified, NamedAfter, NormalizedNames;
    ghost var originals := NormalizedNames(g, inputs);
    NothingNamedYet(Elements(outputArgs), originals);
    assert outputArgs + [] == outputArgs;
    for i := 0 to |inputs|
      invariant names.Valid() && Maps(g, names.nameMapping, inputs[..i], inputArgs, [], [])
      invariant NoDuplicates(outputArgs + inputArgs) && names.usedNames == Elements(outputArgs + inputArgs)
      invariant forall k :: 0 <= k < |inputArgs| ==> IsArgName(inputArgs[k])
      invariant Renames(g, renaming, inputs[..i], inputArgs, [], [])
      invariant |inputArgs| == i && NamedAfter(Elements(outputArgs), originals[..i], inputArgs)
    {
      var o := inputs[i];
      ghost var mapping, used := names.nameMapping, names.usedNames;
      var name := names.GetInputName(g[o.node].name);
      NormalizedNameAt(g, inputs, i);
      ElementsConcat(outputArgs, inputArgs);
      NameOneMore(Elements(outputArgs), originals, inputArgs, name, used);
      UniquifiedForm(used, originals[i], name);
      AppendFresh(outputArgs + inputArgs, name);
      assert outputArgs + inputArgs + [name] == outputArgs + (inputArgs + [name]);
      MapInput(g, mapping, inputs[..i], inputArgs, o, name);
      RenameInput(g, renaming, inputs[..i], inputArgs, o, name);
      assert inputs[..i + 1] == inputs[..i] + [o];
      renaming := renaming[Key(g[o.node].name, o.index) := name];
      inputArgs := inputArgs + [name];
    }
    assert inputs[..|inputs|] == inputs && originals[..|inputs|] == originals;
    assert outputArgs + inputArgs + [] == outputArgs + inputArgs;
  }

  /** Lines 372-389: every output of the node that no input stands for gets its nested name. */
  method RecordOutputs(renaming: map<string, string>, node: GraphNode, name: string) returns (next: map<string, string>)
    ensures OutputsRecorded(renaming, next, node, name, NumOutputs(node.outputs))
  {
    hide RefOf, Key, Decimal, NumOutputs;
    next := renaming;
    NothingRecorded(renaming, node, name);
    var start := 0;
    for a := 0 to |node.outputs|
      invariant start == Start(node.outputs, a) <= NumOutputs(node.outputs)
      invariant OutputsRecorded(renaming, next, node, name, start)
    {
      StartStep(node.outputs, a);
      var end := start + node.outputs[a].count;
      for i := start to end
        invariant OutputsRecorded(renaming, next, node, name, i)
      {
        RefOfAt(name, node.outputs, a, i - start);
        var original := Key(node.name, i);
        ghost var before := next;
        if original !in next {
          next := next[original := name + ":" + node.outputs[a].name + ":" + Decimal(i - start)];
        }
        RecordStep(renaming, before, next, node, name, i);
      }
      start := end;
    }
    assert node.outputs[..|node.outputs|] == node.outputs;
  }

  lemma {:induction false} NothingRecorded(renaming: map<string, string>, node: GraphNode, name: string)
    ensures Start(node.outputs, 0) == 0 && OutputsRecorded(renaming, renaming, node, name, 0)
  {
  }

  lemma {:induction false} RecordStep(renaming: map<string, string>, before: map<string, string>,
                                      next: map<string, string>, node: GraphNode, name: string, i: nat)
    requires i < NumOutputs(node.outputs) && OutputsRecorded(renaming, before, node, name, i)
    requires var key := Key(node.name, i);
      next == if key in before then before else before[key := RefOf(name, node.outputs, i)]
    ensures OutputsRecorded(renaming, next, node, name, i + 1)
  {
    hide Key, RefOf;
    var key := Key(node.name, i);
    forall j: nat | j < i ensures Key(node.name, j) != key {
      if Key(node.name, j) == key {
        SameKeySameIndex(node.name, j, i);
      }
    }
    forall k | k in next && k !in renaming ensures exists j: nat :: j < i + 1 && k == Key(node.name, j) {
      if k in before {
        var j: nat :| j < i && k == Key(node.name, j);
      }
    }
  }

  lemma {:induction false} SameKeySameIndex(name: string, i: nat, j: nat)
    requires Key(name, i) == Key(name, j)
    ensures i == j
  {
    assert Key(name, i)[|name| + 1..] == Decimal(i) && Key(name, j)[|name| + 1..] == Decimal(j);
    DecimalInjective(i, j);
  }

  /** Lines 366-390. */
  method NameBody(names: NodeNameMapping, g: Graph, body: seq<nat>, renaming: map<string, string>,
                  ghost outputArgs: seq<string>, ghost inputs: seq<Output>, ghost inputArgs: seq<string>)
    returns (nodeNames: seq<string>, next: map<string, string>)
    requires ValidGraph(g) && (forall b :: 0 <= b < |body| ==> body[b] < |g|) && NoDuplicates(body)
    requires names.Valid() && Maps(g, names.nameMapping, inputs, inputArgs, [], [])
    requires GoodNames(outputArgs, inputArgs, []) && names.usedNames == Elements(outputArgs + inputArgs)
    requires Renames(g, renaming, inputs, inputArgs, [], [])
    modifies names
    ensures names.Valid() && Maps(g, names.nameMapping, inputs, inputArgs, body, nodeNames)
    ensures GoodNames(outputArgs, inputArgs, nodeNames)
    ensures Renames(g, next, inputs, inputArgs, body, nodeNames)
    ensures NamedAfter(Elements(outputArgs + inputArgs), NamesIn(g, body), nodeNames)
  {
    hide IsUniquified, NamedAfter, NamesIn, Renames, Maps;
    nodeNames, next := [], renaming;
    assert outputArgs + inputArgs + [] == outputArgs + inputArgs;
    ghost var originals, given := NamesIn(g, body), Elements(outputArgs + inputArgs);
    NothingNamedYet(given, originals);
    for b := 0 to |body|
      invariant names.Valid() && Maps(g, names.nameMapping, inputs, inputArgs, body[..b], nodeNames)
      invariant GoodNames(outputArgs, inputArgs, nodeNames)
      invariant names.usedNames == Elements(outputArgs + inputArgs + nodeNames)
      invariant Renames(g, next, inputs, inputArgs, body[..b], nodeNames)
      invariant |nodeNames| == b && NamedAfter(given, originals[..b], nodeNames)
    {
      var node := g[body[b]];
      assert ValidNode(g, node);
      ghost var mapping, used, before := names.nameMapping, names.usedNames, next;
      var name := names.Uniquify(node.name);
      NameInAt(g, body, b);
      ElementsConcat(outputArgs + inputArgs, nodeNames);
      NameOneMore(given, originals, nodeNames, name, used);
      UniquifiedKeepsShape(used, node.name, name);
      UniquifiedForm(used, node.name, name);
      AppendFresh(outputArgs + inputArgs + nodeNames, name);
      assert outputArgs + inputArgs + nodeNames + [name] == outputArgs + inputArgs + (nodeNames + [name]);
      next := RecordOutputs(next, node, name);
      MapBody(g, mapping, inputs, inputArgs, body[..b], nodeNames, body[b], name);
      assert body[b] !in body[..b];
      RenameBody(g, before, next, inputs, inputArgs, body[..b], nodeNames, body[b], name);
      assert body[..b + 1] == body[..b] + [body[b]];
      nodeNames := nodeNames + [name];
    }
    assert body[..|body|] == body && originals[..|body|] == originals;
  }

  lemma {:induction false} NameInAt(g: Graph, body: seq<nat>, b: nat)
    requires b < |body| && forall i :: 0 <= i < |body| ==> body[i] < |g|
    ensures NamesIn(g, body)[b] == g[body[b]].name
  {
  }

  /** Lines 202-229: the data inputs of one node; None stands for a malformed or unavailable input. */
  method DataInputs(g: Graph, node: GraphNode, renaming: map<string, string>, ghost inputs: seq<Output>,
                    ghost inputArgs: seq<string>,
                    ghost body: seq<nat>, ghost names: seq<string>) returns (r: Result<seq<string>>)
    requires ValidNode(g, node) && Renames(g, renaming, inputs, inputArgs, body, names)
    ensures r.Ok? <==> forall i :: 0 <= i < |node.inputs| ==>
                         node.inputs[i].Some? && Available(g, body, inputs, node.inputs[i].value)
    ensures r.Ok? ==> |r.value| == |node.inputs| && forall i :: 0 <= i < |node.inputs| ==>
              Some(r.value[i]) == Reference(g, inputs, inputArgs, body, names, node.inputs[i].value)
  {
    var refs: seq<string> := [];
    for i := 0 to |node.inputs|
      invariant |refs| == i
      invariant forall j :: 0 <= j < i ==> node.inputs[j].Some? && Available(g, body, inputs, node.inputs[j].value)
      invariant forall j :: 0 <= j < i ==>
                Some(refs[j]) == Reference(g, inputs, inputArgs, body, names, node.inputs[j].value)
    {
      if node.inputs[i].None? {
        return InvalidArgument;
      }
      var o := node.inputs[i].value;
      assert ValidOutput(g, o) && RenamesTensor(g, renaming, inputs, inputArgs, body, names, o);
      var original := Key(g[o.node].name, o.index);
      if original !in renaming {
        return InvalidArgument;
      }
      refs := refs + [renaming[original]];
    }
    return Ok(refs);
  }

  /** Lines 232-245: the control inputs of one node. */
  method ControlInputs(g: Graph, node: GraphNode, mapping: NodeNameMapping, ghost inputs: seq<Output>,
                       ghost inputArgs: seq<string>,
                       ghost body: seq<nat>, ghost names: seq<string>) returns (r: Result<seq<string>>)
    requires ValidNode(g, node) && Maps(g, mapping.nameMapping, inputs, inputArgs, body, names)
    requires forall k :: 0 <= k < |inputArgs| ==> inputArgs[k] != ""
    requires forall b :: 0 <= b < |names| ==> names[b] != ""
    ensures r.Ok? <==>
            forall i :: 0 <= i < |node.controls| ==> node.controls[i] in body || node.controls[i] in Nodes(inputs)
    ensures r.Ok? ==> |r.value| == |node.controls| && forall i :: 0 <= i < |node.controls| ==>
              var c := ControlName(inputs, inputArgs, body, names, node.controls[i]);
              c.Some? && r.value[i] == "^" + c.value
  {
    var refs: seq<string> := [];
    for i := 0 to |node.controls|
      invariant |refs| == i
      invariant forall j :: 0 <= j < i ==> node.controls[j] in body || node.controls[j] in Nodes(inputs)
      invariant forall j :: 0 <= j < i ==>
                  var c := ControlName(inputs, inputArgs, body, names, node.controls[j]);
                  c.Some? && refs[j] == "^" + c.value
    {
      var src := node.controls[i];
      var normalized := mapping.Lookup(g[src].name);
      assert Get(mapping.nameMapping, g[src].name) == ControlName(inputs, inputArgs, body, names, src);
      if normalized == "" {
        return InvalidArgument;
      }
      refs := refs + ["^" + normalized];
    }
    return Ok(refs);
  }

  /** Lines 172-293, names and inputs. */
  method FillFunctionBody(g: Graph, mapping: NodeNameMapping, body: seq<nat>, renaming: map<string, string>,
                          ghost inputs: seq<Output>, ghost inputArgs: seq<string>, ghost names: seq<string>)
    returns (r: Result<seq<NodeDef>>)
    requires ValidGraph(g) && (forall b :: 0 <= b < |body| ==> body[b] < |g|)
    requires Maps(g, mapping.nameMapping, inputs, inputArgs, body, names)
    requires Renames(g, renaming, inputs, inputArgs, body, names)
    requires NoDuplicates(body) && GoodNames([], inputArgs, names)
    ensures r.Ok? <==> forall b :: 0 <= b < |body| ==> NodeConvertible(g, body, inputs, body[b])
    ensures r.Ok? ==> |r.value| == |body| && forall b :: 0 <= b < |body| ==>
              ConvertedNode(g, body, inputs, inputArgs, names, r.value[b], b)
  {
    var nodeDefs: seq<NodeDef> := [];
    for b := 0 to |body|
      invariant |nodeDefs| == b
      invariant forall c :: 0 <= c < b ==> NodeConvertible(g, body, inputs, body[c])
      invariant forall c :: 0 <= c < b ==> ConvertedNode(g, body, inputs, inputArgs, names, nodeDefs[c], c)
    {
      var node := g[body[b]];
      assert ValidNode(g, node);
      var name := mapping.Lookup(node.name);
      NameOfBodyNode(g, mapping.nameMapping, inputs, inputArgs, body, names, b);
      var data := DataInputs(g, node, renaming, inputs, inputArgs, body, names);
      if data.InvalidArgument? {
        return InvalidArgument;
      }
      var controls := ControlInputs(g, node, mapping, inputs, inputArgs, body, names);
      if controls.InvalidArgument? {
        return InvalidArgument;
      }
      nodeDefs := nodeDefs + [NodeDef(body[b], name, data.value, controls.value)];
    }
    return Ok(nodeDefs);
  }

  lemma {:induction false} NameOfBodyNode(g: Graph, mapping: map<string, string>, inputs: seq<Output>,
                                          inputArgs: seq<string>, body: seq<nat>, names: seq<string>, b: nat)
    requires Maps(g, mapping, inputs, inputArgs, body, names) && b < |body| && body[b] < |g| && NoDuplicates(body)
    ensures Get(mapping, g[body[b]].name) == Some(names[b])
  {
    assert body[b] in body;
    var f := Find(body, body[b]).value;
    assert f == b;
  }

  /** Lines 396-410: what each output argument returns. */
  method ReturnValues(g: Graph, outputs: seq<Output>, outputArgs: seq<string>, renaming: map<string, string>,
                      ghost inputs: seq<Output>, ghost inputArgs: seq<string>, ghost body: seq<nat>,
                      ghost names: seq<string>)
    returns (r: Result<map<string, string>>)
    requires |outputArgs| == |outputs| && NoDuplicates(outputArgs)
    requires Renames(g, renaming, inputs, inputArgs, body, names)
    requires forall k :: 0 <= k < |outputs| ==> ValidOutput(g, outputs[k])
    ensures r.Ok? <==> forall k :: 0 <= k < |outputs| ==> Available(g, body, inputs, outputs[k])
    ensures r.Ok? ==> r.value.Keys == (set k | 0 <= k < |outputs| :: outputArgs[k])
    ensures r.Ok? ==> forall k :: 0 <= k < |outputs| ==>
              Some(r.value[outputArgs[k]]) == Reference(g, inputs, inputArgs, body, names, outputs[k])
  {
    var ret: map<string, string> := map[];
    for k := 0 to |outputs|
      invariant ret.Keys == (set j | 0 <= j < k :: outputArgs[j])
      invariant forall j :: 0 <= j < k ==> Available(g, body, inputs, outputs[j])
      invariant forall j :: 0 <= j < k ==>
                  Some(ret[outputArgs[j]]) == Reference(g, inputs, inputArgs, body, names, outputs[j])
    {
      var o := outputs[k];
      assert ValidOutput(g, o) && RenamesTensor(g, renaming, inputs, inputArgs, body, names, o);
      var value := Key(g[o.node].name, o.index);
      if value !in renaming {
        return InvalidArgument;
      }
      ghost var before := ret;
      ret := ret[outputArgs[k] := renaming[value]];
      assert ret.Keys == before.Keys + {outputArgs[k]};
      forall j | 0 <= j < k ensures ret[outputArgs[j]] == before[outputArgs[j]] {
        assert outputArgs[j] != outputArgs[k];
      }
    }
    return Ok(ret);
  }

  /** Lines 299-410: succeeds exactly on convertible requests, with everything rightly named. */
  method GraphToFunctionDef(g: Graph, body: seq<nat>, inputs: seq<Output>, outputs: seq<Output>,
                            outputNames: seq<string>)
    returns (r: Result<FunctionDef>)
    requires ValidGraph(g) && ValidRequest(g, body, inputs, outputs, outputNames)
    ensures r.Ok? <==> Convertible(g, body, inputs, outputs, outputNames)
    ensures r.Ok? ==> Converted(g, body, inputs, outputs, r.value)
    ensures r.Ok? ==> RightlyNamed(g, body, inputs, outputs, outputNames, r.value)
    ensures r.Ok? && outputNames == [] ==> forall k :: 0 <= k < |outputs| ==> IsArgName(r.value.outputArgs[k])
  {
    hide NamedAfter, NormalizedNames, NamesIn;
    var names := new NodeNameMapping();
    var ok, outputArgs := NameOutputs(names, g, outputs, outputNames);
    if !ok {
      return InvalidArgument;
    }
    var inputArgs, renaming := NameInputs(names, g, inputs, outputArgs);
    var nodeNames;
    nodeNames, renaming := NameBody(names, g, body, renaming, outputArgs, inputs, inputArgs);
    DropOutputNames(outputArgs, inputArgs, nodeNames);
    var nodeDefs := FillFunctionBody(g, names, body, renaming, inputs, inputArgs, nodeNames);
    if nodeDefs.InvalidArgument? {
      return InvalidArgument;
    }
    var ret := ReturnValues(g, outputs, outputArgs, renaming, inputs, inputArgs, body, nodeNames);
    if ret.InvalidArgument? {
      return InvalidArgument;
    }
    assert NodeNamesOf(nodeDefs.value) == nodeNames;
    return Ok(FunctionDef(inputArgs, outputArgs, nodeDefs.value, ret.value));
  }

  lemma {:induction false} DropOutputNames(outputArgs: seq<string>, inputArgs: seq<string>, names: seq<string>)
    requires GoodNames(outputArgs, inputArgs, names)
    ensures GoodNames([], inputArgs, names)
  {
    var all, some := outputArgs + inputArgs + names, [] + inputArgs + names;
    forall i, j | 0 <= i < j < |some| ensures some[i] != some[j] {
      assert some[i] == all[|outputArgs| + i] && some[j] == all[|outputArgs| + j];
    }
  }

  // ---- From the caller's request to the conversion ----

  /** Without an explicit list of operations, every node that provides no input. */
  function BodyUpTo(inputs: seq<Output>, n: nat): (body: seq<nat>)
    ensures NoDuplicates(body) && forall b :: 0 <= b < |body| ==> body[b] < n
    ensures forall m: nat :: m in body <==> m < n && m !in Nodes(inputs)
  {
    if n == 0 then [] else if n - 1 in Nodes(inputs) then BodyUpTo(inputs, n - 1) else BodyUpTo(inputs, n - 1) + [n - 1]
  }

  /** In the order of their ids. */
  lemma {:induction false} BodyInOrder(inputs: seq<Output>, n: nat, i: nat, j: nat)
    requires i < j < |BodyUpTo(inputs, n)|
    ensures BodyUpTo(inputs, n)[i] < BodyUpTo(inputs, n)[j]
  {
    if j < |BodyUpTo(inputs, n - 1)| {
      BodyInOrder(inputs, n - 1, i, j);
    }
  }

  function BodyOf(g: Graph, operations: Option<seq<nat>>, inputs: seq<Output>): seq<nat> {
    match operations
    case Some(ns) => ns
    case None => BodyUpTo(inputs, |g|)
  }

  /** The operations and tensors belong to the graph; nothing else is asked of the caller. */
  ghost predicate ValidCall(g: Graph, operations: Option<seq<nat>>, inputs: seq<Output>, outputs: seq<Output>,
                            outputNames: seq<string>) {
    && (operations.Some? ==>
          NoDuplicates(operations.value) && forall b :: 0 <= b < |operations.value| ==> operations.value[b] < |g|)
    && (forall k :: 0 <= k < |inputs| ==> inputs[k].node < |g|)
    && (forall k :: 0 <= k < |outputs| ==> outputs[k].node < |g|)
    && (outputNames == [] || |outputNames| == |outputs|)
  }

  /** A tensor that may be an argument or a result: it exists and is not a reference (lines 152-158). */
  ghost predicate Usable(g: Graph, o: Output) {
    ValidOutput(g, o) && !IsRefOutput(g[o.node].outputs, o.index)
  }

  /** When a function can be made of the request. */
  ghost predicate Accepted(g: Graph, operations: Option<seq<nat>>, inputs: seq<Output>, outputs: seq<Output>,
                           outputNames: seq<string>)
    requires ValidCall(g, operations, inputs, outputs, outputNames)
  {
    && (forall k :: 0 <= k < |inputs| ==> Usable(g, inputs[k])) && NoDuplicates(inputs)
    && (forall k :: 0 <= k < |outputs| ==> Usable(g, outputs[k]))
    && (operations.None? ==> forall k :: 0 <= k < |inputs| ==> NumOutputs(g[inputs[k].node].outputs) == 1)
    && Convertible(g, BodyOf(g, operations, inputs), inputs, outputs, outputNames)
  }

  /** The map holds exactly the listed outputs of each node. */
  ghost predicate Groups(inputs: seq<Output>, inputNodes: map<nat, seq<nat>>) {
    && (forall n: nat, i: nat :: Output(n, i) in inputs <==> n in inputNodes && i in inputNodes[n])
    && (forall n: nat :: n in inputNodes <==> n in Nodes(inputs))
  }

  lemma {:induction false} NothingGrouped(inputs: seq<Output>)
    ensures Groups(inputs[..0], map[]) && NoDuplicates(inputs[..0])
  {
  }

  lemma {:induction false} InGroups(inputs: seq<Output>, inputNodes: map<nat, seq<nat>>, o: Output)
    requires Groups(inputs, inputNodes)
    ensures o in inputs <==> o.node in inputNodes && o.index in inputNodes[o.node]
  {
    assert o == Output(o.node, o.index);
  }

  lemma {:induction false} UsableIff(g: Graph, o: Output)
    requires o.node < |g|
    ensures Usable(g, o) <==> o.index < NumOutputs(g[o.node].outputs) && !IsRefOutput(g[o.node].outputs, o.index)
  {
  }

  lemma {:induction false} OneMoreDistinct(inputs: seq<Output>, k: nat)
    requires k < |inputs| && NoDuplicates(inputs[..k])
    ensures inputs[k] in inputs[..k] ==> !NoDuplicates(inputs)
    ensures inputs[k] !in inputs[..k] ==> NoDuplicates(inputs[..k + 1])
  {
    if inputs[k] in inputs[..k] {
      var j :| 0 <= j < k && inputs[..k][j] == inputs[k];
      assert inputs[j] == inputs[k];
    }
    assert inputs[..k + 1] == inputs[..k] + [inputs[k]];
  }

  lemma {:induction false} GroupsGrow(inputs: seq<Output>, inputNodes: map<nat, seq<nat>>, k: nat)
    requires k < |inputs| && Groups(inputs[..k], inputNodes)
    ensures var Output(n, i) := inputs[k];
            Groups(inputs[..k + 1], inputNodes[n := (if n in inputNodes then inputNodes[n] else []) + [i]])
  {
    assert inputs[..k + 1] == inputs[..k] + [inputs[k]];
    assert Nodes(inputs[..k + 1]) == Nodes(inputs[..k]) + [inputs[k].node];
    hide Nodes;
  }

  /** Lines 460-493; inputNodes lists the fed outputs of every node that provides an input. */
  method ProcessInputs(g: Graph, inputs: seq<Output>) returns (ok: bool, inputNodes: map<nat, seq<nat>>)
    requires forall k :: 0 <= k < |inputs| ==> inputs[k].node < |g|
    ensures ok <==> (forall k :: 0 <= k < |inputs| ==> Usable(g, inputs[k])) && NoDuplicates(inputs)
    ensures ok ==> forall n: nat, i: nat :: Output(n, i) in inputs <==> n in inputNodes && i in inputNodes[n]
    ensures ok ==> forall n: nat :: n in inputNodes <==> n in Nodes(inputs)
  {
    inputNodes := map[];
    NothingGrouped(inputs);
    hide Usable, NumOutputs, IsRefOutput, Nodes, NoDuplicates;
    for k := 0 to |inputs|
      invariant (forall j :: 0 <= j < k ==> Usable(g, inputs[j])) && NoDuplicates(inputs[..k])
      invariant Groups(inputs[..k], inputNodes)
    {
      hide Groups;
      var Output(node, index) := inputs[k];
      UsableIff(g, inputs[k]);
      if index >= NumOutputs(g[node].outputs) || IsRefOutput(g[node].outputs, index) {
        return false, inputNodes;
      }
      GroupsGrow(inputs, inputNodes, k);
      InGroups(inputs[..k], inputNodes, inputs[k]);
      OneMoreDistinct(inputs, k);
      if node !in inputNodes {
        assert [] + [index] == [index];
        inputNodes := inputNodes[node := [index]];
      } else {
        if index in inputNodes[node] {
          return false, inputNodes;
        }
        inputNodes := inputNodes[node := inputNodes[node] + [index]];
      }
    }
    assert inputs[..|inputs|] == inputs;
    return true, inputNodes;
  }

  /** Lines 497-515. */
  method ProcessOutputs(g: Graph, outputs: seq<Output>) returns (ok: bool)
    requires forall k :: 0 <= k < |outputs| ==> outputs[k].node < |g|
    ensures ok <==> forall k :: 0 <= k < |outputs| ==> Usable(g, outputs[k])
  {
    for k := 0 to |outputs|
      invariant forall j :: 0 <= j < k ==> Usable(g, outputs[j])
    {
      var Output(node, index) := outputs[k];
      if index >= NumOutputs(g[node].outputs) || IsRefOutput(g[node].outputs, index) {
        assert !Usable(g, outputs[k]);
        return false;
      }
    }
    return true;
  }

  /** Lines 519-552. */
  method ComputeBodyNodes(g: Graph, operations: Option<seq<nat>>, inputNodes: map<nat, seq<nat>>,
                          ghost inputs: seq<Output>)
    returns (r: Result<seq<nat>>)
    requires forall n: nat :: n in inputNodes <==> n in Nodes(inputs)
    ensures r.Ok? <==>
            operations.Some? || forall n: nat :: n < |g| && n in Nodes(inputs) ==> NumOutputs(g[n].outputs) == 1
    ensures r.Ok? ==> r.value == BodyOf(g, operations, inputs)
  {
    if operations.Some? {
      return Ok(operations.value);
    }
    var body := [];
    for n := 0 to |g|
      invariant body == BodyUpTo(inputs, n)
      invariant forall m: nat :: m < n && m in Nodes(inputs) ==> NumOutputs(g[m].outputs) == 1
    {
      if n !in inputNodes {
        body := body + [n];
      } else if NumOutputs(g[n].outputs) != 1 {
        return InvalidArgument;
      }
    }
    return Ok(body);
  }

  /** Lines 560-626: checks the request and converts it. */
  method GraphToFunction(g: Graph, operations: Option<seq<nat>>, inputs: seq<Output>, outputs: seq<Output>,
                         outputNames: seq<string>)
    returns (r: Result<FunctionDef>)
    requires ValidGraph(g) && ValidCall(g, operations, inputs, outputs, outputNames)
    ensures r.Ok? <==> Accepted(g, operations, inputs, outputs, outputNames)
    ensures r.Ok? ==> Converted(g, BodyOf(g, operations, inputs), inputs, outputs, r.value)
    ensures r.Ok? ==> RightlyNamed(g, BodyOf(g, operations, inputs), inputs, outputs, outputNames, r.value)
  {
    hide Converted, RightlyNamed, Convertible, NumOutputs, IsRefOutput, ValidNode;
    var ok, inputNodes := ProcessInputs(g, inputs);
    if !ok {
      return InvalidArgument;
    }
    ok := ProcessOutputs(g, outputs);
    if !ok {
      return InvalidArgument;
    }
    var body := ComputeBodyNodes(g, operations, inputNodes, inputs);
    assert operations.None? ==>
      (body.Ok? <==> forall k :: 0 <= k < |inputs| ==> NumOutputs(g[inputs[k].node].outputs) == 1) by {
      assert forall k :: 0 <= k < |inputs| ==> Nodes(inputs)[k] == inputs[k].node;
    }
    if body.InvalidArgument? {
      return InvalidArgument;
    }
    r := GraphToFunctionDef(g, body.value, inputs, outputs, outputNames);
  }
}
