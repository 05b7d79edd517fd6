/** Running a graph in the planned arenas computes what it computes with private buffers. */
module ArenaExecution {
  import opened Collections
  import opened Bytes
  import opened Graphs
  import opened MemoryArena
  import opened ArenaPlan
  import opened ArenaSchedule
  import opened ArenaReplay
  import opened ArenaLifetimes
  import Execution

  type Bytestring = seq<Byte>

  /** A buffer and its address. */
  datatype Region = Region(start: nat, bytes: Bytestring)

  /** The two arena buffers, and the memory of the tensors outside the arenas. */
  datatype Machine = Machine(rw: Region, persistent: Region, own: seq<Bytestring>)

  /** Where the planner put everything: an address per tensor, and the extent of both buffers. */
  datatype Layout = Layout(addresses: seq<Option<nat>>, rwStart: nat, rwSize: nat,
                           persistentStart: nat, persistentSize: nat)

  /** The address range [a, a + size) lies in [start, start + length). */
  predicate InBuffer(a: Option<nat>, size: nat, start: nat, length: nat) {
    a.Some? && start <= a.value && a.value + size <= start + length
  }

  function LoadAt(r: Region, a: Option<nat>, size: nat): Bytestring {
    if InBuffer(a, size, r.start, |r.bytes|) then r.bytes[a.value - r.start..a.value - r.start + size] else []
  }

  function StoreAt(r: Region, a: Option<nat>, v: Bytestring): (r': Region)
    ensures r'.start == r.start && |r'.bytes| == |r.bytes|
  {
    if InBuffer(a, |v|, r.start, |r.bytes|)
    then r.(bytes := r.bytes[..a.value - r.start] + v + r.bytes[a.value - r.start + |v|..])
    else r
  }

  /** The bytes at the address of tensor t. */
  function Load(ts: seq<TensorInfo>, addresses: seq<Option<nat>>, m: Machine, t: int): Bytestring
    requires 0 <= t < |ts| == |addresses| == |m.own|
  {
    match ts[t].typ
    case ArenaRw => LoadAt(m.rw, addresses[t], ts[t].bytes)
    case ArenaRwPersistent => LoadAt(m.persistent, addresses[t], ts[t].bytes)
    case OtherMemory => m.own[t]
  }

  function Store(ts: seq<TensorInfo>, addresses: seq<Option<nat>>, m: Machine, t: int, v: Bytestring): (r: Machine)
    requires 0 <= t < |ts| == |addresses| == |m.own|
    ensures |r.own| == |m.own| && SameExtent(m.rw, r.rw) && SameExtent(m.persistent, r.persistent)
  {
    match ts[t].typ
    case ArenaRw => m.(rw := StoreAt(m.rw, addresses[t], v))
    case ArenaRwPersistent => m.(persistent := StoreAt(m.persistent, addresses[t], v))
    case OtherMemory => m.(own := m.own[t := v])
  }

  predicate SameExtent(r: Region, r': Region) {
    r.start == r'.start && |r.bytes| == |r'.bytes|
  }

  /** Address x belongs to the memory of tensor t. */
  predicate Within(ts: seq<TensorInfo>, addresses: seq<Option<nat>>, t: int, x: int)
    requires 0 <= t < |ts| == |addresses|
  {
    addresses[t].Some? && addresses[t].value <= x < addresses[t].value + ts[t].bytes
  }

  /** r' differs from r at most in the memory of the touched tensors of the given type. */
  ghost predicate SameBytes(ts: seq<TensorInfo>, addresses: seq<Option<nat>>, typ: AllocationType, r: Region,
                            r': Region, touched: seq<int>)
    requires |ts| == |addresses|
  {
    && SameExtent(r, r')
    && (forall k | 0 <= k < |r.bytes| ::
          (forall t :: t in touched && Stored(ts, typ, t) ==> !Within(ts, addresses, t, r.start + k)) ==>
            r'.bytes[k] == r.bytes[k])
  }

  /** m' differs from m at most in the memory of the touched tensors. */
  ghost predicate SameOutside(ts: seq<TensorInfo>, addresses: seq<Option<nat>>, m: Machine, m': Machine,
                              touched: seq<int>) {
    && |ts| == |addresses| == |m.own| == |m'.own|
    && SameBytes(ts, addresses, ArenaRw, m.rw, m'.rw, touched)
    && SameBytes(ts, addresses, ArenaRwPersistent, m.persistent, m'.persistent, touched)
    && (forall t :: 0 <= t < |ts| && t !in touched ==> m'.own[t] == m.own[t])
  }

  /** The memory of t and that of u do not overlap. */
  predicate Apart(ts: seq<TensorInfo>, addresses: seq<Option<nat>>, t: int, u: int)
    requires 0 <= t < |ts| == |addresses| && 0 <= u < |ts|
  {
    addresses[t].Some? && addresses[u].Some? ==>
      || addresses[t].value + ts[t].bytes <= addresses[u].value
      || addresses[u].value + ts[u].bytes <= addresses[t].value
  }

  /** t and the touched tensors do not share memory. */
  ghost predicate Separate(ts: seq<TensorInfo>, addresses: seq<Option<nat>>, t: int, touched: seq<int>)
    requires 0 <= t < |ts| == |addresses|
  {
    && t !in touched
    && (forall u :: u in touched && SameArena(ts, t, u) ==> Apart(ts, addresses, t, u))
  }

  lemma {:induction false} SeparateBytes(ts: seq<TensorInfo>, addresses: seq<Option<nat>>, r: Region, r': Region,
                                         touched: seq<int>, t: int)
    requires 0 <= t < |ts| == |addresses| && ts[t].typ != OtherMemory
    requires SameBytes(ts, addresses, ts[t].typ, r, r', touched) && Separate(ts, addresses, t, touched)
    ensures LoadAt(r', addresses[t], ts[t].bytes) == LoadAt(r, addresses[t], ts[t].bytes)
  {
    var a, size := addresses[t], ts[t].bytes;
    if InBuffer(a, size, r.start, |r.bytes|) {
      forall k | a.value - r.start <= k < a.value - r.start + size ensures r'.bytes[k] == r.bytes[k] {
        forall u | u in touched && Stored(ts, ts[t].typ, u) ensures !Within(ts, addresses, u, r.start + k) {
          assert Apart(ts, addresses, t, u);
        }
      }
    }
  }

  lemma {:induction false} SeparateUnaffected(ts: seq<TensorInfo>, addresses: seq<Option<nat>>, m: Machine,
                                              m': Machine, touched: seq<int>, t: int)
    requires SameOutside(ts, addresses, m, m', touched) && 0 <= t < |ts| && Separate(ts, addresses, t, touched)
    ensures Load(ts, addresses, m', t) == Load(ts, addresses, m, t)
  {
    hide SameBytes, LoadAt;
    match ts[t].typ
    case ArenaRw => SeparateBytes(ts, addresses, m.rw, m'.rw, touched, t);
    case ArenaRwPersistent => SeparateBytes(ts, addresses, m.persistent, m'.persistent, touched, t);
    case OtherMemory =>
  }

  /** The memory of a nonempty arena tensor lies inside the buffer of its arena. */
  ghost predicate Addressable(ts: seq<TensorInfo>, addresses: seq<Option<nat>>, m: Machine, t: int) {
    && 0 <= t < |ts| == |addresses| == |m.own|
    && (Stored(ts, ArenaRw, t) ==> InBuffer(addresses[t], ts[t].bytes, m.rw.start, |m.rw.bytes|))
    && (Stored(ts, ArenaRwPersistent, t) ==>
          InBuffer(addresses[t], ts[t].bytes, m.persistent.start, |m.persistent.bytes|))
  }

  lemma {:induction false} StoreBytes(ts: seq<TensorInfo>, addresses: seq<Option<nat>>, r: Region, t: int,
                                      v: Bytestring)
    requires 0 <= t < |ts| == |addresses| && |v| == ts[t].bytes && ts[t].typ != OtherMemory
    requires ts[t].bytes > 0 ==> InBuffer(addresses[t], ts[t].bytes, r.start, |r.bytes|)
    ensures LoadAt(StoreAt(r, addresses[t], v), addresses[t], ts[t].bytes) == v
    ensures SameBytes(ts, addresses, ts[t].typ, r, StoreAt(r, addresses[t], v), [t])
  {
    var a, r' := addresses[t], StoreAt(r, addresses[t], v);
    assert t in [t];
    forall k | 0 <= k < |r.bytes|
        && (forall u :: u in [t] && Stored(ts, ts[t].typ, u) ==> !Within(ts, addresses, u, r.start + k))
      ensures r'.bytes[k] == r.bytes[k]
    {
      assert ts[t].bytes > 0 ==> !Within(ts, addresses, t, r.start + k);
    }
  }

  lemma {:induction false} UntouchedBytes(ts: seq<TensorInfo>, addresses: seq<Option<nat>>, typ: AllocationType,
                                          r: Region, touched: seq<int>)
    requires |ts| == |addresses|
    ensures SameBytes(ts, addresses, typ, r, r, touched)
  {
  }

  lemma {:induction false} StoreThenLoad(ts: seq<TensorInfo>, addresses: seq<Option<nat>>, m: Machine, t: int,
                                         v: Bytestring)
    requires Addressable(ts, addresses, m, t) && |v| == ts[t].bytes
    ensures Load(ts, addresses, Store(ts, addresses, m, t, v), t) == v
    ensures SameOutside(ts, addresses, m, Store(ts, addresses, m, t, v), [t])
  {
    hide SameBytes, LoadAt, StoreAt;
    UntouchedBytes(ts, addresses, ArenaRw, m.rw, [t]);
    UntouchedBytes(ts, addresses, ArenaRwPersistent, m.persistent, [t]);
    assert t in [t];
    match ts[t].typ
    case ArenaRw => StoreBytes(ts, addresses, m.rw, t, v);
    case ArenaRwPersistent => StoreBytes(ts, addresses, m.persistent, t, v);
    case OtherMemory =>
  }

  // ---- One node ----

  type Kernel = Execution.Kernel<Bytestring>

  function LoadArgs(g: Graph, ts: seq<TensorInfo>, addresses: seq<Option<nat>>, n: int,
                    m: Machine): seq<Option<Bytestring>>
    requires IsNode(g, n) && |ts| == |addresses| == |m.own|
  {
    seq(|g.nodes[n].inputs|, k requires 0 <= k < |g.nodes[n].inputs| =>
      var t := g.nodes[n].inputs[k]; if 0 <= t < |ts| then Some(Load(ts, addresses, m, t)) else None)
  }

  /** Writes the first k outputs, one after another. */
  function StoreOutputs(g: Graph, ts: seq<TensorInfo>, addresses: seq<Option<nat>>, f: Kernel, n: int,
                        args: seq<Option<Bytestring>>, m: Machine, k: nat): (r: Machine)
    requires IsNode(g, n) && |ts| == |addresses| == |m.own| && k <= |g.nodes[n].outputs|
    ensures |r.own| == |m.own| && SameExtent(m.rw, r.rw) && SameExtent(m.persistent, r.persistent)
  {
    if k == 0 then m
    else
      var t := g.nodes[n].outputs[k - 1];
      var r := StoreOutputs(g, ts, addresses, f, n, args, m, k - 1);
      if 0 <= t < |ts| then Store(ts, addresses, r, t, f(n, args, t)) else r
  }

  /** A node may use its outputs and temporaries as scratch memory before it reads its arguments,
      then writes its outputs, and may scribble on its temporaries again. */
  ghost predicate NodeRuns(g: Graph, ts: seq<TensorInfo>, addresses: seq<Option<nat>>, f: Kernel, n: int, m: Machine,
                           m': Machine)
    requires IsNode(g, n)
  {
    exists scratch: Machine ::
      && SameOutside(ts, addresses, m, scratch, g.nodes[n].outputs + g.nodes[n].temporaries)
      && var stored := StoreOutputs(g, ts, addresses, f, n, LoadArgs(g, ts, addresses, n, scratch), scratch,
                                    |g.nodes[n].outputs|);
         SameOutside(ts, addresses, stored, m', g.nodes[n].temporaries)
  }

  ghost predicate Sized(ts: seq<TensorInfo>, f: Kernel) {
    forall n, args, t :: 0 <= t < |ts| ==> |f(n, args, t)| == ts[t].bytes
  }

  lemma {:induction false} OutputsStored(g: Graph, ts: seq<TensorInfo>, addresses: seq<Option<nat>>, f: Kernel, n: int,
                                         args: seq<Option<Bytestring>>, m: Machine, k: nat, t: int)
    requires IsNode(g, n) && |ts| == |addresses| == |m.own| && k <= |g.nodes[n].outputs| && Sized(ts, f)
    requires Addressable(ts, addresses, m, t)
    requires forall u :: u in g.nodes[n].outputs ==>
             Addressable(ts, addresses, m, u) && (u != t ==> Separate(ts, addresses, t, [u]))
    ensures Load(ts, addresses, StoreOutputs(g, ts, addresses, f, n, args, m, k), t) ==
              if t in g.nodes[n].outputs[..k] then f(n, args, t) else Load(ts, addresses, m, t)
  {
    if k > 0 {
      OutputsStored(g, ts, addresses, f, n, args, m, k - 1, t);
      var u := g.nodes[n].outputs[k - 1];
      var r := StoreOutputs(g, ts, addresses, f, n, args, m, k - 1);
      assert u in g.nodes[n].outputs;
      assert g.nodes[n].outputs[..k] == g.nodes[n].outputs[..k - 1] + [u];
      StoreThenLoad(ts, addresses, r, u, f(n, args, u));
      if u != t {
        SeparateUnaffected(ts, addresses, r, Store(ts, addresses, r, u, f(n, args, u)), [u], t);
      }
    }
  }

  // ---- The whole graph ----

  /** What the arenas need to know about the graph: SSA, topological order, and given tensors that
      no node writes. */
  ghost predicate Runnable(p: Plan, ts: seq<TensorInfo>) {
    && |ts| == p.g.numTensors && SingleProducer(p.g)
    && (forall t :: Given(p.g, t) ==> !Produced(p.g, t))
    && (forall n, t :: Reads(p.g, n, t) ==> HasValue(p, ts, n, t))
    && (forall t :: t in p.g.outputs ==> HasValue(p, ts, |p.g.nodes|, t))
  }

  /** Memory outside the arenas that no node writes or uses as scratch. */
  ghost predicate IsConstant(g: Graph, ts: seq<TensorInfo>, t: int) {
    && 0 <= t < |ts| && ts[t].typ == OtherMemory && !Produced(g, t)
    && (forall n :: IsNode(g, n) ==> t !in g.nodes[n].temporaries)
  }

  /** t is given, a constant outside the arenas, or written by a node before i. */
  ghost predicate HasValue(p: Plan, ts: seq<TensorInfo>, i: int, t: int) {
    || Given(p.g, t)
    || IsConstant(p.g, ts, t)
    || (exists m :: m < i && Produces(p.g, m, t))
  }

  /** Tensors whose value is still in memory when node i starts. */
  ghost predicate Tracked(p: Plan, ts: seq<TensorInfo>, i: int, t: int) {
    && IsTensor(p.g, t) && HasValue(p, ts, i, t)
    && (0 <= t < |ts| && ts[t].typ != OtherMemory ==>
          forall n :: 0 <= n < i ==> !ReleasedAt(p.g, p.preserveInputs, p.preserveIntermediates, n, t))
  }

  /** Good addresses: while node i runs, every tensor that is to have memory has it in the buffer of its
      arena, and no two of them overlap. */
  ghost predicate GoodLayout(p: Plan, ts: seq<TensorInfo>, lay: Layout) {
    && |lay.addresses| == |ts| == p.g.numTensors
    && (forall i, t :: 0 <= i < |p.g.nodes| && LiveAt(p, i, t) && Stored(ts, ArenaRw, t) ==>
          InBuffer(lay.addresses[t], ts[t].bytes, lay.rwStart, lay.rwSize))
    && (forall i, t :: 0 <= i < |p.g.nodes| && LiveAt(p, i, t) && Stored(ts, ArenaRwPersistent, t) ==>
          InBuffer(lay.addresses[t], ts[t].bytes, lay.persistentStart, lay.persistentSize))
    && (forall i, t, u :: 0 <= i < |p.g.nodes| && LiveAt(p, i, t) && LiveAt(p, i, u) && SameArena(ts, t, u) ==>
          Apart(ts, lay.addresses, t, u))
  }

  /** Two tensors with nonempty blocks in one arena. */
  predicate SameArena(ts: seq<TensorInfo>, t: int, u: int) {
    && 0 <= t < |ts| && 0 <= u < |ts| && t != u
    && ts[t].typ == ts[u].typ != OtherMemory && ts[t].bytes > 0 && ts[u].bytes > 0
  }

  /** The machine has the buffers of the layout. */
  ghost predicate Committed(ts: seq<TensorInfo>, lay: Layout, m: Machine) {
    && |m.own| == |ts| == |lay.addresses|
    && m.rw.start == lay.rwStart && |m.rw.bytes| == lay.rwSize
    && m.persistent.start == lay.persistentStart && |m.persistent.bytes| == lay.persistentSize
  }

  ghost predicate Agrees(p: Plan, ts: seq<TensorInfo>, lay: Layout, i: int, m: Machine, env: seq<Bytestring>) {
    && Committed(ts, lay, m) && |env| == |ts|
    && (forall t :: 0 <= t < |ts| && Tracked(p, ts, i, t) ==> Load(ts, lay.addresses, m, t) == env[t])
  }

  // ---- A node keeps memory and private buffers in agreement ----

  ghost predicate Setting(p: Plan, ts: seq<TensorInfo>, lay: Layout) {
    PlannerRange(p.g) && PrivateTemporaries(p.g) && Runnable(p, ts) && GoodLayout(p, ts, lay)
  }

  lemma {:induction false} TouchedIsLive(p: Plan, ts: seq<TensorInfo>, lay: Layout, i: int, u: int)
    requires Setting(p, ts, lay) && IsNode(p.g, i)
    requires u in p.g.nodes[i].outputs || u in p.g.nodes[i].temporaries
    ensures 0 <= u < |ts| && LiveAt(p, i, u)
  {
    if u in p.g.nodes[i].temporaries {
      assert IsTemporary(p.g, u);
    } else {
      assert Produces(p.g, i, u);
      assert Produced(p.g, u);
      NeededIsLive(p, i, u);
    }
  }

  lemma {:induction false} LiveIsAddressable(p: Plan, ts: seq<TensorInfo>, lay: Layout, i: int, m: Machine, t: int)
    requires GoodLayout(p, ts, lay) && Committed(ts, lay, m) && IsNode(p.g, i) && 0 <= t < |ts|
    requires ts[t].typ == OtherMemory || LiveAt(p, i, t)
    ensures Addressable(ts, lay.addresses, m, t)
  {
  }

  lemma {:induction false} LiveIsSeparate(p: Plan, ts: seq<TensorInfo>, lay: Layout, i: int, t: int, touched: seq<int>)
    requires Setting(p, ts, lay) && IsNode(p.g, i) && 0 <= t < |ts|
    requires ts[t].typ == OtherMemory || LiveAt(p, i, t)
    requires t !in touched
    requires forall u :: u in touched ==> u in p.g.nodes[i].outputs || u in p.g.nodes[i].temporaries
    ensures Separate(ts, lay.addresses, t, touched)
  {
    forall u | u in touched && SameArena(ts, t, u) ensures Apart(ts, lay.addresses, t, u) {
      TouchedIsLive(p, ts, lay, i, u);
    }
  }

  /** A tensor that is tracked before or after node i and that i does not write is live at i. */
  lemma {:induction false} TrackedIsLive(p: Plan, ts: seq<TensorInfo>, lay: Layout, i: int, t: int)
    requires Setting(p, ts, lay) && IsNode(p.g, i) && Tracked(p, ts, i, t)
    ensures ts[t].typ == OtherMemory || LiveAt(p, i, t)
  {
  }

  /** What node i reads is tracked. */
  lemma {:induction false} ArgumentIsTracked(p: Plan, ts: seq<TensorInfo>, lay: Layout, i: int, t: int)
    requires Setting(p, ts, lay) && Reads(p.g, i, t)
    ensures Tracked(p, ts, i, t) && t !in p.g.nodes[i].outputs && t !in p.g.nodes[i].temporaries
  {
    assert HasValue(p, ts, i, t);
    assert t in p.g.nodes[i].temporaries ==> IsTemporary(p.g, t);
    if Produces(p.g, i, t) {
      assert Produced(p.g, t);
    }
  }

  lemma {:induction false} TrackedNext(p: Plan, ts: seq<TensorInfo>, lay: Layout, i: int, t: int)
    requires Setting(p, ts, lay) && IsNode(p.g, i) && Tracked(p, ts, i + 1, t) && !Produces(p.g, i, t)
    ensures Tracked(p, ts, i, t) && t !in p.g.nodes[i].temporaries
  {
    assert t in p.g.nodes[i].temporaries ==> IsTemporary(p.g, t);
  }

  lemma {:induction false} UnwrittenUnaffected(p: Plan, ts: seq<TensorInfo>, lay: Layout, f: Kernel, i: int,
                                               m: Machine, scratch: Machine, m': Machine, t: int)
    requires Setting(p, ts, lay) && Sized(ts, f) && IsNode(p.g, i) && Committed(ts, lay, m)
    requires Tracked(p, ts, i, t) && t !in p.g.nodes[i].outputs && t !in p.g.nodes[i].temporaries
    requires SameOutside(ts, lay.addresses, m, scratch, p.g.nodes[i].outputs + p.g.nodes[i].temporaries)
    requires var stored := StoreOutputs(p.g, ts, lay.addresses, f, i, LoadArgs(p.g, ts, lay.addresses, i, scratch),
                                        scratch,
                                        |p.g.nodes[i].outputs|);
      SameOutside(ts, lay.addresses, stored, m', p.g.nodes[i].temporaries)
    ensures Load(ts, lay.addresses, scratch, t) == Load(ts, lay.addresses, m, t)
    ensures Load(ts, lay.addresses, m', t) == Load(ts, lay.addresses, m, t)
  {
    var outputs, temps := p.g.nodes[i].outputs, p.g.nodes[i].temporaries;
    TrackedIsLive(p, ts, lay, i, t);
    LiveIsAddressable(p, ts, lay, i, m, t);
    LiveIsAddressable(p, ts, lay, i, scratch, t);
    LiveIsSeparate(p, ts, lay, i, t, outputs + temps);
    LiveIsSeparate(p, ts, lay, i, t, temps);
    SeparateUnaffected(ts, lay.addresses, m, scratch, outputs + temps, t);
    var args := LoadArgs(p.g, ts, lay.addresses, i, scratch);
    OutputsAreAddressable(p, ts, lay, i, scratch, t);
    OutputsStored(p.g, ts, lay.addresses, f, i, args, scratch, |outputs|, t);
    assert outputs[..|outputs|] == outputs;
    SeparateUnaffected(ts, lay.addresses, StoreOutputs(p.g, ts, lay.addresses, f, i, args, scratch, |outputs|), m',
                       temps, t);
  }

  lemma {:induction false} OutputsAreAddressable(p: Plan, ts: seq<TensorInfo>, lay: Layout, i: int, m: Machine, t: int)
    requires Setting(p, ts, lay) && IsNode(p.g, i) && Committed(ts, lay, m) && 0 <= t < |ts|
    requires ts[t].typ == OtherMemory || LiveAt(p, i, t)
    ensures forall u :: u in p.g.nodes[i].outputs ==>
              Addressable(ts, lay.addresses, m, u) && (u != t ==> Separate(ts, lay.addresses, t, [u]))
  {
    forall u | u in p.g.nodes[i].outputs
      ensures Addressable(ts, lay.addresses, m, u) && (u != t ==> Separate(ts, lay.addresses, t, [u]))
    {
      TouchedIsLive(p, ts, lay, i, u);
      LiveIsAddressable(p, ts, lay, i, m, u);
      if u != t {
        LiveIsSeparate(p, ts, lay, i, t, [u]);
      }
    }
  }

  lemma {:induction false} WrittenCorrectly(p: Plan, ts: seq<TensorInfo>, lay: Layout, f: Kernel, i: int,
                                            scratch: Machine, m': Machine, t: int)
    requires Setting(p, ts, lay) && Sized(ts, f) && IsNode(p.g, i) && Committed(ts, lay, scratch)
    requires t in p.g.nodes[i].outputs
    requires var stored := StoreOutputs(p.g, ts, lay.addresses, f, i, LoadArgs(p.g, ts, lay.addresses, i, scratch),
                                        scratch,
                                        |p.g.nodes[i].outputs|);
      SameOutside(ts, lay.addresses, stored, m', p.g.nodes[i].temporaries)
    ensures 0 <= t < |ts| && Load(ts, lay.addresses, m', t) == f(i, LoadArgs(p.g, ts, lay.addresses, i, scratch), t)
  {
    var outputs, temps := p.g.nodes[i].outputs, p.g.nodes[i].temporaries;
    TouchedIsLive(p, ts, lay, i, t);
    LiveIsAddressable(p, ts, lay, i, scratch, t);
    var args := LoadArgs(p.g, ts, lay.addresses, i, scratch);
    OutputsAreAddressable(p, ts, lay, i, scratch, t);
    OutputsStored(p.g, ts, lay.addresses, f, i, args, scratch, |outputs|, t);
    assert outputs[..|outputs|] == outputs;
    assert t !in temps by {
      assert Produces(p.g, i, t);
      assert t in temps ==> IsTemporary(p.g, t);
    }
    LiveIsSeparate(p, ts, lay, i, t, temps);
    SeparateUnaffected(ts, lay.addresses, StoreOutputs(p.g, ts, lay.addresses, f, i, args, scratch, |outputs|), m',
                       temps, t);
  }

  /** The arguments node i finds in its memory are the private-buffer ones. */
  lemma {:induction false} ArgumentsAgree(p: Plan, ts: seq<TensorInfo>, lay: Layout, i: int, scratch: Machine,
                                          env: seq<Bytestring>)
    requires Setting(p, ts, lay) && IsNode(p.g, i) && |env| == |ts| == |scratch.own|
    requires forall t :: Reads(p.g, i, t) ==> 0 <= t < |ts| && Load(ts, lay.addresses, scratch, t) == env[t]
    ensures LoadArgs(p.g, ts, lay.addresses, i, scratch) == Execution.Args(p.g, i, env)
  {
    var a, b := LoadArgs(p.g, ts, lay.addresses, i, scratch), Execution.Args(p.g, i, env);
    forall k | 0 <= k < |a| ensures a[k] == b[k] {
      var t := p.g.nodes[i].inputs[k];
      if 0 <= t < |ts| {
        assert Reads(p.g, i, t);
      }
    }
  }

  lemma {:induction false} NodeKeepsAgreement(p: Plan, ts: seq<TensorInfo>, lay: Layout, f: Kernel, i: int,
                                              m: Machine, m': Machine, env: seq<Bytestring>)
    requires Setting(p, ts, lay) && Sized(ts, f) && IsNode(p.g, i)
    requires Agrees(p, ts, lay, i, m, env) && NodeRuns(p.g, ts, lay.addresses, f, i, m, m')
    ensures Agrees(p, ts, lay, i + 1, m', Execution.RunNode(p.g, f, i, env))
  {
    var outputs, temps := p.g.nodes[i].outputs, p.g.nodes[i].temporaries;
    var scratch: Machine :|
      && SameOutside(ts, lay.addresses, m, scratch, outputs + temps)
      && var stored := StoreOutputs(p.g, ts, lay.addresses, f, i, LoadArgs(p.g, ts, lay.addresses, i, scratch), scratch,
                                    |outputs|);
         SameOutside(ts, lay.addresses, stored, m', temps);
    forall t | Reads(p.g, i, t) ensures 0 <= t < |ts| && Load(ts, lay.addresses, scratch, t) == env[t] {
      ArgumentIsTracked(p, ts, lay, i, t);
      UnwrittenUnaffected(p, ts, lay, f, i, m, scratch, m', t);
    }
    ArgumentsAgree(p, ts, lay, i, scratch, env);
    var next := Execution.RunNode(p.g, f, i, env);
    forall t | 0 <= t < |ts| && Tracked(p, ts, i + 1, t) ensures Load(ts, lay.addresses, m', t) == next[t] {
      if t in outputs {
        WrittenCorrectly(p, ts, lay, f, i, scratch, m', t);
      } else {
        TrackedNext(p, ts, lay, i, t);
        UnwrittenUnaffected(p, ts, lay, f, i, m, scratch, m', t);
      }
    }
  }

  // ---- The main theorems ----

  /** The planned blocks: every acquired tensor is in bounds, tensors live together are apart. */
  ghost predicate GoodPlan(p: Plan, ts: seq<TensorInfo>, st: Arenas) {
    && |st.allocs| == |ts| == p.g.numTensors
    && (forall i, t :: 0 <= i < |p.g.nodes| && 0 <= t < |ts| && LiveAt(p, i, t) && ts[t].typ != OtherMemory ==>
          && st.allocs[t].size == ts[t].bytes
          && End(st.allocs[t]) <= if ts[t].typ == ArenaRw then st.rwTop else st.persistentTop)
    && (forall i, t, u :: 0 <= i < |p.g.nodes| && LiveAt(p, i, t) && LiveAt(p, i, u) && SameArena(ts, t, u) ==>
          Disjoint(st.allocs[t], st.allocs[u]))
  }

  /** At some moment of the requests, all tensors that are to be live at node i are. */
  ghost predicate ServesAt(p: Plan, ops: seq<Op>, i: int, k: nat) {
    k <= |ops| && forall t :: LiveAt(p, i, t) ==> Live(ops[..k], t)
  }

  ghost predicate ServesNode(p: Plan, ops: seq<Op>, i: int) {
    exists k: nat :: ServesAt(p, ops, i, k)
  }

  /** Requests that never clash and serve every node. */
  ghost predicate Serves(p: Plan, ts: seq<TensorInfo>, ops: seq<Op>) {
    && OpsInRange(ts, ops) && WellPaired(ops)
    && (forall i :: 0 <= i < |p.g.nodes| ==> ServesNode(p, ops, i))
  }

  lemma {:induction false} ScheduleServes(p: Plan, ts: seq<TensorInfo>)
    requires PlannerRange(p.g) && PrivateTemporaries(p.g) && |ts| == p.g.numTensors
    ensures Serves(p, ts, Schedule(p, |p.g.nodes|))
  {
    hide WellPaired, OpsInRange, LiveAt, Live, Schedule, Moment;
    var ops := Schedule(p, |p.g.nodes|);
    ScheduleInRange(p, ts, |p.g.nodes|);
    SchedulePaired(p, |p.g.nodes|);
    forall i | 0 <= i < |p.g.nodes| ensures ServesNode(p, ops, i) {
      MomentIsPrefix(p, i);
      forall t | LiveAt(p, i, t) ensures Live(ops[..|Moment(p, i)|], t) {
        LiveAtMoment(p, i, t);
      }
      assert ServesAt(p, ops, i, |Moment(p, i)|);
    }
  }

  lemma {:induction false} PostponedServes(p: Plan, ts: seq<TensorInfo>, a: seq<Op>, d: seq<Op>, b: seq<Op>)
    requires Serves(p, ts, a + d + b) && forall k :: 0 <= k < |d| ==> d[k].kind == Dealloc
    ensures Serves(p, ts, a + b + d)
  {
    hide WellPaired, LiveAt, Live;
    PostponedIsPaired(a, d, b);
    PostponedInRange(ts, a, d, b);
    hide OpsInRange;
    forall i | 0 <= i < |p.g.nodes| ensures ServesNode(p, a + b + d, i) {
      assert ServesNode(p, a + d + b, i);
      var k: nat :| ServesAt(p, a + d + b, i, k);
      assert PostponedMoment(a, d, b, k) <= |a + b + d|;
      forall t | LiveAt(p, i, t) ensures Live((a + b + d)[..PostponedMoment(a, d, b, k)], t) {
        PostponedIsLive(a, d, b, k, t);
      }
      assert ServesAt(p, a + b + d, i, PostponedMoment(a, d, b, k));
    }
  }

  lemma {:induction false} PostponedInRange(ts: seq<TensorInfo>, a: seq<Op>, d: seq<Op>, b: seq<Op>)
    requires OpsInRange(ts, a + d + b)
    ensures OpsInRange(ts, a + b + d)
  {
    forall k | 0 <= k < |a + b + d| ensures 0 <= (a + b + d)[k].tensor < |ts| {
      var was := PostponedIndex(a, d, b, k);
    }
  }

  lemma {:induction false} ServedIsPlaced(p: Plan, ts: seq<TensorInfo>, alignment: nat, ops: seq<Op>, st: Arenas,
                                          i: int, t: int)
    requires 1 <= alignment && Holds(ts, alignment, ops, st) && |st.allocs| == |ts|
    requires ServesNode(p, ops, i) && 0 <= t < |ts| && LiveAt(p, i, t)
    ensures Placed(ts, alignment, st, t)
  {
    var k: nat :| ServesAt(p, ops, i, k);
    assert Live(ops[..k], t);
    var j :| 0 <= j < k && ops[..k][j] == Op(t, Alloc);
    assert ops[j] == Op(t, Alloc);
  }

  /** Replaying such requests succeeds and gives a good plan. */
  lemma {:induction false} ServingIsGoodPlan(p: Plan, ts: seq<TensorInfo>, alignment: nat, ops: seq<Op>)
    requires Serves(p, ts, ops) && |ts| == p.g.numTensors && 1 <= alignment <= ARENA_ALIGNMENT
    ensures var r := Replay(ts, alignment, Empty(ts), ops); r.Some? && GoodPlan(p, ts, r.value)
  {
    hide WellPaired, OpsInRange, LiveAt, Replay;
    ReplayHolds(ts, alignment, ops);
    var st := Replay(ts, alignment, Empty(ts), ops).value;
    forall i, t | 0 <= i < |p.g.nodes| && 0 <= t < |ts| && LiveAt(p, i, t) ensures Placed(ts, alignment, st, t) {
      ServedIsPlaced(p, ts, alignment, ops, st, i, t);
    }
    forall i, t, u | 0 <= i < |p.g.nodes| && LiveAt(p, i, t) && LiveAt(p, i, u) && SameArena(ts, t, u)
      ensures Disjoint(st.allocs[t], st.allocs[u])
    {
      assert ServesNode(p, ops, i);
      var k: nat :| ServesAt(p, ops, i, k);
      LiveTogetherAreDisjoint(ts, alignment, ops, k, t, u);
    }
  }

  /** The nodes in execution order. */
  function InOrder(n: nat): (order: seq<int>)
    ensures |order| == n && forall i :: 0 <= i < n ==> order[i] == i
  {
    seq(n, i => i)
  }

  /** A run of the graph on the machine, one state per node boundary. */
  ghost predicate MachineRun(p: Plan, ts: seq<TensorInfo>, lay: Layout, f: Kernel, run: seq<Machine>) {
    && |run| == |p.g.nodes| + 1
    && (forall i :: 0 <= i < |p.g.nodes| ==> NodeRuns(p.g, ts, lay.addresses, f, i, run[i], run[i + 1]))
  }

  lemma {:induction false} RunAgrees(p: Plan, ts: seq<TensorInfo>, lay: Layout, f: Kernel, run: seq<Machine>,
                                     env: seq<Bytestring>, i: nat)
    requires Setting(p, ts, lay) && Sized(ts, f) && MachineRun(p, ts, lay, f, run) && i <= |p.g.nodes|
    requires Agrees(p, ts, lay, 0, run[0], env)
    ensures Agrees(p, ts, lay, i, run[i], Execution.Run(p.g, f, InOrder(i), env))
  {
    if i > 0 {
      RunAgrees(p, ts, lay, f, run, env, i - 1);
      assert InOrder(i)[..i - 1] == InOrder(i - 1);
      NodeKeepsAgreement(p, ts, lay, f, i - 1, run[i - 1], run[i], Execution.Run(p.g, f, InOrder(i - 1), env));
    }
  }

  /** st is what one call of CalculateAllocations over the whole graph leaves in the arenas. */
  ghost predicate PlannedBy(p: Plan, ts: seq<TensorInfo>, alignment: nat, st: Arenas) {
    var ops := Requests(p.g, QueueOf(p), 0, |p.g.nodes| - 1);
    alignment > 0 && OpsInRange(ts, ops) && Replay(ts, alignment, Empty(ts), ops) == Some(st)
  }

  /** One call over the whole graph serves every node: it requests the schedule, up to late releases. */
  lemma {:induction false} RequestsServe(p: Plan, ts: seq<TensorInfo>)
    requires Plannable(p) && |ts| == p.g.numTensors
    ensures Serves(p, ts, Requests(p.g, QueueOf(p), 0, |p.g.nodes| - 1))
  {
    hide Serves, Queue, TemporariesReached, PrivateTemporaries;
    QueueOrdered(p.g, p.preserveInputs, p.preserveIntermediates, |p.g.nodes|);
    ScheduleServes(p, ts);
    if |p.g.nodes| == 0 {
      NothingUpTo(p.g, QueueOf(p));
    } else {
      var before, free, after := RequestsPostponed(p.g, QueueOf(p), |p.g.nodes| - 1);
      PostponedServes(p, ts, before, free, after);
    }
  }

  lemma {:induction false} PlannedIsPlaced(p: Plan, ts: seq<TensorInfo>, alignment: nat, st: Arenas, i: int, t: int)
    requires Plannable(p) && |ts| == p.g.numTensors && 1 <= alignment <= ARENA_ALIGNMENT
    requires PlannedBy(p, ts, alignment, st) && |st.allocs| == |ts|
    requires 0 <= i < |p.g.nodes| && 0 <= t < |ts| && LiveAt(p, i, t)
    ensures Placed(ts, alignment, st, t)
  {
    hide Plannable, Requests, LiveAt, Replay;
    RequestsServe(p, ts);
    var ops := Requests(p.g, QueueOf(p), 0, |p.g.nodes| - 1);
    ReplayHolds(ts, alignment, ops);
    ServedIsPlaced(p, ts, alignment, ops, st, i, t);
  }

  /** Planning the whole graph succeeds: no release ever fails to find its block. */
  lemma {:induction false} PlanningSucceeds(p: Plan, ts: seq<TensorInfo>, alignment: nat)
    requires Plannable(p) && |ts| == p.g.numTensors && 1 <= alignment <= ARENA_ALIGNMENT
    ensures exists st :: PlannedBy(p, ts, alignment, st) && GoodPlan(p, ts, st)
  {
    hide GoodPlan, Plannable, Requests;
    RequestsServe(p, ts);
    var ops := Requests(p.g, QueueOf(p), 0, |p.g.nodes| - 1);
    ServingIsGoodPlan(p, ts, alignment, ops);
    var st := Replay(ts, alignment, Empty(ts), ops).value;
    assert PlannedBy(p, ts, alignment, st);
  }

  /** The premise is needed: a node whose temporary needs memory and that is not reached gets none. */
  lemma {:induction false} UnreachedIsBad(p: Plan, ts: seq<TensorInfo>, alignment: nat, st: Arenas, n: int, x: int)
    requires PlannerRange(p.g) && PrivateTemporaries(p.g) && |ts| == p.g.numTensors && PlannedBy(p, ts, alignment, st)
    requires IsNode(p.g, n) && x in p.g.nodes[n].temporaries && !AllHaveEntries(QueueOf(p), 0, n)
    requires IsTensor(p.g, x) && ts[x].typ != OtherMemory && ts[x].bytes > 0
    ensures !GoodPlan(p, ts, st)
  {
    hide PlannerRange, Queue, AllHaveEntries, Requests, Replay;
    assert IsTemporary(p.g, x);
    TemporaryNotQueued(p, x);
    QueueOrdered(p.g, p.preserveInputs, p.preserveIntermediates, |p.g.nodes|);
    TemporariesAllocatedIff(p.g, QueueOf(p), 0, |p.g.nodes| - 1, n, x);
    NeverAllocatedIsEmpty(ts, alignment, Requests(p.g, QueueOf(p), 0, |p.g.nodes| - 1), x);
    assert LiveAt(p, n, x);
  }

  lemma {:induction false} TemporaryNotQueued(p: Plan, x: int)
    requires PlannerRange(p.g) && IsTemporary(p.g, x)
    ensures forall e :: e in QueueOf(p) ==> e.tensor != x
  {
    QueueElements(p.g, p.preserveInputs, p.preserveIntermediates, |p.g.nodes|);
  }

  /** Running all nodes on the shared arenas, however they scribble on their scratch memory, leaves
      every graph output equal to the run with one private buffer per tensor. */
  lemma {:induction false} ArenaRefinesPrivateBuffers(p: Plan, ts: seq<TensorInfo>, lay: Layout,
                                                      f: Kernel, run: seq<Machine>, env: seq<Bytestring>, t: int)
    requires Setting(p, ts, lay) && Sized(ts, f) && MachineRun(p, ts, lay, f, run)
    requires Agrees(p, ts, lay, 0, run[0], env) && t in p.g.outputs
    ensures var end := run[|p.g.nodes|];
      && 0 <= t < |ts| == |lay.addresses| == |end.own|
      && Load(ts, lay.addresses, end, t) == Execution.Run(p.g, f, InOrder(|p.g.nodes|), env)[t]
  {
    RunAgrees(p, ts, lay, f, run, env, |p.g.nodes|);
    assert HasValue(p, ts, |p.g.nodes|, t);
    assert Tracked(p, ts, |p.g.nodes|, t);
  }

  lemma {:induction false} RunKeepsUnproduced(g: Graph, f: Kernel, n: nat, env: seq<Bytestring>, t: int)
    requires n <= |g.nodes| && 0 <= t < |env| && !Produced(g, t)
    ensures Execution.Run(g, f, InOrder(n), env)[t] == env[t]
  {
    if n > 0 {
      RunKeepsUnproduced(g, f, n - 1, env, t);
      assert InOrder(n)[..n - 1] == InOrder(n - 1);
      assert !Produces(g, n - 1, t);
    }
  }

  /** With preserved inputs the memory is ready for another run: all given values are still there. */
  lemma {:induction false} ReadyForRerun(p: Plan, ts: seq<TensorInfo>, lay: Layout, f: Kernel,
                                         run: seq<Machine>, env: seq<Bytestring>)
    requires Setting(p, ts, lay) && Sized(ts, f) && MachineRun(p, ts, lay, f, run)
    requires Agrees(p, ts, lay, 0, run[0], env) && p.preserveInputs
    ensures Agrees(p, ts, lay, 0, run[|p.g.nodes|], env)
  {
    var n := |p.g.nodes|;
    RunAgrees(p, ts, lay, f, run, env, n);
    forall t | 0 <= t < |ts| && Tracked(p, ts, 0, t) ensures Load(ts, lay.addresses, run[n], t) == env[t] {
      GivenStaysTracked(p, ts, t);
      RunKeepsUnproduced(p.g, f, n, env, t);
    }
  }

  lemma {:induction false} GivenStaysTracked(p: Plan, ts: seq<TensorInfo>, t: int)
    requires Runnable(p, ts) && p.preserveInputs && Tracked(p, ts, 0, t)
    ensures Tracked(p, ts, |p.g.nodes|, t) && !Produced(p.g, t)
  {
    assert Given(p.g, t) || IsConstant(p.g, ts, t);
  }

  /** Every run starts in the state the previous one ended in. */
  ghost predicate ConsecutiveRuns(p: Plan, ts: seq<TensorInfo>, lay: Layout, f: Kernel, runs: seq<seq<Machine>>) {
    && (forall j :: 0 <= j < |runs| ==> MachineRun(p, ts, lay, f, runs[j]))
    && (forall j :: 0 < j < |runs| ==> Continues(runs[j - 1], runs[j]))
  }

  ghost predicate Continues(run: seq<Machine>, next: seq<Machine>) {
    run != [] && next != [] && next[0] == run[|run| - 1]
  }

  lemma {:induction false} StartsReady(p: Plan, ts: seq<TensorInfo>, lay: Layout, f: Kernel,
                                       runs: seq<seq<Machine>>, env: seq<Bytestring>, k: nat)
    requires Setting(p, ts, lay) && Sized(ts, f) && p.preserveInputs && ConsecutiveRuns(p, ts, lay, f, runs)
    requires k < |runs| && |runs[0]| > 0 && Agrees(p, ts, lay, 0, runs[0][0], env)
    ensures |runs[k]| > 0 && MachineRun(p, ts, lay, f, runs[k]) && Agrees(p, ts, lay, 0, runs[k][0], env)
  {
    assert MachineRun(p, ts, lay, f, runs[k]) && |runs[k]| == |p.g.nodes| + 1;
    assert k > 0 ==> |runs[k - 1]| == |p.g.nodes| + 1;
    hide Plannable, Runnable, Sized, PlannedBy, MachineRun, Agrees;
    if k > 0 {
      StartsReady(p, ts, lay, f, runs, env, k - 1);
      ReadyForRerun(p, ts, lay, f, runs[k - 1], env);
      assert Continues(runs[k - 1], runs[k]);
    }
  }

  /** Any number of runs in a row, inputs written once: all of them give the same outputs. */
  lemma {:induction false} RepeatedRuns(p: Plan, ts: seq<TensorInfo>, lay: Layout, f: Kernel,
                                        runs: seq<seq<Machine>>, env: seq<Bytestring>, k: nat, t: int)
    requires Setting(p, ts, lay) && Sized(ts, f) && p.preserveInputs
    requires ConsecutiveRuns(p, ts, lay, f, runs)
    requires k < |runs| && |runs[0]| > 0 && |runs[k]| == |p.g.nodes| + 1
    requires Agrees(p, ts, lay, 0, runs[0][0], env) && t in p.g.outputs
    ensures var end := runs[k][|p.g.nodes|];
      && Agrees(p, ts, lay, 0, runs[k][0], env)
      && 0 <= t < |ts| == |lay.addresses| == |end.own|
      && Load(ts, lay.addresses, end, t) == Execution.Run(p.g, f, InOrder(|p.g.nodes|), env)[t]
  {
    StartsReady(p, ts, lay, f, runs, env, k);
    ArenaRefinesPrivateBuffers(p, ts, lay, f, runs[k], env, t);
  }
}
