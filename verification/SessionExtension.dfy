/** Keeping sessions up to date with a growing graph: ExtendSessionGraphHelper, TF_FinishOperation and
    TF_NewSession of tensorflow/c/c_api.cc. Every call is a thread; a step is one action on the graph
    lock, a session lock, the graph or a session. */
module SessionExtension {
  import opened Collections

  /** `last` is last_num_graph_nodes; `shipped` counts how often each node was sent to the session. */
  datatype Session = Session(last: nat, shipped: multiset<nat>, lock: Option<nat>)

  datatype Pc =
    | AddWant(name: string) | AddLocked(name: string) | AddRefining(name: string, id: nat)
    | AddExit(name: string, added: Option<nat>) | AddDone(name: string, added: Option<nat>)
    | ExtendWant(session: nat) | ExtendLocked(session: nat) | ExtendBoth(session: nat)
    | ExtendStop(session: nat, ok: bool, seen: nat) | ExtendShip(session: nat, ids: set<nat>, upTo: nat)
    | Extending(session: nat, ids: set<nat>, upTo: nat) | Shipped(session: nat, upTo: nat)
    | ExtendExit(session: nat, ok: bool, seen: nat) | ExtendDone(session: nat, ok: bool, seen: nat)

  predicate IsDone(pc: Pc) {
    pc.AddDone? || pc.ExtendDone?
  }

  /** What the code around answers a call: to an addition NodeBuilder::Finalize and ShapeRefiner::AddNode,
      to an extension ValidateGraphHasNoCycle and Session::Extend. */
  datatype Answers = Answers(first: bool, second: bool)

  /** `unlocks`: how often the call released the graph lock. */
  datatype Thread = Thread(pc: Pc, unlocks: nat, answers: Answers)

  /** `nodes` are the live op nodes by id and `numIds` the next id; ids 0 and 1 are source and sink. */
  datatype State = State(threads: map<nat, Thread>, graphLock: Option<nat>, numIds: nat, nodes: map<nat, string>,
                         nameMap: map<string, nat>, sessions: map<nat, Session>)

  ghost predicate Init(s: State) {
    s == State(map[], None, 2, map[], map[], map[])
  }

  function Go(s: State, t: nat, pc: Pc): State
    requires t in s.threads
  {
    s.(threads := s.threads[t := s.threads[t].(pc := pc)])
  }

  function ReleaseGraph(s: State, t: nat, pc: Pc): State
    requires t in s.threads
  {
    s.(threads := s.threads[t := s.threads[t].(pc := pc, unlocks := s.threads[t].unlocks + 1)], graphLock := None)
  }

  function SetSession(s: State, x: nat, session: Session): State {
    s.(sessions := s.sessions[x := session])
  }

  function Ops(nodes: map<nat, string>, lo: nat, hi: nat): set<nat> {
    set id | id in nodes && lo <= id < hi
  }

  /** Calls start before taking the graph lock, on a session that exists. */
  ghost predicate StartCall(s: State, s': State, t: nat) {
    && t !in s.threads && t in s'.threads
    && var pc := s'.threads[t].pc;
    && BeforeGraph(pc) && (pc.ExtendWant? ==> pc.session in s.sessions)
    && s' == s.(threads := s.threads[t := Thread(pc, 0, s'.threads[t].answers)])
  }

  /** Lines 2577-2592: registers a session with nothing shipped, under the graph lock. */
  ghost predicate NewSession(s: State, s': State, x: nat) {
    s.graphLock.None? && x !in s.sessions && s' == SetSession(s, x, Session(0, multiset{}, None))
  }

  /** Lines 1453-1492: adding a node may fail before or after it gets an id. */
  ghost predicate ActAdd(s: State, s': State, t: nat)
    requires t in s.threads
  {
    match s.threads[t].pc
    case AddWant(name) => s.graphLock.None? && s' == Go(s, t, AddLocked(name)).(graphLock := Some(t))
    case AddLocked(name) =>
      if name in s.nameMap || !s.threads[t].answers.first then s' == Go(s, t, AddExit(name, None))
      else
        s' == Go(s, t, AddRefining(name, s.numIds)).(nodes := s.nodes[s.numIds := name], numIds := s.numIds + 1)
    case AddRefining(name, id) =>
      if s.threads[t].answers.second then s' == Go(s, t, AddExit(name, Some(id))).(nameMap := s.nameMap[name := id])
      else s' == Go(s, t, AddExit(name, None)).(nodes := s.nodes - {id})
    case AddExit(name, added) => s' == ReleaseGraph(s, t, AddDone(name, added))
    case _ => false
  }

  /** Lines 754-796: taking both locks and collecting the new nodes, until the graph lock is released. */
  ghost predicate ActCollect(s: State, s': State, t: nat)
    requires t in s.threads
  {
    match s.threads[t].pc
    case ExtendWant(x) => s.graphLock.None? && s' == Go(s, t, ExtendLocked(x)).(graphLock := Some(t))
    case ExtendLocked(x) =>
      x in s.sessions && s.sessions[x].lock.None?
        && s' == SetSession(Go(s, t, ExtendBoth(x)), x, s.sessions[x].(lock := Some(t)))
    case ExtendBoth(x) =>
      x in s.sessions &&
      if s.sessions[x].last < s.numIds && s.threads[t].answers.first then
        s' == Go(s, t, ExtendShip(x, Ops(s.nodes, s.sessions[x].last, s.numIds), s.numIds))
      else s' == Go(s, t, ExtendStop(x, s.sessions[x].last >= s.numIds, s.numIds))
    case ExtendStop(x, ok, seen) => s' == ReleaseGraph(s, t, ExtendExit(x, ok, seen))
    case ExtendShip(x, ids, upTo) => s' == ReleaseGraph(s, t, Extending(x, ids, upTo))
    case _ => false
  }

  /** Lines 797-806: shipping them, under the session lock alone. */
  ghost predicate ActShip(s: State, s': State, t: nat)
    requires t in s.threads
  {
    match s.threads[t].pc
    case Extending(x, ids, upTo) =>
      x in s.sessions &&
      s' == if s.threads[t].answers.second
            then SetSession(Go(s, t, Shipped(x, upTo)), x,
                            s.sessions[x].(shipped := s.sessions[x].shipped + multiset(ids)))
            else Go(s, t, ExtendExit(x, false, upTo))
    case Shipped(x, upTo) => x in s.sessions
      && s' == SetSession(Go(s, t, ExtendExit(x, true, upTo)), x, s.sessions[x].(last := upTo))
    case ExtendExit(x, ok, seen) =>
      x in s.sessions && s' == SetSession(Go(s, t, ExtendDone(x, ok, seen)), x, s.sessions[x].(lock := None))
    case _ => false
  }

  ghost predicate Act(s: State, s': State, t: nat) {
    t in s.threads && (ActAdd(s, s', t) || ActCollect(s, s', t) || ActShip(s, s', t))
  }

  ghost predicate Next(s: State, s': State) {
    exists t: nat :: StartCall(s, s', t) || NewSession(s, s', t) || Act(s, s', t)
  }

  ghost predicate Behavior(states: seq<State>) {
    states != [] && Init(states[0]) && forall i :: 0 <= i < |states| - 1 ==> Next(states[i], states[i + 1])
  }

  // ---- Locks ----

  predicate HoldsGraph(pc: Pc) {
    pc.AddLocked? || pc.AddRefining? || pc.AddExit? || pc.ExtendLocked? || pc.ExtendBoth? || pc.ExtendStop?
      || pc.ExtendShip?
  }

  predicate HoldsSession(pc: Pc) {
    pc.ExtendBoth? || pc.ExtendStop? || pc.ExtendShip? || pc.Extending? || pc.Shipped? || pc.ExtendExit?
  }

  predicate AboutSession(pc: Pc) {
    pc.ExtendWant? || pc.ExtendLocked? || HoldsSession(pc)
  }

  predicate BeforeGraph(pc: Pc) {
    pc.AddWant? || pc.ExtendWant?
  }

  ghost predicate GraphLockInv(s: State) {
    && (forall t :: t in s.threads && HoldsGraph(s.threads[t].pc) ==> s.graphLock == Some(t))
    && (s.graphLock.Some? ==> s.graphLock.value in s.threads && HoldsGraph(s.threads[s.graphLock.value].pc))
    && (forall t :: t in s.threads ==>
        s.threads[t].unlocks == if BeforeGraph(s.threads[t].pc) || HoldsGraph(s.threads[t].pc) then 0 else 1)
  }

  ghost predicate SessionLockInv(s: State) {
    && (forall t :: t in s.threads && AboutSession(s.threads[t].pc) ==> s.threads[t].pc.session in s.sessions)
    && (forall t :: t in s.threads && HoldsSession(s.threads[t].pc) ==>
        s.sessions[s.threads[t].pc.session].lock == Some(t))
    && (forall x :: x in s.sessions && s.sessions[x].lock.Some? ==>
          var t := s.sessions[x].lock.value;
          t in s.threads && HoldsSession(s.threads[t].pc) && s.threads[t].pc.session == x)
  }

  /** A call takes the free graph lock first, releases it once, and otherwise leaves it alone. */
  ghost predicate GraphLockMoves(s: State, s': State, t: nat) {
    && t in s.threads && t in s'.threads && s'.threads == s.threads[t := s'.threads[t]]
    && s'.threads[t].answers == s.threads[t].answers
    && var Thread(before, n, _), Thread(after, m, _) := s.threads[t], s'.threads[t];
    || (s'.graphLock == s.graphLock && HoldsGraph(before) == HoldsGraph(after) && m == n && !BeforeGraph(before)
        && !BeforeGraph(after))
    || (s.graphLock.None? && s'.graphLock == Some(t) && BeforeGraph(before) && HoldsGraph(after) && m == n)
    || (HoldsGraph(before) && s'.graphLock.None? && !HoldsGraph(after) && !BeforeGraph(after) && m == n + 1)
  }

  lemma {:induction false} AddMovesGraphLock(s: State, s': State, t: nat)
    requires t in s.threads && ActAdd(s, s', t)
    ensures GraphLockMoves(s, s', t)
  {
  }

  lemma {:induction false} CollectMovesGraphLock(s: State, s': State, t: nat)
    requires t in s.threads && ActCollect(s, s', t)
    ensures GraphLockMoves(s, s', t)
  {
    hide Ops;
  }

  lemma {:induction false} ShipMovesGraphLock(s: State, s': State, t: nat)
    requires t in s.threads && ActShip(s, s', t)
    ensures GraphLockMoves(s, s', t)
  {
  }

  lemma {:induction false} GraphLockKept(s: State, s': State, t: nat)
    requires GraphLockInv(s) && GraphLockMoves(s, s', t)
    ensures GraphLockInv(s')
  {
    hide HoldsGraph, BeforeGraph;
  }

  /** A call touches no session but its own, whose lock it takes when free and releases at the end. */
  ghost predicate SessionLockMoves(s: State, s': State, t: nat)
    requires SessionLockInv(s)
  {
    && t in s.threads && t in s'.threads && s'.threads == s.threads[t := s'.threads[t]]
      && s'.sessions.Keys == s.sessions.Keys
    && var before, after := s.threads[t].pc, s'.threads[t].pc;
    && (AboutSession(after) ==> AboutSession(before) && before.session == after.session)
    && (after.Shipped? ==> HoldsSession(before))
    && (after.ExtendDone? ==> AboutSession(before) && before.session == after.session)
    && (!AboutSession(before) ==> s'.sessions == s.sessions)
    && (AboutSession(before) ==>
          && OthersKept(s, s', before.session)
          && (!HoldsSession(before) ==> SameContents(s.sessions[before.session], s'.sessions[before.session]))
          && LockMoves(s.sessions[before.session].lock, s'.sessions[before.session].lock, HoldsSession(before),
                       HoldsSession(after), t))
  }

  predicate SameContents(a: Session, b: Session) {
    a.last == b.last && a.shipped == b.shipped
  }

  ghost predicate OthersKept(s: State, s': State, x: nat)
    requires s'.sessions.Keys == s.sessions.Keys
  {
    forall y :: y in s.sessions && y != x ==> s'.sessions[y] == s.sessions[y]
  }

  predicate LockMoves(before: Option<nat>, after: Option<nat>, held: bool, holds: bool, t: nat) {
    if held == holds then after == before
    else if holds then before.None? && after == Some(t)
    else after.None?
  }

  lemma {:induction false} AddMovesSessionLock(s: State, s': State, t: nat)
    requires SessionLockInv(s) && t in s.threads && ActAdd(s, s', t)
    ensures SessionLockMoves(s, s', t)
  {
    hide SessionLockInv;
    assert s'.sessions == s.sessions;
    assert !AboutSession(s.threads[t].pc) && !AboutSession(s'.threads[t].pc);
  }

  lemma {:induction false} TakeMovesSessionLock(s: State, s': State, t: nat)
    requires SessionLockInv(s) && t in s.threads && ActCollect(s, s', t) && s.threads[t].pc.ExtendLocked?
    ensures SessionLockMoves(s, s', t)
  {
    hide Ops;
  }

  lemma {:induction false} CollectMovesSessionLock(s: State, s': State, t: nat)
    requires SessionLockInv(s) && t in s.threads && ActCollect(s, s', t)
    ensures SessionLockMoves(s, s', t)
  {
    hide Ops;
    if s.threads[t].pc.ExtendLocked? {
      TakeMovesSessionLock(s, s', t);
    } else {
      assert s'.sessions == s.sessions;
    }
  }

  lemma {:induction false} ShipMovesSessionLock(s: State, s': State, t: nat)
    requires SessionLockInv(s) && t in s.threads && ActShip(s, s', t)
    ensures SessionLockMoves(s, s', t)
  {
  }

  lemma {:induction false} SessionLockKept(s: State, s': State, t: nat)
    requires SessionLockInv(s) && SessionLockMoves(s, s', t)
    ensures SessionLockInv(s')
  {
    hide HoldsSession;
  }

  /** A session whose lock a call holds is not changed by others. */
  lemma {:induction false} HeldSessionKept(s: State, s': State, t: nat, u: nat)
    requires SessionLockInv(s) && SessionLockMoves(s, s', t)
    requires u in s.threads && u != t && HoldsSession(s.threads[u].pc)
    ensures var x := s.threads[u].pc.session; s'.sessions[x] == s.sessions[x]
  {
    hide HoldsSession;
  }

  // ---- What the sessions hold ----

  /** All ids below this are decided: a node still in shape inference is above. */
  ghost function Settled(s: State): nat
    requires GraphLockInv(s)
  {
    if s.graphLock.Some? && s.threads[s.graphLock.value].pc.AddRefining? then s.threads[s.graphLock.value].pc.id
      else s.numIds
  }

  /** What the session has been sent: up to `last`, or further if the sender has yet to record it. */
  ghost function Frontier(s: State, x: nat): nat
    requires SessionLockInv(s) && x in s.sessions
  {
    var lock := s.sessions[x].lock;
    if lock.Some? && s.threads[lock.value].pc.Shipped? then s.threads[lock.value].pc.upTo else s.sessions[x].last
  }

  ghost predicate SessionInv(s: State, x: nat)
    requires GraphLockInv(s) && SessionLockInv(s) && x in s.sessions
  {
    && s.sessions[x].last <= Frontier(s, x) <= Settled(s)
    && s.sessions[x].shipped == multiset(Ops(s.nodes, 0, Frontier(s, x)))
  }

  ghost predicate SessionsInv(s: State)
    requires GraphLockInv(s) && SessionLockInv(s)
  {
    forall x :: x in s.sessions ==> SessionInv(s, x)
  }

  /** Node id is in the graph to stay, under that name. */
  ghost predicate IsSettled(s: State, id: nat, name: string)
    requires GraphLockInv(s)
  {
    id < Settled(s) && id in s.nodes && s.nodes[id] == name
  }

  ghost predicate ThreadInv(s: State, t: nat)
    requires GraphLockInv(s) && SessionLockInv(s) && t in s.threads
  {
    match s.threads[t].pc
    case AddRefining(name, id) => id + 1 == s.numIds && id in s.nodes && s.nodes[id] == name && name !in s.nameMap
    case ExtendStop(x, ok, seen) => ok ==> seen <= s.sessions[x].last
    case ExtendExit(x, ok, seen) => ok ==> seen <= s.sessions[x].last
    case ExtendDone(x, ok, seen) => x in s.sessions && (ok ==> seen <= s.sessions[x].last)
    case AddExit(name, added) => added.Some? ==> IsSettled(s, added.value, name)
    case AddDone(name, added) => added.Some? ==> IsSettled(s, added.value, name)
    case ExtendShip(x, ids, upTo) => s.sessions[x].last <= upTo <= Settled(s)
      && ids == Ops(s.nodes, s.sessions[x].last, upTo)
    case Extending(x, ids, upTo) => s.sessions[x].last <= upTo <= Settled(s)
      && ids == Ops(s.nodes, s.sessions[x].last, upTo)
    case Shipped(x, upTo) => s.sessions[x].last <= upTo <= Settled(s)
    case _ => true
  }

  ghost predicate ThreadsInv(s: State)
    requires GraphLockInv(s) && SessionLockInv(s)
  {
    forall t :: t in s.threads ==> ThreadInv(s, t)
  }

  /** Names and settled nodes determine each other. */
  ghost predicate NamesInv(s: State)
    requires GraphLockInv(s)
  {
    && (forall id :: id in s.nodes ==> id < s.numIds)
    && (forall name :: name in s.nameMap ==>
        s.nameMap[name] in s.nodes && s.nameMap[name] < Settled(s) && s.nodes[s.nameMap[name]] == name)
    && (forall id :: id in s.nodes && id < Settled(s) ==> s.nodes[id] in s.nameMap && s.nameMap[s.nodes[id]] == id)
  }

  ghost predicate Inv(s: State) {
    GraphLockInv(s) && SessionLockInv(s) && SessionsInv(s) && ThreadsInv(s) && NamesInv(s)
  }

  // ---- Every step keeps it ----

  lemma {:induction false} StartKeepsLocks(s: State, s': State, t: nat)
    requires GraphLockInv(s) && SessionLockInv(s) && StartCall(s, s', t)
    ensures GraphLockInv(s') && SessionLockInv(s')
  {
  }

  lemma {:induction false} StartKeepsThread(s: State, s': State, t: nat, u: nat)
    requires GraphLockInv(s) && SessionLockInv(s) && ThreadsInv(s) && StartCall(s, s', t) && u in s'.threads
    requires GraphLockInv(s') && SessionLockInv(s') && Settled(s') == Settled(s)
    ensures ThreadInv(s', u)
  {
    if u != t {
      assert ThreadInv(s, u);
    }
    hide Ops, Settled, GraphLockInv, SessionLockInv, ThreadsInv;
  }

  lemma {:induction false} StartKeepsInv(s: State, s': State, t: nat)
    requires Inv(s) && StartCall(s, s', t)
    ensures Inv(s')
  {
    StartKeepsLocks(s, s', t);
    hide Ops, ThreadInv;
    assert Settled(s') == Settled(s);
    forall x | x in s'.sessions ensures Frontier(s', x) == Frontier(s, x) {
    }
    forall u | u in s'.threads ensures ThreadInv(s', u) {
      StartKeepsThread(s, s', t, u);
    }
  }

  lemma {:induction false} NewSessionKeepsLocks(s: State, s': State, x: nat)
    requires GraphLockInv(s) && SessionLockInv(s) && NewSession(s, s', x)
    ensures GraphLockInv(s') && SessionLockInv(s')
  {
    hide HoldsGraph, HoldsSession, BeforeGraph;
  }

  lemma {:induction false} NewSessionKeepsInv(s: State, s': State, x: nat)
    requires Inv(s) && NewSession(s, s', x)
    ensures Inv(s')
  {
    NewSessionKeepsLocks(s, s', x);
    assert Settled(s') == Settled(s);
    assert Ops(s.nodes, 0, 0) == {};
    hide Ops;
    forall y | y in s.sessions ensures Frontier(s', y) == Frontier(s, y) {
    }
    forall u | u in s'.threads ensures ThreadInv(s', u) {
      assert ThreadInv(s, u);
    }
  }

  /** Below n, the nodes are the same. */
  ghost predicate SameBelow(a: map<nat, string>, b: map<nat, string>, n: nat) {
    forall id: nat :: id < n ==> (id in a <==> id in b) && (id in a ==> a[id] == b[id])
  }

  lemma {:induction false} OpsKept(a: map<nat, string>, b: map<nat, string>, n: nat, lo: nat, hi: nat)
    requires SameBelow(a, b, n) && hi <= n
    ensures Ops(a, lo, hi) == Ops(b, lo, hi)
  {
  }

  /** Extending does not change the graph. */
  lemma {:induction false} ExtendingKeepsGraph(s: State, s': State, t: nat)
    requires t in s.threads && (ActCollect(s, s', t) || ActShip(s, s', t))
    requires GraphLockInv(s) && GraphLockInv(s') && GraphLockMoves(s, s', t)
    ensures s'.nodes == s.nodes && s'.nameMap == s.nameMap && s'.numIds == s.numIds && Settled(s') == Settled(s)
  {
    hide Ops;
  }

  /** Adding a node, or failing to, only changes what is not settled. */
  lemma {:induction false} AddingKeepsSettled(s: State, s': State, t: nat)
    requires Inv(s) && t in s.threads && ActAdd(s, s', t) && GraphLockInv(s') && GraphLockMoves(s, s', t)
    ensures Settled(s) <= Settled(s') && SameBelow(s.nodes, s'.nodes, Settled(s)) && s'.sessions == s.sessions
  {
    hide Ops, SessionsInv, SessionLockInv;
    assert ThreadInv(s, t);
  }

  lemma {:induction false} AllocatingKeepsNames(s: State, s': State, t: nat)
    requires GraphLockInv(s) && NamesInv(s) && t in s.threads && s.threads[t].pc.AddLocked? && ActAdd(s, s', t)
    requires GraphLockInv(s')
    ensures NamesInv(s')
  {
    assert s.graphLock == s'.graphLock == Some(t);
    assert Settled(s) == s.numIds == Settled(s');
    hide GraphLockInv, Settled;
  }

  lemma {:induction false} RefiningKeepsNames(s: State, s': State, t: nat)
    requires GraphLockInv(s) && NamesInv(s) && t in s.threads && s.threads[t].pc.AddRefining? && ActAdd(s, s', t)
    requires GraphLockInv(s')
    requires var AddRefining(name, id) := s.threads[t].pc;
      id + 1 == s.numIds && id in s.nodes && s.nodes[id] == name && name !in s.nameMap
    ensures NamesInv(s')
  {
    assert s.graphLock == s'.graphLock == Some(t);
    assert Settled(s) == s.threads[t].pc.id && Settled(s') == s.numIds;
    hide GraphLockInv, Settled;
  }

  lemma {:induction false} AddingKeepsNames(s: State, s': State, t: nat)
    requires Inv(s) && t in s.threads && ActAdd(s, s', t) && GraphLockInv(s') && GraphLockMoves(s, s', t)
    ensures NamesInv(s')
  {
    hide Ops, SessionsInv, SessionLockInv, NamesInv;
    assert ThreadInv(s, t);
    if s.threads[t].pc.AddLocked? {
      AllocatingKeepsNames(s, s', t);
    } else if s.threads[t].pc.AddRefining? {
      RefiningKeepsNames(s, s', t);
    } else {
      assert Settled(s) == s.numIds == Settled(s');
      NamesKept(s, s');
    }
  }

  /** Both kinds of step: nothing settled changes, and every lock stays with its holder. */
  ghost predicate Keeps(s: State, s': State, t: nat) {
    && Inv(s) && GraphLockInv(s') && SessionLockInv(s') && SessionLockMoves(s, s', t)
    && Settled(s) <= Settled(s') && SameBelow(s.nodes, s'.nodes, Settled(s)) && LastGrows(s, s')
  }

  /** What a session has been sent is never taken back. */
  ghost predicate LastGrows(s: State, s': State) {
    forall x :: x in s.sessions ==> x in s'.sessions && s.sessions[x].last <= s'.sessions[x].last
  }

  lemma {:induction false} CollectKeepsLast(s: State, s': State, t: nat)
    requires t in s.threads && ActCollect(s, s', t)
    ensures LastGrows(s, s')
  {
    hide Ops;
  }

  lemma {:induction false} ShippedIsAhead(s: State, t: nat)
    requires Inv(s) && t in s.threads && s.threads[t].pc.Shipped?
    ensures s.sessions[s.threads[t].pc.session].last <= s.threads[t].pc.upTo
  {
    hide SessionsInv, NamesInv, GraphLockInv;
    assert ThreadInv(s, t);
  }

  lemma {:induction false} ShipKeepsLast(s: State, s': State, t: nat)
    requires t in s.threads && ActShip(s, s', t)
    requires var pc := s.threads[t].pc; pc.Shipped? ==> s.sessions[pc.session].last <= pc.upTo
    ensures LastGrows(s, s')
  {
  }

  lemma {:induction false} HolderKept(s: State, s': State, t: nat, u: nat)
    requires Keeps(s, s', t) && u in s.threads && u != t && u in s'.threads && s'.threads[u] == s.threads[u]
    requires HoldsSession(s.threads[u].pc)
    ensures ThreadInv(s', u)
  {
    hide SessionsInv, NamesInv, Ops;
    assert ThreadInv(s, u);
    HeldSessionKept(s, s', t, u);
    hide SessionLockMoves, LastGrows, Settled, ThreadsInv, SameBelow;
    var pc := s.threads[u].pc;
    if pc.ExtendShip? || pc.Extending? {
      OpsKept(s.nodes, s'.nodes, Settled(s), s.sessions[pc.session].last, pc.upTo);
    }
  }

  lemma {:induction false} OtherThreadKept(s: State, s': State, t: nat, u: nat)
    requires Keeps(s, s', t) && GraphLockMoves(s, s', t)
    requires (!s.threads[t].pc.AddLocked? && !s.threads[t].pc.AddRefining? ==>
              s'.nodes == s.nodes && s'.nameMap == s.nameMap && s'.numIds == s.numIds)
    requires u in s.threads && u != t
    ensures ThreadInv(s', u)
  {
    assert u in s'.threads && s'.threads[u] == s.threads[u];
    hide SessionsInv, NamesInv, Ops;
    if HoldsSession(s.threads[u].pc) {
      HolderKept(s, s', t, u);
    } else {
      assert ThreadInv(s, u);
      hide SessionLockMoves, ThreadsInv;
    }
  }

  lemma {:induction false} OtherSessionKept(s: State, s': State, t: nat, x: nat)
    requires Keeps(s, s', t) && x in s.sessions
    requires HoldsSession(s.threads[t].pc) ==> s.threads[t].pc.session != x
    ensures x in s'.sessions && SessionInv(s', x)
  {
    hide NamesInv, ThreadsInv, Ops;
    assert SessionInv(s, x);
    FrontierKept(s, s', t, x);
    OpsKept(s.nodes, s'.nodes, Settled(s), 0, Frontier(s, x));
  }

  lemma {:induction false} FrontierKept(s: State, s': State, t: nat, x: nat)
    requires SessionLockInv(s) && SessionLockInv(s') && SessionLockMoves(s, s', t) && x in s.sessions
    requires HoldsSession(s.threads[t].pc) ==> s.threads[t].pc.session != x
    ensures x in s'.sessions && SameContents(s.sessions[x], s'.sessions[x]) && Frontier(s', x) == Frontier(s, x)
  {
  }

  lemma {:induction false} AddKeepsInv(s: State, s': State, t: nat)
    requires Inv(s) && t in s.threads && ActAdd(s, s', t)
    ensures Inv(s')
  {
    hide Ops, GraphLockMoves, SessionLockMoves, ActAdd, GraphLockInv, SessionLockInv, SessionsInv, ThreadsInv,
      NamesInv, Settled;
    AddMovesGraphLock(s, s', t);
    GraphLockKept(s, s', t);
    AddMovesSessionLock(s, s', t);
    SessionLockKept(s, s', t);
    AddingKeepsSettled(s, s', t);
    AddingKeepsNames(s, s', t);
    AddKeepsRest(s, s', t);
  }

  lemma {:induction false} AddKeepsRest(s: State, s': State, t: nat)
    requires Keeps(s, s', t) && GraphLockMoves(s, s', t) && ActAdd(s, s', t)
    ensures SessionsInv(s') && ThreadsInv(s')
  {
    hide Ops, NamesInv, SessionInv, ThreadInv, SameBelow, GraphLockInv, SessionLockInv, SessionLockMoves;
    assert s'.sessions == s.sessions;
    forall x | x in s'.sessions ensures SessionInv(s', x) {
      OtherSessionKept(s, s', t, x);
    }
    AddKeepsThread(s, s', t);
    forall u | u in s'.threads ensures ThreadInv(s', u) {
      if u != t {
        OtherThreadKept(s, s', t, u);
      }
    }
  }

  lemma {:induction false} RefiningKeepsThread(s: State, s': State, t: nat)
    requires GraphLockInv(s) && SessionLockInv(s) && t in s.threads && ThreadInv(s, t) && ActAdd(s, s', t)
    requires GraphLockInv(s') && SessionLockInv(s') && s.threads[t].pc.AddRefining?
    ensures t in s'.threads && ThreadInv(s', t)
  {
    assert s'.graphLock == Some(t) && Settled(s') == s'.numIds;
    hide Ops, GraphLockInv, SessionLockInv, Settled;
  }

  lemma {:induction false} AddKeepsThread(s: State, s': State, t: nat)
    requires GraphLockInv(s) && SessionLockInv(s) && t in s.threads && ThreadInv(s, t) && ActAdd(s, s', t)
    requires GraphLockInv(s') && SessionLockInv(s')
    requires Settled(s) <= Settled(s') && SameBelow(s.nodes, s'.nodes, Settled(s))
    ensures t in s'.threads && ThreadInv(s', t)
  {
    hide Ops, GraphLockInv, SessionLockInv, Settled;
    if s.threads[t].pc.AddRefining? {
      hide ActAdd, ThreadInv, SameBelow;
      RefiningKeepsThread(s, s', t);
    }
  }

  lemma {:induction false} CollectingKeepsThread(s: State, s': State, t: nat)
    requires GraphLockInv(s) && SessionLockInv(s) && t in s.threads && s.threads[t].pc.ExtendBoth?
    requires ActCollect(s, s', t)
    requires GraphLockInv(s') && SessionLockInv(s') && Settled(s') == Settled(s) == s.numIds
    requires s.sessions[s.threads[t].pc.session].last <= s.numIds
    ensures t in s'.threads && ThreadInv(s', t)
  {
    hide Ops, GraphLockInv, SessionLockInv, Settled;
  }

  lemma {:induction false} CollectKeepsThread(s: State, s': State, t: nat)
    requires GraphLockInv(s) && SessionLockInv(s) && t in s.threads && ThreadInv(s, t) && ActCollect(s, s', t)
    requires GraphLockInv(s') && SessionLockInv(s') && Settled(s') == Settled(s)
    requires HoldsSession(s.threads[t].pc) ==> s.sessions[s.threads[t].pc.session].last <= Settled(s)
    ensures t in s'.threads && ThreadInv(s', t)
  {
    if s.threads[t].pc.ExtendBoth? {
      assert Settled(s) == s.numIds;
      CollectingKeepsThread(s, s', t);
    } else {
      hide Ops, GraphLockInv, SessionLockInv, Settled;
    }
  }

  lemma {:induction false} CollectKeepsInv(s: State, s': State, t: nat)
    requires Inv(s) && t in s.threads && ActCollect(s, s', t)
    ensures Inv(s')
  {
    hide Ops, GraphLockMoves, SessionLockMoves, ActCollect, ActShip, GraphLockInv, SessionLockInv, SessionsInv,
      ThreadsInv, NamesInv, Settled;
    CollectMovesGraphLock(s, s', t);
    GraphLockKept(s, s', t);
    CollectMovesSessionLock(s, s', t);
    SessionLockKept(s, s', t);
    ExtendingKeepsGraph(s, s', t);
    NamesKept(s, s');
    CollectKeepsLast(s, s', t);
    CollectKeepsRest(s, s', t);
  }

  lemma {:induction false} CollectKeepsRest(s: State, s': State, t: nat)
    requires Keeps(s, s', t) && GraphLockMoves(s, s', t) && ActCollect(s, s', t)
    requires s'.nodes == s.nodes && s'.nameMap == s.nameMap && s'.numIds == s.numIds && Settled(s') == Settled(s)
    ensures SessionsInv(s') && ThreadsInv(s')
  {
    hide Ops, NamesInv, ThreadInv, SameBelow, GraphLockInv, SessionLockInv;
    forall x | x in s'.sessions ensures SessionInv(s', x) {
      if HoldsSession(s.threads[t].pc) && s.threads[t].pc.session == x {
        CollectKeepsSession(s, s', t);
      } else {
        OtherSessionKept(s, s', t, x);
      }
    }
    if HoldsSession(s.threads[t].pc) {
      LastIsSettled(s, t);
    }
    CollectKeepsThread(s, s', t);
    forall u | u in s'.threads ensures ThreadInv(s', u) {
      if u != t {
        OtherThreadKept(s, s', t, u);
      }
    }
  }

  lemma {:induction false} LastIsSettled(s: State, t: nat)
    requires Inv(s) && t in s.threads && HoldsSession(s.threads[t].pc)
    ensures s.sessions[s.threads[t].pc.session].last <= Settled(s)
  {
    hide Ops, NamesInv, ThreadsInv;
    assert SessionInv(s, s.threads[t].pc.session);
  }

  lemma {:induction false} NamesKept(s: State, s': State)
    requires GraphLockInv(s) && GraphLockInv(s') && NamesInv(s)
    requires s'.nodes == s.nodes && s'.nameMap == s.nameMap && s'.numIds == s.numIds && Settled(s') == Settled(s)
    ensures NamesInv(s') && SameBelow(s.nodes, s'.nodes, Settled(s))
  {
    hide Settled, GraphLockInv;
  }

  lemma {:induction false} CollectLeavesSessions(s: State, s': State, t: nat)
    requires t in s.threads && ActCollect(s, s', t) && HoldsSession(s.threads[t].pc)
    ensures t in s'.threads && s'.threads == s.threads[t := s'.threads[t]] && s'.sessions == s.sessions
    ensures !s.threads[t].pc.Shipped? && !s'.threads[t].pc.Shipped?
  {
    hide Ops;
  }

  lemma {:induction false} CollectKeepsSession(s: State, s': State, t: nat)
    requires Keeps(s, s', t) && ActCollect(s, s', t) && HoldsSession(s.threads[t].pc)
    requires s'.nodes == s.nodes && Settled(s') == Settled(s)
    ensures SessionInv(s', s.threads[t].pc.session)
  {
    hide Ops, NamesInv, ThreadInv, SameBelow, GraphLockInv, Settled, ThreadsInv;
    var x := s.threads[t].pc.session;
    assert SessionInv(s, x);
    CollectLeavesSessions(s, s', t);
    hide ActCollect, SessionsInv, OthersKept;
    assert Frontier(s', x) == Frontier(s, x);
  }

  // ---- Shipping ----

  lemma {:induction false} OpsSplit(nodes: map<nat, string>, mid: nat, hi: nat)
    requires mid <= hi
    ensures multiset(Ops(nodes, 0, mid)) + multiset(Ops(nodes, mid, hi)) == multiset(Ops(nodes, 0, hi))
  {
    assert Ops(nodes, 0, hi) == Ops(nodes, 0, mid) + Ops(nodes, mid, hi);
    assert Ops(nodes, 0, mid) !! Ops(nodes, mid, hi);
  }

  /** The session, its lock and what its holder has sent, before and after. */
  lemma {:induction false} ShipMovesFrontier(s: State, s': State, t: nat)
    requires Keeps(s, s', t) && ActShip(s, s', t) && HoldsSession(s.threads[t].pc)
    ensures var pc := s.threads[t].pc; var x := pc.session;
            && s'.sessions[x].last <= Frontier(s', x)
            && (if pc.Extending? && s.threads[t].answers.second
                then Frontier(s, x) == s.sessions[x].last && Frontier(s', x) == pc.upTo
                     && s'.sessions[x].shipped == s.sessions[x].shipped + multiset(pc.ids)
                else Frontier(s', x) == Frontier(s, x) && s'.sessions[x].shipped == s.sessions[x].shipped)
  {
    assert ThreadInv(s, t) && SessionInv(s, s.threads[t].pc.session);
    hide Ops, NamesInv, SameBelow, GraphLockInv, SessionsInv, ThreadsInv, Settled, OthersKept, LastGrows;
  }

  lemma {:induction false} ShipKeepsSession(s: State, s': State, t: nat)
    requires Keeps(s, s', t) && ActShip(s, s', t) && HoldsSession(s.threads[t].pc)
    requires s'.nodes == s.nodes && Settled(s') == Settled(s)
    ensures SessionInv(s', s.threads[t].pc.session)
  {
    ShipMovesFrontier(s, s', t);
    var pc := s.threads[t].pc;
    assert SessionInv(s, pc.session) && ThreadInv(s, t);
    hide Ops, NamesInv, SameBelow, GraphLockInv, SessionsInv, ThreadsInv, Settled, Frontier, ActShip,
      SessionLockMoves, SessionLockInv;
    if pc.Extending? {
      OpsSplit(s.nodes, s.sessions[pc.session].last, pc.upTo);
    }
  }

  lemma {:induction false} ShipKeepsThread(s: State, s': State, t: nat)
    requires GraphLockInv(s) && SessionLockInv(s) && t in s.threads && ThreadInv(s, t) && ActShip(s, s', t)
    requires GraphLockInv(s') && SessionLockInv(s') && Settled(s') == Settled(s)
    ensures t in s'.threads && ThreadInv(s', t)
  {
    hide Ops, GraphLockInv, SessionLockInv, Settled;
  }

  lemma {:induction false} ShipKeepsRest(s: State, s': State, t: nat)
    requires Keeps(s, s', t) && GraphLockMoves(s, s', t) && ActShip(s, s', t)
    requires s'.nodes == s.nodes && s'.nameMap == s.nameMap && s'.numIds == s.numIds && Settled(s') == Settled(s)
    ensures SessionsInv(s') && ThreadsInv(s')
  {
    hide Ops, NamesInv, ThreadInv, SessionInv, SameBelow, GraphLockInv, SessionLockInv;
    forall x | x in s'.sessions ensures SessionInv(s', x) {
      if HoldsSession(s.threads[t].pc) && s.threads[t].pc.session == x {
        ShipKeepsSession(s, s', t);
      } else {
        OtherSessionKept(s, s', t, x);
      }
    }
    ShipKeepsThread(s, s', t);
    forall u | u in s'.threads ensures ThreadInv(s', u) {
      if u != t {
        OtherThreadKept(s, s', t, u);
      }
    }
  }

  lemma {:induction false} ShipKeepsInv(s: State, s': State, t: nat)
    requires Inv(s) && t in s.threads && ActShip(s, s', t)
    ensures Inv(s')
  {
    hide Ops, GraphLockMoves, SessionLockMoves, ActCollect, ActShip, GraphLockInv, SessionLockInv, SessionsInv,
      ThreadsInv, NamesInv, Settled;
    ShipMovesGraphLock(s, s', t);
    GraphLockKept(s, s', t);
    ShipMovesSessionLock(s, s', t);
    SessionLockKept(s, s', t);
    ExtendingKeepsGraph(s, s', t);
    NamesKept(s, s');
    if s.threads[t].pc.Shipped? {
      ShippedIsAhead(s, t);
    }
    ShipKeepsLast(s, s', t);
    ShipKeepsRest(s, s', t);
  }

  lemma {:induction false} NextKeepsInv(s: State, s': State)
    requires Inv(s) && Next(s, s')
    ensures Inv(s')
  {
    hide Inv, StartCall, NewSession, ActAdd, ActCollect, ActShip;
    var t: nat :| StartCall(s, s', t) || NewSession(s, s', t) || Act(s, s', t);
    if StartCall(s, s', t) {
      StartKeepsInv(s, s', t);
    } else if NewSession(s, s', t) {
      NewSessionKeepsInv(s, s', t);
    } else if ActAdd(s, s', t) {
      AddKeepsInv(s, s', t);
    } else if ActCollect(s, s', t) {
      CollectKeepsInv(s, s', t);
    } else {
      ShipKeepsInv(s, s', t);
    }
  }

  lemma {:induction false} ReachableInv(states: seq<State>, i: nat)
    requires Behavior(states) && i < |states|
    ensures Inv(states[i])
  {
    hide Next;
    if i > 0 {
      ReachableInv(states, i - 1);
      NextKeepsInv(states[i - 1], states[i]);
    } else {
      InitInv(states[0]);
    }
  }

  lemma {:induction false} InitInv(s: State)
    requires Init(s)
    ensures Inv(s)
  {
  }

  // ---- The promises ----

  /** In every interleaving a session whose lock is free has been sent exactly the live ops with an id
      below last_num_graph_nodes, each once. */
  lemma {:induction false} SessionHoldsPrefix(states: seq<State>, i: nat, x: nat)
    requires Behavior(states) && i < |states| && x in states[i].sessions && states[i].sessions[x].lock.None?
    ensures var s := states[i]; var session := s.sessions[x];
            && session.last <= s.numIds
            && (forall id: nat :: session.shipped[id] == if id in s.nodes && id < session.last then 1 else 0)
  {
    ReachableInv(states, i);
    var s := states[i];
    assert SessionInv(s, x);
    GraphIsAhead(s);
  }

  lemma {:induction false} GraphIsAhead(s: State)
    requires Inv(s)
    ensures Settled(s) <= s.numIds
  {
    if s.graphLock.Some? {
      assert ThreadInv(s, s.graphLock.value);
    }
  }

  /** A call that extended successfully has sent every op that was in the graph when it looked. */
  lemma {:induction false} ExtensionCatchesUp(states: seq<State>, i: nat, t: nat)
    requires Behavior(states) && i < |states| && t in states[i].threads
    requires states[i].threads[t].pc.ExtendExit? && states[i].threads[t].pc.ok
    ensures var s := states[i]; var pc := s.threads[t].pc;
            pc.session in s.sessions && forall id: nat :: id in s.nodes && id < pc.seen ==>
              s.sessions[pc.session].shipped[id] == 1
  {
    ReachableInv(states, i);
    var s := states[i];
    var x := s.threads[t].pc.session;
    assert ThreadInv(s, t) && SessionInv(s, x);
  }

  // ---- What calls return ----

  /** Call t is at pc in state k. */
  ghost predicate At(states: seq<State>, k: nat, t: nat, pc: Pc) {
    k < |states| && t in states[k].threads && states[k].threads[t].pc == pc
  }

  lemma {:induction false} StepOf(states: seq<State>, j: nat, t: nat)
    requires Behavior(states) && j + 1 < |states| && t in states[j + 1].threads
    ensures || (t in states[j].threads && states[j].threads[t] == states[j + 1].threads[t])
            || BeforeGraph(states[j + 1].threads[t].pc) || Act(states[j], states[j + 1], t)
  {
    var s, s' := states[j], states[j + 1];
    assert Next(s, s');
    var u: nat :| StartCall(s, s', u) || NewSession(s, s', u) || Act(s, s', u);
    if Act(s, s', u) {
      ActMovesOne(s, s', u);
    }
  }

  lemma {:induction false} StartsIdle(states: seq<State>, j: nat, t: nat)
    requires Behavior(states) && j < |states| && t in states[j].threads
    ensures j > 0
  {
    hide Next;
  }

  lemma {:induction false} ActMovesOne(s: State, s': State, u: nat)
    requires Act(s, s', u)
    ensures u in s'.threads && s'.threads == s.threads[u := s'.threads[u]]
    ensures s'.threads[u].answers == s.threads[u].answers
  {
    hide ActAdd, ActCollect, ActShip;
    if ActAdd(s, s', u) {
      AddMovesGraphLock(s, s', u);
    } else if ActCollect(s, s', u) {
      CollectMovesGraphLock(s, s', u);
    } else {
      ShipMovesGraphLock(s, s', u);
    }
  }

  ghost predicate NameTaken(s: State, name: string) {
    exists id :: id in s.nodes && s.nodes[id] == name
  }

  /** An addition that has looked whether its name is taken. */
  predicate AddLooked(pc: Pc) {
    pc.AddRefining? || pc.AddExit? || pc.AddDone?
  }

  predicate AddVerdict(taken: bool, answers: Answers, pc: Pc)
    requires AddLooked(pc)
  {
    match pc
    case AddRefining(_, _) => !taken && answers.first
    case AddExit(_, added) => added.Some? <==> !taken && answers.first && answers.second
    case AddDone(_, added) => added.Some? <==> !taken && answers.first && answers.second
  }

  lemma {:induction false} TakenIff(s: State, t: nat)
    requires Inv(s) && t in s.threads && s.threads[t].pc.AddLocked?
    ensures NameTaken(s, s.threads[t].pc.name) <==> s.threads[t].pc.name in s.nameMap
  {
    hide SessionsInv, ThreadsInv, SessionLockInv;
    assert s.graphLock == Some(t) && Settled(s) == s.numIds;
    hide Settled, GraphLockInv;
  }

  lemma {:induction false} ExtendingNeverAdds(s: State, s': State, t: nat)
    requires t in s.threads && t in s'.threads && (ActCollect(s, s', t) || ActShip(s, s', t))
    ensures !AddLooked(s'.threads[t].pc)
  {
    hide Ops;
  }

  lemma {:induction false} AddStepBack(s: State, s': State, t: nat)
    requires t in s.threads && t in s'.threads && ActAdd(s, s', t) && AddLooked(s'.threads[t].pc)
    ensures s.threads[t].pc.AddLocked? || AddLooked(s.threads[t].pc)
    ensures s'.threads[t].answers == s.threads[t].answers && s'.threads[t].pc.name == s.threads[t].pc.name
  {
  }

  /** Only its own steps move an addition, and only forward. */
  lemma {:induction false} AddMoves(s: State, s': State, t: nat)
    requires t in s'.threads && AddLooked(s'.threads[t].pc) && Act(s, s', t)
    ensures t in s.threads && ActAdd(s, s', t) && (s.threads[t].pc.AddLocked? || AddLooked(s.threads[t].pc))
    ensures s'.threads[t].answers == s.threads[t].answers && s'.threads[t].pc.name == s.threads[t].pc.name
  {
    hide ActAdd, ActCollect, ActShip;
    if ActAdd(s, s', t) {
      AddStepBack(s, s', t);
    } else {
      ExtendingNeverAdds(s, s', t);
    }
  }

  lemma {:induction false} AddLooks(s: State, s': State, t: nat)
    requires Inv(s) && t in s.threads && t in s'.threads && s.threads[t].pc.AddLocked? && ActAdd(s, s', t)
    ensures AddLooked(s'.threads[t].pc)
    ensures AddVerdict(NameTaken(s, s.threads[t].pc.name), s.threads[t].answers, s'.threads[t].pc)
  {
    TakenIff(s, t);
    hide Inv, NameTaken;
  }

  lemma {:induction false} AddKeepsVerdict(s: State, s': State, t: nat, taken: bool)
    requires t in s.threads && t in s'.threads && AddLooked(s.threads[t].pc) && ActAdd(s, s', t)
    requires AddVerdict(taken, s.threads[t].answers, s.threads[t].pc)
    ensures AddLooked(s'.threads[t].pc) && AddVerdict(taken, s.threads[t].answers, s'.threads[t].pc)
  {
  }

  /** What an addition knows in state j is what it saw in state i. */
  ghost predicate Looked(states: seq<State>, i: nat, j: nat, t: nat) {
    && i < j < |states| && t in states[j].threads
    && var th := states[j].threads[t];
    && AddLooked(th.pc) && At(states, i, t, AddLocked(th.pc.name))
    && AddVerdict(NameTaken(states[i], th.pc.name), th.answers, th.pc)
  }

  lemma {:induction false} LooksNow(states: seq<State>, j: nat, t: nat)
    requires 0 < j < |states| && t in states[j].threads && AddLooked(states[j].threads[t].pc)
    requires Inv(states[j - 1]) && Act(states[j - 1], states[j], t) && states[j - 1].threads[t].pc.AddLocked?
    ensures Looked(states, j - 1, j, t)
  {
    hide Inv, Act, ActAdd, AddVerdict, NameTaken;
    AddMoves(states[j - 1], states[j], t);
    assert t in states[j - 1].threads;
    AddLooks(states[j - 1], states[j], t);
  }

  lemma {:induction false} StillLooked(states: seq<State>, i: nat, j: nat, t: nat)
    requires 0 < j < |states| && t in states[j].threads && AddLooked(states[j].threads[t].pc)
    requires Looked(states, i, j - 1, t)
    requires states[j - 1].threads[t] == states[j].threads[t] || Act(states[j - 1], states[j], t)
    ensures Looked(states, i, j, t)
  {
    hide Act, ActAdd, AddVerdict, NameTaken;
    var before, after := states[j - 1], states[j];
    if before.threads[t] != after.threads[t] {
      AddMoves(before, after, t);
      AddKeepsVerdict(before, after, t, NameTaken(states[i], before.threads[t].pc.name));
    }
  }

  lemma {:induction false} AdditionHistory(states: seq<State>, j: nat, t: nat) returns (i: nat)
    requires Behavior(states) && j < |states| && t in states[j].threads && AddLooked(states[j].threads[t].pc)
    ensures Looked(states, i, j, t)
  {
    StartsIdle(states, j, t);
    StepOf(states, j - 1, t);
    ReachableInv(states, j - 1);
    assert !BeforeGraph(states[j].threads[t].pc);
    hide *;
    if t in states[j - 1].threads && states[j - 1].threads[t] == states[j].threads[t] {
      i := AdditionHistory(states, j - 1, t);
      StillLooked(states, i, j, t);
    } else {
      AddMoves(states[j - 1], states[j], t);
      if AddLooked(states[j - 1].threads[t].pc) {
        i := AdditionHistory(states, j - 1, t);
        StillLooked(states, i, j, t);
      } else {
        i := j - 1;
        LooksNow(states, j, t);
      }
    }
  }

  /** TF_FinishOperation returns a node iff no node has its name when it looks, holding the graph lock, and
      neither Finalize nor the shape refiner objects; that node is in the graph then and ever after. */
  lemma {:induction false} AdditionSucceedsIff(states: seq<State>, j: nat, t: nat)
    requires Behavior(states) && j < |states| && t in states[j].threads && states[j].threads[t].pc.AddDone?
    ensures var AddDone(name, added) := states[j].threads[t].pc;
            && (exists i: nat :: i < j && At(states, i, t, AddLocked(name))
                  && (added.Some? <==>
                      !NameTaken(states[i], name) && states[j].threads[t].answers == Answers(true, true)))
            && (added.Some? ==> added.value in states[j].nodes && states[j].nodes[added.value] == name)
  {
    var i := AdditionHistory(states, j, t);
    ReachableInv(states, j);
    assert ThreadInv(states[j], t);
  }

  /** Nothing was added since the session was last extended. */
  ghost predicate UpToDate(s: State, x: nat) {
    x in s.sessions && s.sessions[x].last >= s.numIds
  }

  /** An extension that has looked what is new. */
  predicate ExtendLooked(pc: Pc) {
    pc.ExtendStop? || pc.ExtendShip? || pc.Extending? || pc.Shipped? || pc.ExtendExit? || pc.ExtendDone?
  }

  function Seen(pc: Pc): nat
    requires ExtendLooked(pc)
  {
    if pc.ExtendShip? || pc.Extending? || pc.Shipped? then pc.upTo else pc.seen
  }

  predicate ExtendVerdict(upToDate: bool, answers: Answers, pc: Pc)
    requires ExtendLooked(pc)
  {
    match pc
    case ExtendStop(_, ok, _) => if upToDate then ok else !ok && !answers.first
    case ExtendShip(_, _, _) => !upToDate && answers.first
    case Extending(_, _, _) => !upToDate && answers.first
    case Shipped(_, _) => !upToDate && answers.first && answers.second
    case ExtendExit(_, ok, _) => ok <==> upToDate || (answers.first && answers.second)
    case ExtendDone(_, ok, _) => ok <==> upToDate || (answers.first && answers.second)
  }

  lemma {:induction false} AddingNeverExtends(s: State, s': State, t: nat)
    requires t in s.threads && t in s'.threads && ActAdd(s, s', t)
    ensures !ExtendLooked(s'.threads[t].pc)
  {
  }

  lemma {:induction false} ExtendStepBack(s: State, s': State, t: nat)
    requires t in s.threads && t in s'.threads && (ActCollect(s, s', t) || ActShip(s, s', t))
    requires ExtendLooked(s'.threads[t].pc)
    ensures s.threads[t].pc.ExtendBoth? || ExtendLooked(s.threads[t].pc)
  {
    hide Ops;
  }

  lemma {:induction false} ExtendMoves(s: State, s': State, t: nat)
    requires t in s'.threads && ExtendLooked(s'.threads[t].pc) && Act(s, s', t)
    ensures t in s.threads && (ActCollect(s, s', t) || ActShip(s, s', t))
    ensures s.threads[t].pc.ExtendBoth? || ExtendLooked(s.threads[t].pc)
  {
    hide ActAdd, ActCollect, ActShip;
    if ActAdd(s, s', t) {
      AddingNeverExtends(s, s', t);
    } else {
      ExtendStepBack(s, s', t);
    }
  }

  lemma {:induction false} ExtendLooks(s: State, s': State, t: nat)
    requires t in s.threads && t in s'.threads && s.threads[t].pc.ExtendBoth?
    requires ActCollect(s, s', t) || ActShip(s, s', t)
    ensures ExtendLooked(s'.threads[t].pc) && Seen(s'.threads[t].pc) == s.numIds
    ensures s'.threads[t].answers == s.threads[t].answers && s'.threads[t].pc.session == s.threads[t].pc.session
    ensures ExtendVerdict(UpToDate(s, s.threads[t].pc.session), s.threads[t].answers, s'.threads[t].pc)
  {
    hide Ops;
  }

  lemma {:induction false} CollectKeepsVerdict(s: State, s': State, t: nat, upToDate: bool)
    requires t in s.threads && t in s'.threads && ExtendLooked(s.threads[t].pc) && ActCollect(s, s', t)
    requires ExtendVerdict(upToDate, s.threads[t].answers, s.threads[t].pc)
    ensures ExtendLooked(s'.threads[t].pc) && Seen(s'.threads[t].pc) == Seen(s.threads[t].pc)
    ensures s'.threads[t].answers == s.threads[t].answers && s'.threads[t].pc.session == s.threads[t].pc.session
    ensures ExtendVerdict(upToDate, s.threads[t].answers, s'.threads[t].pc)
  {
    hide Ops;
  }

  lemma {:induction false} ShipKeepsVerdict(s: State, s': State, t: nat, upToDate: bool)
    requires t in s.threads && t in s'.threads && ExtendLooked(s.threads[t].pc) && ActShip(s, s', t)
    requires ExtendVerdict(upToDate, s.threads[t].answers, s.threads[t].pc)
    ensures ExtendLooked(s'.threads[t].pc) && Seen(s'.threads[t].pc) == Seen(s.threads[t].pc)
    ensures s'.threads[t].answers == s.threads[t].answers && s'.threads[t].pc.session == s.threads[t].pc.session
    ensures ExtendVerdict(upToDate, s.threads[t].answers, s'.threads[t].pc)
  {
    hide Ops;
  }

  lemma {:induction false} ExtensionHistory(states: seq<State>, j: nat, t: nat) returns (i: nat)
    requires Behavior(states) && j < |states| && t in states[j].threads && ExtendLooked(states[j].threads[t].pc)
    ensures var th := states[j].threads[t];
            && i < j && At(states, i, t, ExtendBoth(th.pc.session)) && Seen(th.pc) == states[i].numIds
            && ExtendVerdict(UpToDate(states[i], th.pc.session), th.answers, th.pc)
  {
    StartsIdle(states, j, t);
    StepOf(states, j - 1, t);
    hide Behavior, Act, ActCollect, ActShip, ExtendVerdict, UpToDate, Seen;
    var before, after := states[j - 1], states[j];
    if t in before.threads && before.threads[t] == after.threads[t] {
      i := ExtensionHistory(states, j - 1, t);
    } else {
      ExtendMoves(before, after, t);
      if before.threads[t].pc.ExtendBoth? {
        i := j - 1;
        ExtendLooks(before, after, t);
      } else {
        i := ExtensionHistory(states, j - 1, t);
        var upToDate := UpToDate(states[i], before.threads[t].pc.session);
        if ActCollect(before, after, t) {
          CollectKeepsVerdict(before, after, t, upToDate);
        } else {
          ShipKeepsVerdict(before, after, t, upToDate);
        }
      }
    }
  }

  /** An extension succeeds iff nothing is new when it looks, holding both locks, or the graph has no cycle
      and Session::Extend succeeds; then every op that was in the graph has been sent to the session. */
  lemma {:induction false} ExtensionSucceedsIff(states: seq<State>, j: nat, t: nat)
    requires Behavior(states) && j < |states| && t in states[j].threads && states[j].threads[t].pc.ExtendDone?
    ensures var ExtendDone(x, ok, seen) := states[j].threads[t].pc;
            && (exists i: nat :: i < j && At(states, i, t, ExtendBoth(x)) && seen == states[i].numIds
                  && (ok <==> UpToDate(states[i], x) || states[j].threads[t].answers == Answers(true, true)))
            && (ok ==> x in states[j].sessions && states[j].sessions[x].last >= seen)
  {
    var i := ExtensionHistory(states, j, t);
    ReachableInv(states, j);
    assert ThreadInv(states[j], t);
  }

  /** Two live nodes never have the same name while nobody adds one. */
  lemma {:induction false} NamesAreUnique(states: seq<State>, i: nat, a: nat, b: nat)
    requires Behavior(states) && i < |states| && states[i].graphLock.None?
    requires a in states[i].nodes && b in states[i].nodes && states[i].nodes[a] == states[i].nodes[b]
    ensures a == b
  {
    ReachableInv(states, i);
  }

  /** Every call releases the graph lock at most once, and exactly once by the time it returns. */
  lemma {:induction false} GraphLockReleasedOnce(states: seq<State>, i: nat, t: nat)
    requires Behavior(states) && i < |states| && t in states[i].threads
    ensures states[i].threads[t].unlocks <= 1
    ensures IsDone(states[i].threads[t].pc) ==> states[i].threads[t].unlocks == 1
    ensures states[i].threads[t].unlocks == 1 ==> states[i].graphLock != Some(t)
  {
    ReachableInv(states, i);
  }

  ghost function SomeAction(s: State, t: nat): State
    requires t in s.threads && !IsDone(s.threads[t].pc)
    requires (HoldsSession(s.threads[t].pc) || s.threads[t].pc.ExtendLocked? ==> s.threads[t].pc.session in s.sessions)
  {
    match s.threads[t].pc
    case AddWant(name) => Go(s, t, AddLocked(name)).(graphLock := Some(t))
    case AddLocked(name) =>
      if name in s.nameMap || !s.threads[t].answers.first then Go(s, t, AddExit(name, None))
      else Go(s, t, AddRefining(name, s.numIds)).(nodes := s.nodes[s.numIds := name], numIds := s.numIds + 1)
    case AddRefining(name, id) =>
      if s.threads[t].answers.second then Go(s, t, AddExit(name, Some(id))).(nameMap := s.nameMap[name := id])
      else Go(s, t, AddExit(name, None)).(nodes := s.nodes - {id})
    case AddExit(name, added) => ReleaseGraph(s, t, AddDone(name, added))
    case ExtendWant(x) => Go(s, t, ExtendLocked(x)).(graphLock := Some(t))
    case ExtendLocked(x) => SetSession(Go(s, t, ExtendBoth(x)), x, s.sessions[x].(lock := Some(t)))
    case ExtendBoth(x) =>
      if s.sessions[x].last < s.numIds && s.threads[t].answers.first
      then Go(s, t, ExtendShip(x, Ops(s.nodes, s.sessions[x].last, s.numIds), s.numIds))
      else Go(s, t, ExtendStop(x, s.sessions[x].last >= s.numIds, s.numIds))
    case ExtendStop(x, ok, seen) => ReleaseGraph(s, t, ExtendExit(x, ok, seen))
    case ExtendShip(x, ids, upTo) => ReleaseGraph(s, t, Extending(x, ids, upTo))
    case Extending(x, ids, upTo) =>
      if s.threads[t].answers.second
      then SetSession(Go(s, t, Shipped(x, upTo)), x,
                      s.sessions[x].(shipped := s.sessions[x].shipped + multiset(ids)))
      else Go(s, t, ExtendExit(x, false, upTo))
    case Shipped(x, upTo) => SetSession(Go(s, t, ExtendExit(x, true, upTo)), x, s.sessions[x].(last := upTo))
    case ExtendExit(x, ok, seen) => SetSession(Go(s, t, ExtendDone(x, ok, seen)), x, s.sessions[x].(lock := None))
    case _ => s
  }

  lemma {:induction false} CanAct(s: State, t: nat)
    requires t in s.threads && !IsDone(s.threads[t].pc)
    requires (HoldsSession(s.threads[t].pc) || s.threads[t].pc.ExtendLocked? ==> s.threads[t].pc.session in s.sessions)
    requires BeforeGraph(s.threads[t].pc) ==> s.graphLock.None?
    requires s.threads[t].pc.ExtendLocked? ==> s.sessions[s.threads[t].pc.session].lock.None?
    ensures Act(s, SomeAction(s, t), t)
  {
    hide Ops;
  }

  /** The lock order cannot deadlock: while a call is unfinished, some call can act. */
  lemma {:induction false} NoDeadlock(states: seq<State>, i: nat, t: nat)
    requires Behavior(states) && i < |states|
    requires t in states[i].threads && !IsDone(states[i].threads[t].pc)
    ensures exists s', u: nat :: Act(states[i], s', u)
  {
    hide Act, SomeAction;
    ReachableInv(states, i);
    var s := states[i];
    var g := if s.graphLock.Some? then s.graphLock.value else t;
    var u := if s.threads[g].pc.ExtendLocked? && s.sessions[s.threads[g].pc.session].lock.Some?
             then s.sessions[s.threads[g].pc.session].lock.value else g;
    CanAct(s, u);
  }
}
