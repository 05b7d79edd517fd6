/** Who frees a TF_Graph: TF_DeleteGraph, TF_NewSession and TF_DeleteSession of tensorflow/c/c_api.cc.
    Every call is a thread; what it does under graph->mu is one step, and freeing comes after the
    mutex is released. */
module GraphLifetime {
  import opened Collections
  import opened Locks

  datatype Call = NewSession(session: nat) | DeleteGraph | DeleteSession(session: nat)

  /** Where a call is. Decided holds the mutex; Unlocked has released it and frees the graph if del. */
  datatype Pc = Want | Locked | Registered | Decided(del: bool) | Unlocked(del: bool) | Freed | Done

  datatype Thread = Thread(call: Call, pc: Pc)

  /** `sessions` and `requested` are fields of the graph. `frees`: how often it was freed. */
  datatype State = State(threads: map<nat, Thread>, mutex: Option<nat>, sessions: set<nat>, requested: bool,
                         frees: nat)

  ghost predicate Init(s: State) {
    s == State(map[], None, {}, false, 0)
  }

  function Go(s: State, t: nat, pc: Pc): State
    requires t in s.threads
  {
    s.(threads := s.threads[t := s.threads[t].(pc := pc)])
  }

  // ---- The calls made so far ----

  ghost predicate Called(s: State, call: Call) {
    exists t :: t in s.threads && s.threads[t].call == call
  }

  /** TF_NewSession has returned session x. */
  ghost predicate Created(s: State, x: nat) {
    exists t :: t in s.threads && s.threads[t] == Thread(NewSession(x), Done)
  }

  /** A deletion that has done its work under the mutex. */
  predicate Past(pc: Pc) {
    pc.Decided? || pc.Unlocked? || pc.Freed? || pc.Done?
  }

  /** The deletion asked for has been carried out. */
  ghost predicate CarriedOut(s: State, call: Call) {
    exists t :: t in s.threads && s.threads[t].call == call && Past(s.threads[t].pc)
  }

  /** What callers may do: create sessions until they delete the graph, once every creation has
      returned, and delete each session they got once. */
  ghost predicate MayCall(s: State, call: Call) {
    && !Called(s, call)
    && match call
       case NewSession(_) => !Called(s, DeleteGraph)
       case DeleteGraph => forall t :: t in s.threads && s.threads[t].call.NewSession? ==> s.threads[t].pc.Done?
       case DeleteSession(x) => Created(s, x)
  }

  ghost predicate Start(s: State, s': State, t: nat) {
    t !in s.threads
    && exists call :: MayCall(s, call) && s' == s.(threads := s.threads[t := Thread(call, Want)])
  }

  /** Lines 2577-2592, 1944-1951 and 2661-2674. */
  ghost predicate Act(s: State, s': State, t: nat) {
    t in s.threads &&
    match s.threads[t].pc
    case Want => s.mutex.None? && s' == Go(s, t, Locked).(mutex := Some(t))
    case Locked => s' == Work(s, t)
    case Registered => s' == Go(s, t, Done).(mutex := None)
    case Decided(del) => s' == Go(s, t, Unlocked(del)).(mutex := None)
    case Unlocked(del) => s' == if del then Go(s, t, Freed).(frees := s.frees + 1) else Go(s, t, Done)
    case Freed => false
    case Done => false
  }

  /** What a call does under the mutex. */
  ghost function Work(s: State, t: nat): State
    requires t in s.threads
  {
    match s.threads[t].call
    case NewSession(x) => Go(s, t, Registered).(sessions := s.sessions + {x})
    case DeleteGraph => Go(s, t, Decided(s.sessions == {})).(requested := true)
    case DeleteSession(x) =>
      var left := s.sessions - {x};
      Go(s, t, Decided(s.requested && left == {})).(sessions := left)
  }

  ghost predicate Next(s: State, s': State) {
    exists t: nat :: Start(s, s', t) || Act(s, s', t)
  }

  ghost predicate Behavior(states: seq<State>) {
    states != [] && Init(states[0]) && forall i :: 0 <= i < |states| - 1 ==> Next(states[i], states[i + 1])
  }

  // ---- What every step keeps ----

  predicate HoldsMutex(th: Thread) {
    th.pc.Locked? || th.pc.Registered? || th.pc.Decided?
  }

  /** Chosen to free the graph. */
  predicate Chosen(pc: Pc) {
    (pc.Decided? && pc.del) || (pc.Unlocked? && pc.del) || pc.Freed?
  }

  /** Will still take the mutex or hold it, that is, touch the graph. */
  predicate UsesGraph(th: Thread) {
    th.pc.Want? || HoldsMutex(th)
  }

  ghost predicate MutexInv(s: State) {
    HeldOnce(s.threads, s.mutex, HoldsMutex)
  }

  predicate Fits(th: Thread) {
    if th.call.NewSession? then th.pc.Want? || th.pc.Locked? || th.pc.Registered? || th.pc.Done?
    else !th.pc.Registered?
  }

  /** No call is made twice, sessions are deleted after they were created, and none is being created
      once the graph is to be deleted. */
  ghost predicate CallsInv(s: State) {
    && (forall t :: t in s.threads ==> Fits(s.threads[t]))
    && (forall t, u :: t in s.threads && u in s.threads && s.threads[t].call == s.threads[u].call ==> t == u)
    && (forall t :: t in s.threads && s.threads[t].call.DeleteSession? ==> Created(s, s.threads[t].call.session))
    && (Called(s, DeleteGraph) ==>
          forall t :: t in s.threads && s.threads[t].call.NewSession? ==> s.threads[t].pc.Done?)
  }

  ghost predicate IsRegistered(s: State, x: nat) {
    exists t :: t in s.threads && s.threads[t].call == NewSession(x)
                && (s.threads[t].pc.Registered? || s.threads[t].pc.Done?)
  }

  /** The graph's fields record the calls. */
  ghost predicate RegistryInv(s: State) {
    && (s.requested <==> CarriedOut(s, DeleteGraph))
    && (forall x: nat :: x in s.sessions <==> IsRegistered(s, x) && !CarriedOut(s, DeleteSession(x)))
  }

  ghost predicate HasChosen(s: State) {
    exists t :: t in s.threads && Chosen(s.threads[t].pc)
  }

  ghost predicate ChosenInv(s: State) {
    && (s.requested && s.sessions == {} <==> HasChosen(s))
    && (forall t, u :: t in s.threads && u in s.threads && Chosen(s.threads[t].pc) && Chosen(s.threads[u].pc) ==>
        t == u)
    && (s.frees == 0 <==> forall t :: t in s.threads ==> !s.threads[t].pc.Freed?)
    && s.frees <= 1
  }

  /** Once a call is chosen, no other call touches the graph. */
  ghost predicate AloneInv(s: State) {
    forall t, u :: t in s.threads && u in s.threads && t != u && Chosen(s.threads[t].pc) ==> !UsesGraph(s.threads[u])
  }

  ghost predicate Inv(s: State) {
    MutexInv(s) && CallsInv(s) && RegistryInv(s) && ChosenInv(s) && AloneInv(s)
  }

  // ---- The mutex ----

  lemma {:induction false} MutexMoves(s: State, s': State, t: nat)
    requires Start(s, s', t) || Act(s, s', t)
    ensures LockMoves(s.threads, s.mutex, s'.threads, s'.mutex, t, HoldsMutex)
  {
    hide MayCall;
  }

  lemma {:induction false} StepKeepsMutex(s: State, s': State, t: nat)
    requires MutexInv(s) && (Start(s, s', t) || Act(s, s', t))
    ensures MutexInv(s')
  {
    MutexMoves(s, s', t);
    MovesKeepHeldOnce(s.threads, s.mutex, s'.threads, s'.mutex, t, HoldsMutex);
  }

  // ---- The calls ----

  /** A step either starts a permitted call or moves one call on. */
  ghost predicate Moves(s: State, s': State, t: nat) {
    && t in s'.threads && s'.threads == s.threads[t := s'.threads[t]]
    && (t in s.threads ==> s'.threads[t].call == s.threads[t].call)
    && (t !in s.threads ==> s'.threads[t].pc.Want? && MayCall(s, s'.threads[t].call))
    && (t in s.threads && Fits(s.threads[t]) ==> Fits(s'.threads[t]))
    && (t in s.threads ==> !s.threads[t].pc.Done? && !s'.threads[t].pc.Want?)
    && (t in s.threads && Past(s.threads[t].pc) ==> Past(s'.threads[t].pc))
    && (t in s.threads && s.threads[t].pc.Registered? ==> s'.threads[t].pc.Done?)
  }

  lemma {:induction false} StepMoves(s: State, s': State, t: nat)
    requires Start(s, s', t) || Act(s, s', t)
    ensures Moves(s, s', t)
  {
    hide MayCall;
  }

  lemma {:induction false} CalledStays(s: State, s': State, t: nat, call: Call)
    requires Moves(s, s', t)
    ensures Called(s', call) <==> Called(s, call) || s'.threads[t].call == call
    ensures CarriedOut(s, call) ==> CarriedOut(s', call)
    ensures call.NewSession? && Created(s, call.session) ==> Created(s', call.session)
  {
    hide MayCall, Fits;
    if u :| u in s.threads && s.threads[u].call == call {
      assert s'.threads[u].call == call;
    }
    if u :| u in s.threads && s.threads[u].call == call && Past(s.threads[u].pc) {
      assert s'.threads[u].call == call && Past(s'.threads[u].pc);
    }
    if call.NewSession? && Created(s, call.session) {
      var u :| u in s.threads && s.threads[u] == Thread(call, Done);
      assert u != t && s'.threads[u] == Thread(call, Done);
    }
  }

  lemma {:induction false} StepKeepsCalls(s: State, s': State, t: nat)
    requires CallsInv(s) && Moves(s, s', t)
    ensures CallsInv(s')
  {
    var call := s'.threads[t].call;
    forall u | u in s'.threads && s'.threads[u].call.DeleteSession?
      ensures Created(s', s'.threads[u].call.session)
    {
      CalledStays(s, s', t, NewSession(s'.threads[u].call.session));
    }
    forall u | u in s.threads && u != t ensures s.threads[u].call != call {
      if t !in s.threads {
        assert !Called(s, call);
      }
    }
    CalledStays(s, s', t, DeleteGraph);
    if Called(s', DeleteGraph) {
      forall u | u in s'.threads && s'.threads[u].call.NewSession? ensures s'.threads[u].pc.Done? {
        if u != t {
          assert s.threads[u].pc.Done?;
        }
      }
    }
  }

  // ---- The registry ----

  lemma {:induction false} RegisteredIff(s: State, s': State, t: nat, x: nat)
    requires CallsInv(s) && CallsInv(s') && Moves(s, s', t)
    ensures IsRegistered(s', x) <==>
              || IsRegistered(s, x)
              || (s'.threads[t].call == NewSession(x) && (s'.threads[t].pc.Registered? || s'.threads[t].pc.Done?))
  {
    hide MayCall;
    if u :| u in s.threads && s.threads[u].call == NewSession(x)
            && (s.threads[u].pc.Registered? || s.threads[u].pc.Done?) {
      assert s'.threads[u].call == NewSession(x);
      assert Fits(s'.threads[u]) && (u != t || !s'.threads[t].pc.Want?);
    }
  }

  lemma {:induction false} CarriedOutIff(s: State, s': State, t: nat, call: Call)
    requires Moves(s, s', t)
    ensures CarriedOut(s', call) <==>
              CarriedOut(s, call) || (s'.threads[t].call == call && Past(s'.threads[t].pc))
  {
    CalledStays(s, s', t, call);
  }

  /** Outside the work under the mutex, the graph's fields and what they record stay. */
  lemma {:induction false} OthersLeaveRegistry(s: State, s': State, t: nat)
    requires Start(s, s', t) || (Act(s, s', t) && !s.threads[t].pc.Locked?)
    ensures s'.sessions == s.sessions && s'.requested == s.requested && t in s'.threads
    ensures Past(s'.threads[t].pc) ==> t in s.threads && (Past(s.threads[t].pc) || s.threads[t].pc.Registered?)
    ensures s'.threads[t].pc.Registered? || s'.threads[t].pc.Done? ==>
              t in s.threads && (s.threads[t].pc.Registered? || Past(s.threads[t].pc))
  {
    hide MayCall;
  }

  lemma {:induction false} NotYetDeleted(s: State, t: nat, x: nat)
    requires CallsInv(s) && t in s.threads && s.threads[t].call == NewSession(x) && !s.threads[t].pc.Done?
    ensures !CarriedOut(s, DeleteSession(x))
  {
    assert !Created(s, x);
  }

  lemma {:induction false} WorkKeepsRegistry(s: State, s': State, t: nat)
    requires CallsInv(s) && CallsInv(s') && RegistryInv(s) && Moves(s, s', t)
    requires t in s.threads && s.threads[t].pc.Locked? && s' == Work(s, t)
    ensures RegistryInv(s')
  {
    hide CallsInv, Moves;
    CarriedOutIff(s, s', t, DeleteGraph);
    forall x: nat ensures x in s'.sessions <==> IsRegistered(s', x) && !CarriedOut(s', DeleteSession(x)) {
      RegisteredIff(s, s', t, x);
      CarriedOutIff(s, s', t, DeleteSession(x));
      if s.threads[t].call == NewSession(x) {
        NotYetDeleted(s, t, x);
      }
      hide IsRegistered, CarriedOut;
    }
  }

  lemma {:induction false} RestKeepsRegistry(s: State, s': State, t: nat)
    requires CallsInv(s) && CallsInv(s') && RegistryInv(s) && Moves(s, s', t)
    requires Start(s, s', t) || (Act(s, s', t) && !s.threads[t].pc.Locked?)
    ensures RegistryInv(s')
  {
    OthersLeaveRegistry(s, s', t);
    assert t in s.threads ==> Fits(s.threads[t]);
    hide Start, Act, CallsInv;
    CarriedOutIff(s, s', t, DeleteGraph);
    forall x: nat ensures x in s'.sessions <==> IsRegistered(s', x) && !CarriedOut(s', DeleteSession(x)) {
      RegisteredIff(s, s', t, x);
      CarriedOutIff(s, s', t, DeleteSession(x));
    }
  }

  lemma {:induction false} StepKeepsRegistry(s: State, s': State, t: nat)
    requires CallsInv(s) && CallsInv(s') && RegistryInv(s) && Moves(s, s', t)
    requires Start(s, s', t) || Act(s, s', t)
    ensures RegistryInv(s')
  {
    if Act(s, s', t) && s.threads[t].pc.Locked? {
      WorkKeepsRegistry(s, s', t);
    } else {
      RestKeepsRegistry(s, s', t);
    }
  }

  // ---- The one that frees the graph ----

  /** A chosen call has seen the request, and no session is left. */
  lemma {:induction false} ChosenStays(s: State, s': State, t: nat, c: nat)
    requires Inv(s) && (Start(s, s', t) || Act(s, s', t)) && c in s.threads && Chosen(s.threads[c].pc)
    ensures c in s'.threads && Chosen(s'.threads[c].pc) && s'.requested && s'.sessions == {}
    ensures t in s'.threads && (t != c ==> !Chosen(s'.threads[t].pc))
    ensures s'.frees == s.frees + if s'.threads[t].pc.Freed? then 1 else 0
    ensures s'.threads[t].pc.Freed? ==> t == c
    ensures t == c ==> !s.threads[c].pc.Freed?
  {
    hide MayCall, MutexInv, CallsInv, RegistryInv;
    assert HasChosen(s);
    assert t in s.threads && t != c ==> !Chosen(s.threads[t].pc) && !UsesGraph(s.threads[t]);
  }

  /** Otherwise the call that makes the graph unused is chosen. */
  lemma {:induction false} ChosenAppears(s: State, s': State, t: nat)
    requires Inv(s) && (Start(s, s', t) || Act(s, s', t)) && !HasChosen(s)
    ensures t in s'.threads && (s'.requested && s'.sessions == {} <==> Chosen(s'.threads[t].pc))
    ensures s'.frees == s.frees && !s'.threads[t].pc.Freed?
  {
    hide MayCall, MutexInv, CallsInv, RegistryInv, AloneInv;
    assert t in s.threads ==> !Chosen(s.threads[t].pc);
  }

  lemma {:induction false} StepKeepsChosen(s: State, s': State, t: nat)
    requires Inv(s) && (Start(s, s', t) || Act(s, s', t))
    ensures ChosenInv(s')
  {
    MutexMoves(s, s', t);
    assert t in s'.threads && s'.threads == s.threads[t := s'.threads[t]];
    hide Start, Act, MutexInv, CallsInv, RegistryInv, AloneInv, ChosenInv, LockMoves;
    if HasChosen(s) {
      var c :| c in s.threads && Chosen(s.threads[c].pc);
      ChosenStays(s, s', t, c);
      hide HasChosen;
      SameChosen(s, s', t, c);
    } else {
      hide HasChosen;
      ChosenAppears(s, s', t);
      NoneElseChosen(s, s', t);
    }
  }

  lemma {:induction false} SameChosen(s: State, s': State, t: nat, c: nat)
    requires ChosenInv(s) && t in s'.threads && s'.threads == s.threads[t := s'.threads[t]]
    requires c in s.threads && Chosen(s.threads[c].pc) && Chosen(s'.threads[c].pc) && s'.requested && s'.sessions == {}
    requires t != c ==> !Chosen(s'.threads[t].pc)
    requires s'.frees == s.frees + if s'.threads[t].pc.Freed? then 1 else 0
    requires s'.threads[t].pc.Freed? ==> t == c
    requires t == c ==> !s.threads[c].pc.Freed?
    ensures ChosenInv(s')
  {
    assert forall u :: u in s.threads && s.threads[u].pc.Freed? ==> Chosen(s.threads[u].pc);
    assert s'.frees > 0 ==> s'.threads[c].pc.Freed?;
    assert HasChosen(s');
  }

  lemma {:induction false} NoneElseChosen(s: State, s': State, t: nat)
    requires ChosenInv(s) && !HasChosen(s) && t in s'.threads && s'.threads == s.threads[t := s'.threads[t]]
    requires s'.requested && s'.sessions == {} <==> Chosen(s'.threads[t].pc)
    requires s'.frees == s.frees && !s'.threads[t].pc.Freed?
    ensures ChosenInv(s')
  {
    assert Chosen(s'.threads[t].pc) ==> HasChosen(s');
  }

  /** In a graph that is to be deleted and has no session, no call is still to do its work. */
  lemma {:induction false} AllWorkIsDone(s: State, u: nat)
    requires CallsInv(s) && RegistryInv(s) && s.requested && s.sessions == {} && u in s.threads
    ensures Past(s.threads[u].pc)
  {
    var call := s.threads[u].call;
    assert CarriedOut(s, DeleteGraph);
    assert Called(s, DeleteGraph);
    if call.DeleteSession? {
      var x := call.session;
      assert Created(s, x);
      assert IsRegistered(s, x);
      assert x !in s.sessions;
    }
  }

  lemma {:induction false} StepKeepsAlone(s: State, s': State, t: nat)
    requires Inv(s) && (Start(s, s', t) || Act(s, s', t))
    requires MutexInv(s') && CallsInv(s') && RegistryInv(s') && ChosenInv(s')
    ensures AloneInv(s')
  {
    StepMoves(s, s', t);
    MutexMoves(s, s', t);
    forall c, u | c in s'.threads && u in s'.threads && c != u && Chosen(s'.threads[c].pc)
      ensures !UsesGraph(s'.threads[u])
    {
      assert HasChosen(s');
      AllWorkIsDone(s', u);
      AllWorkIsDone(s', c);
      hide CallsInv, RegistryInv, MayCall;
      if u == t {
        ChosenBefore(s, s', t, c);
      } else {
        DecidedIsAlone(s, s', t, c, u);
      }
    }
  }

  lemma {:induction false} ChosenBefore(s: State, s': State, t: nat, c: nat)
    requires Inv(s) && (Start(s, s', t) || Act(s, s', t)) && Moves(s, s', t)
    requires c in s.threads && c != t && Chosen(s.threads[c].pc)
    requires Past(s'.threads[t].pc)
    ensures !UsesGraph(s'.threads[t])
  {
    hide MayCall, CallsInv, RegistryInv, MutexInv;
  }

  lemma {:induction false} DecidedIsAlone(s: State, s': State, t: nat, c: nat, u: nat)
    requires Inv(s) && MutexInv(s') && (Start(s, s', t) || Act(s, s', t)) && Moves(s, s', t)
    requires c in s'.threads && u in s.threads && u != t && c != u && Chosen(s'.threads[c].pc)
    requires Past(s.threads[u].pc)
    ensures !UsesGraph(s.threads[u])
  {
    hide MayCall, CallsInv, RegistryInv;
    if c in s.threads && Chosen(s.threads[c].pc) {
    } else {
      assert c == t && HoldsMutex(s.threads[t]);
    }
  }

  lemma {:induction false} ReachableInv(states: seq<State>, i: nat)
    requires Behavior(states) && i < |states|
    ensures Inv(states[i])
  {
    if i > 0 {
      ReachableInv(states, i - 1);
      var s, s' := states[i - 1], states[i];
      assert Next(s, s');
      var t: nat :| Start(s, s', t) || Act(s, s', t);
      StepMoves(s, s', t);
      StepKeepsMutex(s, s', t);
      StepKeepsCalls(s, s', t);
      StepKeepsRegistry(s, s', t);
      StepKeepsChosen(s, s', t);
      StepKeepsAlone(s, s', t);
    }
  }

  // ---- The theorems, on the calls made ----

  /** TF_DeleteGraph has been carried out, and so has the deletion of every session there ever was. */
  ghost predicate IsUnused(s: State) {
    CarriedOut(s, DeleteGraph) && forall x: nat :: Called(s, NewSession(x)) ==> CarriedOut(s, DeleteSession(x))
  }

  lemma {:induction false} UnusedIff(s: State)
    requires Inv(s)
    ensures IsUnused(s) <==> s.requested && s.sessions == {}
  {
    hide MutexInv, ChosenInv, AloneInv;
    if s.requested && s.sessions == {} {
      forall x: nat | Called(s, NewSession(x)) ensures CarriedOut(s, DeleteSession(x)) {
        var t :| t in s.threads && s.threads[t].call == NewSession(x);
        assert CarriedOut(s, DeleteGraph) && Called(s, DeleteGraph);
        assert IsRegistered(s, x);
        assert x !in s.sessions;
      }
    }
    if IsUnused(s) {
      forall x: nat ensures x !in s.sessions {
        if IsRegistered(s, x) {
          assert Called(s, NewSession(x));
        }
      }
    }
  }

  /** In every interleaving the graph is freed at most once.  While TF_NewSession has returned a session
      whose deletion is not carried out, or the graph's own is not, it is not freed; once all are, exactly
      one call is chosen to free it, and nobody touches the graph after that. */
  lemma {:induction false} GraphIsFreedOnce(states: seq<State>, i: nat)
    requires Behavior(states) && i < |states|
    ensures var s := states[i];
            && s.frees <= 1
            && (s.frees > 0 ==> CarriedOut(s, DeleteGraph))
            && (forall x: nat :: Created(s, x) && !CarriedOut(s, DeleteSession(x)) ==> s.frees == 0)
            && (IsUnused(s) <==> exists t :: t in s.threads && Chosen(s.threads[t].pc))
            && (forall t, u | t in s.threads && u in s.threads ::
                  Chosen(s.threads[t].pc) && Chosen(s.threads[u].pc) ==> t == u)
            && (s.frees > 0 ==> forall t :: t in s.threads ==> !UsesGraph(s.threads[t]))
  {
    ReachableInv(states, i);
    var s := states[i];
    UnusedIff(s);
    hide MutexInv, CallsInv, RegistryInv;
    if s.frees > 0 {
      var f :| f in s.threads && s.threads[f].pc.Freed?;
      assert Chosen(s.threads[f].pc);
      assert HasChosen(s);
      forall x: nat | Created(s, x) ensures CarriedOut(s, DeleteSession(x)) {
        assert Called(s, NewSession(x));
      }
      forall t | t in s.threads ensures !UsesGraph(s.threads[t]) {
        if t != f {
          assert !UsesGraph(s.threads[t]);
        }
      }
    }
  }

  /** Nothing leaks: when every call has returned, the graph has been freed iff TF_DeleteGraph was called
      and TF_DeleteSession was called for every session created. */
  lemma {:induction false} GraphIsFreedInTheEnd(states: seq<State>, i: nat)
    requires Behavior(states) && i < |states|
    requires forall t :: t in states[i].threads ==> states[i].threads[t].pc.Done? || states[i].threads[t].pc.Freed?
    ensures states[i].frees ==
              if Called(states[i], DeleteGraph)
                 && forall x: nat :: Called(states[i], NewSession(x)) ==> Called(states[i], DeleteSession(x))
              then 1 else 0
  {
    ReachableInv(states, i);
    var s := states[i];
    UnusedIff(s);
    forall call ensures Called(s, call) <==> CarriedOut(s, call) {
      if t :| t in s.threads && s.threads[t].call == call {
        assert Past(s.threads[t].pc);
      }
    }
    hide MutexInv, CallsInv, RegistryInv, AloneInv;
    if s.requested && s.sessions == {} {
      var t :| t in s.threads && Chosen(s.threads[t].pc);
      assert s.threads[t].pc.Freed?;
    } else {
      assert forall t :: t in s.threads ==> !Chosen(s.threads[t].pc);
    }
  }

  /** A call waits for nothing but the mutex. */
  lemma {:induction false} CanAct(s: State, t: nat)
    requires t in s.threads && !s.threads[t].pc.Done? && !s.threads[t].pc.Freed?
    requires s.threads[t].pc.Want? ==> s.mutex.None?
    ensures exists s' :: Act(s, s', t)
  {
    var next := match s.threads[t].pc
      case Want => Go(s, t, Locked).(mutex := Some(t))
      case Locked => Work(s, t)
      case Registered => Go(s, t, Done).(mutex := None)
      case Decided(del) => Go(s, t, Unlocked(del)).(mutex := None)
      case Unlocked(del) => if del then Go(s, t, Freed).(frees := s.frees + 1) else Go(s, t, Done)
      case _ => s;
    assert Act(s, next, t);
  }

  /** While a call has not returned, some call can act. */
  lemma {:induction false} NoDeadlock(states: seq<State>, i: nat, t: nat)
    requires Behavior(states) && i < |states| && t in states[i].threads
    requires !states[i].threads[t].pc.Done? && !states[i].threads[t].pc.Freed?
    ensures exists s', u: nat :: Act(states[i], s', u)
  {
    ReachableInv(states, i);
    var s := states[i];
    CanAct(s, if s.mutex.Some? then s.mutex.value else t);
  }
}
