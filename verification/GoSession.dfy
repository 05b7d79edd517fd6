/** Run, PartialRun.Run, NewPartialRun and Close of tensorflow/go/session.go as a concurrent protocol.
    Every call is a thread; a step is one action on the shared mutex, WaitGroup, handle or C session.
    The three running calls follow the same protocol and differ only in the C function they call. */
module GoSession {
  import opened Collections
  import opened Locks

  datatype CloseResult = Closed | AlreadyClosed | Failed

  /** Where a call is. InCall records whether the handle it uses was not nil, CloseReturned whether
      TF_CloseSession succeeded, and the last pcs what the call returned. */
  datatype Pc =
    | RunWant | RunLocked | RunClosed | RunAdded | RunReady | InCall(handle: bool) | RunReturned
    | RunDone(refused: bool)
    | CloseWant | CloseWaiting | CloseChecked | Closing | CloseReturned(ok: bool) | Deleted
    | CloseExit(result: CloseResult) | CloseDone(result: CloseResult)

  /** `open`: s.c is not nil. `deletions`: how often the C session was deleted. */
  datatype State = State(threads: map<nat, Pc>, mutex: Option<nat>, wg: int, open: bool, deletions: nat)

  ghost predicate Init(s: State) {
    s == State(map[], None, 0, true, 0)
  }

  function Go(s: State, t: nat, pc: Pc): State {
    s.(threads := s.threads[t := pc])
  }

  /** A new call. */
  ghost predicate Start(s: State, s': State, t: nat) {
    t !in s.threads && (s' == Go(s, t, RunWant) || s' == Go(s, t, CloseWant))
  }

  /** One action of thread t: lines 133-158, 182-206 and 245-267 for runs, 271-286 for Close. */
  ghost predicate Act(s: State, s': State, t: nat) {
    t in s.threads &&
    match s.threads[t]
    case RunWant => s.mutex.None? && s' == Go(s, t, RunLocked).(mutex := Some(t))
    case RunLocked => s' == if s.open then Go(s, t, RunAdded).(wg := s.wg + 1) else Go(s, t, RunClosed)
    case RunClosed => s' == Go(s, t, RunDone(true)).(mutex := None)
    case RunAdded => s' == Go(s, t, RunReady).(mutex := None)
    case RunReady => s' == Go(s, t, InCall(s.open))
    case InCall(_) => s' == Go(s, t, RunReturned)
    case RunReturned => s' == Go(s, t, RunDone(false)).(wg := s.wg - 1)
    case CloseWant => s.mutex.None? && s' == Go(s, t, CloseWaiting).(mutex := Some(t))
    case CloseWaiting => s.wg == 0 && s' == Go(s, t, CloseChecked)
    case CloseChecked => s' == if s.open then Go(s, t, Closing) else Go(s, t, CloseExit(AlreadyClosed))
    case Closing => s' == Go(s, t, CloseReturned(true)) || s' == Go(s, t, CloseReturned(false))
    case CloseReturned(ok) =>
      s' == if ok then Go(s, t, Deleted).(deletions := s.deletions + 1) else Go(s, t, CloseExit(Failed))
    case Deleted => s' == Go(s, t, CloseExit(Closed)).(open := false)
    case CloseExit(r) => s' == Go(s, t, CloseDone(r)).(mutex := None)
    case RunDone(_) => false
    case CloseDone(_) => false
  }

  predicate Done(pc: Pc) {
    pc.RunDone? || pc.CloseDone?
  }

  ghost predicate Next(s: State, s': State) {
    exists t: nat :: Start(s, s', t) || Act(s, s', t)
  }

  ghost predicate Behavior(states: seq<State>) {
    states != [] && Init(states[0]) && forall i :: 0 <= i < |states| - 1 ==> Next(states[i], states[i + 1])
  }

  // ---- What every step keeps ----

  predicate HoldsMutex(pc: Pc) {
    pc.RunLocked? || pc.RunClosed? || pc.RunAdded? || pc.CloseWaiting? || Exclusive(pc)
  }

  /** After the wait, until the mutex is released. */
  predicate Exclusive(pc: Pc) {
    pc.CloseChecked? || pc.Closing? || pc.CloseReturned? || pc.Deleted? || pc.CloseExit?
  }

  /** Between wg.Add and wg.Done. */
  predicate InFlight(pc: Pc) {
    pc.RunAdded? || pc.RunReady? || pc.InCall? || pc.RunReturned?
  }

  ghost function Running(s: State): set<nat> {
    set t | t in s.threads && InFlight(s.threads[t])
  }

  /** The call saw that the session is deleted, or deleted it. */
  predicate SawClosed(pc: Pc) {
    || pc.RunClosed? || (pc.RunDone? && pc.refused)
    || ((pc.CloseExit? || pc.CloseDone?) && !pc.result.Failed?)
  }

  /** The C session is there for every thread that uses it or is about to, and gone for those that found
      it gone. */
  ghost predicate Safe(s: State, pc: Pc) {
    && (InFlight(pc) || pc.Closing? || pc.CloseReturned? ==> s.open && s.deletions == 0)
    && (pc == CloseExit(Failed) ==> s.open && s.deletions == 0)
    && (pc.InCall? ==> pc.handle)
    && (pc.Deleted? ==> s.open && s.deletions == 1)
    && (SawClosed(pc) ==> !s.open && s.deletions == 1)
  }

  ghost predicate MutexInv(s: State) {
    HeldOnce(s.threads, s.mutex, HoldsMutex)
  }

  ghost predicate WaitInv(s: State) {
    forall t :: t in s.threads && Exclusive(s.threads[t]) ==> s.wg == 0
  }

  ghost predicate SafeInv(s: State) {
    forall t :: t in s.threads ==> Safe(s, s.threads[t])
  }

  ghost predicate DeletionInv(s: State)
    requires MutexInv(s)
  {
    s.deletions == if s.open && !(s.mutex.Some? && s.threads[s.mutex.value].Deleted?) then 0 else 1
  }

  ghost predicate Inv(s: State) {
    MutexInv(s) && s.wg == |Running(s)| && WaitInv(s) && SafeInv(s) && DeletionInv(s)
  }

  lemma {:induction false} RunningChanges(s: State, s': State, t: nat)
    requires t in s'.threads && s'.threads == s.threads[t := s'.threads[t]]
    ensures t in Running(s) <==> t in s.threads && InFlight(s.threads[t])
    ensures var before, after := t in s.threads && InFlight(s.threads[t]), InFlight(s'.threads[t]);
            |Running(s')| == |Running(s)| + (if after then 1 else 0) - (if before then 1 else 0)
  {
    if InFlight(s'.threads[t]) {
      assert Running(s') == Running(s) + {t};
    } else {
      assert Running(s') == Running(s) - {t};
    }
  }

  lemma {:induction false} NobodyRuns(s: State)
    requires |Running(s)| == 0
    ensures forall t :: t in s.threads ==> !InFlight(s.threads[t])
  {
    assert Running(s) == {};
    assert forall t :: t in s.threads && InFlight(s.threads[t]) ==> t in Running(s);
  }

  lemma {:induction false} StepKeepsMutex(s: State, s': State, t: nat)
    requires MutexInv(s) && (Start(s, s', t) || Act(s, s', t))
    ensures MutexInv(s')
  {
    MutexMoves(s, s', t);
    MovesKeepHeldOnce(s.threads, s.mutex, s'.threads, s'.mutex, t, HoldsMutex);
  }

  predicate IsRun(pc: Pc) {
    pc.RunWant? || pc.RunLocked? || pc.RunClosed? || pc.RunDone? || InFlight(pc)
  }

  lemma {:induction false} RunMovesMutex(s: State, s': State, t: nat)
    requires Act(s, s', t) && IsRun(s.threads[t])
    ensures LockMoves(s.threads, s.mutex, s'.threads, s'.mutex, t, HoldsMutex)
  {
  }

  lemma {:induction false} CloseMovesMutex(s: State, s': State, t: nat)
    requires Act(s, s', t) && !IsRun(s.threads[t])
    ensures LockMoves(s.threads, s.mutex, s'.threads, s'.mutex, t, HoldsMutex)
  {
  }

  lemma {:induction false} MutexMoves(s: State, s': State, t: nat)
    requires Start(s, s', t) || Act(s, s', t)
    ensures LockMoves(s.threads, s.mutex, s'.threads, s'.mutex, t, HoldsMutex)
  {
    if Start(s, s', t) {
      hide Act;
    } else {
      assert t in s.threads;
      hide Act, LockMoves, IsRun;
      if IsRun(s.threads[t]) {
        RunMovesMutex(s, s', t);
      } else {
        CloseMovesMutex(s, s', t);
      }
    }
  }

  /** The counter moves with the set of runs in flight. */
  ghost predicate RunningMoves(s: State, s': State, t: nat) {
    && t in s'.threads && s'.threads == s.threads[t := s'.threads[t]]
    && var before, after := t in s.threads && InFlight(s.threads[t]), InFlight(s'.threads[t]);
    s'.wg == s.wg + (if after then 1 else 0) - (if before then 1 else 0)
  }

  lemma {:induction false} RunMovesRunning(s: State, s': State, t: nat)
    requires Act(s, s', t) && (InFlight(s.threads[t]) || s.threads[t].RunLocked?)
    ensures RunningMoves(s, s', t)
  {
  }

  lemma {:induction false} StepMovesRunning(s: State, s': State, t: nat)
    requires Start(s, s', t) || Act(s, s', t)
    ensures RunningMoves(s, s', t)
  {
    if t in s.threads && (InFlight(s.threads[t]) || s.threads[t].RunLocked?) {
      RunMovesRunning(s, s', t);
    } else {
      assert s'.wg == s.wg;
    }
  }

  lemma {:induction false} StepKeepsCount(s: State, s': State, t: nat)
    requires MutexInv(s) && s.wg == |Running(s)| && (Start(s, s', t) || Act(s, s', t))
    ensures s'.wg == |Running(s')|
  {
    StepMovesRunning(s, s', t);
    RunningChanges(s, s', t);
    hide Running, MutexInv, Act, Start;
  }

  lemma {:induction false} StepKeepsWait(s: State, s': State, t: nat)
    requires Inv(s) && (Start(s, s', t) || Act(s, s', t))
    ensures WaitInv(s')
  {
    hide Running, SafeInv, DeletionInv;
    RunningChanges(s, s', t);
    if t in Running(s) {
      assert Running(s) != {};
    }
  }

  /** Only a Close that holds the mutex after its wait changes the session. */
  lemma {:induction false} SessionMoves(s: State, s': State, t: nat)
    requires Start(s, s', t) || Act(s, s', t)
    ensures t in s'.threads && s'.threads == s.threads[t := s'.threads[t]]
    ensures || (s'.open == s.open && s'.deletions == s.deletions)
            || (t in s.threads && Exclusive(s.threads[t]))
  {
  }

  lemma {:induction false} OtherStaysSafe(s: State, s': State, t: nat, u: nat)
    requires Inv(s) && (Start(s, s', t) || Act(s, s', t)) && u != t && u in s'.threads
    ensures Safe(s', s'.threads[u])
  {
    SessionMoves(s, s', t);
    assert Safe(s, s.threads[u]);
    if t in s.threads && Exclusive(s.threads[t]) {
      assert s.wg == 0 && !HoldsMutex(s.threads[u]) && Safe(s, s.threads[t]);
      NobodyRuns(s);
      hide Running, MutexInv, WaitInv, SafeInv;
    } else {
      hide Start, Act, Running;
    }
  }

  lemma {:induction false} RunStaysSafe(s: State, s': State, t: nat)
    requires Inv(s) && Act(s, s', t) && IsRun(s.threads[t])
    ensures Safe(s', s'.threads[t])
  {
    hide Running, WaitInv;
    assert Safe(s, s.threads[t]);
    assert HoldsMutex(s.threads[t]) ==> s.mutex == Some(t);
  }

  lemma {:induction false} CloseStaysSafe(s: State, s': State, t: nat)
    requires Inv(s) && Act(s, s', t) && !IsRun(s.threads[t])
    ensures Safe(s', s'.threads[t])
  {
    hide Running, WaitInv;
    assert Safe(s, s.threads[t]);
    assert HoldsMutex(s.threads[t]) ==> s.mutex == Some(t);
  }

  lemma {:induction false} StepKeepsSafe(s: State, s': State, t: nat)
    requires Inv(s) && (Start(s, s', t) || Act(s, s', t))
    ensures SafeInv(s')
  {
    SessionMoves(s, s', t);
    if Start(s, s', t) {
      assert Safe(s', s'.threads[t]);
    }
    hide Inv, Safe, IsRun, Start, Act;
    forall u | u in s'.threads ensures Safe(s', s'.threads[u]) {
      if u != t {
        OtherStaysSafe(s, s', t, u);
      } else if !Start(s, s', t) {
        ActorStaysSafe(s, s', t);
      }
    }
  }

  lemma {:induction false} ActorStaysSafe(s: State, s': State, t: nat)
    requires Inv(s) && Act(s, s', t)
    ensures t in s'.threads && Safe(s', s'.threads[t])
  {
    assert t in s.threads;
    hide Inv, Safe, IsRun, Act;
    SessionMoves(s, s', t);
    if IsRun(s.threads[t]) {
      RunStaysSafe(s, s', t);
    } else {
      CloseStaysSafe(s, s', t);
    }
  }

  lemma {:induction false} StepKeepsDeletions(s: State, s': State, t: nat)
    requires Inv(s) && (Start(s, s', t) || Act(s, s', t)) && MutexInv(s')
    ensures DeletionInv(s')
  {
    hide Running, WaitInv;
  }

  lemma {:induction false} NextKeepsInv(s: State, s': State)
    requires Inv(s) && Next(s, s')
    ensures Inv(s')
  {
    var t: nat :| Start(s, s', t) || Act(s, s', t);
    StepKeepsMutex(s, s', t);
    StepKeepsCount(s, s', t);
    StepKeepsWait(s, s', t);
    StepKeepsSafe(s, s', t);
    StepKeepsDeletions(s, s', t);
  }

  lemma {:induction false} ReachableInv(states: seq<State>, i: nat)
    requires Behavior(states) && i < |states|
    ensures Inv(states[i])
  {
    if i > 0 {
      ReachableInv(states, i - 1);
      NextKeepsInv(states[i - 1], states[i]);
    }
  }

  /** In every interleaving: a C call only ever has a session that exists, the session is deleted at
      most once, and no wg.Add races with a Wait. */
  lemma {:induction false} SessionIsSafe(states: seq<State>, i: nat)
    requires Behavior(states) && i < |states|
    ensures var s := states[i];
            && s.deletions <= 1 && s.wg >= 0
            && (forall t :: t in s.threads && s.threads[t].InCall? ==>
                s.threads[t].handle && s.open && s.deletions == 0)
            && (forall t :: t in s.threads && (s.threads[t].Closing? || s.threads[t].CloseReturned?) ==>
                s.deletions == 0)
            && (forall t, u :: t in s.threads && u in s.threads && s.threads[t].CloseWaiting? ==>
                !s.threads[u].RunLocked?)
  {
    ReachableInv(states, i);
  }

  // ---- What calls return ----

  predicate IsDeleter(pc: Pc) {
    pc.Deleted? || pc == CloseExit(Closed) || pc == CloseDone(Closed)
  }

  ghost predicate HasDeleter(s: State) {
    exists c :: c in s.threads && IsDeleter(s.threads[c])
  }

  /** The session was deleted iff some Close deleted it, and then only that one. */
  ghost predicate DeleterInv(s: State) {
    && (s.deletions > 0 <==> HasDeleter(s))
    && (forall c, d | c in s.threads && d in s.threads :: IsDeleter(s.threads[c]) && IsDeleter(s.threads[d]) ==> c == d)
  }

  /** Only a successful TF_CloseSession is followed by a deletion, and that call remains its author. */
  lemma {:induction false} DeleterMoves(s: State, s': State, t: nat)
    requires Start(s, s', t) || Act(s, s', t)
    ensures t in s'.threads && s'.threads == s.threads[t := s'.threads[t]]
    ensures t in s.threads && IsDeleter(s.threads[t]) ==> IsDeleter(s'.threads[t])
    ensures s'.deletions == s.deletions
            + if IsDeleter(s'.threads[t]) && !(t in s.threads && IsDeleter(s.threads[t])) then 1 else 0
    ensures IsDeleter(s'.threads[t]) && !(t in s.threads && IsDeleter(s.threads[t])) ==>
              t in s.threads && s.threads[t] == CloseReturned(true)
  {
  }

  lemma {:induction false} StepKeepsDeleter(s: State, s': State, t: nat)
    requires Inv(s) && DeleterInv(s) && (Start(s, s', t) || Act(s, s', t))
    ensures DeleterInv(s')
  {
    DeleterMoves(s, s', t);
    if t in s.threads {
      assert Safe(s, s.threads[t]);
    }
    hide Start, Act, MutexInv, WaitInv, SafeInv, DeletionInv, Running;
    if c :| c in s.threads && IsDeleter(s.threads[c]) {
      assert IsDeleter(s'.threads[c]);
    }
  }

  lemma {:induction false} ReachableDeleter(states: seq<State>, i: nat)
    requires Behavior(states) && i < |states|
    ensures DeleterInv(states[i])
  {
    if i > 0 {
      ReachableDeleter(states, i - 1);
      ReachableInv(states, i - 1);
      assert Next(states[i - 1], states[i]);
      hide Behavior, Inv, DeleterInv, Start, Act;
      var t: nat :| Start(states[i - 1], states[i], t) || Act(states[i - 1], states[i], t);
      StepKeepsDeleter(states[i - 1], states[i], t);
    }
  }

  /** Call t is at pc in state k. */
  ghost predicate At(states: seq<State>, k: nat, t: nat, pc: Pc) {
    k < |states| && t in states[k].threads && states[k].threads[t] == pc
  }

  predicate CalledC(pc: Pc) {
    pc.InCall? || pc.RunReturned? || pc == RunDone(false)
  }

  /** Step j is one of thread u, or leaves the thread where it is. */
  lemma {:induction false} StepOf(states: seq<State>, j: nat, t: nat)
    requires Behavior(states) && j + 1 < |states| && t in states[j + 1].threads
    ensures || (t in states[j].threads && states[j].threads[t] == states[j + 1].threads[t])
            || Start(states[j], states[j + 1], t) || Act(states[j], states[j + 1], t)
  {
    assert Next(states[j], states[j + 1]);
    var u: nat :| Start(states[j], states[j + 1], u) || Act(states[j], states[j + 1], u);
    DeleterMoves(states[j], states[j + 1], u);
    hide Start, Act;
  }

  lemma {:induction false} StartsIdle(states: seq<State>, j: nat, t: nat)
    requires Behavior(states) && j < |states| && t in states[j].threads
    ensures j > 0
  {
    hide Next;
  }

  /** Past the check of s.c. */
  predicate RunChecked(pc: Pc) {
    IsRun(pc) && !pc.RunWant? && !pc.RunLocked?
  }

  lemma {:induction false} RunStep(s: State, s': State, t: nat)
    requires Inv(s) && t in s'.threads && RunChecked(s'.threads[t])
    requires Start(s, s', t) || Act(s, s', t)
    ensures t in s.threads && (s.threads[t].RunLocked? || RunChecked(s.threads[t]))
    ensures s.threads[t].RunLocked? ==>
              !CalledC(s'.threads[t]) && s.deletions == if SawClosed(s'.threads[t]) then 1 else 0
    ensures RunChecked(s.threads[t]) ==> SawClosed(s'.threads[t]) == SawClosed(s.threads[t])
    ensures RunChecked(s.threads[t]) && CalledC(s'.threads[t]) ==> CalledC(s.threads[t]) || s'.threads[t].InCall?
  {
    hide Running, WaitInv, SafeInv;
    if t in s.threads && s.threads[t].RunLocked? {
      assert s.mutex == Some(t);
    }
  }

  /** Behind the check of s.c: the moment of the check, and that of the C call if it has been made. */
  lemma {:induction false} RunHistory(states: seq<State>, j: nat, t: nat) returns (i: nat, k: nat)
    requires Behavior(states) && j < |states| && t in states[j].threads
    requires RunChecked(states[j].threads[t])
    ensures i < j && At(states, i, t, RunLocked)
    ensures states[i].deletions == if SawClosed(states[j].threads[t]) then 1 else 0
    ensures CalledC(states[j].threads[t]) ==> i < k <= j && At(states, k, t, InCall(true))
  {
    StartsIdle(states, j, t);
    StepOf(states, j - 1, t);
    ReachableInv(states, j - 1);
    ReachableInv(states, j);
    var before, after := states[j - 1], states[j];
    assert Safe(after, after.threads[t]);
    assert RunChecked(after.threads[t]);
    hide Behavior, Inv, Start, Act, RunChecked, SawClosed, CalledC;
    if t in before.threads && before.threads[t] == after.threads[t] {
      i, k := RunHistory(states, j - 1, t);
    } else {
      RunStep(before, after, t);
      if before.threads[t].RunLocked? {
        i, k := j - 1, j;
      } else {
        i, k := RunHistory(states, j - 1, t);
        if after.threads[t].InCall? {
          k := j;
        }
      }
    }
  }

  /** A run that has returned looked, holding the mutex, whether the session is open.  It was refused iff
      a Close had deleted the session by then; otherwise it called the C function with a live handle. */
  lemma {:induction false} RunsIffOpen(states: seq<State>, j: nat, t: nat)
    requires Behavior(states) && j < |states| && t in states[j].threads && states[j].threads[t].RunDone?
    ensures exists i: nat :: i < j && At(states, i, t, RunLocked)
              && (states[j].threads[t].refused <==> HasDeleter(states[i]))
              && (!states[j].threads[t].refused ==> exists k: nat :: i < k < j && At(states, k, t, InCall(true)))
  {
    var i, k := RunHistory(states, j, t);
    ReachableDeleter(states, i);
    assert !states[j].threads[t].refused ==> k != j;
  }

  /** Past the check of s.c in a Close. */
  predicate CloseLooked(pc: Pc) {
    pc.Closing? || pc.CloseReturned? || pc.Deleted? || pc.CloseExit? || pc.CloseDone?
  }

  predicate Returns(pc: Pc, r: CloseResult) {
    pc == CloseExit(r) || pc == CloseDone(r)
  }

  predicate Succeeds(pc: Pc) {
    IsDeleter(pc) || pc == CloseReturned(true)
  }

  lemma {:induction false} CloseStep(s: State, s': State, c: nat)
    requires Inv(s) && c in s'.threads && CloseLooked(s'.threads[c])
    requires Start(s, s', c) || Act(s, s', c)
    ensures c in s.threads && (s.threads[c].CloseChecked? || CloseLooked(s.threads[c]))
    ensures s.threads[c].CloseChecked? ==>
              && s.deletions == (if Returns(s'.threads[c], AlreadyClosed) then 1 else 0)
              && (s'.threads[c].Closing? || Returns(s'.threads[c], AlreadyClosed))
    ensures CloseLooked(s.threads[c]) ==>
              && Returns(s'.threads[c], AlreadyClosed) == Returns(s.threads[c], AlreadyClosed)
              && (s.threads[c].Closing? ==> s'.threads[c].CloseReturned?)
              && (!s.threads[c].Closing? ==>
                  !s'.threads[c].Closing? && Succeeds(s'.threads[c]) == Succeeds(s.threads[c]))
  {
    hide Running, WaitInv, SafeInv;
    if c in s.threads && s.threads[c].CloseChecked? {
      assert s.mutex == Some(c);
    }
  }

  /** In state j Close c is to return what it saw in state i, holding the mutex, and TF_CloseSession told it
      in state k. */
  ghost predicate CloseSaw(states: seq<State>, i: nat, k: nat, j: nat, c: nat) {
    && i < j < |states| && c in states[j].threads && At(states, i, c, CloseChecked)
    && states[i].deletions == (if Returns(states[j].threads[c], AlreadyClosed) then 1 else 0)
    && (!states[j].threads[c].Closing? && !Returns(states[j].threads[c], AlreadyClosed) ==>
          i < k <= j && At(states, k, c, CloseReturned(Succeeds(states[j].threads[c]))))
  }

  lemma {:induction false} CloseSees(states: seq<State>, j: nat, c: nat)
    requires 0 < j < |states| && c in states[j].threads && CloseLooked(states[j].threads[c]) && Inv(states[j - 1])
    requires Start(states[j - 1], states[j], c) || Act(states[j - 1], states[j], c)
    requires c in states[j - 1].threads && states[j - 1].threads[c].CloseChecked?
    ensures CloseSaw(states, j - 1, j, j, c)
  {
    CloseStep(states[j - 1], states[j], c);
    hide Inv, Start, Act, CloseLooked, Returns;
  }

  lemma {:induction false} CloseRemembers(states: seq<State>, i: nat, k: nat, j: nat, c: nat)
    requires 0 < j < |states| && c in states[j].threads && CloseLooked(states[j].threads[c]) && Inv(states[j - 1])
    requires Start(states[j - 1], states[j], c) || Act(states[j - 1], states[j], c)
    requires CloseSaw(states, i, k, j - 1, c) && CloseLooked(states[j - 1].threads[c])
    ensures CloseSaw(states, i, if states[j - 1].threads[c].Closing? then j else k, j, c)
  {
    CloseStep(states[j - 1], states[j], c);
    hide Inv, Start, Act, CloseLooked, Returns;
  }

  lemma {:induction false} CloseHistory(states: seq<State>, j: nat, c: nat) returns (i: nat, k: nat)
    requires Behavior(states) && j < |states| && c in states[j].threads
    requires CloseLooked(states[j].threads[c])
    ensures CloseSaw(states, i, k, j, c)
  {
    StartsIdle(states, j, c);
    StepOf(states, j - 1, c);
    ReachableInv(states, j - 1);
    hide Behavior, Inv, Start, Act, CloseLooked, Returns;
    if c in states[j - 1].threads && states[j - 1].threads[c] == states[j].threads[c] {
      i, k := CloseHistory(states, j - 1, c);
    } else {
      hide CloseSaw;
      CloseStep(states[j - 1], states[j], c);
      if states[j - 1].threads[c].CloseChecked? {
        i, k := j - 1, j;
        CloseSees(states, j, c);
      } else {
        i, k := CloseHistory(states, j - 1, c);
        CloseRemembers(states, i, k, j, c);
        if states[j - 1].threads[c].Closing? {
          k := j;
        }
      }
    }
  }

  /** Likewise a Close: it returns at once iff the session was deleted before, and otherwise what it returns
      is what TF_CloseSession reported. */
  lemma {:induction false} ClosesOnce(states: seq<State>, j: nat, c: nat)
    requires Behavior(states) && j < |states| && c in states[j].threads && states[j].threads[c].CloseDone?
    ensures var s := states[j]; !s.threads[c].result.Failed? ==> !s.open && s.deletions == 1
    ensures exists i: nat :: i < j && At(states, i, c, CloseChecked)
              && (states[j].threads[c].result.AlreadyClosed? <==> HasDeleter(states[i]))
              && (!states[j].threads[c].result.AlreadyClosed? ==>
                    exists k: nat :: i < k < j && At(states, k, c, CloseReturned(states[j].threads[c].result.Closed?)))
  {
    ReachableInv(states, j);
    assert Safe(states[j], states[j].threads[c]);
    var i, k := CloseHistory(states, j, c);
    ReachableDeleter(states, i);
    assert !states[j].threads[c].result.AlreadyClosed? ==> k != j;
  }

  /** A Close whose TF_CloseSession succeeds deletes the session before it returns. */
  lemma {:induction false} SuccessDeletes(states: seq<State>, k: nat, j: nat, c: nat)
    requires Behavior(states) && k <= j < |states| && At(states, k, c, CloseReturned(true))
    ensures c in states[j].threads && Succeeds(states[j].threads[c])
    ensures states[j].threads[c].CloseDone? ==>
              states[j].threads[c].result.Closed? && !states[j].open && states[j].deletions == 1
  {
    if k < j {
      SuccessDeletes(states, k, j - 1, c);
      assert Next(states[j - 1], states[j]);
      var u: nat :| Start(states[j - 1], states[j], u) || Act(states[j - 1], states[j], u);
      hide Behavior, Start, Act;
      SuccessStays(states[j - 1], states[j], u, c);
    }
    SafeAt(states, j, c);
    hide Behavior;
  }

  lemma {:induction false} SafeAt(states: seq<State>, j: nat, c: nat)
    requires Behavior(states) && j < |states| && c in states[j].threads
    ensures Safe(states[j], states[j].threads[c])
  {
    ReachableInv(states, j);
    hide Behavior;
  }

  lemma {:induction false} SuccessStays(s: State, s': State, u: nat, c: nat)
    requires Start(s, s', u) || Act(s, s', u)
    requires c in s.threads && Succeeds(s.threads[c])
    ensures c in s'.threads && Succeeds(s'.threads[c])
  {
  }

  // ---- Progress ----

  /** Steps a run in flight still has to take. */
  function StepsLeft(pc: Pc): nat {
    match pc
    case RunAdded => 4
    case RunReady => 3
    case InCall(_) => 2
    case RunReturned => 1
    case _ => 0
  }

  ghost function WithLeft(s: State, k: nat): set<nat> {
    set t | t in s.threads && StepsLeft(s.threads[t]) >= k
  }

  /** All steps that runs in flight still have to take. */
  ghost function Work(s: State): nat {
    |WithLeft(s, 1)| + |WithLeft(s, 2)| + |WithLeft(s, 3)| + |WithLeft(s, 4)|
  }

  lemma {:induction false} WithLeftMember(s: State, t: nat, k: nat)
    requires k > 0
    ensures t in WithLeft(s, k) <==> (if t in s.threads then StepsLeft(s.threads[t]) else 0) >= k
  {
  }

  lemma {:induction false} WithLeftUpdated(s: State, s': State, t: nat, k: nat)
    requires t in s'.threads && s'.threads == s.threads[t := s'.threads[t]]
    ensures WithLeft(s', k) == if StepsLeft(s'.threads[t]) >= k then WithLeft(s, k) + {t} else WithLeft(s, k) - {t}
  {
    hide StepsLeft;
  }

  lemma {:induction false} WithLeftChanges(s: State, s': State, t: nat, k: nat)
    requires t in s'.threads && s'.threads == s.threads[t := s'.threads[t]] && k > 0
    ensures var before, after := if t in s.threads then StepsLeft(s.threads[t]) else 0, StepsLeft(s'.threads[t]);
            |WithLeft(s', k)| == |WithLeft(s, k)| + (if after >= k then 1 else 0) - (if before >= k then 1 else 0)
  {
    WithLeftMember(s, t, k);
    WithLeftUpdated(s, s', t, k);
    hide StepsLeft, WithLeft;
  }

  lemma {:induction false} WorkChanges(s: State, s': State, t: nat)
    requires t in s'.threads && s'.threads == s.threads[t := s'.threads[t]]
    ensures Work(s') == Work(s) + StepsLeft(s'.threads[t]) - if t in s.threads then StepsLeft(s.threads[t]) else 0
  {
    hide WithLeft;
    WithLeftChanges(s, s', t, 1);
    WithLeftChanges(s, s', t, 2);
    WithLeftChanges(s, s', t, 3);
    WithLeftChanges(s, s', t, 4);
  }

  lemma {:induction false} NoWorkLeft(s: State)
    requires Inv(s)
    ensures Work(s) == 0 <==> s.wg == 0
  {
    assert WithLeft(s, 1) == Running(s);
    assert WithLeft(s, 2) <= WithLeft(s, 1) && WithLeft(s, 3) <= WithLeft(s, 1) && WithLeft(s, 4) <= WithLeft(s, 1);
    if WithLeft(s, 1) == {} {
      assert WithLeft(s, 2) == WithLeft(s, 3) == WithLeft(s, 4) == {};
    }
  }

  /** The action of a run in flight; it waits for nothing. */
  ghost function Advance(s: State, t: nat): State
    requires t in s.threads && InFlight(s.threads[t])
  {
    match s.threads[t]
    case RunAdded => Go(s, t, RunReady).(mutex := None)
    case RunReady => Go(s, t, InCall(s.open))
    case InCall(_) => Go(s, t, RunReturned)
    case RunReturned => Go(s, t, RunDone(false)).(wg := s.wg - 1)
  }

  /** While a Close waits, it can go on once no work is left; until then some run can act, every step
      of another thread leaves it waiting, and none adds work. */
  lemma {:induction false} WaitingClose(s: State, c: nat)
    requires Inv(s) && c in s.threads && s.threads[c].CloseWaiting?
    ensures Work(s) == 0 ==> Act(s, Go(s, c, CloseChecked), c)
    ensures Work(s) > 0 ==>
            exists t: nat :: t in s.threads && InFlight(s.threads[t]) && Act(s, Advance(s, t), t)
              && Work(Advance(s, t)) < Work(s)
    ensures forall s', t: nat :: t != c && (Start(s, s', t) || Act(s, s', t)) ==>
              c in s'.threads && s'.threads[c].CloseWaiting? && Work(s') <= Work(s)
  {
    hide Work;
    NoWorkLeft(s);
    if Work(s) > 0 {
      var t :| t in Running(s);
      WorkChanges(s, Advance(s, t), t);
      assert Act(s, Advance(s, t), t);
    }
    forall s', t: nat | t != c && (Start(s, s', t) || Act(s, s', t))
      ensures c in s'.threads && s'.threads[c].CloseWaiting? && Work(s') <= Work(s)
    {
      WorkChanges(s, s', t);
    }
  }

  /** From every reachable state the runs in flight can finish and let a waiting Close go on. */
  lemma {:induction false} CloseCanProceed(s: State, c: nat) returns (rest: seq<State>)
    requires Inv(s) && c in s.threads && s.threads[c].CloseWaiting?
    ensures rest != [] && rest[0] == s && |rest| <= Work(s) + 1
    ensures forall i :: 0 <= i < |rest| - 1 ==> Next(rest[i], rest[i + 1])
    ensures var end := rest[|rest| - 1]; c in end.threads && end.threads[c].CloseWaiting? && end.wg == 0
    decreases Work(s)
  {
    hide Inv, Work, Act, Start;
    WaitingClose(s, c);
    NoWorkLeft(s);
    if Work(s) == 0 {
      rest := [s];
    } else {
      var t: nat :| t in s.threads && InFlight(s.threads[t]) && Act(s, Advance(s, t), t)
        && Work(Advance(s, t)) < Work(s);
      var next := Advance(s, t);
      assert Next(s, next);
      NextKeepsInv(s, next);
      var tail := CloseCanProceed(next, c);
      rest := [s] + tail;
    }
  }

  /** No reachable state is deadlocked: while a call is unfinished, some thread can act. */
  lemma {:induction false} NoDeadlock(states: seq<State>, i: nat, t: nat)
    requires Behavior(states) && i < |states|
    requires t in states[i].threads && !Done(states[i].threads[t])
    ensures exists s', u: nat :: Act(states[i], s', u)
  {
    ReachableInv(states, i);
    var s := states[i];
    var u := if s.mutex.Some? then s.mutex.value else t;
    if s.threads[u].CloseWaiting? && s.wg > 0 {
      NoWorkLeft(s);
      WaitingClose(s, u);
      var r: nat :| r in s.threads && InFlight(s.threads[r]) && Act(s, Advance(s, r), r);
    } else {
      CanAct(s, u);
    }
  }

  ghost function SomeAction(s: State, t: nat): State
    requires t in s.threads && !Done(s.threads[t])
  {
    if InFlight(s.threads[t]) then Advance(s, t)
    else
      match s.threads[t]
      case RunWant => Go(s, t, RunLocked).(mutex := Some(t))
      case RunLocked => if s.open then Go(s, t, RunAdded).(wg := s.wg + 1) else Go(s, t, RunClosed)
      case RunClosed => Go(s, t, RunDone(true)).(mutex := None)
      case CloseWant => Go(s, t, CloseWaiting).(mutex := Some(t))
      case CloseWaiting => Go(s, t, CloseChecked)
      case CloseChecked => if s.open then Go(s, t, Closing) else Go(s, t, CloseExit(AlreadyClosed))
      case Closing => Go(s, t, CloseReturned(true))
      case CloseReturned(ok) =>
        if ok then Go(s, t, Deleted).(deletions := s.deletions + 1) else Go(s, t, CloseExit(Failed))
      case Deleted => Go(s, t, CloseExit(Closed)).(open := false)
      case CloseExit(r) => Go(s, t, CloseDone(r)).(mutex := None)
      case _ => s
  }

  /** A thread that does not need a taken mutex or a busy WaitGroup can act. */
  lemma {:induction false} CanAct(s: State, t: nat)
    requires t in s.threads && !Done(s.threads[t])
    requires s.threads[t].RunWant? || s.threads[t].CloseWant? ==> s.mutex.None?
    requires s.threads[t].CloseWaiting? ==> s.wg == 0
    ensures Act(s, SomeAction(s, t), t)
  {
  }
}
