/** A lock that threads take and release, for any kind of thread. */
module Locks {
  import opened Collections

  /** Exactly the thread the lock names is at a point where it holds the lock. */
  ghost predicate HeldOnce<P(!new)>(threads: map<nat, P>, lock: Option<nat>, holds: P -> bool) {
    && (forall t :: t in threads && holds(threads[t]) ==> lock == Some(t))
    && (lock.Some? ==> lock.value in threads && holds(threads[lock.value]))
  }

  /** Thread t leaves the lock alone, takes a free one or releases its own. */
  ghost predicate LockMoves<P(!new)>(threads: map<nat, P>, lock: Option<nat>, threads': map<nat, P>,
                                     lock': Option<nat>, t: nat, holds: P -> bool) {
    && t in threads' && threads' == threads[t := threads'[t]]
    && var before, after := t in threads && holds(threads[t]), holds(threads'[t]);
    || (lock' == lock && before == after)
    || (lock.None? && lock' == Some(t) && after)
    || (before && lock'.None? && !after)
  }

  lemma {:induction false} MovesKeepHeldOnce<P(!new)>(threads: map<nat, P>, lock: Option<nat>, threads': map<nat, P>,
                                                      lock': Option<nat>, t: nat, holds: P -> bool)
    requires HeldOnce(threads, lock, holds) && LockMoves(threads, lock, threads', lock', t, holds)
    ensures HeldOnce(threads', lock', holds)
  {
  }
}
