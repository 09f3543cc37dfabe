/** Task manager calls running at the same time: every interleaving of their atomic steps. */
module TaskRuns {
  import opened Options
  import opened TaskManager

  // ---------------------------------------------------------------- threads and events

  /** Where a `CreateTask` or `ExecProcess` call is; `pid` stands for the process it registered. */
  datatype Phase =
    | Arrived
    | Registered(pid: nat)
    | Called(pid: nat)
    | Failing(pid: nat)
    | RollingBack(pid: nat)
    | Finished(ok: bool)

  /** A call in progress. A delete is at the manager once the task service has deleted the process. */
  datatype Thread = Creating(key: Key, phase: Phase) | Deleting(key: Key, atManager: bool)

  /** Processes are numbered in the order of registration. */
  datatype Sys = Sys(
    mgr: Manager<nat>,
    keys: seq<Key>,
    removed: seq<nat>,
    cancelled: set<nat>,
    calls: seq<nat>,
    threads: map<nat, Thread>)

  /** One atomic step; the results of the task service and of the IO initialization are arbitrary. */
  datatype Event =
    | Create(tid: nat, key: Key)
    | Register(tid: nat)
    | CallService(tid: nat, ok: bool)
    | AwaitIO(tid: nat, ok: bool)
    | Cancel(tid: nat)
    | Rollback(tid: nat)
    | Delete(tid: nat, key: Key)
    | ServiceDeleted(tid: nat, ok: bool)
    | DeleteFromManager(tid: nat)
    | Exit(pid: nat)
    | ShutdownIfEmpty

  const START := Sys(Manager(map[], false), [], [], {}, [], map[])

  ghost function Live(s: Sys): map<Key, nat> { Flat(s.mgr) }

  function Move(s: Sys, tid: nat, phase: Phase): Sys
    requires tid in s.threads && s.threads[tid].Creating?
  {
    s.(threads := s.threads[tid := s.threads[tid].(phase := phase)])
  }

  /** `deleteProc` under the mutex. */
  function Take(s: Sys, k: Key): Sys {
    match Lookup(s.mgr, k)
    case None => s
    case Some(pid) => s.(mgr := Remove(s.mgr, k), removed := s.removed + [pid])
  }

  predicate IsCreating(s: Sys, tid: nat) { tid in s.threads && s.threads[tid].Creating? }

  predicate Enabled(s: Sys, e: Event) {
    match e
    case Create(tid, _) => tid !in s.threads
    case Register(tid) => IsCreating(s, tid) && s.threads[tid].phase.Arrived?
    case CallService(tid, _) => IsCreating(s, tid) && s.threads[tid].phase.Registered?
    case AwaitIO(tid, _) => IsCreating(s, tid) && s.threads[tid].phase.Called?
    case Cancel(tid) => IsCreating(s, tid) && s.threads[tid].phase.Failing?
    case Rollback(tid) => IsCreating(s, tid) && s.threads[tid].phase.RollingBack?
    case Delete(tid, _) => tid !in s.threads
    case ServiceDeleted(tid, _) => tid in s.threads && s.threads[tid].Deleting? && !s.threads[tid].atManager
    case DeleteFromManager(tid) => tid in s.threads && s.threads[tid].Deleting? && s.threads[tid].atManager
    case Exit(pid) => pid < |s.keys|
    case ShutdownIfEmpty => true
  }

  function Next(s: Sys, e: Event): Sys
    requires Enabled(s, e)
  {
    match e
    case Create(tid, key) => s.(threads := s.threads[tid := Creating(key, Arrived)])
    case Register(tid) =>
      var key, pid := s.threads[tid].key, |s.keys|;
      if CanAdd(s.mgr, key)
      then Move(s.(mgr := Add(s.mgr, key, pid), keys := s.keys + [key]), tid, Registered(pid))
      else Move(s, tid, Finished(false))
    case CallService(tid, ok) =>
      var pid := s.threads[tid].phase.pid;
      Move(s.(calls := s.calls + [pid]), tid, if ok then Called(pid) else Failing(pid))
    case AwaitIO(tid, ok) =>
      var pid := s.threads[tid].phase.pid;
      Move(s, tid, if ok then Finished(true) else Failing(pid))
    case Cancel(tid) =>
      var pid := s.threads[tid].phase.pid;
      Move(s.(cancelled := s.cancelled + {pid}), tid, RollingBack(pid))
    case Rollback(tid) => Take(Move(s, tid, Finished(false)), s.threads[tid].key)
    case Delete(tid, key) => s.(threads := s.threads[tid := Deleting(key, false)])
    case ServiceDeleted(tid, ok) =>
      if ok then s.(threads := s.threads[tid := s.threads[tid].(atManager := true)])
      else s.(threads := s.threads - {tid})
    case DeleteFromManager(tid) =>
      Take(s.(threads := s.threads - {tid}), s.threads[tid].key)
    case Exit(pid) => s.(cancelled := s.cancelled + {pid})
    case ShutdownIfEmpty => s.(mgr := Shutdown(s.mgr))
  }

  /** The state after a run, if every event of it was possible. */
  function Run(s: Sys, run: seq<Event>): Option<Sys>
    decreases |run|
  {
    if run == [] then Some(s)
    else if Enabled(s, run[0]) then Run(Next(s, run[0]), run[1..])
    else None
  }

  // ---------------------------------------------------------------- the invariant

  ghost predicate IsLive(s: Sys, pid: nat) {
    pid < |s.keys| && s.keys[pid] in Live(s) && Live(s)[s.keys[pid]] == pid
  }

  /** Every registered process is either live, under its own key, or was removed, once. */
  ghost predicate Accounted(s: Sys) {
    && (forall k :: k in Live(s) ==> Live(s)[k] < |s.keys| && s.keys[Live(s)[k]] == k)
    && (forall i :: 0 <= i < |s.removed| ==> s.removed[i] < |s.keys| && !IsLive(s, s.removed[i]))
    && (forall i, j :: 0 <= i < j < |s.removed| ==> s.removed[i] != s.removed[j])
    && (forall p :: 0 <= p < |s.keys| && !IsLive(s, p) ==> p in s.removed)
    && |s.keys| == |s.removed| + |Live(s)|
  }

  function PidOf(p: Phase): Option<nat> {
    match p
    case Registered(pid) => Some(pid)
    case Called(pid) => Some(pid)
    case Failing(pid) => Some(pid)
    case RollingBack(pid) => Some(pid)
    case _ => None
  }

  ghost predicate ThreadOk(s: Sys, t: Thread) {
    t.Creating? ==>
      && (PidOf(t.phase).Some? ==> PidOf(t.phase).value < |s.keys| && s.keys[PidOf(t.phase).value] == t.key)
      && (t.phase.RollingBack? ==> t.phase.pid in s.cancelled)
  }

  ghost predicate Inv(s: Sys) {
    && NoEmptyTask(s.mgr)
    && Accounted(s)
    && (s.mgr.isShutdown ==> Live(s) == map[])
    && ThreadsOk(s)
  }

  ghost predicate ThreadsOk(s: Sys) {
    forall tid :: tid in s.threads ==> ThreadOk(s, s.threads[tid])
  }

  lemma StartInv()
    ensures Inv(START)
  {
    assert Live(START) == map[];
  }

  /** A new process is live under its key; the others are as they were. */
  lemma RegisterAccounted(s: Sys, k: Key)
    requires NoEmptyTask(s.mgr) && Accounted(s) && CanAdd(s.mgr, k)
    ensures var pid := |s.keys|; Accounted(s.(mgr := Add(s.mgr, k, pid), keys := s.keys + [k]))
  {
    hide Flat, CanAdd, Add;
    var pid := |s.keys|;
    var s' := s.(mgr := Add(s.mgr, k, pid), keys := s.keys + [k]);
    AddRefines(s.mgr, k, pid);
    CanAddMeaning(s.mgr, k);
    assert Live(s') == Live(s)[k := pid];
    assert forall p :: 0 <= p < pid ==> (IsLive(s', p) <==> IsLive(s, p));
    assert IsLive(s', pid);
  }

  lemma TakeOne(s: Sys, s': Sys, k: Key, pid: nat)
    requires Accounted(s) && k in Live(s) && Live(s)[k] == pid
    requires s'.keys == s.keys && s'.removed == s.removed + [pid] && Live(s') == Live(s) - {k}
    ensures Accounted(s')
  {
    hide Flat;
    TakeLiveness(s, s', k, pid);
    assert Live(s).Keys == Live(s').Keys + {k};
    assert pid !in s.removed;
    forall p | 0 <= p < |s.keys| && !IsLive(s', p) ensures p in s'.removed {
      if p == pid { assert s'.removed[|s.removed|] == pid; }
    }
    forall i | 0 <= i < |s.removed| ensures s'.removed[i] == s.removed[i] {
    }
  }

  lemma TakeAccounted(s: Sys, k: Key)
    requires NoEmptyTask(s.mgr) && Accounted(s)
    ensures NoEmptyTask(Take(s, k).mgr) && Accounted(Take(s, k))
    ensures Live(Take(s, k)) == Live(s) - {k}
  {
    hide Flat, Lookup, Remove;
    var s' := Take(s, k);
    LookupIsFlat(s.mgr, k);
    RemoveRefines(s.mgr, k);
    if k in Live(s) {
      var pid := Live(s)[k];
      TakeOne(s, s', k, pid);
    } else {
      assert Live(s) - {k} == Live(s);
    }
  }

  /** Only the process that was taken is not live any more. */
  lemma TakeLiveness(s: Sys, s': Sys, k: Key, pid: nat)
    requires Accounted(s) && k in Live(s) && Live(s)[k] == pid
    requires s'.keys == s.keys && Live(s') == Live(s) - {k}
    ensures IsLive(s, pid)
    ensures forall p :: 0 <= p < |s.keys| ==> (IsLive(s', p) <==> IsLive(s, p) && p != pid)
  {
    hide Flat;
  }

  lemma StepThreads(s: Sys, e: Event)
    requires ThreadsOk(s) && Enabled(s, e)
    ensures ThreadsOk(Next(s, e))
  {
    hide CanAdd, Add, Lookup, Remove, Shutdown;
    var s' := Next(s, e);
    assert s.keys <= s'.keys && s.cancelled <= s'.cancelled;
    forall tid | tid in s'.threads ensures ThreadOk(s', s'.threads[tid]) {
      if tid in s.threads { assert ThreadOk(s, s.threads[tid]); }
    }
  }

  lemma StepInv(s: Sys, e: Event)
    requires Inv(s) && Enabled(s, e)
    ensures Inv(Next(s, e))
  {
    hide Flat, Accounted, CanAdd, Add, Lookup, Remove, Shutdown, NoEmptyTask, ThreadsOk, Take;
    var s' := Next(s, e);
    StepThreads(s, e);
    match e
    case Register(tid) =>
      var key := s.threads[tid].key;
      if CanAdd(s.mgr, key) {
        RegisterAccounted(s, key);
        AddRefines(s.mgr, key, |s.keys|);
        AddOpen(s.mgr, key, |s.keys|);
        SameAccount(s.(mgr := Add(s.mgr, key, |s.keys|), keys := s.keys + [key]), s');
      } else {
        SameAccount(s, s');
      }
    case Rollback(tid) => TakeInv(s, Move(s, tid, Finished(false)), s.threads[tid].key);
    case DeleteFromManager(tid) => TakeInv(s, s.(threads := s.threads - {tid}), s.threads[tid].key);
    case ShutdownIfEmpty =>
      ShutdownRefines(s.mgr);
      SameAccount(s, s');
    case _ =>
      SameAccount(s, s');
  }

  lemma AddOpen(m: Manager<nat>, k: Key, p: nat)
    requires CanAdd(m, k)
    ensures !Add(m, k, p).isShutdown
  {
  }

  lemma SameAccount(s: Sys, s': Sys)
    requires Accounted(s) && s'.keys == s.keys && s'.removed == s.removed && Live(s') == Live(s)
    ensures Accounted(s')
  {
    hide Flat;
    assert forall p :: 0 <= p < |s.keys| ==> (IsLive(s', p) <==> IsLive(s, p));
  }

  lemma TakeInv(s: Sys, t: Sys, k: Key)
    requires Inv(s) && t.mgr == s.mgr && t.keys == s.keys && t.removed == s.removed && t.cancelled == s.cancelled
    requires ThreadsOk(Take(t, k))
    ensures Inv(Take(t, k))
  {
    hide Flat, Accounted, Lookup, Remove, NoEmptyTask, ThreadsOk;
    SameAccount(s, t);
    TakeAccounted(t, k);
    RemoveRefines(t.mgr, k);
  }

  /** In every reachable state, for every interleaving and all results of the services. */
  lemma {:induction false} RunInv(s: Sys, run: seq<Event>)
    requires Inv(s) && Run(s, run).Some?
    ensures Inv(Run(s, run).value)
    decreases |run|
  {
    if run != [] {
      StepInv(s, run[0]);
      RunInv(Next(s, run[0]), run[1..]);
    }
  }

  /**
   * Registration is conserved over every run: registered is removed plus live, no process is removed twice, each
   * live one is under the key it was registered with, and no task is ever left without processes.
   */
  lemma Conservation(run: seq<Event>)
    requires Run(START, run).Some?
    ensures var s := Run(START, run).value;
            && |s.keys| == |s.removed| + |Live(s)|
            && (forall i, j :: 0 <= i < j < |s.removed| ==> s.removed[i] != s.removed[j])
            && (forall k :: k in Live(s) ==> Live(s)[k] < |s.keys| && s.keys[Live(s)[k]] == k
                                             && Live(s)[k] !in s.removed)
            && NoEmptyTask(s.mgr)
  {
    StartInv();
    RunInv(START, run);
    hide Flat, NoEmptyTask;
    var s := Run(START, run).value;
    forall k | k in Live(s) ensures Live(s)[k] !in s.removed {
      assert IsLive(s, Live(s)[k]);
    }
  }

  // ---------------------------------------------------------------- shutdown

  /** In every reachable state shutting down succeeds exactly when no process is registered. */
  lemma ShutdownIffEmpty(s: Sys)
    requires Inv(s)
    ensures Next(s, ShutdownIfEmpty).mgr.isShutdown <==> Live(s) == map[]
  {
    hide Flat, Accounted;
    ShutdownRefines(s.mgr);
  }

  /** Nothing is registered, nothing is live, and only processes removed before the shutdown are still served. */
  ghost predicate Closed(s: Sys, later: Sys) {
    && later.mgr.isShutdown && Live(later) == map[]
    && later.keys == s.keys && later.removed == s.removed
    && s.calls <= later.calls
    && forall i :: |s.calls| <= i < |later.calls| ==> later.calls[i] in s.removed
  }

  lemma StepClosed(s: Sys, t: Sys, e: Event)
    requires Inv(t) && Closed(s, t) && Enabled(t, e)
    ensures Closed(s, Next(t, e))
  {
    hide Flat, Lookup, Remove, NoEmptyTask;
    match e
    case CallService(tid, ok) =>
      assert ThreadOk(t, t.threads[tid]);
      assert !IsLive(t, t.threads[tid].phase.pid);
    case Rollback(tid) =>
      LookupIsFlat(t.mgr, t.threads[tid].key);
    case DeleteFromManager(tid) =>
      LookupIsFlat(t.mgr, t.threads[tid].key);
    case ShutdownIfEmpty => ShutdownRefines(t.mgr);
    case _ =>
  }

  lemma {:induction false} RunClosed(s: Sys, t: Sys, run: seq<Event>)
    requires Inv(t) && Closed(s, t) && Run(t, run).Some?
    ensures Closed(s, Run(t, run).value)
    decreases |run|
  {
    hide Closed, Inv;
    if run != [] {
      StepInv(t, run[0]);
      StepClosed(s, t, run[0]);
      RunClosed(s, Next(t, run[0]), run[1..]);
    }
  }

  /**
   * Once shut down, forever: the set stays empty, nothing is registered, and a create or exec reaches the task
   * service only if its process was registered, and removed, before the shutdown.
   */
  lemma AfterShutdown(s: Sys, run: seq<Event>)
    requires Inv(s) && s.mgr.isShutdown && Run(s, run).Some?
    ensures Closed(s, Run(s, run).value)
  {
    RunClosed(s, s, run);
  }

  // ---------------------------------------------------------------- what removes a process

  /** The event removes whatever is registered under `k`. */
  predicate Takes(s: Sys, e: Event, k: Key)
    requires Enabled(s, e)
  {
    match e
    case Rollback(tid) => s.threads[tid].key == k
    case DeleteFromManager(tid) => s.threads[tid].key == k
    case _ => false
  }

  ghost predicate Undisturbed(s: Sys, run: seq<Event>, k: Key)
    requires Run(s, run).Some?
    decreases |run|
  {
    run == [] || (!Takes(s, run[0], k) && Undisturbed(Next(s, run[0]), run[1..], k))
  }

  lemma TakeLive(s: Sys, t: Sys, k: Key)
    requires Inv(s) && t.mgr == s.mgr && t.keys == s.keys && t.removed == s.removed
    ensures Live(Take(t, k)) == Live(s) - {k} && Take(t, k).keys == s.keys
  {
    hide Flat, Accounted, Lookup, Remove, NoEmptyTask;
    SameAccount(s, t);
    TakeAccounted(t, k);
  }

  /** A live key stays with its process unless an event takes it. */
  lemma StepLive(s: Sys, e: Event, k: Key)
    requires Inv(s) && Enabled(s, e) && k in Live(s) && !Takes(s, e, k)
    ensures var s' := Next(s, e); k in Live(s') && Live(s')[k] == Live(s)[k] && s.keys <= s'.keys
  {
    hide Flat, CanAdd, Add, Lookup, Remove, Shutdown, NoEmptyTask, Accounted, ThreadsOk;
    match e
    case Register(other) =>
      var key := s.threads[other].key;
      if CanAdd(s.mgr, key) {
        AddRefines(s.mgr, key, |s.keys|);
        CanAddMeaning(s.mgr, key);
      }
    case Rollback(other) => TakeLive(s, Move(s, other, Finished(false)), s.threads[other].key);
    case DeleteFromManager(other) => TakeLive(s, s.(threads := s.threads - {other}), s.threads[other].key);
    case ShutdownIfEmpty => ShutdownRefines(s.mgr);
    case _ =>
  }

  /** A process that was removed stays removed. */
  lemma StepRemoved(s: Sys, e: Event)
    requires Enabled(s, e)
    ensures s.removed <= Next(s, e).removed
  {
    hide CanAdd, Add, Lookup, Remove, Shutdown;
  }

  lemma {:induction false} RunRemoved(s: Sys, run: seq<Event>)
    requires Run(s, run).Some?
    ensures s.removed <= Run(s, run).value.removed
    decreases |run|
  {
    if run != [] {
      StepRemoved(s, run[0]);
      RunRemoved(Next(s, run[0]), run[1..]);
    }
  }

  /** An event that takes a live key removes its process. */
  lemma TakesRemoves(s: Sys, e: Event, k: Key)
    requires Inv(s) && Enabled(s, e) && Takes(s, e, k) && k in Live(s)
    ensures Next(s, e).removed == s.removed + [Live(s)[k]]
  {
    hide Flat, Remove;
    LookupIsFlat(s.mgr, k);
  }

  lemma LiveOrRemoved(s: Sys, pid: nat)
    requires Inv(s) && pid < |s.keys|
    ensures IsLive(s, pid) <==> pid !in s.removed
  {
    hide Flat;
  }

  lemma StepKeys(s: Sys, e: Event)
    requires Enabled(s, e)
    ensures s.keys <= Next(s, e).keys
  {
    hide CanAdd, Add, Lookup, Remove, Shutdown;
  }

  lemma {:induction false} RunKeys(s: Sys, run: seq<Event>)
    requires Run(s, run).Some?
    ensures s.keys <= Run(s, run).value.keys
    decreases |run|
  {
    if run != [] {
      StepKeys(s, run[0]);
      RunKeys(Next(s, run[0]), run[1..]);
    }
  }

  /** A live process is still live after a run exactly when no event of the run took its key. */
  lemma {:induction false} RunLiveIff(s: Sys, run: seq<Event>, pid: nat)
    requires Inv(s) && IsLive(s, pid) && Run(s, run).Some?
    ensures var u, k := Run(s, run).value, s.keys[pid];
            && pid < |u.keys| && u.keys[pid] == k
            && (IsLive(u, pid) <==> Undisturbed(s, run, k))
            && (pid in u.removed <==> !Undisturbed(s, run, k))
    decreases |run|
  {
    hide Flat, Inv;
    var k := s.keys[pid];
    if run == [] {
      LiveOrRemoved(s, pid);
    } else {
      var t := Next(s, run[0]);
      StepInv(s, run[0]);
      if Takes(s, run[0], k) {
        TakesRemoves(s, run[0], k);
        assert t.removed[|s.removed|] == pid;
        RunInv(t, run[1..]);
        RunRemoved(t, run[1..]);
        StepKeys(s, run[0]);
        RunKeys(t, run[1..]);
        LiveOrRemoved(Run(t, run[1..]).value, pid);
      } else {
        StepLive(s, run[0], k);
        RunLiveIff(t, run[1..], pid);
      }
    }
  }

  /** A registration that succeeded leaves its process live, under its key. */
  lemma RegisterLive(s: Sys, tid: nat)
    requires Inv(s) && Enabled(s, Register(tid)) && CanAdd(s.mgr, s.threads[tid].key)
    ensures var t, k, pid := Next(s, Register(tid)), s.threads[tid].key, |s.keys|;
            Inv(t) && IsLive(t, pid) && t.keys[pid] == k && t.threads[tid] == Creating(k, Registered(pid))
  {
    StepInv(s, Register(tid));
    AddRefines(s.mgr, s.threads[tid].key, |s.keys|);
  }

  // ---------------------------------------------------------------- rollback and delete

  lemma PhaseOk(s: Sys, tid: nat)
    requires Inv(s) && tid in s.threads
    ensures ThreadOk(s, s.threads[tid])
  {
    hide Flat, Accounted, NoEmptyTask, ThreadOk;
  }

  lemma LiveIsCurrent(s: Sys, k: Key, pid: nat)
    requires pid < |s.keys| && s.keys[pid] == k
    ensures IsLive(s, pid) <==> k in Live(s) && Live(s)[k] == pid
  {
  }

  /**
   * The rollback of a failed call leaves its key absent, its context cancelled and every other key untouched;
   * it removes the call's own process exactly when nothing else has removed it before.
   */
  lemma RollbackMeaning(s: Sys, tid: nat)
    requires Inv(s) && Enabled(s, Rollback(tid))
    ensures var s', k, pid := Next(s, Rollback(tid)), s.threads[tid].key, s.threads[tid].phase.pid;
            && Live(s') == Live(s) - {k} && pid in s'.cancelled
            && s'.removed == s.removed + (if k in Live(s) then [Live(s)[k]] else [])
            && (k in Live(s) && Live(s)[k] == pid <==> pid !in s.removed)
  {
    hide Flat, Lookup, Remove, Accounted, NoEmptyTask, ThreadsOk;
    var k, pid := s.threads[tid].key, s.threads[tid].phase.pid;
    PhaseOk(s, tid);
    TakeLive(s, Move(s, tid, Finished(false)), k);
    LookupIsFlat(s.mgr, k);
    LiveOrRemoved(s, pid);
    LiveIsCurrent(s, k, pid);
    assert s.removed + [] == s.removed;
  }

  /** The call of thread `tid` was registered as `pid` under `k`, and may be over. */
  ghost predicate Owns(s: Sys, tid: nat, k: Key, pid: nat) {
    && IsCreating(s, tid) && s.threads[tid].key == k
    && (PidOf(s.threads[tid].phase) == Some(pid) || s.threads[tid].phase.Finished?)
  }

  lemma StepOwns(s: Sys, e: Event, tid: nat, k: Key, pid: nat)
    requires Owns(s, tid, k, pid) && Enabled(s, e)
    ensures Owns(Next(s, e), tid, k, pid)
  {
    hide CanAdd, Add, Lookup, Remove, Shutdown;
  }

  lemma {:induction false} RunOwns(s: Sys, run: seq<Event>, tid: nat, k: Key, pid: nat)
    requires Owns(s, tid, k, pid) && Run(s, run).Some?
    ensures Owns(Run(s, run).value, tid, k, pid)
    decreases |run|
  {
    if run != [] {
      StepOwns(s, run[0], tid, k, pid);
      RunOwns(Next(s, run[0]), run[1..], tid, k, pid);
    }
  }

  lemma Appended(a: seq<nat>, more: seq<nat>, p: nat)
    requires |more| <= 1
    ensures a + more == a + [p] <==> more == [p]
    ensures p in a + more <==> p in a || more == [p]
  {
    if a + more == a + [p] {
      assert (a + more)[|a|..] == more && (a + [p])[|a|..] == [p];
    }
    if more == [p] { assert (a + more)[|a|] == p; }
  }

  /**
   * From the registration of a call in `s` to its rollback in `u`: the rollback removes the process that the call
   * registered exactly when nothing else took the key in between. Otherwise that process was removed already, and
   * the rollback removes whatever is registered under the key by then.
   */
  lemma RollbackExact(s: Sys, tid: nat, run: seq<Event>, u: Sys)
    requires Inv(s) && Enabled(s, Register(tid)) && CanAdd(s.mgr, s.threads[tid].key)
    requires Run(Next(s, Register(tid)), run) == Some(u) && Enabled(u, Rollback(tid))
    ensures var k, pid, u' := s.threads[tid].key, |s.keys|, Next(u, Rollback(tid));
            && (u'.removed == u.removed + [pid] <==> Undisturbed(Next(s, Register(tid)), run, k))
            && (pid in u.removed ==> u'.removed == u.removed + (if k in Live(u) then [Live(u)[k]] else []))
            && pid in u'.removed && pid in u'.cancelled && Live(u') == Live(u) - {k}
  {
    hide Flat, CanAdd, Add, Lookup, Remove, Accounted, NoEmptyTask, Undisturbed, Run, IsLive, ThreadsOk;
    var t, k, pid := Next(s, Register(tid)), s.threads[tid].key, |s.keys|;
    RegisterLive(s, tid);
    RunLiveIff(t, run, pid);
    RunOwns(t, run, tid, k, pid);
    RunInv(t, run);
    RollbackMeaning(u, tid);
    var u' := Next(u, Rollback(tid));
    Appended(u.removed, if k in Live(u) then [Live(u)[k]] else [], pid);
  }

  /** What a delete does once the service has deleted the process. */
  lemma DeleteMeaning(s: Sys, tid: nat)
    requires Inv(s) && Enabled(s, DeleteFromManager(tid))
    ensures var s', k := Next(s, DeleteFromManager(tid)), s.threads[tid].key;
            && s'.removed == s.removed + (if k in Live(s) then [Live(s)[k]] else [])
            && Live(s') == Live(s) - {k}
  {
    hide Flat, CanAdd, Add, Lookup, Remove, NoEmptyTask, Accounted;
    var k := s.threads[tid].key;
    TakeLive(s, s.(threads := s.threads - {tid}), k);
    LookupIsFlat(s.mgr, k);
    assert s.removed + [] == s.removed;
  }

  /**
   * From the step in `s` in which the service has deleted a process to the delete's own critical section in `u`:
   * the manager removes that process exactly when nothing else took the key in between. Otherwise it removes
   * whatever is registered under the key by then.
   */
  lemma DeleteExact(s: Sys, tid: nat, run: seq<Event>, u: Sys)
    requires Inv(s) && Enabled(s, ServiceDeleted(tid, true)) && s.threads[tid].key in Live(s)
    requires Run(Next(s, ServiceDeleted(tid, true)), run) == Some(u)
    requires Enabled(u, DeleteFromManager(tid)) && u.threads[tid].key == s.threads[tid].key
    ensures var k, u' := s.threads[tid].key, Next(u, DeleteFromManager(tid));
            && (u'.removed == u.removed + [Live(s)[k]] <==> Undisturbed(Next(s, ServiceDeleted(tid, true)), run, k))
            && (Live(s)[k] in u.removed ==> u'.removed == u.removed + (if k in Live(u) then [Live(u)[k]] else []))
            && Live(s)[k] in u'.removed && Live(u') == Live(u) - {k}
  {
    hide Flat, CanAdd, Add, Lookup, Remove, NoEmptyTask, Undisturbed, Run;
    var t, k := Next(s, ServiceDeleted(tid, true)), s.threads[tid].key;
    var pid := Live(s)[k];
    assert IsLive(t, pid);
    StepInv(s, ServiceDeleted(tid, true));
    RunLiveIff(t, run, pid);
    RunInv(t, run);
    DeleteMeaning(u, tid);
    LiveIsCurrent(u, k, pid);
    Appended(u.removed, if k in Live(u) then [Live(u)[k]] else [], pid);
  }

  function PidAt(s: Sys, tid: nat): Option<nat> {
    if IsCreating(s, tid) then PidOf(s.threads[tid].phase) else None
  }

  /** Different calls have different processes. */
  ghost predicate DistinctPids(s: Sys) {
    forall x, y :: x != y && PidAt(s, x).Some? ==> PidAt(s, x) != PidAt(s, y)
  }

  /** A registration has a new number, and otherwise no call changes its process. */
  lemma NewPids(s: Sys, e: Event)
    requires Inv(s) && DistinctPids(s) && Enabled(s, e)
    ensures DistinctPids(Next(s, e))
  {
    hide Flat, IsLive, CanAdd, Add, Lookup, Remove, Shutdown, Accounted, NoEmptyTask;
    var s' := Next(s, e);
    forall x | PidAt(s', x).Some?
      ensures PidAt(s', x) == if e == Register(x) then Some(|s.keys|) else PidAt(s, x)
    {
    }
    forall x | PidAt(s, x).Some? ensures PidAt(s, x).value < |s.keys| {
      assert ThreadOk(s, s.threads[x]);
    }
  }

  // ---------------------------------------------------------------- calls after a shutdown

  /** The call of thread `tid` is between its registration and the task service. */
  predicate Waits(s: Sys, tid: nat) { IsCreating(s, tid) && s.threads[tid].phase.Registered? }

  /** The event takes no key that a call is waiting with. */
  ghost predicate Spares(s: Sys, e: Event)
    requires Enabled(s, e)
  {
    forall tid :: Waits(s, tid) ==> !Takes(s, e, s.threads[tid].key)
  }

  ghost predicate Guarded(s: Sys, run: seq<Event>)
    requires Run(s, run).Some?
    decreases |run|
  {
    run == [] || (Spares(s, run[0]) && Guarded(Next(s, run[0]), run[1..]))
  }

  ghost predicate WaitersLive(s: Sys) {
    forall tid :: Waits(s, tid) ==> IsLive(s, s.threads[tid].phase.pid)
  }

  lemma WaiterStaysLive(s: Sys, e: Event, tid: nat)
    requires Inv(s) && Enabled(s, e) && Waits(s, tid) && IsLive(s, s.threads[tid].phase.pid)
    requires !Takes(s, e, s.threads[tid].key)
    ensures IsLive(Next(s, e), s.threads[tid].phase.pid)
  {
    hide Flat, CanAdd, Add, Lookup, Remove, Shutdown, Accounted, NoEmptyTask;
    assert ThreadOk(s, s.threads[tid]);
    StepLive(s, e, s.threads[tid].key);
  }

  lemma StepWaiters(s: Sys, e: Event)
    requires Inv(s) && WaitersLive(s) && Enabled(s, e) && Spares(s, e)
    ensures WaitersLive(Next(s, e))
  {
    hide Inv, IsLive, Takes, CanAdd, Add, Lookup, Remove, Shutdown;
    var s' := Next(s, e);
    forall tid | Waits(s', tid) ensures IsLive(s', s'.threads[tid].phase.pid) {
      if e == Register(tid) {
        RegisterLive(s, tid);
      } else {
        assert Waits(s, tid) && s'.threads[tid] == s.threads[tid];
        WaiterStaysLive(s, e, tid);
      }
    }
  }

  lemma {:induction false} RunWaiters(s: Sys, run: seq<Event>)
    requires Inv(s) && WaitersLive(s) && Run(s, run).Some? && Guarded(s, run)
    ensures WaitersLive(Run(s, run).value)
    decreases |run|
  {
    hide Inv, WaitersLive, Spares;
    if run != [] {
      StepInv(s, run[0]);
      StepWaiters(s, run[0]);
      RunWaiters(Next(s, run[0]), run[1..]);
    }
  }

  lemma StepNoneWaits(s: Sys, e: Event)
    requires s.mgr.isShutdown && (forall tid :: !Waits(s, tid)) && Enabled(s, e)
    ensures var s' := Next(s, e); s'.mgr.isShutdown && s'.calls == s.calls && forall tid :: !Waits(s', tid)
  {
    var s' := Next(s, e);
    assert e.CallService? ==> Waits(s, e.tid);
    forall tid | tid in s'.threads ensures !Waits(s', tid) {
      assert !Waits(s, tid);
    }
  }

  lemma {:induction false} NoneWaits(s: Sys, run: seq<Event>)
    requires s.mgr.isShutdown && (forall tid :: !Waits(s, tid)) && Run(s, run).Some?
    ensures Run(s, run).value.calls == s.calls
    decreases |run|
  {
    if run != [] {
      StepNoneWaits(s, run[0]);
      NoneWaits(Next(s, run[0]), run[1..]);
    }
  }

  lemma NoneWaitsOnce(s: Sys)
    requires Inv(s) && WaitersLive(s) && s.mgr.isShutdown
    ensures forall tid :: !Waits(s, tid)
  {
    hide Flat, Accounted, NoEmptyTask;
  }

  /**
   * If no delete and no rollback takes a key that another call is waiting with, then no create or exec reaches the
   * task service after a shutdown, whatever happens later.
   */
  lemma NoLateCall(run: seq<Event>, later: seq<Event>)
    requires Run(START, run).Some? && Guarded(START, run)
    requires var s := Run(START, run).value; s.mgr.isShutdown && Run(s, later).Some?
    ensures var s := Run(START, run).value; Run(s, later).value.calls == s.calls
  {
    var s := Run(START, run).value;
    StartInv();
    RunInv(START, run);
    RunWaiters(START, run);
    NoneWaitsOnce(s);
    NoneWaits(s, later);
  }

  /** After a shutdown, whatever was registered before had its key taken in between. */
  lemma ShutdownDisturbs(s: Sys, tid: nat, run: seq<Event>, u: Sys)
    requires Inv(s) && Enabled(s, Register(tid)) && CanAdd(s.mgr, s.threads[tid].key)
    requires Run(Next(s, Register(tid)), run) == Some(u) && u.mgr.isShutdown
    ensures !Undisturbed(Next(s, Register(tid)), run, s.threads[tid].key)
  {
    hide Flat, CanAdd, Add, Undisturbed, Run, Accounted, NoEmptyTask, ThreadsOk;
    RegisterLive(s, tid);
    RunLiveIff(Next(s, Register(tid)), run, |s.keys|);
    RunInv(Next(s, Register(tid)), run);
  }

  // ---------------------------------------------------------------- orderly clients

  predicate IsDeleting(s: Sys, tid: nat) { tid in s.threads && s.threads[tid].Deleting? }

  predicate IsBusy(s: Sys, tid: nat) { IsCreating(s, tid) && !s.threads[tid].phase.Finished? }

  /** A client deletes no process it is still creating, and creates none that it is still deleting. */
  ghost predicate Orderly(s: Sys, e: Event) {
    match e
    case Create(_, k) => forall tid :: IsDeleting(s, tid) ==> s.threads[tid].key != k
    case Delete(_, k) => forall tid :: IsBusy(s, tid) ==> s.threads[tid].key != k
    case _ => true
  }

  ghost predicate AllOrderly(s: Sys, run: seq<Event>)
    requires Run(s, run).Some?
    decreases |run|
  {
    run == [] || (Orderly(s, run[0]) && AllOrderly(Next(s, run[0]), run[1..]))
  }

  /** Each unfinished call owns a live process of its own, and its key is not being deleted. */
  ghost predicate Exclusive(s: Sys) {
    && (forall tid :: PidAt(s, tid).Some? ==> IsLive(s, PidAt(s, tid).value))
    && DistinctPids(s)
    && (forall x, y :: IsBusy(s, x) && IsDeleting(s, y) ==> s.threads[x].key != s.threads[y].key)
  }

  /** So an event takes a key only from the call itself. */
  lemma TakesOwn(s: Sys, e: Event, tid: nat)
    requires Inv(s) && Exclusive(s) && Enabled(s, e) && PidAt(s, tid).Some? && Takes(s, e, s.threads[tid].key)
    ensures e == Rollback(tid)
  {
    hide Flat, Accounted, NoEmptyTask;
    assert ThreadOk(s, s.threads[tid]) && IsBusy(s, tid);
    forall other | Enabled(s, DeleteFromManager(other)) ensures s.threads[other].key != s.threads[tid].key {
      assert IsDeleting(s, other);
    }
    forall other | Enabled(s, Rollback(other)) && s.threads[other].key == s.threads[tid].key ensures other == tid {
      assert ThreadOk(s, s.threads[other]) && PidAt(s, other) == Some(s.threads[other].phase.pid);
    }
  }

  lemma StillApart(s: Sys, e: Event)
    requires Exclusive(s) && Enabled(s, e) && Orderly(s, e)
    ensures var s' := Next(s, e);
            forall x, y :: IsBusy(s', x) && IsDeleting(s', y) ==> s'.threads[x].key != s'.threads[y].key
  {
    hide Flat, IsLive, PidAt, CanAdd, Add, Lookup, Remove, Shutdown;
    var s' := Next(s, e);
    forall x | IsBusy(s', x)
      ensures e == Create(x, s'.threads[x].key) || (IsBusy(s, x) && s.threads[x].key == s'.threads[x].key)
    {
    }
    forall y | IsDeleting(s', y)
      ensures e == Delete(y, s'.threads[y].key) || (IsDeleting(s, y) && s.threads[y].key == s'.threads[y].key)
    {
    }
  }

  lemma ExclusiveLive(s: Sys, tid: nat)
    requires Exclusive(s) && PidAt(s, tid).Some?
    ensures IsLive(s, PidAt(s, tid).value)
  {
  }

  lemma OwnerStaysLive(s: Sys, e: Event, tid: nat)
    requires Inv(s) && Exclusive(s) && Enabled(s, e) && PidAt(Next(s, e), tid).Some?
    ensures IsLive(Next(s, e), PidAt(Next(s, e), tid).value)
  {
    hide Flat, CanAdd, Add, Lookup, Remove, Shutdown, Accounted, NoEmptyTask, Exclusive;
    if e == Register(tid) {
      RegisterLive(s, tid);
    } else {
      assert PidAt(s, tid) == PidAt(Next(s, e), tid);
      assert IsLive(s, PidAt(s, tid).value) by { ExclusiveLive(s, tid); }
      assert ThreadOk(s, s.threads[tid]);
      if Takes(s, e, s.threads[tid].key) { TakesOwn(s, e, tid); }
      StepLive(s, e, s.threads[tid].key);
    }
  }

  lemma StepExclusive(s: Sys, e: Event)
    requires Inv(s) && Exclusive(s) && Enabled(s, e) && Orderly(s, e)
    ensures Exclusive(Next(s, e)) && Spares(s, e)
  {
    hide IsLive, Takes, CanAdd, Add, Lookup, Remove, Shutdown;
    var s' := Next(s, e);
    forall tid | Waits(s, tid) ensures !Takes(s, e, s.threads[tid].key) {
      if Takes(s, e, s.threads[tid].key) { TakesOwn(s, e, tid); }
    }
    forall tid | PidAt(s', tid).Some? ensures IsLive(s', PidAt(s', tid).value) {
      OwnerStaysLive(s, e, tid);
    }
    NewPids(s, e);
    StillApart(s, e);
  }

  lemma {:induction false} RunExclusive(s: Sys, run: seq<Event>)
    requires Inv(s) && Exclusive(s) && Run(s, run).Some? && AllOrderly(s, run)
    ensures Guarded(s, run) && Exclusive(Run(s, run).value)
    decreases |run|
  {
    hide Inv, Exclusive, Spares, Orderly;
    if run != [] {
      StepInv(s, run[0]);
      StepExclusive(s, run[0]);
      RunExclusive(Next(s, run[0]), run[1..]);
    }
  }

  /**
   * With clients that do not create and delete the same process at the same time, no delete and no rollback gets in
   * the way of another call.
   */
  lemma OrderlyGuarded(run: seq<Event>)
    requires Run(START, run).Some? && AllOrderly(START, run)
    ensures Guarded(START, run)
  {
    hide Flat, IsLive, Run, Guarded;
    StartInv();
    RunExclusive(START, run);
  }

  /** And every rollback removes the process its own call registered. */
  lemma OrderlyRollback(run: seq<Event>, s: Sys, tid: nat)
    requires Run(START, run) == Some(s) && AllOrderly(START, run) && Enabled(s, Rollback(tid))
    ensures Next(s, Rollback(tid)).removed == s.removed + [s.threads[tid].phase.pid]
  {
    hide Flat, Lookup, Remove, Run, Accounted, NoEmptyTask;
    StartInv();
    RunExclusive(START, run);
    RunInv(START, run);
    assert PidAt(s, tid) == Some(s.threads[tid].phase.pid);
    assert ThreadOk(s, s.threads[tid]);
    LookupIsFlat(s.mgr, s.threads[tid].key);
  }
}
