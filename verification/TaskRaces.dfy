/** The races of the task manager, with a task service that answers consistently. */
module TaskRaces {
  import opened Options
  import opened TaskManager
  import opened TaskRuns

  // ---------------------------------------------------------------- a consistent service

  /** `served` holds the processes that the task service has created and not deleted. */
  datatype World = World(sys: Sys, served: set<Key>)

  /** The service creates only what it does not have and deletes only what it has; it may fail at any time. */
  predicate Consistent(w: World, e: Event) {
    Enabled(w.sys, e) &&
    match e
    case CallService(tid, ok) => ok ==> w.sys.threads[tid].key !in w.served
    case ServiceDeleted(tid, ok) => ok ==> w.sys.threads[tid].key in w.served
    case _ => true
  }

  function After(w: World, e: Event): World
    requires Consistent(w, e)
  {
    var served := match e
      case CallService(tid, ok) => if ok then w.served + {w.sys.threads[tid].key} else w.served
      case ServiceDeleted(tid, ok) => if ok then w.served - {w.sys.threads[tid].key} else w.served
      case _ => w.served;
    World(Next(w.sys, e), served)
  }

  function Story(w: World, run: seq<Event>): Option<World>
    decreases |run|
  {
    if run == [] then Some(w)
    else if Consistent(w, run[0]) then Story(After(w, run[0]), run[1..])
    else None
  }

  const BEGIN := World(START, {})

  lemma {:induction false} StoryIsRun(w: World, run: seq<Event>)
    requires Story(w, run).Some?
    ensures Run(w.sys, run) == Some(Story(w, run).value.sys)
    decreases |run|
  {
    if run != [] { StoryIsRun(After(w, run[0]), run[1..]); }
  }

  lemma {:induction false} StoryThen(w: World, a: seq<Event>, b: seq<Event>)
    requires Story(w, a).Some?
    ensures Story(w, a + b) == Story(Story(w, a).value, b)
    decreases |a|
  {
    if a == [] {
      assert a + b == b;
    } else {
      assert (a + b)[0] == a[0] && (a + b)[1..] == a[1..] + b;
      StoryThen(After(w, a[0]), a[1..], b);
    }
  }

  lemma StoryOne(w: World, e: Event)
    requires Consistent(w, e)
    ensures Story(w, [e]) == Some(After(w, e))
  {
    assert [e][1..] == [];
  }

  /** One more event at the end of a story. */
  lemma StoryMore(w: World, run: seq<Event>, v: World, e: Event)
    requires Story(w, run) == Some(v) && Consistent(v, e)
    ensures Story(w, run + [e]) == Some(After(v, e))
  {
    hide Consistent, After;
    StoryThen(w, run, [e]);
    StoryOne(v, e);
  }

  // ---------------------------------------------------------------- nothing is stuck

  /** Thread `tid` will take `k`, either to finish a delete or to undo the registration of `pid`. */
  predicate WillTake(s: Sys, tid: nat, k: Key, pid: nat) {
    tid in s.threads && s.threads[tid].key == k &&
    match s.threads[tid]
    case Deleting(_, atManager) => atManager
    case Creating(_, phase) =>
      (phase.Registered? || phase.Failing? || phase.RollingBack?) && phase.pid == pid
  }

  /** The service has every live process, except those that some thread is about to create or to take away. */
  ghost predicate Kept(w: World) {
    forall k :: k in Live(w.sys) && k !in w.served ==> exists tid :: WillTake(w.sys, tid, k, Live(w.sys)[k])
  }

  lemma TakesGone(s: Sys, e: Event, k: Key)
    requires Inv(s) && Enabled(s, e) && Takes(s, e, k)
    ensures Live(Next(s, e)) == Live(s) - {k}
  {
    hide Flat, CanAdd, Add, Lookup, Remove, Shutdown, NoEmptyTask, Accounted, ThreadsOk;
    match e
    case Rollback(tid) => TakeLive(s, Move(s, tid, Finished(false)), k);
    case DeleteFromManager(tid) => TakeLive(s, s.(threads := s.threads - {tid}), k);
    case _ =>
  }

  lemma StepSame(s: Sys, e: Event, k: Key)
    requires Inv(s) && Enabled(s, e) && k in Live(s) && k in Live(Next(s, e))
    ensures Live(Next(s, e))[k] == Live(s)[k] && !Takes(s, e, k)
  {
    hide Flat, CanAdd, Add, Lookup, Remove, Shutdown, NoEmptyTask, Accounted, ThreadsOk;
    if Takes(s, e, k) {
      TakesGone(s, e, k);
    } else {
      StepLive(s, e, k);
    }
  }

  /** Only a registration makes a key live. */
  lemma StepNew(s: Sys, e: Event, k: Key)
    requires Inv(s) && Enabled(s, e) && k !in Live(s) && k in Live(Next(s, e))
    ensures e.Register? && s.threads[e.tid].key == k && Live(Next(s, e))[k] == |s.keys|
    ensures Next(s, e).threads[e.tid] == Creating(k, Registered(|s.keys|))
  {
    hide Flat, CanAdd, Add, Lookup, Remove, Shutdown, NoEmptyTask, Accounted, ThreadsOk, Take;
    match e
    case Register(tid) =>
      if CanAdd(s.mgr, s.threads[tid].key) { AddRefines(s.mgr, s.threads[tid].key, |s.keys|); }
    case Rollback(tid) => TakesGone(s, e, s.threads[tid].key);
    case DeleteFromManager(tid) => TakesGone(s, e, s.threads[tid].key);
    case ShutdownIfEmpty => ShutdownRefines(s.mgr);
    case _ =>
  }

  lemma StepKept(w: World, e: Event)
    requires Inv(w.sys) && Kept(w) && Consistent(w, e)
    ensures Kept(After(w, e))
  {
    hide Flat, Inv, CanAdd, Add, Lookup, Remove, Shutdown;
    var v := After(w, e);
    forall k | k in Live(v.sys) && k !in v.served ensures exists tid :: WillTake(v.sys, tid, k, Live(v.sys)[k]) {
      if k in Live(w.sys) {
        StepSame(w.sys, e, k);
        if k in w.served {
          assert e.ServiceDeleted? && WillTake(v.sys, e.tid, k, Live(v.sys)[k]);
        } else {
          var tid :| WillTake(w.sys, tid, k, Live(w.sys)[k]);
          assert WillTake(v.sys, tid, k, Live(v.sys)[k]);
        }
      } else {
        StepNew(w.sys, e, k);
        assert WillTake(v.sys, e.tid, k, Live(v.sys)[k]);
      }
    }
  }

  ghost predicate Good(w: World) { Inv(w.sys) && Kept(w) }

  lemma {:induction false} StoryGood(w: World, run: seq<Event>)
    requires Good(w) && Story(w, run).Some?
    ensures Good(Story(w, run).value)
    decreases |run|
  {
    hide Inv, Kept;
    if run != [] {
      StepInv(w.sys, run[0]);
      StepKept(w, run[0]);
      StoryGood(After(w, run[0]), run[1..]);
    }
  }

  lemma BeginGood()
    ensures Good(BEGIN)
  {
    StartInv();
    assert Live(START) == map[];
  }

  /** In every story from the start, whatever fails, and in whatever order. */
  lemma AlwaysGood(run: seq<Event>)
    requires Story(BEGIN, run).Some?
    ensures Good(Story(BEGIN, run).value)
  {
    BeginGood();
    StoryGood(BEGIN, run);
  }

  // ---------------------------------------------------------------- emptying the manager around a waiting call

  /** The story leaves thread `tid` where it is and `live` registered. */
  ghost predicate Leads(w: World, tid: nat, run: seq<Event>, live: map<Key, nat>) {
    && tid in w.sys.threads && Story(w, run).Some?
    && var v := Story(w, run).value;
       Good(v) && Live(v.sys) == live && tid in v.sys.threads && v.sys.threads[tid] == w.sys.threads[tid]
  }

  lemma LeadsNowhere(w: World, tid: nat)
    requires Good(w) && tid in w.sys.threads
    ensures Leads(w, tid, [], Live(w.sys))
  {
    hide Good;
  }

  lemma LeadsFirst(w: World, tid: nat, e: Event, run: seq<Event>, live: map<Key, nat>)
    requires Consistent(w, e) && tid in w.sys.threads && Leads(After(w, e), tid, run, live)
    requires After(w, e).sys.threads[tid] == w.sys.threads[tid]
    ensures Leads(w, tid, [e] + run, live)
  {
    hide Good, Consistent, After;
    StoryOne(w, e);
    StoryThen(w, [e], run);
  }

  lemma LeadsOn(w: World, tid: nat, a: seq<Event>, mid: map<Key, nat>, b: seq<Event>, live: map<Key, nat>)
    requires Leads(w, tid, a, mid) && Leads(Story(w, a).value, tid, b, live)
    ensures Leads(w, tid, a + b, live)
  {
    hide Good;
    StoryThen(w, a, b);
  }

  /** An event of another thread that takes `k` is a story of its own. */
  lemma LeadsTake(w: World, tid: nat, e: Event, k: Key)
    requires Good(w) && tid in w.sys.threads && Consistent(w, e) && Takes(w.sys, e, k) && e.tid != tid
    ensures Leads(w, tid, [e] + [], Live(w.sys) - {k})
  {
    hide Flat, Lookup, Remove, Inv, Kept, Story;
    StepInv(w.sys, e);
    StepKept(w, e);
    TakesGone(w.sys, e, k);
    LeadsNowhere(After(w, e), tid);
    LeadsFirst(w, tid, e, [], Live(w.sys) - {k});
  }

  /** An event of another thread that leaves the manager alone. */
  lemma LeadsQuietly(w: World, tid: nat, e: Event)
    requires Good(w) && tid in w.sys.threads && Consistent(w, e)
    requires (e.CallService? || e.AwaitIO? || e.Cancel? || e.Delete? || e.ServiceDeleted?) && e.tid != tid
    ensures var v := After(w, e);
            && Good(v) && Live(v.sys) == Live(w.sys) && tid in v.sys.threads
            && v.sys.threads[tid] == w.sys.threads[tid]
  {
    hide Flat, Inv, Kept;
    StepInv(w.sys, e);
    StepKept(w, e);
  }

  lemma RollBackNow(w: World, tid: nat, x: nat, k: Key) returns (run: seq<Event>)
    requires Good(w) && tid in w.sys.threads && x != tid && IsCreating(w.sys, x) && w.sys.threads[x].key == k
    requires w.sys.threads[x].phase.Failing? || w.sys.threads[x].phase.RollingBack?
    ensures Leads(w, tid, run, Live(w.sys) - {k})
  {
    hide Flat, Inv, Kept, Story, Leads;
    if w.sys.threads[x].phase.RollingBack? {
      LeadsTake(w, tid, Rollback(x), k);
      run := [Rollback(x)] + [];
    } else {
      var v := After(w, Cancel(x));
      LeadsQuietly(w, tid, Cancel(x));
      LeadsTake(v, tid, Rollback(x), k);
      run := [Rollback(x)] + [];
      LeadsFirst(w, tid, Cancel(x), run, Live(w.sys) - {k});
      run := [Cancel(x)] + run;
    }
  }

  /** Thread `x` can still take `k`: its delete is at the manager, or its own call for `k` is not over. */
  predicate CanTake(s: Sys, x: nat, k: Key) {
    x in s.threads && s.threads[x].key == k &&
    match s.threads[x]
    case Deleting(_, atManager) => atManager
    case Creating(_, phase) => PidOf(phase).Some?
  }

  /** And it can do so now; if its call is still waiting for the service or for its IO, that fails. */
  lemma TakeNow(w: World, tid: nat, x: nat, k: Key) returns (run: seq<Event>)
    requires Good(w) && tid in w.sys.threads && x != tid && CanTake(w.sys, x, k)
    ensures Leads(w, tid, run, Live(w.sys) - {k})
  {
    hide Flat, Inv, Kept, Story, Leads;
    if w.sys.threads[x].Deleting? {
      LeadsTake(w, tid, DeleteFromManager(x), k);
      run := [DeleteFromManager(x)] + [];
    } else if w.sys.threads[x].phase.Registered? || w.sys.threads[x].phase.Called? {
      var e := if w.sys.threads[x].phase.Called? then AwaitIO(x, false) else CallService(x, false);
      var v := After(w, e);
      LeadsQuietly(w, tid, e);
      run := RollBackNow(v, tid, x, k);
      LeadsFirst(w, tid, e, run, Live(w.sys) - {k});
      run := [e] + run;
    } else {
      run := RollBackNow(w, tid, x, k);
    }
  }

  /** A process that the service has can be deleted by a new thread. */
  lemma DeleteNow(w: World, tid: nat, x: nat, k: Key) returns (run: seq<Event>)
    requires Good(w) && tid in w.sys.threads && x !in w.sys.threads && k in w.served
    ensures Leads(w, tid, run, Live(w.sys) - {k})
  {
    hide Flat, Inv, Kept, Story, Leads;
    var v := After(w, Delete(x, k));
    LeadsQuietly(w, tid, Delete(x, k));
    var u := After(v, ServiceDeleted(x, true));
    LeadsQuietly(v, tid, ServiceDeleted(x, true));
    LeadsTake(u, tid, DeleteFromManager(x), k);
    run := [DeleteFromManager(x)] + [];
    LeadsFirst(v, tid, ServiceDeleted(x, true), run, Live(w.sys) - {k});
    run := [ServiceDeleted(x, true)] + run;
    LeadsFirst(w, tid, Delete(x, k), run, Live(w.sys) - {k});
    run := [Delete(x, k)] + run;
  }

  /** The call of thread `tid` waits, and its process is not live. */
  ghost predicate Stranded(s: Sys, tid: nat) {
    Waits(s, tid) && forall k :: k in Live(s) ==> Live(s)[k] != s.threads[tid].phase.pid
  }

  lemma ClearOne(w: World, tid: nat, k: Key) returns (run: seq<Event>)
    requires Good(w) && Stranded(w.sys, tid) && k in Live(w.sys)
    ensures Leads(w, tid, run, Live(w.sys) - {k})
  {
    hide Flat, Inv, Story, Leads;
    if k in w.served {
      var x := Bound(w.sys.threads.Keys);
      run := DeleteNow(w, tid, x, k);
    } else {
      var x :| WillTake(w.sys, x, k, Live(w.sys)[k]);
      run := TakeNow(w, tid, x, k);
    }
  }

  /** Everything that is registered can be removed while a stranded call waits. */
  lemma {:induction false} ClearAll(w: World, tid: nat) returns (run: seq<Event>)
    requires Good(w) && Stranded(w.sys, tid)
    ensures Leads(w, tid, run, map[])
    decreases |Live(w.sys)|
  {
    hide Flat, Good, Story;
    if Live(w.sys) == map[] {
      run := [];
      LeadsNowhere(w, tid);
    } else {
      var k :| k in Live(w.sys);
      run := ClearOne(w, tid, k);
      var v := Story(w, run).value;
      assert Live(w.sys).Keys == Live(v.sys).Keys + {k};
      var rest := ClearAll(v, tid);
      LeadsOn(w, tid, run, Live(v.sys), rest, map[]);
      run := run + rest;
    }
  }

  // ---------------------------------------------------------------- late calls

  /** A story after which the manager is shut down while the call of thread `tid` still waits for the service. */
  ghost predicate LeadsToLateCall(u: World, tid: nat, later: seq<Event>) {
    && Story(u, later).Some?
    && var v := Story(u, later).value;
       v.sys.mgr.isShutdown && Waits(v.sys, tid)
  }

  lemma RemovedIsStranded(s: Sys, tid: nat)
    requires Inv(s) && Waits(s, tid) && s.threads[tid].phase.pid in s.removed
    ensures Stranded(s, tid)
  {
    hide Flat, NoEmptyTask;
    forall k | k in Live(s) ensures Live(s)[k] != s.threads[tid].phase.pid {
      assert IsLive(s, Live(s)[k]);
    }
  }

  lemma ShutdownNow(s: Sys)
    requires Inv(s) && Live(s) == map[]
    ensures Next(s, ShutdownIfEmpty).mgr.isShutdown
  {
    ShutdownIffEmpty(s);
  }

  lemma StrandedLate(u: World, tid: nat) returns (later: seq<Event>)
    requires Good(u) && Stranded(u.sys, tid)
    ensures LeadsToLateCall(u, tid, later)
  {
    hide Flat, Kept, Inv, Story;
    var run := ClearAll(u, tid);
    var v := Story(u, run).value;
    ShutdownNow(v.sys);
    StoryMore(u, run, v, ShutdownIfEmpty);
    later := run + [ShutdownIfEmpty];
  }

  /** Some other thread can still take the key of `tid`'s call. */
  ghost predicate HasRival(s: Sys, tid: nat)
    requires tid in s.threads
  {
    exists x :: x != tid && CanTake(s, x, s.threads[tid].key)
  }

  /** Removing a waiting call's own key leaves it stranded. */
  lemma OwnKeyTaken(u: World, tid: nat, run: seq<Event>) returns (later: seq<Event>)
    requires Good(u) && Waits(u.sys, tid) && Leads(u, tid, run, Live(u.sys) - {u.sys.threads[tid].key})
    ensures LeadsToLateCall(u, tid, later)
  {
    hide Flat, Good, Story;
    var v := Story(u, run).value;
    WaitsUnderKey(u, tid);
    var rest := StrandedLate(v, tid);
    StoryThen(u, run, rest);
    later := run + rest;
  }

  lemma WaitsUnderKey(u: World, tid: nat)
    requires Good(u) && Waits(u.sys, tid)
    ensures forall k :: k in Live(u.sys) && k != u.sys.threads[tid].key ==>
              Live(u.sys)[k] != u.sys.threads[tid].phase.pid
  {
    hide Flat, Kept, NoEmptyTask, ThreadsOk;
    PhaseOk(u.sys, tid);
  }

  /** The call's process is live, and nothing but the call itself can take it. */
  ghost predicate Secure(w: World, tid: nat) {
    && Waits(w.sys, tid) && w.sys.threads[tid].key !in w.served && !HasRival(w.sys, tid)
    && w.sys.threads[tid].key in Live(w.sys)
  }

  lemma StepSecure(w: World, e: Event, tid: nat)
    requires Inv(w.sys) && Secure(w, tid) && Consistent(w, e) && Waits(Next(w.sys, e), tid)
    ensures Secure(After(w, e), tid)
  {
    hide Flat, Inv, Add, Lookup, Remove, Shutdown;
    var k, v := w.sys.threads[tid].key, After(w, e);
    assert e.Rollback? || e.DeleteFromManager? || e.CallService? ==> e.tid == tid || !CanTake(w.sys, e.tid, k);
    StepLive(w.sys, e, k);
    LiveCannotAdd(w.sys, k);
    forall x | x != tid ensures !CanTake(v.sys, x, k) {
      assert !CanTake(w.sys, x, k);
    }
  }

  lemma LiveCannotAdd(s: Sys, k: Key)
    requires Inv(s) && k in Live(s)
    ensures !CanAdd(s.mgr, k)
  {
    hide Accounted, ThreadsOk;
    CanAddMeaning(s.mgr, k);
  }

  /** A call that has left its wait does not wait again. */
  lemma {:induction false} WaitsBefore(w: World, run: seq<Event>, tid: nat)
    requires Story(w, run).Some? && Waits(Story(w, run).value.sys, tid)
    requires IsCreating(w.sys, tid) && !w.sys.threads[tid].phase.Arrived?
    ensures Waits(w.sys, tid)
    decreases |run|
  {
    hide CanAdd, Add, Lookup, Remove, Shutdown;
    if run != [] {
      WaitsBefore(After(w, run[0]), run[1..], tid);
    }
  }

  lemma {:induction false} StorySecure(w: World, run: seq<Event>, tid: nat)
    requires Good(w) && Secure(w, tid) && Story(w, run).Some? && Waits(Story(w, run).value.sys, tid)
    ensures Secure(Story(w, run).value, tid) && Inv(Story(w, run).value.sys)
    decreases |run|
  {
    hide Inv, Kept, HasRival, Flat, CanAdd, Add, Lookup, Remove, Shutdown;
    if run != [] {
      StepInv(w.sys, run[0]);
      StepKept(w, run[0]);
      WaitsBefore(After(w, run[0]), run[1..], tid);
      StepSecure(w, run[0], tid);
      StorySecure(After(w, run[0]), run[1..], tid);
    }
  }

  lemma NoLateStory(u: World, tid: nat, later: seq<Event>)
    requires Good(u) && Secure(u, tid)
    ensures !LeadsToLateCall(u, tid, later)
  {
    hide Flat, Kept, Story, Accounted, NoEmptyTask, ThreadsOk, HasRival;
    if LeadsToLateCall(u, tid, later) {
      StorySecure(u, later, tid);
    }
  }

  /**
   * A call that waits may still reach the service after a shutdown exactly when its process was removed already,
   * or the service has a process of that name, or another thread can still take the key.
   */
  lemma LateCallIff(u: World, tid: nat)
    requires Good(u) && Waits(u.sys, tid)
    ensures (exists later :: LeadsToLateCall(u, tid, later))
       <==> u.sys.threads[tid].phase.pid in u.sys.removed || u.sys.threads[tid].key in u.served
              || HasRival(u.sys, tid)
  {
    hide Flat, Kept, Inv, Story, LeadsToLateCall, Leads, Secure;
    var k, pid := u.sys.threads[tid].key, u.sys.threads[tid].phase.pid;
    if pid in u.sys.removed {
      RemovedIsStranded(u.sys, tid);
      var later := StrandedLate(u, tid);
    } else if k in u.served {
      var x := Bound(u.sys.threads.Keys);
      var run := DeleteNow(u, tid, x, k);
      var later := OwnKeyTaken(u, tid, run);
    } else if HasRival(u.sys, tid) {
      var x :| x != tid && CanTake(u.sys, x, k);
      var run := TakeNow(u, tid, x, k);
      var later := OwnKeyTaken(u, tid, run);
    } else {
      WaiterSecure(u, tid);
      forall later ensures !LeadsToLateCall(u, tid, later) {
        NoLateStory(u, tid, later);
      }
    }
  }

  lemma WaiterSecure(u: World, tid: nat)
    requires Good(u) && Waits(u.sys, tid) && u.sys.threads[tid].phase.pid !in u.sys.removed
    requires u.sys.threads[tid].key !in u.served && !HasRival(u.sys, tid)
    ensures Secure(u, tid)
  {
    hide Flat, Kept, Inv, HasRival;
    PhaseOk(u.sys, tid);
    LiveOrRemoved(u.sys, u.sys.threads[tid].phase.pid);
  }

  /**
   * The same on runs, for a call that was registered after `w` and waits in `u`: its process was removed already
   * exactly when some delete or rollback has taken its key since.
   */
  lemma LateCallAfter(w: World, tid: nat, run: seq<Event>, u: World)
    requires Good(w) && Enabled(w.sys, Register(tid)) && CanAdd(w.sys.mgr, w.sys.threads[tid].key)
    requires Story(After(w, Register(tid)), run) == Some(u) && Waits(u.sys, tid)
    ensures Run(Next(w.sys, Register(tid)), run) == Some(u.sys)
    ensures (exists later :: LeadsToLateCall(u, tid, later))
       <==> !Undisturbed(Next(w.sys, Register(tid)), run, w.sys.threads[tid].key)
              || w.sys.threads[tid].key in u.served || HasRival(u.sys, tid)
  {
    hide Flat, Inv, Kept, CanAdd, Add, Undisturbed, Run, Story, IsLive, HasRival, LeadsToLateCall;
    var t, k, pid := After(w, Register(tid)), w.sys.threads[tid].key, |w.sys.keys|;
    RegisterLive(w.sys, tid);
    StoryIsRun(t, run);
    RunLiveIff(t.sys, run, pid);
    RunOwns(t.sys, run, tid, k, pid);
    StepKept(w, Register(tid));
    StoryGood(t, run);
    LateCallIff(u, tid);
  }

  /** The continuation does not itself remove the call's process. */
  ghost predicate LeavesAlone(u: World, tid: nat, later: seq<Event>)
    requires Waits(u.sys, tid) && Story(u, later).Some?
  {
    var pid := u.sys.threads[tid].phase.pid;
    pid in Story(u, later).value.sys.removed ==> pid in u.sys.removed
  }

  lemma AloneIsNotLate(u: World, tid: nat, later: seq<Event>)
    requires Good(u) && Waits(u.sys, tid) && u.sys.threads[tid].phase.pid !in u.sys.removed
    requires LeadsToLateCall(u, tid, later)
    ensures !LeavesAlone(u, tid, later)
  {
    hide Flat, Kept, Story, Accounted, NoEmptyTask, Run;
    var v, pid := Story(u, later).value.sys, u.sys.threads[tid].phase.pid;
    StoryIsRun(u, later);
    RunInv(u.sys, later);
    PhaseOk(u.sys, tid);
    RunKeys(u.sys, later);
    LiveOrRemoved(v, pid);
  }

  /**
   * Among the continuations that do not themselves remove the call's process, there is one with a late call exactly
   * when some delete or rollback has taken the key since the registration.
   */
  lemma StrandedIff(w: World, tid: nat, run: seq<Event>, u: World)
    requires Good(w) && Enabled(w.sys, Register(tid)) && CanAdd(w.sys.mgr, w.sys.threads[tid].key)
    requires Story(After(w, Register(tid)), run) == Some(u) && Waits(u.sys, tid)
    ensures Run(Next(w.sys, Register(tid)), run) == Some(u.sys)
    ensures (exists later :: LeadsToLateCall(u, tid, later) && LeavesAlone(u, tid, later))
       <==> !Undisturbed(Next(w.sys, Register(tid)), run, w.sys.threads[tid].key)
  {
    hide Flat, Inv, Kept, CanAdd, Add, Undisturbed, Run, Story, IsLive;
    var t, k, pid := After(w, Register(tid)), w.sys.threads[tid].key, |w.sys.keys|;
    RegisterLive(w.sys, tid);
    StoryIsRun(t, run);
    RunLiveIff(t.sys, run, pid);
    RunOwns(t.sys, run, tid, k, pid);
    StepKept(w, Register(tid));
    StoryGood(t, run);
    if pid in u.sys.removed {
      RemovedIsStranded(u.sys, tid);
      var later := StrandedLate(u, tid);
      assert LeavesAlone(u, tid, later);
    } else {
      forall later | LeadsToLateCall(u, tid, later) ensures !LeavesAlone(u, tid, later) {
        AloneIsNotLate(u, tid, later);
      }
    }
  }

  // ---------------------------------------------------------------- three runs

  /** The manager with one process. */
  function Holding(task: string, pid: nat): Manager<nat> { Manager(map[task := map["" := pid]], false) }

  lemma HoldingMeaning(k: Key, pid: nat)
    requires k.exec == ""
    ensures CanAdd(START.mgr, k) && Add(START.mgr, k, pid) == Holding(k.task, pid)
    ensures Lookup(Holding(k.task, pid), k) == Some(pid) && Remove(Holding(k.task, pid), k) == START.mgr
  {
    RemoveUndoesAdd(START.mgr, k, pid);
  }

  /** A task was created, its IO is not ready yet, and a delete has removed it from the service only. */
  function HalfDeleted(k: Key): World {
    World(Sys(Holding(k.task, 0), [k], [], {}, [0], map[0 := Creating(k, Called(0)), 1 := Deleting(k, true)]), {})
  }

  lemma StoryNothing(w: World)
    ensures Story(w, []) == Some(w)
  {
  }

  lemma StoryStep(w: World, run: seq<Event>, v: World, e: Event, u: World)
    requires Story(w, run) == Some(v) && Consistent(v, e) && After(v, e) == u
    ensures Story(w, run + [e]) == Some(u)
  {
    hide Consistent, After;
    StoryMore(w, run, v, e);
  }

  lemma HalfDeletedReachable(k: Key) returns (run: seq<Event>)
    requires k.exec == ""
    ensures Story(BEGIN, run) == Some(HalfDeleted(k))
  {
    hide CanAdd, Add, Lookup, Remove, Story;
    HoldingMeaning(k, 0);
    var s1 := START.(threads := map[0 := Creating(k, Arrived)]);
    var s2 := Sys(Holding(k.task, 0), [k], [], {}, [], map[0 := Creating(k, Registered(0))]);
    var s3 := s2.(calls := [0], threads := map[0 := Creating(k, Called(0))]);
    var s4 := s3.(threads := map[0 := Creating(k, Called(0)), 1 := Deleting(k, false)]);
    run := [];
    StoryNothing(BEGIN);
    StoryStep(BEGIN, run, BEGIN, Create(0, k), World(s1, {}));
    run := run + [Create(0, k)];
    StoryStep(BEGIN, run, World(s1, {}), Register(0), World(s2, {}));
    run := run + [Register(0)];
    StoryStep(BEGIN, run, World(s2, {}), CallService(0, true), World(s3, {k}));
    run := run + [CallService(0, true)];
    StoryStep(BEGIN, run, World(s3, {k}), Delete(1, k), World(s4, {k}));
    run := run + [Delete(1, k)];
    StoryStep(BEGIN, run, World(s4, {k}), ServiceDeleted(1, true), HalfDeleted(k));
    run := run + [ServiceDeleted(1, true)];
  }

  /** The create rolled back for want of its IO, while the delete is still under way. */
  function RolledBack(k: Key): World {
    World(Sys(START.mgr, [k], [0], {0}, [0], map[0 := Creating(k, Finished(false)), 1 := Deleting(k, true)]), {})
  }

  lemma RolledBackReachable(k: Key) returns (run: seq<Event>)
    requires k.exec == ""
    ensures Story(BEGIN, run) == Some(RolledBack(k))
  {
    hide CanAdd, Add, Lookup, Remove, Story;
    HoldingMeaning(k, 0);
    run := HalfDeletedReachable(k);
    var s0, d := HalfDeleted(k).sys, Deleting(k, true);
    var s1 := s0.(threads := map[0 := Creating(k, Failing(0)), 1 := d]);
    var s2 := s0.(cancelled := {0}, threads := map[0 := Creating(k, RollingBack(0)), 1 := d]);
    StoryStep(BEGIN, run, World(s0, {}), AwaitIO(0, false), World(s1, {}));
    run := run + [AwaitIO(0, false)];
    StoryStep(BEGIN, run, World(s1, {}), Cancel(0), World(s2, {}));
    run := run + [Cancel(0)];
    StoryStep(BEGIN, run, World(s2, {}), Rollback(0), RolledBack(k));
    run := run + [Rollback(0)];
  }

  /** Another create took its place. */
  function Recreated(k: Key): World {
    World(Sys(Holding(k.task, 1), [k, k], [0], {0}, [0],
              map[0 := Creating(k, Finished(false)), 1 := Deleting(k, true), 2 := Creating(k, Registered(1))]), {})
  }

  lemma RecreatedReachable(k: Key) returns (run: seq<Event>)
    requires k.exec == ""
    ensures Story(BEGIN, run) == Some(Recreated(k))
  {
    hide CanAdd, Add, Lookup, Remove, Story;
    HoldingMeaning(k, 1);
    run := RolledBackReachable(k);
    var s0 := RolledBack(k).sys;
    var s1 := s0.(threads := s0.threads[2 := Creating(k, Arrived)]);
    StoryStep(BEGIN, run, World(s0, {}), Create(2, k), World(s1, {}));
    run := run + [Create(2, k)];
    assert s1.threads[2 := Creating(k, Registered(1))] == Recreated(k).sys.threads;
    assert s1.keys + [k] == [k, k];
    StoryStep(BEGIN, run, World(s1, {}), Register(2), Recreated(k));
    run := run + [Register(2)];
  }

  /** A delete of a process that is gone removes a later, healthy process of the same key. */
  lemma DeleteTakesAnother(k: Key) returns (run: seq<Event>, w: World)
    requires k.exec == ""
    ensures Story(BEGIN, run) == Some(w) && run != [] && run[|run| - 1] == DeleteFromManager(1)
    ensures w.sys.keys == [k, k] && w.sys.removed == [0, 1] && 1 !in w.sys.cancelled && w.sys.mgr == START.mgr
    ensures w.sys.calls == [0] && w.served == {}
    ensures w.sys.threads == map[0 := Creating(k, Finished(false)), 2 := Creating(k, Registered(1))]
  {
    hide CanAdd, Add, Lookup, Remove, Story;
    HoldingMeaning(k, 1);
    run := RecreatedReachable(k);
    var s := Recreated(k).sys;
    w := World(s.(mgr := START.mgr, removed := [0, 1],
                  threads := map[0 := Creating(k, Finished(false)), 2 := Creating(k, Registered(1))]), {});
    assert [0] + [1] == [0, 1];
    assert s.threads - {1} == w.sys.threads;
    StoryStep(BEGIN, run, Recreated(k), DeleteFromManager(1), w);
    run := run + [DeleteFromManager(1)];
  }

  /** Then the manager can shut down, and the healthy create reaches the task service afterwards. */
  lemma LateCall(k: Key) returns (run: seq<Event>, w: World)
    requires k.exec == ""
    ensures Story(BEGIN, run) == Some(w) && w.sys.mgr.isShutdown && w.sys.calls == [0]
    ensures Consistent(w, CallService(2, true)) && After(w, CallService(2, true)).sys.calls == [0, 1]
  {
    hide Story;
    var v;
    run, v := DeleteTakesAnother(k);
    w := After(v, ShutdownIfEmpty);
    StoryStep(BEGIN, run, v, ShutdownIfEmpty, w);
    run := run + [ShutdownIfEmpty];
  }

  /** The delete went through and the task was created again, before the first create has its IO. */
  function Replaced(k: Key): World {
    World(Sys(Holding(k.task, 1), [k, k], [0], {}, [0],
              map[0 := Creating(k, Called(0)), 2 := Creating(k, Registered(1))]), {})
  }

  lemma ReplacedReachable(k: Key) returns (run: seq<Event>)
    requires k.exec == ""
    ensures Story(BEGIN, run) == Some(Replaced(k))
  {
    hide CanAdd, Add, Lookup, Remove, Story;
    HoldingMeaning(k, 0);
    HoldingMeaning(k, 1);
    run := HalfDeletedReachable(k);
    var s0 := HalfDeleted(k).sys;
    var s1 := Sys(START.mgr, [k], [0], {}, [0], map[0 := Creating(k, Called(0))]);
    var s2 := s1.(threads := s1.threads[2 := Creating(k, Arrived)]);
    assert s0.threads - {1} == s1.threads;
    StoryStep(BEGIN, run, World(s0, {}), DeleteFromManager(1), World(s1, {}));
    run := run + [DeleteFromManager(1)];
    StoryStep(BEGIN, run, World(s1, {}), Create(2, k), World(s2, {}));
    run := run + [Create(2, k)];
    assert s2.threads[2 := Creating(k, Registered(1))] == Replaced(k).sys.threads;
    assert s2.keys + [k] == [k, k];
    StoryStep(BEGIN, run, World(s2, {}), Register(2), Replaced(k));
    run := run + [Register(2)];
  }

  /** The first create fails for want of its IO. */
  function Doomed(k: Key): World {
    World(Replaced(k).sys.(cancelled := {0},
            threads := map[0 := Creating(k, RollingBack(0)), 2 := Creating(k, Registered(1))]), {})
  }

  lemma DoomedReachable(k: Key) returns (run: seq<Event>)
    requires k.exec == ""
    ensures Story(BEGIN, run) == Some(Doomed(k))
  {
    hide CanAdd, Add, Lookup, Remove, Story;
    run := ReplacedReachable(k);
    var s0, other := Replaced(k).sys, Creating(k, Registered(1));
    var s1 := s0.(threads := map[0 := Creating(k, Failing(0)), 2 := other]);
    StoryStep(BEGIN, run, World(s0, {}), AwaitIO(0, false), World(s1, {}));
    run := run + [AwaitIO(0, false)];
    StoryStep(BEGIN, run, World(s1, {}), Cancel(0), Doomed(k));
    run := run + [Cancel(0)];
  }

  /** A rollback removes a later, healthy process of the same key. */
  lemma RollbackTakesAnother(k: Key) returns (run: seq<Event>, w: World)
    requires k.exec == ""
    ensures Story(BEGIN, run) == Some(w) && run != [] && run[|run| - 1] == Rollback(0)
    ensures w.sys.keys == [k, k] && w.sys.removed == [0, 1] && 1 !in w.sys.cancelled && w.sys.mgr == START.mgr
    ensures w.sys.threads == map[0 := Creating(k, Finished(false)), 2 := Creating(k, Registered(1))]
  {
    hide CanAdd, Add, Lookup, Remove, Story;
    HoldingMeaning(k, 1);
    run := DoomedReachable(k);
    w := World(Doomed(k).sys.(mgr := START.mgr, removed := [0, 1],
                  threads := map[0 := Creating(k, Finished(false)), 2 := Creating(k, Registered(1))]), {});
    assert [0] + [1] == [0, 1];
    StoryStep(BEGIN, run, Doomed(k), Rollback(0), w);
    run := run + [Rollback(0)];
  }
}
