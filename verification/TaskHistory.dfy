/** What the answers of create, exec and delete say about the events of the run that led to them. */
module TaskHistory {
  import opened Options
  import opened TaskManager
  import opened TaskRuns

  // ---------------------------------------------------------------- what a thread has done

  ghost predicate WasCalled(past: seq<Event>, tid: nat) {
    CallService(tid, true) in past || CallService(tid, false) in past
  }

  /** The service created the process and its IO was initialized. */
  ghost predicate WentWell(past: seq<Event>, tid: nat) {
    && CallService(tid, true) in past && CallService(tid, false) !in past
    && AwaitIO(tid, true) in past && AwaitIO(tid, false) !in past
  }

  /** The service failed, or it did not and the IO did. */
  ghost predicate WentWrong(past: seq<Event>, tid: nat) {
    && (CallService(tid, true) in past <==> CallService(tid, false) !in past)
    && (AwaitIO(tid, false) in past <==> CallService(tid, true) in past)
    && AwaitIO(tid, true) !in past
  }

  ghost predicate Untouched(past: seq<Event>, tid: nat) {
    && !WasCalled(past, tid) && AwaitIO(tid, true) !in past && AwaitIO(tid, false) !in past
    && Cancel(tid) !in past && Rollback(tid) !in past
  }

  /** How the phase of a call shows in the past. */
  ghost predicate PhaseShows(past: seq<Event>, tid: nat, phase: Phase) {
    match phase
    case Arrived => Untouched(past, tid)
    case Registered(_) => Untouched(past, tid)
    case Called(_) =>
      && CallService(tid, true) in past && CallService(tid, false) !in past
      && AwaitIO(tid, true) !in past && AwaitIO(tid, false) !in past
      && Cancel(tid) !in past && Rollback(tid) !in past
    case Failing(_) => WentWrong(past, tid) && Cancel(tid) !in past && Rollback(tid) !in past
    case RollingBack(_) => WentWrong(past, tid) && Cancel(tid) in past && Rollback(tid) !in past
    case Finished(ok) =>
      if ok then WentWell(past, tid) && Cancel(tid) !in past && Rollback(tid) !in past
      else Untouched(past, tid) || (WentWrong(past, tid) && Cancel(tid) in past && Rollback(tid) in past)
  }

  ghost predicate ThreadShows(s: Sys, past: seq<Event>, tid: nat) {
    && (IsCreating(s, tid) ==> PhaseShows(past, tid, s.threads[tid].phase))
    && (!IsCreating(s, tid) ==> Untouched(past, tid))
    && (IsDeleting(s, tid) && s.threads[tid].atManager ==> ServiceDeleted(tid, true) in past)
  }

  ghost predicate Shows(s: Sys, past: seq<Event>) {
    forall tid :: ThreadShows(s, past, tid)
  }

  lemma OtherShows(s: Sys, past: seq<Event>, e: Event, tid: nat)
    requires Enabled(s, e) && ThreadShows(s, past, tid) && !IsStepOf(e, tid)
    ensures ThreadShows(Next(s, e), past + [e], tid)
  {
    hide CanAdd, Add, Lookup, Remove, Shutdown;
    SameThread(s, e, tid);
    hide Next, Enabled;
    SamePast(past, e, tid);
  }

  /** The event is one of thread `tid`. */
  predicate IsStepOf(e: Event, tid: nat) { !e.Exit? && !e.ShutdownIfEmpty? && e.tid == tid }

  lemma SameThread(s: Sys, e: Event, tid: nat)
    requires Enabled(s, e) && !IsStepOf(e, tid)
    ensures tid in Next(s, e).threads <==> tid in s.threads
    ensures tid in s.threads ==> Next(s, e).threads[tid] == s.threads[tid]
  {
    hide CanAdd, Add, Lookup, Remove, Shutdown;
  }

  lemma SamePast(past: seq<Event>, e: Event, tid: nat)
    requires !IsStepOf(e, tid)
    ensures forall f :: IsStepOf(f, tid) ==> (f in past + [e] <==> f in past)
  {
  }

  lemma OwnShows(s: Sys, past: seq<Event>, e: Event)
    requires Enabled(s, e) && !e.Exit? && !e.ShutdownIfEmpty? && ThreadShows(s, past, e.tid)
    ensures ThreadShows(Next(s, e), past + [e], e.tid)
  {
    hide CanAdd, Add, Lookup, Remove, Shutdown;
    var after := past + [e];
    assert forall f :: f in after <==> f in past || f == e;
  }

  lemma StepShows(s: Sys, past: seq<Event>, e: Event)
    requires Shows(s, past) && Enabled(s, e)
    ensures Shows(Next(s, e), past + [e])
  {
    hide Next, Enabled, ThreadShows;
    forall tid ensures ThreadShows(Next(s, e), past + [e], tid) {
      if IsStepOf(e, tid) {
        OwnShows(s, past, e);
      } else {
        OtherShows(s, past, e, tid);
      }
    }
  }

  lemma {:induction false} RunShows(s: Sys, past: seq<Event>, run: seq<Event>)
    requires Shows(s, past) && Run(s, run).Some?
    ensures Shows(Run(s, run).value, past + run)
    decreases |run|
  {
    hide Shows;
    if run == [] {
      assert past + run == past;
    } else {
      StepShows(s, past, run[0]);
      RunShows(Next(s, run[0]), past + [run[0]], run[1..]);
      assert past + [run[0]] + run[1..] == past + run;
    }
  }

  /**
   * What a create or exec answers, in every interleaving: success exactly when its IO was initialized, which is only
   * awaited after the service created the process; and an error either without ever reaching the service, or after
   * the service or the IO failed, the context was cancelled and the registration rolled back.
   */
  lemma Answers(run: seq<Event>, s: Sys, tid: nat)
    requires Run(START, run) == Some(s) && IsCreating(s, tid) && s.threads[tid].phase.Finished?
    ensures s.threads[tid].phase.ok <==> AwaitIO(tid, true) in run
    ensures s.threads[tid].phase.ok <==> WentWell(run, tid)
    ensures !s.threads[tid].phase.ok && WasCalled(run, tid) ==>
              WentWrong(run, tid) && Cancel(tid) in run && Rollback(tid) in run
    ensures s.threads[tid].phase.ok || !WasCalled(run, tid) ==> Cancel(tid) !in run && Rollback(tid) !in run
  {
    hide Run, Next;
    RunShows(START, [], run);
    assert [] + run == run;
    assert ThreadShows(s, run, tid);
  }

  /** A delete reaches the manager only after the service deleted the process. */
  lemma DeletesInOrder(run: seq<Event>, s: Sys, tid: nat)
    requires Run(START, run) == Some(s) && Enabled(s, DeleteFromManager(tid))
    ensures ServiceDeleted(tid, true) in run
  {
    hide Run, Next;
    RunShows(START, [], run);
    assert [] + run == run;
    assert ThreadShows(s, run, tid);
  }

  // ---------------------------------------------------------------- contexts, and deletes that fail

  /** Which contexts are cancelled: those of processes that exited, and of calls that are being undone. */
  ghost predicate Cancels(s: Sys, past: seq<Event>) {
    && (forall pid :: Exit(pid) in past ==> pid in s.cancelled)
    && (forall pid :: pid in s.cancelled ==> Exit(pid) in past || WasCancelled(past, s, pid))
  }

  /** A call for the key of the process was cancelled. */
  ghost predicate WasCancelled(past: seq<Event>, s: Sys, pid: nat) {
    pid < |s.keys| && exists tid :: Cancel(tid) in past && IsCreating(s, tid) && s.threads[tid].key == s.keys[pid]
  }

  lemma StepCancels(s: Sys, past: seq<Event>, e: Event)
    requires Inv(s) && Cancels(s, past) && Enabled(s, e)
    ensures Cancels(Next(s, e), past + [e])
  {
    hide Flat, CanAdd, Add, Lookup, Remove, Shutdown, Accounted, NoEmptyTask;
    var s' := Next(s, e);
    StepKeys(s, e);
    if e.Cancel? { PhaseOk(s, e.tid); }
    forall pid | pid in s'.cancelled ensures Exit(pid) in past + [e] || WasCancelled(past + [e], s', pid) {
      if pid !in s.cancelled {
        if e.Cancel? { assert e in past + [e] && WasCancelled(past + [e], s', pid); }
      } else if Exit(pid) !in past {
        var tid :| Cancel(tid) in past && IsCreating(s, tid) && s.threads[tid].key == s.keys[pid];
        assert Cancel(tid) in past + [e] && IsCreating(s', tid) && s'.threads[tid].key == s'.keys[pid];
      }
    }
  }

  lemma {:induction false} RunCancels(s: Sys, past: seq<Event>, run: seq<Event>)
    requires Inv(s) && Cancels(s, past) && Run(s, run).Some?
    ensures Cancels(Run(s, run).value, past + run)
    decreases |run|
  {
    hide Inv, Cancels;
    if run == [] {
      assert past + run == past;
    } else {
      StepInv(s, run[0]);
      StepCancels(s, past, run[0]);
      RunCancels(Next(s, run[0]), past + [run[0]], run[1..]);
      assert past + [run[0]] + run[1..] == past + run;
    }
  }

  /** In every run a process's context is cancelled when it exits, and otherwise only by a call for its key. */
  lemma Contexts(run: seq<Event>)
    requires Run(START, run).Some?
    ensures Cancels(Run(START, run).value, run)
  {
    StartInv();
    assert Cancels(START, []);
    hide Inv, Cancels, Next, Enabled;
    RunCancels(START, [], run);
    assert [] + run == run;
  }

  /** A delete that the service refuses is over, and has changed nothing else. */
  lemma FailedDelete(s: Sys, tid: nat)
    requires Enabled(s, ServiceDeleted(tid, false))
    ensures var s' := Next(s, ServiceDeleted(tid, false)); tid !in s'.threads && s' == s.(threads := s'.threads)
    ensures forall t :: t != tid && t in s.threads ==>
              t in Next(s, ServiceDeleted(tid, false)).threads
              && Next(s, ServiceDeleted(tid, false)).threads[t] == s.threads[t]
  {
  }

  /** A create or exec that is not over can always go on, whether its next step goes well or not. */
  lemma NeverStuck(s: Sys, tid: nat, ok: bool) returns (e: Event)
    requires IsBusy(s, tid)
    ensures Enabled(s, e) && IsStepOf(e, tid) && (e.CallService? || e.AwaitIO? ==> e.ok == ok)
  {
    e := match s.threads[tid].phase
      case Arrived => Register(tid)
      case Registered(_) => CallService(tid, ok)
      case Called(_) => AwaitIO(tid, ok)
      case Failing(_) => Cancel(tid)
      case RollingBack(_) => Rollback(tid)
      case Finished(_) => ShutdownIfEmpty;
  }

  /** Nor can a delete be stuck, whether the service deletes the process or not. */
  lemma DeleteNeverStuck(s: Sys, tid: nat, ok: bool) returns (e: Event)
    requires IsDeleting(s, tid)
    ensures Enabled(s, e) && IsStepOf(e, tid) && (e.ServiceDeleted? ==> e.ok == ok)
  {
    e := if s.threads[tid].atManager then DeleteFromManager(tid) else ServiceDeleted(tid, ok);
  }

  // ---------------------------------------------------------------- registration

  /**
   * A registration succeeds exactly when the manager is open, the key is new, and an exec's task has a process. If it
   * does not, the call is over with an error, and nothing else has changed.
   */
  lemma RegisterMeaning(s: Sys, tid: nat)
    requires NoEmptyTask(s.mgr) && Enabled(s, Register(tid))
    ensures var s', k := Next(s, Register(tid)), s.threads[tid].key;
            if !s.mgr.isShutdown && k !in Live(s) && (k.exec == "" || exists e :: Key(k.task, e) in Live(s)) then
              && Live(s') == Live(s)[k := |s.keys|] && s'.keys == s.keys + [k] && !s'.mgr.isShutdown
              && s'.threads == s.threads[tid := Creating(k, Registered(|s.keys|))]
              && s'.calls == s.calls && s'.removed == s.removed && s'.cancelled == s.cancelled
            else
              s' == s.(threads := s.threads[tid := Creating(k, Finished(false))])
  {
    var k := s.threads[tid].key;
    CanAddMeaning(s.mgr, k);
    if CanAdd(s.mgr, k) {
      AddRefines(s.mgr, k, |s.keys|);
      AddOpen(s.mgr, k, |s.keys|);
    }
    hide Flat, Add, CanAdd;
  }

  // ---------------------------------------------------------------- the service is asked once

  /** No process is in `calls` twice, and none whose call is still waiting is there. */
  ghost predicate CalledOnce(s: Sys) {
    && (forall i :: 0 <= i < |s.calls| ==> s.calls[i] < |s.keys|)
    && (forall i, j :: 0 <= i < j < |s.calls| ==> s.calls[i] != s.calls[j])
    && (forall tid :: Waits(s, tid) ==> s.threads[tid].phase.pid !in s.calls)
  }

  lemma StepCalledOnce(s: Sys, e: Event)
    requires Inv(s) && DistinctPids(s) && CalledOnce(s) && Enabled(s, e)
    ensures CalledOnce(Next(s, e))
  {
    hide Flat, CanAdd, Add, Lookup, Remove, Shutdown, Accounted, NoEmptyTask;
    var s' := Next(s, e);
    if e.CallService? { PhaseOk(s, e.tid); }
    StepKeys(s, e);
    forall tid | Waits(s', tid) ensures s'.threads[tid].phase.pid !in s'.calls {
      if e != Register(tid) {
        assert Waits(s, tid) && PidAt(s, tid) == Some(s.threads[tid].phase.pid);
        if e.CallService? { assert PidAt(s, e.tid) == Some(s.threads[e.tid].phase.pid); }
      }
    }
  }

  lemma {:induction false} RunCalledOnce(s: Sys, run: seq<Event>)
    requires Inv(s) && DistinctPids(s) && CalledOnce(s) && Run(s, run).Some?
    ensures CalledOnce(Run(s, run).value)
    decreases |run|
  {
    hide Inv, DistinctPids, CalledOnce;
    if run != [] {
      StepInv(s, run[0]);
      NewPids(s, run[0]);
      StepCalledOnce(s, run[0]);
      RunCalledOnce(Next(s, run[0]), run[1..]);
    }
  }

  /** The service is asked at most once to create each registered process. */
  lemma AskedOnce(run: seq<Event>)
    requires Run(START, run).Some?
    ensures var s := Run(START, run).value;
            && (forall i :: 0 <= i < |s.calls| ==> s.calls[i] < |s.keys|)
            && (forall i, j :: 0 <= i < j < |s.calls| ==> s.calls[i] != s.calls[j])
  {
    StartInv();
    RunCalledOnce(START, run);
  }
}
