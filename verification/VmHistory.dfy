/** What the state of a VM says about the events of the run that led to it. */
module VmHistory {
  import opened Options
  import opened VmLifecycle

  // ---------------------------------------------------------------- what a thread has done

  /** No stage of creating the VM failed in thread `tid`. */
  ghost predicate NoneFailed(past: seq<Event>, tid: nat) {
    && BuildMachine(tid, false) !in past && StartMachine(tid, false) !in past
    && Dial(tid, false) !in past && MountDrive(tid, false) !in past
  }

  ghost predicate GoesWell(past: seq<Event>, tid: nat) {
    NoneFailed(past, tid) && EnterCreate(tid) in past
  }

  ghost predicate NoStages(past: seq<Event>, tid: nat) {
    && NoneFailed(past, tid)
    && BuildMachine(tid, true) !in past && StartMachine(tid, true) !in past
    && Dial(tid, true) !in past && MountDrive(tid, true) !in past
  }

  /** The machine runs and the agent answers. */
  ghost predicate IsUp(past: seq<Event>, tid: nat) {
    BuildMachine(tid, true) in past && StartMachine(tid, true) in past && Dial(tid, true) in past
  }

  ghost predicate CreateShows(past: seq<Event>, tid: nat, p: CreatePhase) {
    match p
    case Arrived => NoStages(past, tid) && EnterCreate(tid) !in past
    case Refused => NoStages(past, tid) && EnterCreate(tid) !in past
    case BuildingMachine => NoStages(past, tid) && EnterCreate(tid) in past
    case StartingMachine => GoesWell(past, tid) && BuildMachine(tid, true) in past
    case Dialing => GoesWell(past, tid) && BuildMachine(tid, true) in past && StartMachine(tid, true) in past
    case Mounting => GoesWell(past, tid) && IsUp(past, tid)
    case PublishingStart => GoesWell(past, tid) && IsUp(past, tid)
    case Spawning => GoesWell(past, tid) && IsUp(past, tid) && PublishStart(tid) in past
    case ClosingReady => GoesWell(past, tid) && IsUp(past, tid) && PublishStart(tid) in past
    case Created => GoesWell(past, tid) && IsUp(past, tid) && PublishStart(tid) in past && CloseReady(tid) in past
    case Broken => !NoneFailed(past, tid) && EnterCreate(tid) in past
  }

  /** The faults of a cleanup: whether closing the jailer failed, and whether publishing the stop event did. */
  ghost predicate FaultsShow(past: seq<Event>, tid: nat, errs: seq<Fault>) {
    errs == (if CloseJailer(tid, false) in past then [JailerFault] else [])
          + (if PublishStop(tid, false) in past then [PublishFault] else [])
  }

  ghost predicate NoCleanup(past: seq<Event>, tid: nat) {
    && CloseJailer(tid, true) !in past && CloseJailer(tid, false) !in past
    && PublishStop(tid, true) !in past && PublishStop(tid, false) !in past
  }

  ghost predicate CloseShows(past: seq<Event>, tid: nat, p: ClosePhase) {
    match p
    case AwaitingReady => NoCleanup(past, tid)
    case AwaitingExit => NoCleanup(past, tid)
    case AtCleanup => NoCleanup(past, tid)
    case ClosingJailer => NoCleanup(past, tid)
    case PublishingStop(errs) =>
      && FaultsShow(past, tid, errs)
      && (CloseJailer(tid, true) in past <==> CloseJailer(tid, false) !in past)
      && PublishStop(tid, true) !in past && PublishStop(tid, false) !in past
    case Finishing(errs) =>
      && FaultsShow(past, tid, errs)
      && (CloseJailer(tid, true) in past <==> CloseJailer(tid, false) !in past)
      && (PublishStop(tid, true) in past <==> PublishStop(tid, false) !in past)
    case Returned(_) => true
    case TimedOut => ReadyTimeout(tid) in past && NoCleanup(past, tid)
  }

  ghost predicate ThreadShows(vm: Vm, past: seq<Event>, tid: nat) {
    if tid !in vm.threads then NoStages(past, tid) && NoCleanup(past, tid) && EnterCreate(tid) !in past
    else
      match vm.threads[tid]
      case Creating(p) => CreateShows(past, tid, p) && NoCleanup(past, tid) && (p.Broken? ==> vm.startOnce == Ran(tid))
      case Closing(_, p) => CloseShows(past, tid, p) && NoStages(past, tid) && EnterCreate(tid) !in past
  }

  /** How many drives were mounted. */
  ghost function Mounts(past: seq<Event>): nat {
    if past == [] then 0
    else Mounts(past[..|past| - 1]) + (if past[|past| - 1].MountDrive? && past[|past| - 1].ok then 1 else 0)
  }

  ghost predicate GlobalShows(vm: Vm, past: seq<Event>) {
    && vm.mounted == Mounts(past)
    && (vm.readyCloses == 1 ==> vm.startOnce.Ran? && IsAt(vm, vm.startOnce.tid, Created))
    && (vm.cleanupOnce.Ran? ==> FaultsShow(past, vm.cleanupOnce.tid, vm.cleanupErr))
    && (vm.startAttempted <==> exists tid :: PublishStart(tid) in past)
  }

  ghost predicate Shows(vm: Vm, past: seq<Event>) {
    GlobalShows(vm, past) && forall tid :: ThreadShows(vm, past, tid)
  }

  // ---------------------------------------------------------------- one step

  lemma InMore(past: seq<Event>, e: Event, f: Event)
    ensures f in past + [e] <==> f in past || f == e
  {
  }

  lemma StagesMore(past: seq<Event>, e: Event, tid: nat)
    requires e.tid != tid
    ensures NoneFailed(past + [e], tid) == NoneFailed(past, tid) && NoStages(past + [e], tid) == NoStages(past, tid)
    ensures IsUp(past + [e], tid) == IsUp(past, tid)
  {
  }

  lemma CreateMore(past: seq<Event>, e: Event, tid: nat, p: CreatePhase)
    requires e.tid != tid
    ensures CreateShows(past + [e], tid, p) == CreateShows(past, tid, p)
  {
    StagesMore(past, e, tid);
    hide NoneFailed, NoStages, IsUp;
  }

  lemma CleanupMore(past: seq<Event>, e: Event, tid: nat)
    requires e.tid != tid
    ensures NoCleanup(past + [e], tid) == NoCleanup(past, tid)
    ensures forall errs :: FaultsShow(past + [e], tid, errs) == FaultsShow(past, tid, errs)
  {
  }

  lemma CloseMore(past: seq<Event>, e: Event, tid: nat, p: ClosePhase)
    requires e.tid != tid
    ensures CloseShows(past + [e], tid, p) == CloseShows(past, tid, p)
  {
    CleanupMore(past, e, tid);
    hide NoCleanup, FaultsShow;
  }

  lemma BrokenStays(req: Request, vm: Vm, e: Event, tid: nat)
    requires Inv(req, vm) && Enabled(req, vm, e) && vm.startOnce == Ran(tid)
    ensures Next(req, vm, e).startOnce == Ran(tid)
  {
    assert ThreadOk(req, vm, e.tid);
  }

  lemma OtherShows(req: Request, vm: Vm, past: seq<Event>, e: Event, tid: nat)
    requires Inv(req, vm) && Enabled(req, vm, e) && ThreadShows(vm, past, tid) && e.tid != tid
    ensures ThreadShows(Next(req, vm, e), past + [e], tid)
  {
    if vm.startOnce == Ran(tid) { BrokenStays(req, vm, e, tid); }
    StagesMore(past, e, tid);
    CleanupMore(past, e, tid);
    var vm' := Next(req, vm, e);
    hide Next, Enabled, Inv, NoStages, NoCleanup, CreateShows, CloseShows;
    if tid in vm.threads {
      assert tid in vm'.threads && vm'.threads[tid] == vm.threads[tid];
      match vm.threads[tid]
      case Creating(p) => CreateMore(past, e, tid, p);
      case Closing(_, p) => CloseMore(past, e, tid, p);
    } else if tid in vm'.threads {
      assert vm'.threads[tid] == Closing(Monitor, AwaitingExit);
      FreshClose(past + [e], tid);
    }
  }

  lemma FreshClose(past: seq<Event>, tid: nat)
    ensures CloseShows(past, tid, AwaitingExit) == NoCleanup(past, tid)
  {
  }

  /** A stage that went well leads to `p`, one that failed to the end of the call. */
  lemma StageShows(vm: Vm, past: seq<Event>, e: Event, t: nat, ok: bool, after: Vm, p: CreatePhase)
    requires NoCleanup(past, t) && e.tid == t && (e.BuildMachine? || e.StartMachine? || e.Dial? || e.MountDrive?)
    requires EnterCreate(t) in past && e.ok == ok
    requires ok ==> CreateShows(past + [e], t, p) && !p.Broken?
    ensures ThreadShows(Stage(vm, t, ok, after, p), past + [e], t)
  {
    assert EnterCreate(t) in past + [e] && e in past + [e];
    CleanupSame(past, e, t);
    hide NoCleanup;
    if !ok {
      assert !NoneFailed(past + [e], t);
    }
  }

  lemma CleanupSame(past: seq<Event>, e: Event, tid: nat)
    requires !e.CloseJailer? && !e.PublishStop?
    ensures NoCleanup(past + [e], tid) == NoCleanup(past, tid)
  {
  }

  lemma StagesSame(past: seq<Event>, e: Event, tid: nat)
    requires !e.BuildMachine? && !e.StartMachine? && !e.Dial? && !e.MountDrive?
    ensures NoneFailed(past + [e], tid) == NoneFailed(past, tid) && NoStages(past + [e], tid) == NoStages(past, tid)
    ensures IsUp(past + [e], tid) == IsUp(past, tid)
  {
  }

  lemma StagesNone(past: seq<Event>, tid: nat)
    requires NoStages(past, tid)
    ensures NoneFailed(past, tid)
  {
  }

  /** What a stage that goes well adds to the past. */
  lemma StageWell(past: seq<Event>, e: Event, t: nat)
    requires GoesWell(past, t)
    requires e in [BuildMachine(t, true), StartMachine(t, true), Dial(t, true), MountDrive(t, true)]
    ensures GoesWell(past + [e], t) && e in past + [e]
    ensures forall f :: f in past ==> f in past + [e]
  {
  }

  lemma OwnStageShows(req: Request, vm: Vm, past: seq<Event>, e: Event)
    requires Enabled(req, vm, e) && ThreadShows(vm, past, e.tid) && IsStage(e)
    ensures ThreadShows(Next(req, vm, e), past + [e], e.tid)
  {
    StagesNoneIf(past, e.tid);
    hide NoneFailed, NoStages, NoCleanup, Stage;
    if e.ok { StageWell(past, e, e.tid); }
    match e
    case BuildMachine(t, ok) => StageShows(vm, past, e, t, ok, vm.(machineSet := true), StartingMachine);
    case StartMachine(t, ok) => StageShows(vm, past, e, t, ok, vm, Dialing);
    case Dial(t, ok) => StageShows(vm, past, e, t, ok, vm.(clientsSet := true), Mounting);
    case MountDrive(t, ok) => StageShows(vm, past, e, t, ok, vm.(mounted := vm.mounted + 1), Mounting);
    case _ =>
  }

  lemma StagesNoneIf(past: seq<Event>, tid: nat)
    ensures NoStages(past, tid) ==> NoneFailed(past, tid)
  {
  }

  lemma OwnEdgeShows(req: Request, vm: Vm, past: seq<Event>, e: Event)
    requires Enabled(req, vm, e) && ThreadShows(vm, past, e.tid) && IsEdge(e)
    ensures ThreadShows(Next(req, vm, e), past + [e], e.tid)
  {
    StagesSame(past, e, e.tid);
    CleanupSame(past, e, e.tid);
    StagesNoneIf(past, e.tid);
    InMore(past, e, EnterCreate(e.tid));
    hide NoneFailed, NoStages, NoCleanup, IsUp, CloseShows;
  }

  lemma OwnCallShows(req: Request, vm: Vm, past: seq<Event>, e: Event)
    requires Enabled(req, vm, e) && ThreadShows(vm, past, e.tid)
    requires e.CallCreate? || e.CallStop? || e.CallShutdown?
    ensures ThreadShows(Next(req, vm, e), past + [e], e.tid)
  {
    StagesSame(past, e, e.tid);
    CleanupSame(past, e, e.tid);
    InMore(past, e, EnterCreate(e.tid));
    hide NoneFailed, NoStages, NoCleanup, Stage;
  }

  lemma OwnAfterShows(req: Request, vm: Vm, past: seq<Event>, e: Event)
    requires Enabled(req, vm, e) && ThreadShows(vm, past, e.tid)
    requires e.PublishStart? || e.SpawnMonitor? || e.CloseReady?
    ensures ThreadShows(Next(req, vm, e), past + [e], e.tid)
  {
    StagesSame(past, e, e.tid);
    CleanupSame(past, e, e.tid);
    InMore(past, e, EnterCreate(e.tid));
    InMore(past, e, PublishStart(e.tid));
    InMore(past, e, CloseReady(e.tid));
    hide NoneFailed, NoStages, NoCleanup, IsUp, CloseShows, Stage;
  }

  /** The phases of a closing thread around its cleanup. */
  lemma AroundCleanup(past: seq<Event>, e: Event, tid: nat, p: ClosePhase, p': ClosePhase)
    requires CloseShows(past, tid, p) && e.tid == tid && !e.CloseJailer? && !e.PublishStop?
    requires p' in [AwaitingReady, AwaitingExit, AtCleanup, ClosingJailer] || p'.Returned?
             || (p'.TimedOut? && e == ReadyTimeout(tid))
    requires p in [AwaitingReady, AwaitingExit, AtCleanup] || (p.Finishing? && p'.Returned?)
    ensures CloseShows(past + [e], tid, p')
  {
    CleanupSame(past, e, tid);
    InMore(past, e, ReadyTimeout(tid));
    hide NoCleanup, FaultsShow;
  }

  lemma JailerShows(past: seq<Event>, tid: nat, ok: bool)
    requires NoCleanup(past, tid)
    ensures CloseShows(past + [CloseJailer(tid, ok)], tid, PublishingStop(if ok then [] else [JailerFault]))
  {
  }

  lemma PublishShows(past: seq<Event>, tid: nat, ok: bool, errs: seq<Fault>)
    requires CloseShows(past, tid, PublishingStop(errs))
    ensures CloseShows(past + [PublishStop(tid, ok)], tid, Finishing(if ok then errs else errs + [PublishFault]))
  {
    var after := past + [PublishStop(tid, ok)];
    assert forall f :: f in after <==> f in past || f == PublishStop(tid, ok);
    var jailer := if CloseJailer(tid, false) in past then [JailerFault] else [];
    assert errs == jailer + [] == jailer;
  }

  lemma OwnCloseShows(req: Request, vm: Vm, past: seq<Event>, e: Event)
    requires Enabled(req, vm, e) && ThreadShows(vm, past, e.tid) && IsClose(e)
    ensures ThreadShows(Next(req, vm, e), past + [e], e.tid)
  {
    StagesSame(past, e, e.tid);
    InMore(past, e, EnterCreate(e.tid));
    var p, p' := vm.threads[e.tid].close, Next(req, vm, e).threads[e.tid].close;
    assert CloseShows(past, e.tid, p);
    if e.CloseJailer? {
      assert NoCleanup(past, e.tid);
      JailerShows(past, e.tid, e.ok);
    } else if e.PublishStop? {
      PublishShows(past, e.tid, e.ok, p.errs);
    } else {
      hide CloseShows, NoStages;
      AroundCleanup(past, e, e.tid, p, p');
    }
    hide NoStages, CreateShows, CloseShows;
  }

  lemma MountsMore(past: seq<Event>, e: Event)
    ensures Mounts(past + [e]) == Mounts(past) + (if e.MountDrive? && e.ok then 1 else 0)
  {
    assert (past + [e])[..|past|] == past;
  }

  /** A failed or finished stage ends in the thread that ran it. */
  lemma StepReady(req: Request, vm: Vm, e: Event)
    requires Inv(req, vm) && Enabled(req, vm, e)
    requires vm.readyCloses == 1 ==> vm.startOnce.Ran? && IsAt(vm, vm.startOnce.tid, Created)
    ensures var r := Next(req, vm, e); r.readyCloses == 1 ==> r.startOnce.Ran? && IsAt(r, r.startOnce.tid, Created)
  {
    var r := Next(req, vm, e);
    assert ThreadOk(req, vm, e.tid);
    hide Inv, ThreadOk, CloseOk;
    if vm.readyCloses == 1 {
      CreatedStays(req, vm, e, vm.startOnce.tid);
    } else if e.CloseReady? {
      ReadyCloses(req, vm, e.tid);
    }
  }

  lemma CreatedStays(req: Request, vm: Vm, e: Event, tid: nat)
    requires Inv(req, vm) && Enabled(req, vm, e) && vm.startOnce == Ran(tid) && IsAt(vm, tid, Created)
    ensures Next(req, vm, e).startOnce == Ran(tid) && IsAt(Next(req, vm, e), tid, Created)
  {
    BrokenStays(req, vm, e, tid);
    assert tid != e.tid;
    hide Next, Inv;
  }

  lemma ReadyCloses(req: Request, vm: Vm, tid: nat)
    requires Inv(req, vm) && IsAt(vm, tid, ClosingReady)
    ensures vm.startOnce == Ran(tid) && IsAt(Next(req, vm, CloseReady(tid)), tid, Created)
  {
    assert ThreadOk(req, vm, tid);
  }

  lemma StepFaults(req: Request, vm: Vm, past: seq<Event>, e: Event)
    requires Inv(req, vm) && Enabled(req, vm, e) && ThreadShows(vm, past, e.tid)
    requires vm.cleanupOnce.Ran? ==> FaultsShow(past, vm.cleanupOnce.tid, vm.cleanupErr)
    ensures var r := Next(req, vm, e);
            r.cleanupOnce.Ran? ==> FaultsShow(past + [e], r.cleanupOnce.tid, r.cleanupErr)
  {
    assert ThreadOk(req, vm, e.tid);
    if e.FinishCleanup? {
      FaultsSame(past, e, e.tid);
    } else if vm.cleanupOnce.Ran? && !e.CloseJailer? && !e.PublishStop? {
      FaultsSame(past, e, vm.cleanupOnce.tid);
    }
    hide FaultsShow, Inv;
  }

  lemma FaultsSame(past: seq<Event>, e: Event, tid: nat)
    requires !e.CloseJailer? && !e.PublishStop?
    ensures forall errs :: FaultsShow(past + [e], tid, errs) == FaultsShow(past, tid, errs)
  {
  }

  lemma StepGlobal(req: Request, vm: Vm, past: seq<Event>, e: Event)
    requires Inv(req, vm) && Enabled(req, vm, e) && GlobalShows(vm, past) && ThreadShows(vm, past, e.tid)
    ensures GlobalShows(Next(req, vm, e), past + [e])
  {
    MountsMore(past, e);
    StepReady(req, vm, e);
    StepFaults(req, vm, past, e);
    hide Next, Enabled, Inv, FaultsShow, Mounts, ThreadShows;
    if e.PublishStart? {
      assert PublishStart(e.tid) in past + [e];
    }
    forall tid | PublishStart(tid) in past ensures PublishStart(tid) in past + [e] {
    }
  }

  lemma StepShows(req: Request, vm: Vm, past: seq<Event>, e: Event)
    requires Inv(req, vm) && Enabled(req, vm, e) && Shows(vm, past)
    ensures Shows(Next(req, vm, e), past + [e])
  {
    hide Next, Enabled, Inv, GlobalShows, ThreadShows;
    StepGlobal(req, vm, past, e);
    forall tid ensures ThreadShows(Next(req, vm, e), past + [e], tid) {
      if tid != e.tid {
        OtherShows(req, vm, past, e, tid);
      } else if IsEdge(e) {
        OwnEdgeShows(req, vm, past, e);
      } else if IsStage(e) {
        OwnStageShows(req, vm, past, e);
      } else if e.CallCreate? || e.CallStop? || e.CallShutdown? {
        OwnCallShows(req, vm, past, e);
      } else if IsAfter(e) {
        OwnAfterShows(req, vm, past, e);
      } else {
        OwnCloseShows(req, vm, past, e);
      }
    }
  }

  lemma {:induction false} RunShows(req: Request, vm: Vm, past: seq<Event>, run: seq<Event>)
    requires Inv(req, vm) && Shows(vm, past) && Run(req, vm, run).Some?
    ensures Shows(Run(req, vm, run).value, past + run)
    decreases |run|
  {
    hide Inv, Shows, Next, Enabled;
    if run == [] {
      assert past + run == past;
    } else {
      StepInv(req, vm, run[0]);
      StepShows(req, vm, past, run[0]);
      RunShows(req, Next(req, vm, run[0]), past + [run[0]], run[1..]);
      assert past + [run[0]] + run[1..] == past + run;
    }
  }

  lemma History(req: Request, run: seq<Event>)
    requires Run(req, START, run).Some?
    ensures Shows(Run(req, START, run).value, run) && Inv(req, Run(req, START, run).value)
  {
    StartShows();
    RunInv(req, START, run);
    hide Shows, Run;
    RunShows(req, START, [], run);
    assert [] + run == run;
  }

  lemma StartShows()
    ensures Shows(START, [])
  {
  }

  // ---------------------------------------------------------------- what holds of every run

  /** No stage of creating the VM failed in any thread. */
  ghost predicate NothingFailed(run: seq<Event>) {
    forall i :: 0 <= i < |run| && IsStage(run[i]) ==> run[i].ok
  }

  /**
   * The ready channel is closed only in runs in which nothing of the VM's creation failed, the machine was built and
   * started, the agent answered, exactly the requested number of drives was mounted, and the start event was
   * attempted.
   */
  lemma ReadyMeans(req: Request, run: seq<Event>)
    requires Run(req, START, run).Some? && Run(req, START, run).value.readyCloses == 1
    ensures NothingFailed(run) && Mounts(run) == req.drives
    ensures exists tid :: IsUp(run, tid) && PublishStart(tid) in run && CloseReady(tid) in run
  {
    History(req, run);
    hide Run;
    var vm := Run(req, START, run).value;
    var t := vm.startOnce.tid;
    assert ThreadShows(vm, run, t);
    assert ThreadOk(req, vm, t);
    hide Inv;
    forall i | 0 <= i < |run| && IsStage(run[i]) ensures run[i].ok {
      if !run[i].ok { FailedIsBroken(vm, run, run[i]); }
    }
  }

  /** A stage that failed did so in the thread that ran CreateVM's body, and ended it. */
  lemma FailedIsBroken(vm: Vm, past: seq<Event>, e: Event)
    requires Shows(vm, past) && e in past && IsStage(e) && !e.ok
    ensures IsAt(vm, e.tid, Broken) && vm.startOnce == Ran(e.tid)
  {
    assert ThreadShows(vm, past, e.tid);
    assert !NoneFailed(past, e.tid);
  }

  lemma ShownAnswer(vm: Vm, past: seq<Event>, tid: nat)
    requires ThreadShows(vm, past, tid)
    ensures IsAt(vm, tid, Created) ==> CloseReady(tid) in past && NoneFailed(past, tid) && IsUp(past, tid)
    ensures IsAt(vm, tid, Broken) ==> EnterCreate(tid) in past && !NoneFailed(past, tid)
    ensures IsAt(vm, tid, Refused) ==> EnterCreate(tid) !in past && NoStages(past, tid)
  {
    hide NoneFailed, IsUp, NoStages, CloseShows, NoCleanup;
  }

  /** What CreateVM answers: that the VM was created, that something failed, or that another call creates it. */
  lemma CreateAnswers(req: Request, run: seq<Event>, tid: nat)
    requires Run(req, START, run).Some?
    ensures var vm := Run(req, START, run).value;
            && (IsAt(vm, tid, Created) ==> CloseReady(tid) in run && NoneFailed(run, tid) && IsUp(run, tid))
            && (IsAt(vm, tid, Broken) ==> EnterCreate(tid) in run && !NoneFailed(run, tid))
            && (IsAt(vm, tid, Refused) ==> EnterCreate(tid) !in run && NoStages(run, tid))
  {
    hide Run, Inv, GlobalShows, ThreadShows, IsUp, NoneFailed, NoStages;
    History(req, run);
    ShownAnswer(Run(req, START, run).value, run, tid);
  }

  /** The error of the cleanup names exactly the steps of it that failed. */
  lemma CleanupAnswers(req: Request, run: seq<Event>)
    requires Run(req, START, run).Some? && Run(req, START, run).value.cleanupOnce.Ran?
    ensures var vm := Run(req, START, run).value; FaultsShow(run, vm.cleanupOnce.tid, vm.cleanupErr)
  {
    History(req, run);
  }

  // ---------------------------------------------------------------- what closing waits for

  /** A closing thread has waited: for the ready channel if it is StopVM's, and then for the machine to exit. */
  ghost predicate Waited(past: seq<Event>, tid: nat, kind: Kind) {
    (kind == Stop ==> ReadyClosed(tid) in past) && MachineExited(tid) in past
  }

  ghost predicate WaitShows(past: seq<Event>, tid: nat, kind: Kind, p: ClosePhase) {
    match p
    case AwaitingReady => kind == Stop && ReadyClosed(tid) !in past && MachineExited(tid) !in past
    case AwaitingExit => (kind == Stop ==> ReadyClosed(tid) in past) && MachineExited(tid) !in past
    case TimedOut => kind == Stop && ReadyClosed(tid) !in past && ReadyTimeout(tid) in past
    case _ => Waited(past, tid, kind)
  }

  ghost predicate NoWaits(past: seq<Event>, tid: nat) {
    ReadyClosed(tid) !in past && ReadyTimeout(tid) !in past && MachineExited(tid) !in past
  }

  ghost predicate WaiterShows(vm: Vm, past: seq<Event>, tid: nat) {
    if IsClosing(vm, tid) then WaitShows(past, tid, vm.threads[tid].kind, vm.threads[tid].close)
    else NoWaits(past, tid)
  }

  lemma WaitsMore(past: seq<Event>, e: Event, tid: nat)
    requires e.tid != tid || !(e.ReadyClosed? || e.ReadyTimeout? || e.MachineExited?)
    ensures NoWaits(past + [e], tid) == NoWaits(past, tid)
    ensures forall kind, p :: WaitShows(past + [e], tid, kind, p) == WaitShows(past, tid, kind, p)
  {
  }

  lemma OtherWaits(req: Request, vm: Vm, past: seq<Event>, e: Event, tid: nat)
    requires Enabled(req, vm, e) && WaiterShows(vm, past, tid) && e.tid != tid
    ensures WaiterShows(Next(req, vm, e), past + [e], tid)
  {
    WaitsMore(past, e, tid);
    hide Enabled, Next;
  }

  /** CreateVM's own thread never closes. */
  lemma CreateOpens(req: Request, vm: Vm, e: Event)
    requires Enabled(req, vm, e) && IsCreate(e)
    ensures !IsClosing(vm, e.tid) && !IsClosing(Next(req, vm, e), e.tid)
  {
    hide NextCall, NextCleanup, NextWait;
  }

  lemma CallOpens(req: Request, vm: Vm, e: Event)
    requires Enabled(req, vm, e) && (e.CallStop? || e.CallShutdown?)
    ensures !IsClosing(vm, e.tid)
    ensures IsClosing(Next(req, vm, e), e.tid)
    ensures Next(req, vm, e).threads[e.tid]
         == if e.CallStop? then Closing(Stop, AwaitingReady) else Closing(Shutdown, AwaitingExit)
  {
    hide NextCreate, NextCleanup, NextWait;
  }

  predicate HasWaited(p: ClosePhase) { !p.AwaitingReady? && !p.AwaitingExit? && !p.TimedOut? }

  lemma CleanupGoesOn(req: Request, vm: Vm, e: Event)
    requires Enabled(req, vm, e)
    requires e.EnterCleanup? || e.CloseJailer? || e.PublishStop? || e.FinishCleanup? || e.ReturnCleanup?
    ensures IsClosing(vm, e.tid) && IsClosing(Next(req, vm, e), e.tid)
    ensures Next(req, vm, e).threads[e.tid].kind == vm.threads[e.tid].kind
    ensures HasWaited(vm.threads[e.tid].close) && HasWaited(Next(req, vm, e).threads[e.tid].close)
  {
    hide NextCreate, NextCall;
  }

  /** A step of a thread that waits for nothing. */
  lemma OwnWaits(req: Request, vm: Vm, past: seq<Event>, e: Event)
    requires Enabled(req, vm, e) && WaiterShows(vm, past, e.tid)
    requires !(e.ReadyClosed? || e.ReadyTimeout? || e.MachineExited?)
    ensures WaiterShows(Next(req, vm, e), past + [e], e.tid)
  {
    WaitsMore(past, e, e.tid);
    hide Next, Enabled, IsClosing;
    if IsCreate(e) {
      CreateOpens(req, vm, e);
    } else if e.CallStop? || e.CallShutdown? {
      CallOpens(req, vm, e);
    } else {
      CleanupGoesOn(req, vm, e);
    }
  }

  lemma WaitOver(req: Request, vm: Vm, past: seq<Event>, e: Event)
    requires Enabled(req, vm, e) && WaiterShows(vm, past, e.tid)
    requires e.ReadyClosed? || e.ReadyTimeout? || e.MachineExited?
    ensures WaiterShows(Next(req, vm, e), past + [e], e.tid)
  {
    InMore(past, e, ReadyClosed(e.tid));
    InMore(past, e, ReadyTimeout(e.tid));
    InMore(past, e, MachineExited(e.tid));
  }

  lemma {:induction false} RunWaits(req: Request, vm: Vm, past: seq<Event>, run: seq<Event>)
    requires (forall tid :: WaiterShows(vm, past, tid)) && Run(req, vm, run).Some?
    ensures forall tid :: WaiterShows(Run(req, vm, run).value, past + run, tid)
    decreases |run|
  {
    hide WaiterShows, Next, Enabled;
    if run == [] {
      assert past + run == past;
    } else {
      var e, r := run[0], Next(req, vm, run[0]);
      forall tid ensures WaiterShows(r, past + [e], tid) {
        if tid != e.tid {
          OtherWaits(req, vm, past, e, tid);
        } else if e.ReadyClosed? || e.ReadyTimeout? || e.MachineExited? {
          WaitOver(req, vm, past, e);
        } else {
          OwnWaits(req, vm, past, e);
        }
      }
      RunWaits(req, r, past + [e], run[1..]);
      assert past + [e] + run[1..] == past + run;
    }
  }

  /**
   * StopVM, Shutdown and the monitor return only after the machine exited, StopVM in addition only after the VM was
   * ready; and StopVM gives up waiting for that only by its timeout.
   */
  lemma CloseAnswers(req: Request, run: seq<Event>, tid: nat)
    requires Run(req, START, run).Some? && IsClosing(Run(req, START, run).value, tid)
    ensures var t := Run(req, START, run).value.threads[tid];
            && (t.close.Returned? ==> MachineExited(tid) in run && (t.kind == Stop ==> ReadyClosed(tid) in run))
            && (t.close.TimedOut? ==> t.kind == Stop && ReadyTimeout(tid) in run && ReadyClosed(tid) !in run)
  {
    hide Run;
    assert forall t :: WaiterShows(START, [], t);
    RunWaits(req, START, [], run);
    assert [] + run == run;
    assert WaiterShows(Run(req, START, run).value, run, tid);
  }

  // ---------------------------------------------------------------- when Shutdown is answered

  /** Which of the machine and the agent's clients a run has set up. */
  ghost predicate SetsShow(vm: Vm, past: seq<Event>) {
    && (vm.machineSet <==> exists t: nat :: BuildMachine(t, true) in past)
    && (vm.clientsSet <==> exists t: nat :: Dial(t, true) in past)
  }

  lemma StageSets(vm: Vm, t: nat, ok: bool, after: Vm, p: CreatePhase)
    requires after == vm.(machineSet := after.machineSet, clientsSet := after.clientsSet, mounted := after.mounted)
    ensures var r := Stage(vm, t, ok, after, p);
            && r.machineSet == (if ok then after else vm).machineSet
            && r.clientsSet == (if ok then after else vm).clientsSet
            && t in r.threads && r.threads[t] == Creating(if ok then p else Broken)
  {
  }

  function StageBefore(e: Event): CreatePhase
    requires IsStage(e)
  {
    match e
    case BuildMachine(_, _) => BuildingMachine
    case StartMachine(_, _) => StartingMachine
    case Dial(_, _) => Dialing
    case _ => Mounting
  }

  /** Where a stage takes the call, and what it sets. */
  lemma StageTo(req: Request, vm: Vm, e: Event)
    requires Enabled(req, vm, e) && IsStage(e)
    ensures IsAt(vm, e.tid, StageBefore(e))
    ensures var r := Next(req, vm, e);
            && r.machineSet == (vm.machineSet || e == BuildMachine(e.tid, true))
            && r.clientsSet == (vm.clientsSet || e == Dial(e.tid, true))
            && IsAt(r, e.tid, if !e.ok then Broken
                              else match e
                                case BuildMachine(_, _) => StartingMachine
                                case StartMachine(_, _) => Dialing
                                case _ => Mounting)
  {
    hide NextCall, NextWait, NextCleanup, Stage;
    match e
    case BuildMachine(t, ok) => StageSets(vm, t, ok, vm.(machineSet := true), StartingMachine);
    case StartMachine(t, ok) => StageSets(vm, t, ok, vm, Dialing);
    case Dial(t, ok) => StageSets(vm, t, ok, vm.(clientsSet := true), Mounting);
    case MountDrive(t, ok) => StageSets(vm, t, ok, vm.(mounted := vm.mounted + 1), Mounting);
    case _ =>
  }

  lemma CreateSets(req: Request, vm: Vm, e: Event)
    requires Enabled(req, vm, e) && IsCreate(e) && !IsStage(e)
    ensures NextCreate(req, vm, e).machineSet == vm.machineSet && NextCreate(req, vm, e).clientsSet == vm.clientsSet
  {
    hide Enabled, Stage;
  }

  lemma OtherSets(req: Request, vm: Vm, e: Event)
    requires Enabled(req, vm, e) && !IsStage(e)
    ensures Next(req, vm, e).machineSet == vm.machineSet && Next(req, vm, e).clientsSet == vm.clientsSet
  {
    hide Enabled;
    if IsCreate(e) { CreateSets(req, vm, e); } else { hide NextCreate, IsStage; }
  }

  lemma StepSets(req: Request, vm: Vm, past: seq<Event>, e: Event)
    requires Enabled(req, vm, e) && SetsShow(vm, past)
    ensures SetsShow(Next(req, vm, e), past + [e])
  {
    if IsStage(e) { StageTo(req, vm, e); } else { OtherSets(req, vm, e); }
    hide Next, Enabled;
    if t: nat :| BuildMachine(t, true) in past { assert BuildMachine(t, true) in past + [e]; }
    if t: nat :| Dial(t, true) in past { assert Dial(t, true) in past + [e]; }
    assert e in past + [e];
  }

  lemma {:induction false} RunSets(req: Request, vm: Vm, past: seq<Event>, run: seq<Event>)
    requires SetsShow(vm, past) && Run(req, vm, run).Some?
    ensures SetsShow(Run(req, vm, run).value, past + run)
    decreases |run|
  {
    hide SetsShow, Next, Enabled;
    if run == [] {
      assert past + run == past;
    } else {
      StepSets(req, vm, past, run[0]);
      RunSets(req, Next(req, vm, run[0]), past + [run[0]], run[1..]);
      assert past + [run[0]] + run[1..] == past + run;
    }
  }

  /**
   * After any run, a Shutdown goes on to wait for the machine exactly when it has one to wait for: with `now` set once
   * a machine was built, otherwise once an agent answered, and then only if the VM exits with its last task.
   */
  lemma ShutdownIff(req: Request, run: seq<Event>, tid: nat, now: bool)
    requires Run(req, START, run).Some? && tid !in Run(req, START, run).value.threads
    ensures Enabled(req, Run(req, START, run).value, CallShutdown(tid, now))
       <==> if now then exists t: nat :: BuildMachine(t, true) in run
            else req.exitAfterAllTasksDeleted && exists t: nat :: Dial(t, true) in run
  {
    hide Run, Next;
    RunSets(req, START, [], run);
    assert [] + run == run;
  }

  // ---------------------------------------------------------------- progress

  /** The thread waits for another one to be through with a once. */
  predicate IsBlocked(vm: Vm, tid: nat) {
    || (IsAt(vm, tid, Arrived) && vm.startOnce.Running?)
    || (ClosesAt(vm, tid, AtCleanup) && vm.cleanupOnce.Running?)
  }

  predicate IsOver(t: Thread) {
    match t
    case Creating(p) => p.Created? || p.Broken? || p.Refused?
    case Closing(_, p) => p.Returned? || p.TimedOut?
  }

  /** Whoever runs the body of a once is in it. */
  ghost predicate Holds(vm: Vm) {
    && (vm.startOnce.Running? ==>
          var t := vm.startOnce.tid; t in vm.threads && vm.threads[t].Creating? && InBody(vm.threads[t].create))
    && (vm.cleanupOnce.Running? ==>
          var t := vm.cleanupOnce.tid; IsClosing(vm, t) && InCleanup(vm.threads[t].close))
  }

  lemma CreateHolds(req: Request, vm: Vm, e: Event)
    requires Inv(req, vm) && Holds(vm) && Enabled(req, vm, e) && IsCreate(e)
    ensures Holds(Next(req, vm, e))
  {
    hide Inv, Holds, Enabled, Next;
    if IsStage(e) {
      StageHolds(req, vm, e);
    } else {
      OtherHolds(req, vm, e);
    }
  }

  lemma StageHolds(req: Request, vm: Vm, e: Event)
    requires Inv(req, vm) && Holds(vm) && Enabled(req, vm, e) && IsStage(e)
    ensures Holds(Next(req, vm, e))
  {
    assert ThreadOk(req, vm, e.tid);
    StageRuns(req, vm, e);
    hide Stage, Holds, Inv, ThreadOk;
    match e
    case BuildMachine(t, ok) => StageEnds(vm, t, ok, vm.(machineSet := true), StartingMachine);
    case StartMachine(t, ok) => StageEnds(vm, t, ok, vm, Dialing);
    case Dial(t, ok) => StageEnds(vm, t, ok, vm.(clientsSet := true), Mounting);
    case MountDrive(t, ok) => StageEnds(vm, t, ok, vm.(mounted := vm.mounted + 1), Mounting);
    case _ =>
  }

  lemma StageEnds(vm: Vm, t: nat, ok: bool, after: Vm, p: CreatePhase)
    requires Holds(vm) && vm.startOnce == Running(t) && t in vm.threads && vm.threads[t].Creating? && InBody(p)
    requires after == vm.(machineSet := after.machineSet, clientsSet := after.clientsSet, mounted := after.mounted)
    ensures Holds(Stage(vm, t, ok, after, p))
  {
  }

  lemma OtherHolds(req: Request, vm: Vm, e: Event)
    requires Inv(req, vm) && Holds(vm) && Enabled(req, vm, e) && IsCreate(e) && !IsStage(e)
    ensures Holds(Next(req, vm, e))
  {
    assert ThreadOk(req, vm, e.tid);
    hide NextCall, NextCleanup, NextWait, CloseOk, InCleanup;
  }

  lemma CloseHolds(req: Request, vm: Vm, e: Event)
    requires Inv(req, vm) && Holds(vm) && Enabled(req, vm, e) && !IsCreate(e)
    ensures Holds(Next(req, vm, e))
  {
    assert ThreadOk(req, vm, e.tid);
    hide NextCreate;
  }

  lemma {:induction false} RunHolds(req: Request, vm: Vm, run: seq<Event>)
    requires Inv(req, vm) && Holds(vm) && vm.mounted <= req.drives && Run(req, vm, run).Some?
    ensures Holds(Run(req, vm, run).value) && Run(req, vm, run).value.mounted <= req.drives
    decreases |run|
  {
    hide Inv, Holds, Next;
    if run != [] {
      StepInv(req, vm, run[0]);
      if IsCreate(run[0]) { CreateHolds(req, vm, run[0]); } else { CloseHolds(req, vm, run[0]); }
      RunHolds(req, Next(req, vm, run[0]), run[1..]);
    }
  }

  /** The steps that may go well or fail. */
  predicate HasOutcome(e: Event) { IsStage(e) || e.CloseJailer? || e.PublishStop? }

  /** What a thread that is not over does next. */
  lemma CanStep(req: Request, vm: Vm, tid: nat, ok: bool) returns (e: Event)
    requires vm.mounted <= req.drives && tid in vm.threads && !IsOver(vm.threads[tid]) && !IsBlocked(vm, tid)
    ensures Enabled(req, vm, e) && e.tid == tid && (HasOutcome(e) ==> e.ok == ok)
  {
    var unused := Bound(vm.threads.Keys);
    e := match vm.threads[tid]
      case Creating(p) => (
        match p
        case Arrived => if vm.startOnce.NotYet? then EnterCreate(tid) else Refuse(tid)
        case BuildingMachine => BuildMachine(tid, ok)
        case StartingMachine => StartMachine(tid, ok)
        case Dialing => Dial(tid, ok)
        case Mounting => if vm.mounted < req.drives then MountDrive(tid, ok) else FinishCreate(tid)
        case PublishingStart => PublishStart(tid)
        case Spawning => SpawnMonitor(tid, unused)
        case _ => CloseReady(tid))
      case Closing(_, p) => (
        match p
        case AwaitingReady => ReadyTimeout(tid)
        case AwaitingExit => MachineExited(tid)
        case AtCleanup => if vm.cleanupOnce.NotYet? then EnterCleanup(tid) else ReturnCleanup(tid)
        case ClosingJailer => CloseJailer(tid, ok)
        case PublishingStop(_) => PublishStop(tid, ok)
        case _ => FinishCleanup(tid));
  }

  lemma HolderRuns(vm: Vm, tid: nat) returns (other: nat)
    requires Holds(vm) && IsBlocked(vm, tid)
    ensures vm.startOnce == Running(other) || vm.cleanupOnce == Running(other)
    ensures other in vm.threads && !IsOver(vm.threads[other]) && !IsBlocked(vm, other)
  {
    other := if IsAt(vm, tid, Arrived) then vm.startOnce.tid else vm.cleanupOnce.tid;
  }

  /**
   * Every call that is not over can go on, whatever the outcome of its next step is to be, unless it waits for a once,
   * and then the thread in the once can.
   */
  lemma NeverStuck(req: Request, run: seq<Event>, vm: Vm, tid: nat, ok: bool)
    returns (e: Event)
    requires Run(req, START, run) == Some(vm) && tid in vm.threads && !IsOver(vm.threads[tid])
    ensures Enabled(req, vm, e) && (HasOutcome(e) ==> e.ok == ok)
    ensures e.tid == tid || (IsBlocked(vm, tid) && (vm.startOnce == Running(e.tid) || vm.cleanupOnce == Running(e.tid)))
    ensures ClosesAt(vm, tid, AwaitingReady) && vm.readyCloses == 1 ==> Enabled(req, vm, ReadyClosed(tid))
  {
    RunHolds(req, START, run);
    hide Run, Next, Inv;
    if !IsBlocked(vm, tid) {
      e := CanStep(req, vm, tid, ok);
    } else {
      var other := HolderRuns(vm, tid);
      e := CanStep(req, vm, other, ok);
    }
  }

  // ---------------------------------------------------------------- every call ends

  /** How many steps a call may still take. */
  function Rank(req: Request, vm: Vm, tid: nat): nat {
    if tid !in vm.threads then req.drives + 10
    else
      match vm.threads[tid]
      case Creating(p) => (
        match p
        case Arrived => req.drives + 9
        case BuildingMachine => req.drives + 8
        case StartingMachine => req.drives + 7
        case Dialing => req.drives + 6
        case Mounting => (if vm.mounted < req.drives then req.drives - vm.mounted else 0) + 4
        case PublishingStart => 3
        case Spawning => 2
        case ClosingReady => 1
        case _ => 0)
      case Closing(_, p) => (
        match p
        case AwaitingReady => 6
        case AwaitingExit => 5
        case AtCleanup => 4
        case ClosingJailer => 3
        case PublishingStop(_) => 2
        case Finishing(_) => 1
        case _ => 0)
  }

  ghost function Steps(run: seq<Event>, tid: nat): nat {
    if run == [] then 0 else (if run[0].tid == tid then 1 else 0) + Steps(run[1..], tid)
  }

  lemma OtherRank(req: Request, vm: Vm, e: Event, tid: nat)
    requires Enabled(req, vm, e) && e.tid != tid
    ensures Rank(req, Next(req, vm, e), tid) <= Rank(req, vm, tid)
  {
    var r := Next(req, vm, e);
    assert r.mounted >= vm.mounted;
    hide Next, Enabled;
    if tid !in vm.threads && tid in r.threads {
      assert r.threads[tid] == Closing(Monitor, AwaitingExit);
    }
  }

  lemma StageRank(req: Request, vm: Vm, e: Event)
    requires Enabled(req, vm, e) && IsStage(e)
    ensures Rank(req, Next(req, vm, e), e.tid) < Rank(req, vm, e.tid)
  {
    StageTo(req, vm, e);
    assert e.MountDrive? ==> vm.mounted < req.drives;
    hide Next, Enabled;
  }

  lemma CreateRank(req: Request, vm: Vm, e: Event)
    requires Enabled(req, vm, e) && IsCreate(e) && !IsStage(e)
    ensures Rank(req, Next(req, vm, e), e.tid) < Rank(req, vm, e.tid)
  {
    hide NextCall, NextWait, NextCleanup, Stage;
  }

  lemma CloseRank(req: Request, vm: Vm, e: Event)
    requires Enabled(req, vm, e) && !IsCreate(e)
    ensures Rank(req, Next(req, vm, e), e.tid) < Rank(req, vm, e.tid)
  {
    hide NextCreate;
  }

  lemma StepRanks(req: Request, vm: Vm, e: Event, tid: nat)
    requires Enabled(req, vm, e)
    ensures Rank(req, Next(req, vm, e), tid) + (if e.tid == tid then 1 else 0) <= Rank(req, vm, tid)
  {
    hide Next, Enabled, Rank;
    if e.tid != tid {
      OtherRank(req, vm, e, tid);
    } else if IsStage(e) {
      StageRank(req, vm, e);
    } else if IsCreate(e) {
      CreateRank(req, vm, e);
    } else {
      CloseRank(req, vm, e);
    }
  }

  lemma {:induction false} RunRanks(req: Request, vm: Vm, run: seq<Event>, tid: nat)
    requires Run(req, vm, run).Some?
    ensures Rank(req, Run(req, vm, run).value, tid) + Steps(run, tid) <= Rank(req, vm, tid)
    decreases |run|
  {
    hide Next, Rank, Enabled;
    if run != [] {
      StepRanks(req, vm, run[0], tid);
      RunRanks(req, Next(req, vm, run[0]), run[1..], tid);
    }
  }

  /** A call takes no more steps than there are drives, and ten; so, as no call is ever stuck, each one ends. */
  lemma CallEnds(req: Request, run: seq<Event>, tid: nat)
    requires Run(req, START, run).Some?
    ensures Steps(run, tid) <= req.drives + 10
  {
    hide Run;
    RunRanks(req, START, run, tid);
  }
}
