/** CreateVM, StopVM, Shutdown and the exit monitor of one shim, interleaved in every way. */
module VmLifecycle {
  import opened Options

  /** A `sync.Once`: its body runs in one thread, other callers wait until that thread is through. */
  datatype Once = NotYet | Running(tid: nat) | Ran(tid: nat)

  /** What can go wrong in the cleanup body; it carries on and reports both. */
  datatype Fault = JailerFault | PublishFault

  datatype CreatePhase =
    | Arrived
    | BuildingMachine
    | StartingMachine
    | Dialing
    | Mounting
    | PublishingStart
    | Spawning
    | ClosingReady
    | Created
    | Broken
    | Refused

  datatype ClosePhase =
    | AwaitingReady
    | AwaitingExit
    | AtCleanup
    | ClosingJailer
    | PublishingStop(errs: seq<Fault>)
    | Finishing(errs: seq<Fault>)
    | Returned(errs: seq<Fault>)
    | TimedOut

  datatype Kind = Stop | Monitor | Shutdown

  datatype Thread = Creating(create: CreatePhase) | Closing(kind: Kind, close: ClosePhase)

  /** What the request asks for: the number of drive mounts, and whether to exit with the last task. */
  datatype Request = Request(drives: nat, exitAfterAllTasksDeleted: bool)

  /** `cleanupAfterStart` and `shutdownEarly` record the order of events; no step depends on them. */
  datatype Vm = Vm(
    startOnce: Once,
    createRuns: nat,
    machineSet: bool,
    clientsSet: bool,
    mounted: nat,
    startAttempted: bool,
    readyCloses: nat,
    cleanupOnce: Once,
    cleanupRuns: nat,
    cleanupAfterStart: bool,
    shutdownEarly: bool,
    stopPublishes: nat,
    cleanupErr: seq<Fault>,
    threads: map<nat, Thread>)

  const START := Vm(NotYet, 0, false, false, 0, false, 0, NotYet, 0, false, false, 0, [], map[])

  /** One step of thread `tid`; the results of everything outside the shim are arbitrary. */
  datatype Event =
    | CallCreate(tid: nat)
    | EnterCreate(tid: nat)
    | Refuse(tid: nat)
    | BuildMachine(tid: nat, ok: bool)
    | StartMachine(tid: nat, ok: bool)
    | Dial(tid: nat, ok: bool)
    | MountDrive(tid: nat, ok: bool)
    | FinishCreate(tid: nat)
    | PublishStart(tid: nat)
    | SpawnMonitor(tid: nat, monitor: nat)
    | CloseReady(tid: nat)
    | CallStop(tid: nat)
    | ReadyClosed(tid: nat)
    | ReadyTimeout(tid: nat)
    | CallShutdown(tid: nat, now: bool)
    | MachineExited(tid: nat)
    | EnterCleanup(tid: nat)
    | CloseJailer(tid: nat, ok: bool)
    | PublishStop(tid: nat, ok: bool)
    | FinishCleanup(tid: nat)
    | ReturnCleanup(tid: nat)

  predicate IsAt(vm: Vm, tid: nat, p: CreatePhase) { tid in vm.threads && vm.threads[tid] == Creating(p) }

  predicate ClosesAt(vm: Vm, tid: nat, p: ClosePhase) {
    tid in vm.threads && vm.threads[tid].Closing? && vm.threads[tid].close == p
  }

  predicate IsClosing(vm: Vm, tid: nat) { tid in vm.threads && vm.threads[tid].Closing? }

  predicate Enabled(req: Request, vm: Vm, e: Event) {
    match e
    case CallCreate(tid) => tid !in vm.threads
    case EnterCreate(tid) => IsAt(vm, tid, Arrived) && vm.startOnce.NotYet?
    case Refuse(tid) => IsAt(vm, tid, Arrived) && vm.startOnce.Ran?
    case BuildMachine(tid, _) => IsAt(vm, tid, BuildingMachine)
    case StartMachine(tid, _) => IsAt(vm, tid, StartingMachine)
    case Dial(tid, _) => IsAt(vm, tid, Dialing)
    case MountDrive(tid, _) => IsAt(vm, tid, Mounting) && vm.mounted < req.drives
    case FinishCreate(tid) => IsAt(vm, tid, Mounting) && vm.mounted == req.drives
    case PublishStart(tid) => IsAt(vm, tid, PublishingStart)
    case SpawnMonitor(tid, monitor) => IsAt(vm, tid, Spawning) && monitor !in vm.threads
    case CloseReady(tid) => IsAt(vm, tid, ClosingReady)
    case CallStop(tid) => tid !in vm.threads
    case ReadyClosed(tid) => ClosesAt(vm, tid, AwaitingReady) && vm.readyCloses > 0
    case ReadyTimeout(tid) => ClosesAt(vm, tid, AwaitingReady)
    case CallShutdown(tid, now) =>
      tid !in vm.threads && if now then vm.machineSet else vm.clientsSet && req.exitAfterAllTasksDeleted
    case MachineExited(tid) => ClosesAt(vm, tid, AwaitingExit)
    case EnterCleanup(tid) => ClosesAt(vm, tid, AtCleanup) && vm.cleanupOnce.NotYet?
    case CloseJailer(tid, _) => ClosesAt(vm, tid, ClosingJailer)
    case PublishStop(tid, _) => IsClosing(vm, tid) && vm.threads[tid].close.PublishingStop?
    case FinishCleanup(tid) => IsClosing(vm, tid) && vm.threads[tid].close.Finishing?
    case ReturnCleanup(tid) => ClosesAt(vm, tid, AtCleanup) && vm.cleanupOnce.Ran?
  }

  function Create(vm: Vm, tid: nat, p: CreatePhase): Vm {
    vm.(threads := vm.threads[tid := Creating(p)])
  }

  function Close(vm: Vm, tid: nat, p: ClosePhase): Vm
    requires IsClosing(vm, tid)
  {
    vm.(threads := vm.threads[tid := vm.threads[tid].(close := p)])
  }

  /** Entering and leaving CreateVM's body, the stages of the body, and what is not about either. */
  predicate IsEdge(e: Event) { e.EnterCreate? || e.Refuse? || e.FinishCreate? }

  predicate IsStage(e: Event) { e.BuildMachine? || e.StartMachine? || e.Dial? || e.MountDrive? }

  predicate IsAfter(e: Event) {
    e.CallCreate? || e.PublishStart? || e.SpawnMonitor? || e.CloseReady? || e.CallStop? || e.CallShutdown?
  }

  predicate IsClose(e: Event) { !IsEdge(e) && !IsStage(e) && !IsAfter(e) }

  /** The steps of CreateVM. */
  predicate IsCreate(e: Event) {
    e.CallCreate? || IsEdge(e) || IsStage(e) || e.PublishStart? || e.SpawnMonitor? || e.CloseReady?
  }

  /** They leave what is about closing alone, and other threads. */
  function NextCreate(req: Request, vm: Vm, e: Event): (r: Vm)
    requires Enabled(req, vm, e) && IsCreate(e)
    ensures r.shutdownEarly == vm.shutdownEarly && r.cleanupOnce == vm.cleanupOnce && r.cleanupErr == vm.cleanupErr
    ensures r.mounted == vm.mounted + (if e.MountDrive? && e.ok then 1 else 0)
    ensures r.startAttempted == (vm.startAttempted || e.PublishStart?)
    ensures r.readyCloses == vm.readyCloses + (if e.CloseReady? then 1 else 0)
    ensures forall t :: t in vm.threads && t != e.tid ==> t in r.threads && r.threads[t] == vm.threads[t]
    ensures forall t :: t in r.threads && t !in vm.threads && t != e.tid ==>
              e.SpawnMonitor? && t == e.monitor && r.threads[t] == Closing(Monitor, AwaitingExit)
  {
    match e
    case CallCreate(tid) => Create(vm, tid, Arrived)
    case EnterCreate(tid) =>
      Create(vm.(startOnce := Running(tid), createRuns := vm.createRuns + 1), tid, BuildingMachine)
    case Refuse(tid) => Create(vm, tid, Refused)
    case BuildMachine(tid, ok) => Stage(vm, tid, ok, vm.(machineSet := true), StartingMachine)
    case StartMachine(tid, ok) => Stage(vm, tid, ok, vm, Dialing)
    case Dial(tid, ok) => Stage(vm, tid, ok, vm.(clientsSet := true), Mounting)
    case MountDrive(tid, ok) => Stage(vm, tid, ok, vm.(mounted := vm.mounted + 1), Mounting)
    case FinishCreate(tid) => Create(vm.(startOnce := Ran(tid)), tid, PublishingStart)
    case PublishStart(tid) => Create(vm.(startAttempted := true), tid, Spawning)
    case SpawnMonitor(tid, monitor) =>
      var spawned := vm.(threads := vm.threads[monitor := Closing(Monitor, AwaitingExit)]);
      Create(spawned, tid, ClosingReady)
    case CloseReady(tid) => Create(vm.(readyCloses := vm.readyCloses + 1), tid, Created)
    case _ => vm
  }

  /** The calls of StopVM and Shutdown leave what is about creating and cleanup alone, and other threads. */
  function NextCall(req: Request, vm: Vm, e: Event): (r: Vm)
    requires Enabled(req, vm, e) && (e.CallStop? || e.CallShutdown?)
    ensures r.shutdownEarly == (vm.shutdownEarly || (e.CallShutdown? && !vm.startAttempted))
    ensures r.cleanupOnce == vm.cleanupOnce && r.cleanupErr == vm.cleanupErr
    ensures r.mounted == vm.mounted && r.startAttempted == vm.startAttempted
    ensures r.readyCloses == vm.readyCloses && r.startOnce == vm.startOnce
    ensures forall t :: t in vm.threads && t != e.tid ==> t in r.threads && r.threads[t] == vm.threads[t]
    ensures forall t :: t in r.threads && t != e.tid ==> t in vm.threads
  {
    match e
    case CallStop(tid) => vm.(threads := vm.threads[tid := Closing(Stop, AwaitingReady)])
    case CallShutdown(tid, _) =>
      vm.(threads := vm.threads[tid := Closing(Shutdown, AwaitingExit)],
          shutdownEarly := vm.shutdownEarly || !vm.startAttempted)
    case _ => vm
  }

  /** So do the steps in which they wait. */
  function NextWait(req: Request, vm: Vm, e: Event): (r: Vm)
    requires Enabled(req, vm, e) && (e.ReadyClosed? || e.ReadyTimeout? || e.MachineExited? || e.ReturnCleanup?)
    ensures r.shutdownEarly == vm.shutdownEarly
    ensures r.cleanupOnce == vm.cleanupOnce && r.cleanupErr == vm.cleanupErr
    ensures r.mounted == vm.mounted && r.startAttempted == vm.startAttempted
    ensures r.readyCloses == vm.readyCloses && r.startOnce == vm.startOnce
    ensures forall t :: t in vm.threads && t != e.tid ==> t in r.threads && r.threads[t] == vm.threads[t]
    ensures forall t :: t in r.threads && t != e.tid ==> t in vm.threads
  {
    match e
    case ReadyClosed(tid) => Close(vm, tid, AwaitingExit)
    case ReadyTimeout(tid) => Close(vm, tid, TimedOut)
    case MachineExited(tid) => Close(vm, tid, AtCleanup)
    case ReturnCleanup(tid) => Close(vm, tid, Returned(vm.cleanupErr))
    case _ => vm
  }

  function NextCleanup(req: Request, vm: Vm, e: Event): (r: Vm)
    requires Enabled(req, vm, e) && (e.EnterCleanup? || e.CloseJailer? || e.PublishStop? || e.FinishCleanup?)
    ensures r.shutdownEarly == vm.shutdownEarly
    ensures !e.EnterCleanup? && !e.FinishCleanup? ==> r.cleanupOnce == vm.cleanupOnce && r.cleanupErr == vm.cleanupErr
    ensures r.mounted == vm.mounted && r.startAttempted == vm.startAttempted
    ensures r.readyCloses == vm.readyCloses && r.startOnce == vm.startOnce
    ensures forall t :: t in vm.threads && t != e.tid ==> t in r.threads && r.threads[t] == vm.threads[t]
    ensures forall t :: t in r.threads && t != e.tid ==> t in vm.threads
  {
    match e
    case EnterCleanup(tid) =>
      Close(vm.(cleanupOnce := Running(tid), cleanupRuns := vm.cleanupRuns + 1,
                cleanupAfterStart := vm.startAttempted), tid, ClosingJailer)
    case CloseJailer(tid, ok) => Close(vm, tid, PublishingStop(if ok then [] else [JailerFault]))
    case PublishStop(tid, ok) =>
      var errs := vm.threads[tid].close.errs;
      Close(vm.(stopPublishes := vm.stopPublishes + 1), tid,
            Finishing(if ok then errs else errs + [PublishFault]))
    case FinishCleanup(tid) =>
      var errs := vm.threads[tid].close.errs;
      Close(vm.(cleanupOnce := Ran(tid), cleanupErr := errs), tid, Returned(errs))
    case _ => vm
  }

  function Next(req: Request, vm: Vm, e: Event): (r: Vm)
    requires Enabled(req, vm, e)
    ensures r.shutdownEarly == (vm.shutdownEarly || (e.CallShutdown? && !vm.startAttempted))
    ensures r.mounted == vm.mounted + (if e.MountDrive? && e.ok then 1 else 0)
    ensures r.startAttempted == (vm.startAttempted || e.PublishStart?)
    ensures r.readyCloses == vm.readyCloses + (if e.CloseReady? then 1 else 0)
    ensures !IsCreate(e) ==> r.startOnce == vm.startOnce
    ensures !e.EnterCleanup? && !e.FinishCleanup? ==> r.cleanupOnce == vm.cleanupOnce && r.cleanupErr == vm.cleanupErr
    ensures forall t :: t in vm.threads && t != e.tid ==> t in r.threads && r.threads[t] == vm.threads[t]
    ensures forall t :: t in r.threads && t !in vm.threads && t != e.tid ==>
              e.SpawnMonitor? && t == e.monitor && r.threads[t] == Closing(Monitor, AwaitingExit)
  {
    if IsCreate(e) then NextCreate(req, vm, e)
    else if e.CallStop? || e.CallShutdown? then NextCall(req, vm, e)
    else if e.EnterCleanup? || e.CloseJailer? || e.PublishStop? || e.FinishCleanup? then NextCleanup(req, vm, e)
    else NextWait(req, vm, e)
  }

  /** One stage of creating the VM. If it fails, the once is over all the same. */
  function Stage(vm: Vm, tid: nat, ok: bool, after: Vm, p: CreatePhase): Vm {
    if ok then Create(after, tid, p) else Create(vm.(startOnce := Ran(tid)), tid, Broken)
  }

  function Run(req: Request, vm: Vm, run: seq<Event>): Option<Vm>
    decreases |run|
  {
    if run == [] then Some(vm)
    else if Enabled(req, vm, run[0]) then Run(req, Next(req, vm, run[0]), run[1..])
    else None
  }

  // ---------------------------------------------------------------- the invariant

  ghost predicate InBody(p: CreatePhase) { p.BuildingMachine? || p.StartingMachine? || p.Dialing? || p.Mounting? }

  ghost predicate PastBody(p: CreatePhase) { p.PublishingStart? || p.Spawning? || p.ClosingReady? || p.Created? }

  ghost predicate InCleanup(p: ClosePhase) { p.ClosingJailer? || p.PublishingStop? || p.Finishing? }

  ghost predicate CreateOk(req: Request, vm: Vm, tid: nat, p: CreatePhase) {
    && (InBody(p) ==> vm.startOnce == Running(tid))
    && (PastBody(p) ==> vm.startOnce == Ran(tid) && vm.clientsSet && vm.mounted == req.drives)
    && (p.Mounting? ==> vm.clientsSet)
    && (p.Spawning? || p.ClosingReady? || p.Created? ==> vm.startAttempted)
    && ((p.PublishingStart? || p.Spawning? || p.ClosingReady?) ==> vm.readyCloses == 0)
    && (InBody(p) ==> vm.readyCloses == 0)
  }

  ghost predicate CloseOk(req: Request, vm: Vm, tid: nat, kind: Kind, p: ClosePhase) {
    && (kind == Monitor ==> vm.startAttempted)
    && (kind == Stop && !p.AwaitingReady? && !p.TimedOut? ==> vm.startAttempted)
    && (kind == Shutdown ==> vm.startAttempted || vm.shutdownEarly)
    && (InCleanup(p) ==> vm.cleanupOnce == Running(tid))
    && (p.Returned? ==> vm.cleanupOnce.Ran? && p.errs == vm.cleanupErr)
    && (p.Finishing? <==> InCleanup(p) && vm.stopPublishes == 1)
  }

  ghost predicate ThreadOk(req: Request, vm: Vm, tid: nat) {
    tid in vm.threads ==>
      match vm.threads[tid]
      case Creating(p) => CreateOk(req, vm, tid, p)
      case Closing(kind, p) => CloseOk(req, vm, tid, kind, p)
  }

  ghost predicate ThreadsOk(req: Request, vm: Vm) {
    forall tid :: ThreadOk(req, vm, tid)
  }

  ghost predicate GlobalOk(req: Request, vm: Vm) {
    && vm.createRuns == (if vm.startOnce.NotYet? then 0 else 1)
    && vm.readyCloses <= 1
    && (vm.readyCloses == 1 ==>
          vm.startOnce.Ran? && vm.clientsSet && vm.mounted == req.drives && vm.startAttempted)
    && vm.cleanupRuns == (if vm.cleanupOnce.NotYet? then 0 else 1)
    && (vm.cleanupOnce.NotYet? ==> vm.stopPublishes == 0)
    && (vm.cleanupOnce.Ran? ==> vm.stopPublishes == 1)
    && (vm.cleanupOnce.Running? ==> IsClosing(vm, vm.cleanupOnce.tid))
    && vm.stopPublishes <= 1
    && (vm.cleanupRuns == 1 ==> vm.cleanupAfterStart || vm.shutdownEarly)
    && (vm.cleanupAfterStart ==> vm.startAttempted)
  }

  ghost predicate Inv(req: Request, vm: Vm) {
    GlobalOk(req, vm) && ThreadsOk(req, vm)
  }

  lemma EdgeThreads(req: Request, vm: Vm, e: Event, tid: nat)
    requires Inv(req, vm) && Enabled(req, vm, e) && IsEdge(e)
    ensures ThreadOk(req, Next(req, vm, e), tid) && GlobalOk(req, Next(req, vm, e))
  {
    assert ThreadOk(req, vm, e.tid) && ThreadOk(req, vm, tid);
  }

  lemma StageSelf(req: Request, vm: Vm, e: Event)
    requires ThreadOk(req, vm, e.tid) && Enabled(req, vm, e) && IsStage(e)
    ensures ThreadOk(req, Next(req, vm, e), e.tid)
  {
    hide CloseOk, Stage;
    match e
    case BuildMachine(t, ok) => StageLeads(req, vm, t, ok, vm.(machineSet := true), StartingMachine);
    case StartMachine(t, ok) => StageLeads(req, vm, t, ok, vm, Dialing);
    case Dial(t, ok) => StageLeads(req, vm, t, ok, vm.(clientsSet := true), Mounting);
    case MountDrive(t, ok) => StageLeads(req, vm, t, ok, vm.(mounted := vm.mounted + 1), Mounting);
    case _ =>
  }

  /** What thread `tid` is at and what the closing threads depend on is the same in both states. */
  predicate SameFor(vm: Vm, vm': Vm, tid: nat) {
    && (tid in vm'.threads <==> tid in vm.threads)
    && (tid in vm.threads ==> vm'.threads[tid] == vm.threads[tid])
    && vm'.startAttempted == vm.startAttempted && vm'.shutdownEarly == vm.shutdownEarly
    && vm'.cleanupOnce == vm.cleanupOnce && vm'.cleanupErr == vm.cleanupErr
    && vm'.stopPublishes == vm.stopPublishes
  }

  lemma StageSame(vm: Vm, t: nat, ok: bool, after: Vm, p: CreatePhase, tid: nat)
    requires t in vm.threads && tid != t
    requires after == vm.(machineSet := after.machineSet, clientsSet := after.clientsSet, mounted := after.mounted)
    ensures SameFor(vm, Stage(vm, t, ok, after, p), tid)
  {
  }

  lemma StageFrame(req: Request, vm: Vm, e: Event, tid: nat)
    requires Enabled(req, vm, e) && IsStage(e) && tid != e.tid
    ensures SameFor(vm, Next(req, vm, e), tid)
  {
    hide Stage, SameFor;
    match e
    case BuildMachine(t, ok) => StageSame(vm, t, ok, vm.(machineSet := true), StartingMachine, tid);
    case StartMachine(t, ok) => StageSame(vm, t, ok, vm, Dialing, tid);
    case Dial(t, ok) => StageSame(vm, t, ok, vm.(clientsSet := true), Mounting, tid);
    case MountDrive(t, ok) => StageSame(vm, t, ok, vm.(mounted := vm.mounted + 1), Mounting, tid);
    case _ =>
  }

  lemma StageRuns(req: Request, vm: Vm, e: Event)
    requires ThreadOk(req, vm, e.tid) && Enabled(req, vm, e) && IsStage(e)
    ensures vm.startOnce == Running(e.tid)
  {
  }

  lemma OutsideOk(req: Request, vm: Vm, vm': Vm, tid: nat, p: CreatePhase, other: nat)
    requires CreateOk(req, vm, tid, p) && vm.startOnce == Running(other) && tid != other
    ensures CreateOk(req, vm', tid, p)
  {
  }

  /** While one thread is in the body, no other is in it or past it. */
  lemma StageOther(req: Request, vm: Vm, e: Event, tid: nat)
    requires ThreadOk(req, vm, e.tid) && ThreadOk(req, vm, tid) && Enabled(req, vm, e) && IsStage(e) && tid != e.tid
    ensures ThreadOk(req, Next(req, vm, e), tid)
  {
    var vm' := Next(req, vm, e);
    StageFrame(req, vm, e, tid);
    StageRuns(req, vm, e);
    hide Next, Enabled;
    if tid in vm.threads {
      match vm.threads[tid]
      case Creating(p) => OutsideOk(req, vm, vm', tid, p, e.tid);
      case Closing(kind, p) =>
        assert CloseOk(req, vm', tid, kind, p);
    }
  }

  lemma StageThreads(req: Request, vm: Vm, e: Event, tid: nat)
    requires Inv(req, vm) && Enabled(req, vm, e) && IsStage(e)
    ensures ThreadOk(req, Next(req, vm, e), tid)
  {
    hide ThreadOk, Next, GlobalOk, Enabled;
    assert ThreadOk(req, vm, e.tid) && ThreadOk(req, vm, tid);
    if tid == e.tid {
      StageSelf(req, vm, e);
    } else {
      StageOther(req, vm, e, tid);
    }
  }

  lemma StageLeads(req: Request, vm: Vm, t: nat, ok: bool, after: Vm, p: CreatePhase)
    requires vm.startOnce == Running(t) && vm.readyCloses == 0 && InBody(p) && (p.Mounting? ==> after.clientsSet)
    requires after == vm.(machineSet := after.machineSet, clientsSet := after.clientsSet, mounted := after.mounted)
    ensures ThreadOk(req, Stage(vm, t, ok, after, p), t)
  {
  }

  /** The calls that start, and CreateVM from the start event on. */
  lemma CallThreads(req: Request, vm: Vm, e: Event, tid: nat)
    requires Inv(req, vm) && Enabled(req, vm, e) && (e.CallStop? || e.CallShutdown?)
    ensures ThreadOk(req, Next(req, vm, e), tid)
  {
    assert ThreadOk(req, vm, e.tid) && ThreadOk(req, vm, tid);
    hide NextCreate, NextCleanup, NextWait;
  }

  lemma SpawnThreads(req: Request, vm: Vm, e: Event, tid: nat)
    requires Inv(req, vm) && Enabled(req, vm, e) && e.SpawnMonitor?
    ensures ThreadOk(req, Next(req, vm, e), tid)
  {
    assert ThreadOk(req, vm, e.tid) && ThreadOk(req, vm, tid);
    hide NextCall, NextCleanup, NextWait;
  }

  lemma ReadyThreads(req: Request, vm: Vm, e: Event, tid: nat)
    requires Inv(req, vm) && Enabled(req, vm, e) && (e.CallCreate? || e.PublishStart? || e.CloseReady?)
    ensures ThreadOk(req, Next(req, vm, e), tid)
  {
    assert ThreadOk(req, vm, e.tid) && ThreadOk(req, vm, tid);
    hide NextCall, NextCleanup, NextWait;
  }

  lemma AfterThreads(req: Request, vm: Vm, e: Event, tid: nat)
    requires Inv(req, vm) && Enabled(req, vm, e) && IsAfter(e)
    ensures ThreadOk(req, Next(req, vm, e), tid)
  {
    hide Inv, Next, ThreadOk, Enabled;
    if e.SpawnMonitor? {
      SpawnThreads(req, vm, e, tid);
    } else if IsCreate(e) {
      ReadyThreads(req, vm, e, tid);
    } else {
      CallThreads(req, vm, e, tid);
    }
  }

  lemma WaitThreads(req: Request, vm: Vm, e: Event, tid: nat)
    requires Inv(req, vm) && Enabled(req, vm, e)
    requires e.ReadyClosed? || e.ReadyTimeout? || e.MachineExited? || e.ReturnCleanup?
    ensures ThreadOk(req, Next(req, vm, e), tid)
  {
    assert ThreadOk(req, vm, e.tid) && ThreadOk(req, vm, tid);
    hide NextCreate, NextCall, NextCleanup;
  }

  lemma CleanupThreads(req: Request, vm: Vm, e: Event, tid: nat)
    requires Inv(req, vm) && Enabled(req, vm, e)
    requires e.EnterCleanup? || e.CloseJailer? || e.PublishStop? || e.FinishCleanup?
    ensures ThreadOk(req, Next(req, vm, e), tid)
  {
    assert ThreadOk(req, vm, e.tid) && ThreadOk(req, vm, tid);
    hide NextCreate, NextCall, NextWait;
  }

  lemma CloseThreads(req: Request, vm: Vm, e: Event, tid: nat)
    requires Inv(req, vm) && Enabled(req, vm, e) && IsClose(e)
    ensures ThreadOk(req, Next(req, vm, e), tid)
  {
    hide Inv, Next, ThreadOk, Enabled;
    if e.EnterCleanup? || e.CloseJailer? || e.PublishStop? || e.FinishCleanup? {
      CleanupThreads(req, vm, e, tid);
    } else {
      WaitThreads(req, vm, e, tid);
    }
  }

  lemma StepThreads(req: Request, vm: Vm, e: Event)
    requires Inv(req, vm) && Enabled(req, vm, e)
    ensures ThreadsOk(req, Next(req, vm, e))
  {
    hide Inv, Next, ThreadOk;
    forall tid: nat ensures ThreadOk(req, Next(req, vm, e), tid) {
      if IsEdge(e) {
        EdgeThreads(req, vm, e, tid);
      } else if IsStage(e) {
        StageThreads(req, vm, e, tid);
      } else if IsAfter(e) {
        AfterThreads(req, vm, e, tid);
      } else {
        CloseThreads(req, vm, e, tid);
      }
    }
  }

  lemma StageKeeps(req: Request, vm: Vm, t: nat, ok: bool, after: Vm, p: CreatePhase)
    requires GlobalOk(req, vm) && vm.startOnce == Running(t) && t in vm.threads && vm.threads[t].Creating?
    requires after == vm.(machineSet := after.machineSet, clientsSet := after.clientsSet, mounted := after.mounted)
    ensures GlobalOk(req, Stage(vm, t, ok, after, p))
  {
  }

  lemma StageGlobal(req: Request, vm: Vm, e: Event)
    requires GlobalOk(req, vm) && ThreadOk(req, vm, e.tid) && Enabled(req, vm, e) && IsStage(e)
    ensures GlobalOk(req, Next(req, vm, e))
  {
    hide CloseOk, GlobalOk, Stage;
    match e
    case BuildMachine(t, ok) => StageKeeps(req, vm, t, ok, vm.(machineSet := true), StartingMachine);
    case StartMachine(t, ok) => StageKeeps(req, vm, t, ok, vm, Dialing);
    case Dial(t, ok) => StageKeeps(req, vm, t, ok, vm.(clientsSet := true), Mounting);
    case MountDrive(t, ok) => StageKeeps(req, vm, t, ok, vm.(mounted := vm.mounted + 1), Mounting);
    case _ =>
  }

  lemma AfterGlobal(req: Request, vm: Vm, e: Event)
    requires Inv(req, vm) && Enabled(req, vm, e) && IsAfter(e)
    ensures GlobalOk(req, Next(req, vm, e))
  {
    assert ThreadOk(req, vm, e.tid);
  }

  lemma CloseGlobal(req: Request, vm: Vm, e: Event)
    requires Inv(req, vm) && Enabled(req, vm, e) && IsClose(e)
    ensures GlobalOk(req, Next(req, vm, e))
  {
    assert ThreadOk(req, vm, e.tid);
  }

  lemma StepInv(req: Request, vm: Vm, e: Event)
    requires Inv(req, vm) && Enabled(req, vm, e)
    ensures Inv(req, Next(req, vm, e))
  {
    hide Next, ThreadOk, GlobalOk;
    StepThreads(req, vm, e);
    assert ThreadOk(req, vm, e.tid);
    if IsEdge(e) {
      EdgeThreads(req, vm, e, e.tid);
    } else if IsStage(e) {
      StageGlobal(req, vm, e);
    } else if IsAfter(e) {
      AfterGlobal(req, vm, e);
    } else {
      CloseGlobal(req, vm, e);
    }
  }

  lemma {:induction false} RunInv(req: Request, vm: Vm, run: seq<Event>)
    requires Inv(req, vm) && Run(req, vm, run).Some?
    ensures Inv(req, Run(req, vm, run).value)
    decreases |run|
  {
    hide Inv;
    if run != [] {
      StepInv(req, vm, run[0]);
      RunInv(req, Next(req, vm, run[0]), run[1..]);
    }
  }

  // ---------------------------------------------------------------- what holds of every run

  /**
   * The body of CreateVM runs at most once; the ready channel is closed at most once, and only after the
   * clients are set, every drive mount succeeded and the start event was attempted.
   */
  lemma CreatedOnce(req: Request, run: seq<Event>)
    requires Run(req, START, run).Some?
    ensures var vm := Run(req, START, run).value;
            && vm.createRuns <= 1 && vm.readyCloses <= 1
            && (vm.readyCloses == 1 ==> vm.clientsSet && vm.mounted == req.drives && vm.startAttempted)
  {
    RunInv(req, START, run);
  }

  /** The cleanup body runs at most once, and everyone who called it gets the same error. */
  lemma CleanedOnce(req: Request, run: seq<Event>, a: nat, b: nat)
    requires Run(req, START, run).Some?
    ensures var vm := Run(req, START, run).value;
            && vm.cleanupRuns <= 1 && vm.stopPublishes <= 1
            && (IsClosing(vm, a) && IsClosing(vm, b)
                && vm.threads[a].close.Returned? && vm.threads[b].close.Returned? ==>
                  vm.threads[a].close == vm.threads[b].close)
  {
    RunInv(req, START, run);
    var vm := Run(req, START, run).value;
    assert ThreadOk(req, vm, a) && ThreadOk(req, vm, b);
  }

  /** A run in which cleanup starts before the start event was attempted. */
  ghost predicate CleansEarly(req: Request, run: seq<Event>) {
    && Run(req, START, run).Some?
    && Run(req, START, run).value.cleanupRuns == 1
    && !Run(req, START, run).value.cleanupAfterStart
  }

  /** Every shutdown that goes ahead comes after the start event was attempted. */
  ghost predicate Patient(req: Request, vm: Vm, run: seq<Event>)
    requires Run(req, vm, run).Some?
    decreases |run|
  {
    run == [] ||
    ((run[0].CallShutdown? ==> vm.startAttempted) && Patient(req, Next(req, vm, run[0]), run[1..]))
  }

  lemma {:induction false} PatientIff(req: Request, vm: Vm, run: seq<Event>)
    requires Run(req, vm, run).Some?
    ensures !Run(req, vm, run).value.shutdownEarly <==> !vm.shutdownEarly && Patient(req, vm, run)
    decreases |run|
  {
    hide Next, Enabled;
    if run != [] {
      PatientIff(req, Next(req, vm, run[0]), run[1..]);
    }
  }

  /** In every run whose shutdowns wait for the start event, whatever the request, cleanup comes after it. */
  lemma NeverEarly(req: Request, run: seq<Event>)
    requires Run(req, START, run).Some? && Patient(req, START, run)
    ensures !CleansEarly(req, run)
  {
    RunInv(req, START, run);
    PatientIff(req, START, run);
  }

  lemma {:induction false} PatientWithoutShutdown(req: Request, vm: Vm, run: seq<Event>)
    requires Run(req, vm, run).Some?
    requires forall i :: 0 <= i < |run| ==> !run[i].CallShutdown?
    ensures Patient(req, vm, run)
    decreases |run|
  {
    if run != [] {
      assert forall i :: 0 <= i < |run[1..]| ==> run[1..][i] == run[i + 1];
      PatientWithoutShutdown(req, Next(req, vm, run[0]), run[1..]);
    }
  }

  /** In particular in every interleaving of CreateVM, StopVM and the exit monitor. */
  lemma NeverEarlyWithoutShutdown(req: Request, run: seq<Event>)
    requires Run(req, START, run).Some?
    requires forall i :: 0 <= i < |run| ==> !run[i].CallShutdown?
    ensures !CleansEarly(req, run)
  {
    PatientWithoutShutdown(req, START, run);
    NeverEarly(req, run);
  }

  lemma {:induction false} RunAppend(req: Request, vm: Vm, a: seq<Event>, b: seq<Event>)
    requires Run(req, vm, a).Some?
    ensures Run(req, vm, a + b) == Run(req, Run(req, vm, a).value, b)
    decreases |a|
  {
    hide Next, Enabled;
    if a == [] {
      assert a + b == b;
    } else {
      assert (a + b)[0] == a[0] && (a + b)[1..] == a[1..] + b;
      RunAppend(req, Next(req, vm, a[0]), a[1..], b);
    }
  }

  lemma RunSnoc(req: Request, vm: Vm, run: seq<Event>, e: Event)
    requires Run(req, vm, run).Some? && Enabled(req, Run(req, vm, run).value, e)
    ensures Run(req, vm, run + [e]) == Some(Next(req, Run(req, vm, run).value, e))
  {
    hide Enabled, Next;
    RunAppend(req, vm, run, [e]);
    assert [e][1..] == [];
  }

  lemma {:induction false} PatientAppend(req: Request, vm: Vm, a: seq<Event>, b: seq<Event>)
    requires Run(req, vm, a).Some? && Run(req, vm, a + b).Some?
    requires Run(req, Run(req, vm, a).value, b).Some?
    ensures Patient(req, vm, a + b) <==> Patient(req, vm, a) && Patient(req, Run(req, vm, a).value, b)
    decreases |a|
  {
    hide Next, Enabled;
    if a == [] {
      assert a + b == b;
    } else {
      assert (a + b)[0] == a[0] && (a + b)[1..] == a[1..] + b;
      PatientAppend(req, Next(req, vm, a[0]), a[1..], b);
    }
  }

  /** The rest of a run that does not shut down early again, and ends with cleanup before the start event. */
  ghost predicate EndsEarly(req: Request, run: seq<Event>, rest: seq<Event>)
    requires Run(req, START, run).Some?
  {
    var vm := Run(req, START, run).value;
    Run(req, vm, rest).Some? && Patient(req, vm, rest) && CleansEarly(req, run + rest)
  }

  lemma RunCons(req: Request, vm: Vm, e: Event, run: seq<Event>)
    requires Enabled(req, vm, e)
    ensures Run(req, vm, [e] + run) == Run(req, Next(req, vm, e), run)
  {
    assert ([e] + run)[1..] == run;
  }

  /** The shortest such rest: the machine exits, and the shutdown cleans up. */
  lemma ShutdownCleans(req: Request, vm: Vm, tid: nat, now: bool) returns (rest: seq<Event>)
    requires Enabled(req, vm, CallShutdown(tid, now)) && !vm.startAttempted && vm.cleanupOnce.NotYet?
    ensures var vm' := Next(req, vm, CallShutdown(tid, now));
            && Run(req, vm', rest).Some? && Patient(req, vm', rest)
            && Run(req, vm', rest).value.cleanupRuns == vm.cleanupRuns + 1
            && !Run(req, vm', rest).value.cleanupAfterStart
    ensures forall i :: 0 <= i < |rest| ==> !rest[i].CallShutdown?
  {
    var v1 := Next(req, vm, CallShutdown(tid, now));
    var v2 := Next(req, v1, MachineExited(tid));
    var v3 := Next(req, v2, EnterCleanup(tid));
    RunCons(req, v2, EnterCleanup(tid), []);
    RunCons(req, v1, MachineExited(tid), [EnterCleanup(tid)] + []);
    rest := [MachineExited(tid)] + ([EnterCleanup(tid)] + []);
    PatientWithoutShutdown(req, v1, rest);
  }

  lemma PatientOne(req: Request, vm: Vm, e: Event)
    requires Run(req, vm, [e]).Some? && vm.startAttempted
    ensures Patient(req, vm, [e])
  {
    assert [e][1..] == [];
  }

  lemma LateIsFine(req: Request, run: seq<Event>, tid: nat, now: bool, rest: seq<Event>)
    requires Run(req, START, run).Some? && Patient(req, START, run)
    requires Run(req, START, run + [CallShutdown(tid, now)]).Some?
    requires Run(req, START, run).value.startAttempted
    ensures !EndsEarly(req, run + [CallShutdown(tid, now)], rest)
  {
    hide Patient, CleansEarly;
    var all := run + [CallShutdown(tid, now)];
    if EndsEarly(req, all, rest) {
      RunAppend(req, START, run, [CallShutdown(tid, now)]);
      PatientOne(req, Run(req, START, run).value, CallShutdown(tid, now));
      PatientAppend(req, START, run, [CallShutdown(tid, now)]);
      RunAppend(req, START, all, rest);
      PatientAppend(req, START, all, rest);
      NeverEarly(req, all + rest);
    }
  }

  /**
   * After any run whose shutdowns were patient, one more that goes ahead makes cleanup before the
   * start event possible exactly when that event has not been attempted yet.
   */
  lemma EarlyIff(req: Request, run: seq<Event>, tid: nat, now: bool)
    requires Run(req, START, run).Some? && Patient(req, START, run)
    requires Enabled(req, Run(req, START, run).value, CallShutdown(tid, now))
    ensures Run(req, START, run + [CallShutdown(tid, now)]).Some?
    ensures (exists rest :: EndsEarly(req, run + [CallShutdown(tid, now)], rest))
       <==> !Run(req, START, run).value.startAttempted
  {
    var vm, all := Run(req, START, run).value, run + [CallShutdown(tid, now)];
    RunSnoc(req, START, run, CallShutdown(tid, now));
    RunInv(req, START, run);
    PatientIff(req, START, run);
    if vm.startAttempted {
      forall rest ensures !EndsEarly(req, all, rest) {
        LateIsFine(req, run, tid, now, rest);
      }
    } else {
      var rest := ShutdownCleans(req, vm, tid, now);
      RunAppend(req, START, all, rest);
      assert EndsEarly(req, all, rest);
    }
  }

  /** CreateVM is about to mount the drives. */
  function AboutToMount(): Vm {
    START.(startOnce := Running(0), createRuns := 1, machineSet := true, clientsSet := true,
           threads := map[0 := Creating(Mounting)])
  }

  lemma RunNothing(req: Request, vm: Vm)
    ensures Run(req, vm, []) == Some(vm)
  {
  }

  lemma AboutToMountReachable(req: Request) returns (run: seq<Event>)
    ensures Run(req, START, run) == Some(AboutToMount())
    ensures forall i :: 0 <= i < |run| ==> !run[i].CallShutdown?
  {
    var v1 := Create(START, 0, Arrived);
    var v2 := Create(v1.(startOnce := Running(0), createRuns := 1), 0, BuildingMachine);
    var v3 := Create(v2.(machineSet := true), 0, StartingMachine);
    var v4 := Create(v3, 0, Dialing);
    assert Next(req, v4, Dial(0, true)) == AboutToMount();
    hide Run, Patient;
    RunNothing(req, AboutToMount());
    RunCons(req, v4, Dial(0, true), []);
    run := [Dial(0, true)] + [];
    RunCons(req, v3, StartMachine(0, true), run);
    run := [StartMachine(0, true)] + run;
    RunCons(req, v2, BuildMachine(0, true), run);
    run := [BuildMachine(0, true)] + run;
    RunCons(req, v1, EnterCreate(0), run);
    run := [EnterCreate(0)] + run;
    RunCons(req, START, CallCreate(0), run);
    run := [CallCreate(0)] + run;
  }

  /** While the drives are being mounted, a shutdown can already clean up. */
  lemma EarlyRun(req: Request, now: bool) returns (run: seq<Event>)
    requires now || req.exitAfterAllTasksDeleted
    ensures CleansEarly(req, run)
    ensures forall i :: 0 <= i < |run| && run[i].CallShutdown? ==> run[i].now == now
  {
    hide Run, Patient;
    var first := AboutToMountReachable(req);
    RunSnoc(req, START, first, CallShutdown(1, now));
    var rest := ShutdownCleans(req, AboutToMount(), 1, now);
    var all := first + [CallShutdown(1, now)];
    RunAppend(req, START, all, rest);
    run := all + rest;
  }

  ghost predicate AtOnce(run: seq<Event>) {
    exists i :: 0 <= i < |run| && run[i].CallShutdown? && run[i].now
  }

  lemma {:induction false} NoShutdown(req: Request, vm: Vm, run: seq<Event>)
    requires !req.exitAfterAllTasksDeleted && Run(req, vm, run).Some? && !AtOnce(run)
    ensures forall i :: 0 <= i < |run| ==> !run[i].CallShutdown?
    decreases |run|
  {
    if run != [] {
      assert forall i :: 0 <= i < |run[1..]| ==> run[1..][i] == run[i + 1];
      NoShutdown(req, Next(req, vm, run[0]), run[1..]);
      assert run == [run[0]] + run[1..];
    }
  }

  /**
   * Without shutdowns that are asked for at once, cleanup follows the start event in every run exactly when the VM is
   * not to exit with its last container.
   */
  lemma CleanupAfterStartIff(req: Request)
    ensures (forall run :: !AtOnce(run) ==> !CleansEarly(req, run)) <==> !req.exitAfterAllTasksDeleted
  {
    hide CleansEarly;
    if req.exitAfterAllTasksDeleted {
      var run := EarlyRun(req, false);
      assert !AtOnce(run);
    } else {
      forall run | !AtOnce(run) ensures !CleansEarly(req, run) {
        NeverEarlyAtOnce(req, run);
      }
    }
  }

  lemma NeverEarlyAtOnce(req: Request, run: seq<Event>)
    requires !req.exitAfterAllTasksDeleted && !AtOnce(run)
    ensures !CleansEarly(req, run)
  {
    if Run(req, START, run).Some? {
      NoShutdown(req, START, run);
      NeverEarlyWithoutShutdown(req, run);
    }
  }
}
