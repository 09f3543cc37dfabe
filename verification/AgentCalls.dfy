/** The agent's Create, Exec and Delete calls running at the same time, and the cleanups that each of them runs. */
module AgentCalls {
  import opened Machine
  import opened Options
  import opened AgentCleanup

  // ---------------------------------------------------------------- calls and steps

  /**
   * A create or exec registers its planned cleanups, numbered `own`; the call that fails, and the delete of a process,
   * then run a cleanup. The cleanups that a delete is meant for are those of the create or exec.
   */
  datatype Call =
    | Registering(pair: Pair, planned: nat, own: seq<nat>)
    | Unwinding(pair: Pair, own: seq<nat>)
    | Finished

  /** `running` holds the processes that the task manager has, with the cleanups their calls registered. */
  datatype Service = Service(stacks: State, running: map<Pair, seq<nat>>, calls: map<nat, Call>)

  const IDLE := Service(AgentCleanup.START, map[], map[])

  /** A call may fail at any point; once its cleanups are registered it reaches the task manager. */
  datatype Step =
    | Begin(tid: nat, pair: Pair, planned: nat)
    | Register(tid: nat)
    | Fail(tid: nat)
    | Refuse(tid: nat)
    | Succeed(tid: nat)
    | Delete(tid: nat, pair: Pair)
    | Unwind(tid: nat)

  predicate IsRegistering(s: Service, tid: nat) { tid in s.calls && s.calls[tid].Registering? }

  predicate IsUnwinding(s: Service, tid: nat) { tid in s.calls && s.calls[tid].Unwinding? }

  predicate IsBusy(s: Service, tid: nat) { IsRegistering(s, tid) || IsUnwinding(s, tid) }

  predicate IsPlanned(s: Service, tid: nat) {
    IsRegistering(s, tid) && |s.calls[tid].own| == s.calls[tid].planned
  }

  predicate IsValid(valid: Bytes -> bool, pair: Pair) { TaskExecID(valid, pair).Some? }

  predicate Enabled(valid: Bytes -> bool, s: Service, e: Step) {
    match e
    case Begin(tid, pair, _) => tid !in s.calls && IsValid(valid, pair)
    case Register(tid) => IsRegistering(s, tid) && !IsPlanned(s, tid) && IsValid(valid, s.calls[tid].pair)
    case Fail(tid) => IsRegistering(s, tid)
    case Refuse(tid) => IsPlanned(s, tid) && s.calls[tid].pair in s.running
    case Succeed(tid) => IsPlanned(s, tid) && s.calls[tid].pair !in s.running
    case Delete(tid, pair) => tid !in s.calls && pair in s.running
    case Unwind(tid) => IsUnwinding(s, tid) && IsValid(valid, s.calls[tid].pair)
  }

  function GiveUp(s: Service, tid: nat): Service
    requires IsRegistering(s, tid)
  {
    var c := s.calls[tid];
    s.(calls := s.calls[tid := Unwinding(c.pair, c.own)])
  }

  function Next(valid: Bytes -> bool, s: Service, e: Step): Service
    requires Enabled(valid, s, e)
  {
    match e
    case Begin(tid, pair, planned) => s.(calls := s.calls[tid := Registering(pair, planned, [])])
    case Register(tid) =>
      var c := s.calls[tid];
      s.(stacks := AgentCleanup.Next(valid, s.stacks, Add(c.pair)),
         calls := s.calls[tid := Registering(c.pair, c.planned, c.own + [|s.stacks.owners|])])
    case Fail(tid) => GiveUp(s, tid)
    case Refuse(tid) => GiveUp(s, tid)
    case Succeed(tid) =>
      s.(running := s.running[s.calls[tid].pair := s.calls[tid].own], calls := s.calls[tid := Finished])
    case Delete(tid, pair) =>
      s.(running := s.running - {pair}, calls := s.calls[tid := Unwinding(pair, s.running[pair])])
    case Unwind(tid) =>
      s.(stacks := AgentCleanup.Next(valid, s.stacks, Do(s.calls[tid].pair)), calls := s.calls[tid := Finished])
  }

  function Run(valid: Bytes -> bool, s: Service, run: seq<Step>): Option<Service>
    decreases |run|
  {
    if run == [] then Some(s)
    else
      var init := Run(valid, s, run[..|run| - 1]);
      if init.Some? && Enabled(valid, init.value, run[|run| - 1])
      then Some(Next(valid, init.value, run[|run| - 1]))
      else None
  }

  /** What waits under a pair's key. */
  function Pending(valid: Bytes -> bool, s: Service, pair: Pair): seq<nat>
    requires IsValid(valid, pair)
  {
    Entry(s.stacks.cleanups, TaskExecID(valid, pair).value)
  }

  /** The step runs exactly these cleanups, the last one first. */
  ghost predicate RunsExactly(valid: Bytes -> bool, s: Service, e: Step, cleanups: seq<nat>)
    requires Enabled(valid, s, e)
  {
    Next(valid, s, e).stacks.log == s.stacks.log + Reversed(cleanups)
  }

  lemma StepStacks(valid: Bytes -> bool, s: Service, e: Step)
    requires AgentCleanup.Inv(valid, s.stacks) && Enabled(valid, s, e)
    ensures AgentCleanup.Inv(valid, Next(valid, s, e).stacks)
    ensures e.Register? ==> Next(valid, s, e).stacks.owners == s.stacks.owners + [s.calls[e.tid].pair]
    ensures s.stacks.owners <= Next(valid, s, e).stacks.owners && s.stacks.log <= Next(valid, s, e).stacks.log
  {
    hide AgentCleanup.Inv, TaskExecID;
    match e
    case Register(tid) => AddInv(valid, s.stacks, s.calls[tid].pair);
    case Unwind(tid) => DoInv(valid, s.stacks, s.calls[tid].pair);
    case _ =>
  }

  /** What one step does to what waits under a pair's key. */
  lemma StepPending(valid: Bytes -> bool, s: Service, e: Step, pair: Pair)
    requires RejectsSlashes(valid) && Enabled(valid, s, e) && IsValid(valid, pair)
    ensures Pending(valid, Next(valid, s, e), pair) ==
              if e.Register? && s.calls[e.tid].pair == pair
              then Pending(valid, s, pair) + [|s.stacks.owners|]
              else if e.Unwind? && s.calls[e.tid].pair == pair then []
              else Pending(valid, s, pair)
  {
    hide TaskExecID;
    if e.Register? || e.Unwind? {
      var other := s.calls[e.tid].pair;
      if TaskExecID(valid, other) == TaskExecID(valid, pair) { TaskExecIDInjective(valid, other, pair); }
    }
  }

  lemma UnwindRuns(valid: Bytes -> bool, s: Service, tid: nat, cleanups: seq<nat>)
    requires Enabled(valid, s, Unwind(tid))
    ensures RunsExactly(valid, s, Unwind(tid), cleanups) <==> Pending(valid, s, s.calls[tid].pair) == cleanups
  {
    hide TaskExecID;
    var log, e := s.stacks.log, Pending(valid, s, s.calls[tid].pair);
    if log + Reversed(e) == log + Reversed(cleanups) {
      assert (log + Reversed(e))[|log|..] == Reversed(e);
      assert (log + Reversed(cleanups))[|log|..] == Reversed(cleanups);
      ReversedInjective(e, cleanups);
    }
  }

  lemma ReversedInjective(a: seq<nat>, b: seq<nat>)
    requires Reversed(a) == Reversed(b)
    ensures a == b
  {
    forall i | 0 <= i < |a| ensures |a| == |b| && a[i] == b[i] {
      assert Reversed(a)[|a| - 1 - i] == Reversed(b)[|a| - 1 - i];
    }
  }

  // ---------------------------------------------------------------- what a failing call runs

  /** Another call registers, or runs, cleanups of the pair. */
  predicate AddsOther(s: Service, e: Step, tid: nat, pair: Pair) {
    e.Register? && e.tid != tid && IsRegistering(s, e.tid) && s.calls[e.tid].pair == pair
  }

  predicate TakesOther(s: Service, e: Step, tid: nat, pair: Pair) {
    e.Unwind? && e.tid != tid && IsUnwinding(s, e.tid) && s.calls[e.tid].pair == pair
  }

  /** Since another call last ran the pair's cleanups, or else since `s`, another call has left one there. */
  ghost predicate OthersPending(valid: Bytes -> bool, s: Service, run: seq<Step>, tid: nat, pair: Pair)
    requires IsValid(valid, pair) && Run(valid, s, run).Some?
    decreases |run|
  {
    if run == [] then Pending(valid, s, pair) != [] else
      var init, e := run[..|run| - 1], run[|run| - 1];
      var t := Run(valid, s, init).value;
      AddsOther(t, e, tid, pair) || (!TakesOther(t, e, tid, pair) && OthersPending(valid, s, init, tid, pair))
  }

  function Own(s: Service, tid: nat): seq<nat> {
    if IsBusy(s, tid) then s.calls[tid].own else []
  }

  /** Another call ran the pair's cleanups after this one registered some. */
  ghost predicate OwnTaken(valid: Bytes -> bool, s: Service, run: seq<Step>, tid: nat, pair: Pair)
    requires Run(valid, s, run).Some?
    decreases |run|
  {
    if run == [] then false else
      var init, e := run[..|run| - 1], run[|run| - 1];
      var t := Run(valid, s, init).value;
      (TakesOther(t, e, tid, pair) && Own(t, tid) != []) || OwnTaken(valid, s, init, tid, pair)
  }

  /** What these two histories mean for the call of thread `tid`. */
  ghost predicate Accounted(valid: Bytes -> bool, s: Service, tid: nat, pair: Pair, taken: bool, others: bool)
    requires IsValid(valid, pair)
  {
    && (forall c :: c in Own(s, tid) || c in Pending(valid, s, pair) ==>
          c < |s.stacks.owners| && s.stacks.owners[c] == pair)
    && (taken ==> exists c :: c in Own(s, tid) && c in s.stacks.log)
    && (others ==> exists c :: c in Pending(valid, s, pair) && c !in Own(s, tid))
    && (!taken && !others ==> Pending(valid, s, pair) == Own(s, tid))
  }

  lemma RanOrPending(valid: Bytes -> bool, s: Service, pair: Pair, c: nat)
    requires AgentCleanup.Inv(valid, s.stacks) && c < |s.stacks.owners| && s.stacks.owners[c] == pair
    requires IsValid(valid, pair)
    ensures c in s.stacks.log || c in Pending(valid, s, pair)
  {
    hide TaskExecID;
  }

  lemma StepAccounted(valid: Bytes -> bool, s: Service, e: Step, tid: nat, pair: Pair, taken: bool, others: bool)
    requires RejectsSlashes(valid) && IsValid(valid, pair) && AgentCleanup.Inv(valid, s.stacks)
    requires Accounted(valid, s, tid, pair, taken, others) && Enabled(valid, s, e)
    requires IsBusy(s, tid) && s.calls[tid].pair == pair && e != Succeed(tid) && e != Unwind(tid)
    ensures var taken' := (TakesOther(s, e, tid, pair) && Own(s, tid) != []) || taken;
            var others' := AddsOther(s, e, tid, pair) || (!TakesOther(s, e, tid, pair) && others);
            var s' := Next(valid, s, e);
            && Accounted(valid, s', tid, pair, taken', others')
            && IsBusy(s', tid) && s'.calls[tid].pair == pair
  {
    hide TaskExecID, AgentCleanup.Inv, Pending, RejectsSlashes;
    var s', before, own := Next(valid, s, e), Pending(valid, s, pair), Own(s, tid);
    StepPending(valid, s, e, pair);
    StepStacks(valid, s, e);
    if AddsOther(s, e, tid, pair) {
      var c := |s.stacks.owners|;
      assert Pending(valid, s', pair)[|before|] == c;
      assert c in Pending(valid, s', pair) && c !in Own(s', tid);
    } else if others && !TakesOther(s, e, tid, pair) {
      var c :| c in before && c !in own;
      assert c in Pending(valid, s', pair) && c !in Own(s', tid);
    }
    if TakesOther(s, e, tid, pair) && own != [] {
      var c := own[0];
      assert c in own;
      RanOrPending(valid, s', pair, c);
      assert c in Own(s', tid) && c in s'.stacks.log;
    } else if taken {
      var c :| c in own && c in s.stacks.log;
      assert c in Own(s', tid) && c in s'.stacks.log;
    }
  }

  lemma {:induction false} RunKnows(valid: Bytes -> bool, s: Service, run: seq<Step>, tid: nat)
    requires Run(valid, s, run).Some? && tid in s.calls
    ensures tid in Run(valid, s, run).value.calls
    decreases |run|
  {
    hide TaskExecID;
    if run != [] {
      RunKnows(valid, s, run[..|run| - 1], tid);
    }
  }

  /** A call that is over stays over. */
  lemma StepBusy(valid: Bytes -> bool, s: Service, e: Step, tid: nat)
    requires Enabled(valid, s, e) && tid in s.calls && IsBusy(Next(valid, s, e), tid)
    ensures IsBusy(s, tid) && e != Succeed(tid) && e != Unwind(tid)
  {
    hide TaskExecID;
  }

  /** From the start of a call in `b` to a point where it is not over. */
  lemma {:induction false} RunAccounted(valid: Bytes -> bool, b: Service, tid: nat, pair: Pair, run: seq<Step>)
    requires RejectsSlashes(valid) && IsValid(valid, pair) && AgentCleanup.Inv(valid, b.stacks)
    requires IsBusy(b, tid) && b.calls[tid].pair == pair && Own(b, tid) == []
    requires Run(valid, b, run).Some? && IsBusy(Run(valid, b, run).value, tid)
    ensures var u := Run(valid, b, run).value;
            && AgentCleanup.Inv(valid, u.stacks) && u.calls[tid].pair == pair
            && Accounted(valid, u, tid, pair,
                         OwnTaken(valid, b, run, tid, pair), OthersPending(valid, b, run, tid, pair))
    decreases |run|
  {
    hide TaskExecID, AgentCleanup.Inv, RejectsSlashes, Accounted;
    if run == [] {
      StartAccounted(valid, b, tid, pair);
    } else {
      var init, e := run[..|run| - 1], run[|run| - 1];
      var t := Run(valid, b, init).value;
      RunKnows(valid, b, init, tid);
      StepBusy(valid, t, e, tid);
      RunAccounted(valid, b, tid, pair, init);
      StepStacks(valid, t, e);
      StepAccounted(valid, t, e, tid, pair,
                    OwnTaken(valid, b, init, tid, pair), OthersPending(valid, b, init, tid, pair));
    }
  }

  lemma StartAccounted(valid: Bytes -> bool, s: Service, tid: nat, pair: Pair)
    requires RejectsSlashes(valid) && IsValid(valid, pair) && AgentCleanup.Inv(valid, s.stacks) && Own(s, tid) == []
    ensures Accounted(valid, s, tid, pair, false, Pending(valid, s, pair) != [])
  {
    hide TaskExecID;
    var key := TaskExecID(valid, pair).value;
    assert Waiting(valid, s.stacks, key);
    forall c | c in Pending(valid, s, pair) ensures c < |s.stacks.owners| && s.stacks.owners[c] == pair {
      TaskExecIDInjective(valid, s.stacks.owners[c], pair);
    }
    if Pending(valid, s, pair) != [] { assert Pending(valid, s, pair)[0] in Pending(valid, s, pair); }
  }

  /**
   * A create or exec that fails runs exactly the cleanups it registered itself if and only if no other call ran its
   * pair's cleanups after its own first one was registered, and nothing of another call is waiting there: left before
   * it began, or registered since another call last ran them.
   */
  lemma UnwindsOwnIff(valid: Bytes -> bool, s: Service, tid: nat, pair: Pair, planned: nat, run: seq<Step>, u: Service)
    requires RejectsSlashes(valid) && AgentCleanup.Inv(valid, s.stacks) && Enabled(valid, s, Begin(tid, pair, planned))
    requires Run(valid, Next(valid, s, Begin(tid, pair, planned)), run) == Some(u)
    requires Enabled(valid, u, Unwind(tid))
    ensures var b := Next(valid, s, Begin(tid, pair, planned));
            && u.calls[tid].pair == pair
            && (RunsExactly(valid, u, Unwind(tid), u.calls[tid].own)
                <==> !OwnTaken(valid, b, run, tid, pair) && !OthersPending(valid, b, run, tid, pair))
  {
    hide TaskExecID, RejectsSlashes, RunsExactly, OwnTaken, OthersPending, Run, Accounted, AgentCleanup.Inv;
    var b := Next(valid, s, Begin(tid, pair, planned));
    RunAccounted(valid, b, tid, pair, run);
    UnwindRuns(valid, u, tid, u.calls[tid].own);
    AccountedIff(valid, u, tid, pair, OwnTaken(valid, b, run, tid, pair), OthersPending(valid, b, run, tid, pair));
  }

  /** What has run is not waiting any more. */
  lemma AccountedIff(valid: Bytes -> bool, s: Service, tid: nat, pair: Pair, taken: bool, others: bool)
    requires IsValid(valid, pair) && AgentCleanup.Inv(valid, s.stacks) && Accounted(valid, s, tid, pair, taken, others)
    ensures Pending(valid, s, pair) == Own(s, tid) <==> !taken && !others
  {
    hide TaskExecID;
    assert Waiting(valid, s.stacks, TaskExecID(valid, pair).value);
    if taken {
      var c :| c in Own(s, tid) && c in s.stacks.log;
      assert c !in Pending(valid, s, pair);
    }
  }

  /** The stacks of every reachable state are in order. */
  lemma {:induction false} RunStacks(valid: Bytes -> bool, run: seq<Step>)
    requires Run(valid, IDLE, run).Some?
    ensures AgentCleanup.Inv(valid, Run(valid, IDLE, run).value.stacks)
    decreases |run|
  {
    hide AgentCleanup.Inv;
    if run == [] {
      AgentCleanup.RunInv(valid, []);
    } else {
      RunStacks(valid, run[..|run| - 1]);
      StepStacks(valid, Run(valid, IDLE, run[..|run| - 1]).value, run[|run| - 1]);
    }
  }

  // ---------------------------------------------------------------- orderly clients

  /** Only valid pairs get this far. */
  ghost predicate AllValid(valid: Bytes -> bool, s: Service) {
    && (forall pair :: pair in s.running ==> IsValid(valid, pair))
    && (forall x :: IsBusy(s, x) ==> IsValid(valid, s.calls[x].pair))
  }

  lemma {:induction false} RunValid(valid: Bytes -> bool, run: seq<Step>)
    requires Run(valid, IDLE, run).Some?
    ensures AllValid(valid, Run(valid, IDLE, run).value)
    decreases |run|
  {
    if run != [] {
      RunValid(valid, run[..|run| - 1]);
      StepValid(valid, Run(valid, IDLE, run[..|run| - 1]).value, run[|run| - 1]);
    }
  }

  /** A call that is not over can go on, and one that has not reached the task manager can fail. */
  lemma NeverStuck(valid: Bytes -> bool, run: seq<Step>, s: Service, tid: nat) returns (e: Step)
    requires Run(valid, IDLE, run) == Some(s) && IsBusy(s, tid)
    ensures Enabled(valid, s, e) && e.tid == tid && !e.Fail?
    ensures IsRegistering(s, tid) ==>
              && Enabled(valid, s, Fail(tid))
              && Next(valid, s, Fail(tid)).calls[tid] == Unwinding(s.calls[tid].pair, Own(s, tid))
  {
    RunValid(valid, run);
    e := if IsUnwinding(s, tid) then Unwind(tid)
         else if !IsPlanned(s, tid) then Register(tid)
         else if s.calls[tid].pair in s.running then Refuse(tid) else Succeed(tid);
  }

  /** No call for the pair is under way. */
  ghost predicate IsFree(s: Service, pair: Pair) {
    forall x :: IsBusy(s, x) ==> s.calls[x].pair != pair
  }

  /** A process is created only when there is none, and created or deleted by one call at a time. */
  ghost predicate Orderly(s: Service, e: Step) {
    match e
    case Begin(_, pair, _) => pair !in s.running && IsFree(s, pair)
    case Delete(_, pair) => IsFree(s, pair)
    case _ => true
  }

  ghost predicate AllOrderly(valid: Bytes -> bool, s: Service, run: seq<Step>)
    requires Run(valid, s, run).Some?
    decreases |run|
  {
    if run == [] then true else
      var init := run[..|run| - 1];
      AllOrderly(valid, s, init) && Orderly(Run(valid, s, init).value, run[|run| - 1])
  }

  /** What waits under a pair is what its call or its process registered, and nothing if there is neither. */
  ghost predicate PairTidy(valid: Bytes -> bool, s: Service, pair: Pair)
    requires IsValid(valid, pair)
  {
    && (pair in s.running ==> IsFree(s, pair) && Pending(valid, s, pair) == s.running[pair])
    && (pair !in s.running && IsFree(s, pair) ==> Pending(valid, s, pair) == [])
    && (forall x :: IsBusy(s, x) && s.calls[x].pair == pair ==> Pending(valid, s, pair) == s.calls[x].own)
    && (forall x, y :: IsBusy(s, x) && IsBusy(s, y) && s.calls[x].pair == s.calls[y].pair == pair ==> x == y)
  }

  ghost predicate Tidy(valid: Bytes -> bool, s: Service) {
    (forall pair :: IsValid(valid, pair) ==> PairTidy(valid, s, pair)) && AllValid(valid, s)
  }

  function PairOf(s: Service, e: Step): Pair
    requires e.Begin? || e.Delete? || IsBusy(s, e.tid)
  {
    match e
    case Begin(_, pair, _) => pair
    case Delete(_, pair) => pair
    case _ => s.calls[e.tid].pair
  }

  lemma OtherPairTidy(valid: Bytes -> bool, s: Service, e: Step, pair: Pair)
    requires RejectsSlashes(valid) && IsValid(valid, pair) && Enabled(valid, s, e) && PairOf(s, e) != pair
    requires PairTidy(valid, s, pair)
    ensures PairTidy(valid, Next(valid, s, e), pair)
  {
    hide TaskExecID, Pending, RejectsSlashes;
    StepPending(valid, s, e, pair);
    var s' := Next(valid, s, e);
    assert forall x :: IsBusy(s, x) && s.calls[x].pair == pair ==> IsBusy(s', x) && s'.calls[x] == s.calls[x];
    assert forall x :: IsBusy(s', x) && s'.calls[x].pair == pair ==> IsBusy(s, x) && s'.calls[x] == s.calls[x];
  }

  /** After a step of a call for the pair, only that call can be busy with it. */
  lemma OwnPairTidy(valid: Bytes -> bool, s: Service, e: Step, pair: Pair)
    requires RejectsSlashes(valid) && IsValid(valid, pair) && Enabled(valid, s, e) && Orderly(s, e)
    requires PairTidy(valid, s, pair) && PairOf(s, e) == pair
    ensures PairTidy(valid, Next(valid, s, e), pair)
  {
    hide TaskExecID, Pending, RejectsSlashes;
    StepPending(valid, s, e, pair);
    var s' := Next(valid, s, e);
    forall x | x != e.tid ensures !(IsBusy(s', x) && s'.calls[x].pair == pair) {
      assert IsBusy(s', x) <==> IsBusy(s, x);
      assert x in s.calls ==> s'.calls[x] == s.calls[x];
    }
    assert e.Succeed? || e.Unwind? || IsBusy(s', e.tid);
  }

  lemma StepPairTidy(valid: Bytes -> bool, s: Service, e: Step, pair: Pair)
    requires RejectsSlashes(valid) && IsValid(valid, pair) && Enabled(valid, s, e) && Orderly(s, e)
    requires PairTidy(valid, s, pair)
    ensures PairTidy(valid, Next(valid, s, e), pair)
  {
    hide TaskExecID, Pending, RejectsSlashes, PairTidy, Next, Orderly;
    if PairOf(s, e) == pair {
      OwnPairTidy(valid, s, e, pair);
    } else {
      OtherPairTidy(valid, s, e, pair);
    }
  }

  lemma StepTidy(valid: Bytes -> bool, s: Service, e: Step)
    requires RejectsSlashes(valid) && Tidy(valid, s) && Enabled(valid, s, e) && Orderly(s, e)
    ensures Tidy(valid, Next(valid, s, e))
  {
    hide TaskExecID, RejectsSlashes, PairTidy, Pending, IsValid;
    var s' := Next(valid, s, e);
    forall pair | IsValid(valid, pair) ensures PairTidy(valid, s', pair) {
      StepPairTidy(valid, s, e, pair);
    }
    StepValid(valid, s, e);
  }

  lemma StepValid(valid: Bytes -> bool, s: Service, e: Step)
    requires AllValid(valid, s) && Enabled(valid, s, e)
    ensures AllValid(valid, Next(valid, s, e))
  {
    hide TaskExecID;
  }

  lemma {:induction false} RunTidy(valid: Bytes -> bool, run: seq<Step>)
    requires RejectsSlashes(valid) && Run(valid, IDLE, run).Some? && AllOrderly(valid, IDLE, run)
    ensures Tidy(valid, Run(valid, IDLE, run).value)
    decreases |run|
  {
    if run != [] {
      hide Tidy, RejectsSlashes, Orderly;
      var init := run[..|run| - 1];
      RunTidy(valid, init);
      StepTidy(valid, Run(valid, IDLE, init).value, run[|run| - 1]);
    }
  }

  /**
   * With orderly clients every call that fails runs exactly the cleanups it registered, every delete exactly those
   * of the call that created the process, and nothing waits for a process that neither exists nor is being created
   * or deleted.
   */
  lemma OrderlyUnwinds(valid: Bytes -> bool, run: seq<Step>, s: Service)
    requires RejectsSlashes(valid) && Run(valid, IDLE, run) == Some(s) && AllOrderly(valid, IDLE, run)
    ensures forall tid :: Enabled(valid, s, Unwind(tid)) ==> RunsExactly(valid, s, Unwind(tid), s.calls[tid].own)
    ensures forall pair :: IsValid(valid, pair) && pair !in s.running && IsFree(s, pair) ==>
              Pending(valid, s, pair) == []
  {
    hide TaskExecID, RejectsSlashes, RunsExactly, Run, Pending, IsFree;
    RunTidy(valid, run);
    forall tid | Enabled(valid, s, Unwind(tid)) ensures RunsExactly(valid, s, Unwind(tid), s.calls[tid].own) {
      assert IsBusy(s, tid) && PairTidy(valid, s, s.calls[tid].pair);
      UnwindRuns(valid, s, tid, s.calls[tid].own);
    }
    forall pair | IsValid(valid, pair) && pair !in s.running && IsFree(s, pair) ensures Pending(valid, s, pair) == [] {
      assert PairTidy(valid, s, pair);
    }
  }

  // ---------------------------------------------------------------- a second create

  lemma RunMore(valid: Bytes -> bool, s: Service, run: seq<Step>, t: Service, e: Step, u: Service)
    requires Run(valid, s, run) == Some(t) && Enabled(valid, t, e) && Next(valid, t, e) == u
    ensures Run(valid, s, run + [e]) == Some(u)
  {
    assert (run + [e])[..|run|] == run;
  }

  lemma RunNothing(valid: Bytes -> bool, s: Service)
    ensures Run(valid, s, []) == Some(s)
  {
  }

  /** The stacks with `n` cleanups of one pair. */
  function Stacked(valid: Bytes -> bool, pair: Pair, n: nat): State
    requires IsValid(valid, pair)
  {
    State(if n == 0 then map[] else map[TaskExecID(valid, pair).value := Numbers(0, n)], seq(n, _ => pair), [])
  }

  function Numbers(a: nat, b: nat): seq<nat>
    requires a <= b
  {
    seq(b - a, i requires 0 <= i < b - a => a + i)
  }

  lemma StackMore(valid: Bytes -> bool, pair: Pair, n: nat)
    requires IsValid(valid, pair)
    ensures AgentCleanup.Next(valid, Stacked(valid, pair, n), Add(pair)) == Stacked(valid, pair, n + 1)
  {
    hide TaskExecID;
    var key := TaskExecID(valid, pair).value;
    assert Entry(Stacked(valid, pair, n).cleanups, key) == Numbers(0, n);
    assert Numbers(0, n) + [n] == Numbers(0, n + 1);
    assert seq(n, _ => pair) + [pair] == seq(n + 1, _ => pair);
    assert Stacked(valid, pair, n).cleanups[key := Numbers(0, n + 1)] == map[key := Numbers(0, n + 1)];
  }

  /** Call `tid` registers one more cleanup, as number `n`; it began when there were `from`. */
  lemma RegisterMore(valid: Bytes -> bool, run: seq<Step>, s: Service, pair: Pair, planned: nat,
                     tid: nat, from: nat, n: nat) returns (s': Service)
    requires IsValid(valid, pair) && from <= n < from + planned
    requires s.stacks == Stacked(valid, pair, n)
    requires tid in s.calls && s.calls[tid] == Registering(pair, planned, Numbers(from, n))
    requires Run(valid, IDLE, run) == Some(s)
    ensures s' == s.(stacks := Stacked(valid, pair, n + 1),
                     calls := s.calls[tid := Registering(pair, planned, Numbers(from, n + 1))])
    ensures Run(valid, IDLE, run + [Register(tid)]) == Some(s')
  {
    hide TaskExecID, Run, Stacked, AgentCleanup.Next;
    StackMore(valid, pair, n);
    StackedOwners(valid, pair, n);
    assert Numbers(from, n) + [n] == Numbers(from, n + 1);
    s' := Next(valid, s, Register(tid));
    RunMore(valid, IDLE, run, s, Register(tid), s');
  }

  lemma StackedOwners(valid: Bytes -> bool, pair: Pair, n: nat)
    requires IsValid(valid, pair)
    ensures |Stacked(valid, pair, n).owners| == n && Stacked(valid, pair, 0) == IDLE.stacks
  {
    assert seq(0, _ => pair) == [];
  }

  /** A process with two cleanups. */
  function Created(valid: Bytes -> bool, pair: Pair): Service
    requires IsValid(valid, pair)
  {
    Service(Stacked(valid, pair, 2), map[pair := Numbers(0, 2)], map[0 := Finished])
  }

  lemma CreatedReachable(valid: Bytes -> bool, pair: Pair) returns (run: seq<Step>)
    requires IsValid(valid, pair)
    ensures Run(valid, IDLE, run) == Some(Created(valid, pair))
  {
    hide TaskExecID, Run, Stacked;
    var s := IDLE.(calls := map[0 := Registering(pair, 2, [])]);
    StackedOwners(valid, pair, 0);
    assert Numbers(0, 0) == [];
    run := [];
    RunNothing(valid, IDLE);
    RunMore(valid, IDLE, run, IDLE, Begin(0, pair, 2), s);
    run := run + [Begin(0, pair, 2)];
    s := RegisterMore(valid, run, s, pair, 2, 0, 0, 0);
    run := run + [Register(0)];
    s := RegisterMore(valid, run, s, pair, 2, 0, 0, 1);
    run := run + [Register(0)];
    RunMore(valid, IDLE, run, s, Succeed(0), Created(valid, pair));
    run := run + [Succeed(0)];
  }

  /** A second create of it is refused by the task manager. */
  function Refused(valid: Bytes -> bool, pair: Pair): Service
    requires IsValid(valid, pair)
  {
    Service(Stacked(valid, pair, 4), map[pair := Numbers(0, 2)],
            map[0 := Finished, 1 := Unwinding(pair, Numbers(2, 4))])
  }

  lemma RefusedReachable(valid: Bytes -> bool, pair: Pair) returns (run: seq<Step>)
    requires IsValid(valid, pair)
    ensures Run(valid, IDLE, run) == Some(Refused(valid, pair))
  {
    hide TaskExecID, Run, Stacked;
    run := CreatedReachable(valid, pair);
    var s := Created(valid, pair).(calls := map[0 := Finished, 1 := Registering(pair, 2, [])]);
    assert Numbers(2, 2) == [];
    RunMore(valid, IDLE, run, Created(valid, pair), Begin(1, pair, 2), s);
    run := run + [Begin(1, pair, 2)];
    s := RegisterMore(valid, run, s, pair, 2, 1, 2, 2);
    run := run + [Register(1)];
    s := RegisterMore(valid, run, s, pair, 2, 1, 2, 3);
    run := run + [Register(1)];
    RunMore(valid, IDLE, run, s, Refuse(1), Refused(valid, pair));
    run := run + [Refuse(1)];
  }

  /** Its cleanup then runs those of the running process as well. */
  lemma UnwindsAnother(valid: Bytes -> bool, pair: Pair) returns (run: seq<Step>, s: Service)
    requires IsValid(valid, pair)
    ensures Run(valid, IDLE, run) == Some(s) && run != [] && run[|run| - 1] == Unwind(1)
    ensures pair in s.running && s.running[pair] == [0, 1] && s.stacks.log == [3, 2, 1, 0]
  {
    hide TaskExecID, Run;
    run := RefusedReachable(valid, pair);
    var t := Refused(valid, pair);
    assert Numbers(0, 4) == [0, 1, 2, 3] && Numbers(0, 2) == [0, 1];
    assert Reversed([0, 1, 2, 3]) == [3, 2, 1, 0];
    s := Next(valid, t, Unwind(1));
    RunMore(valid, IDLE, run, t, Unwind(1), s);
    run := run + [Unwind(1)];
  }
}
