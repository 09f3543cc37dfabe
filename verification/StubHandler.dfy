/** Handing the container stub drives out and taking them back. */
module StubHandler {
  import opened Machine
  import opened Options
  import opened Paths
  import opened HostDrives

  /** The requests made to the jail, the VMM and the agent, in order. */
  datatype Call =
    | Expose(hostPath: string)
    | Patch(driveID: Bytes, path: string)
    | Mount(driveID: Bytes, destination: string, filesystemType: string, options: seq<string>)
    | Unmount(driveID: Bytes)

  /** The request that fails, if any. */
  datatype Failing = Nothing | Exposing | Patching | Mounting | Unmounting

  datatype Outcome = Done | Exhausted | InUse | BadOptions | Unknown | RequestFailed

  datatype Handler = Handler(free: seq<StubDrive>, used: map<string, StubDrive>)

  // ---------------------------------------------------------------- what the operations do

  /** The options a drive is mounted with, unless the first mode among them contradicts the drive. */
  function MountOptions(options: seq<string>, isWritable: bool): Option<seq<string>> {
    if FirstMode(options).None? then Some(options + [Mode(isWritable)])
    else if FirstMode(options).value == Mode(isWritable) then Some(options)
    else None
  }

  function MountCalls(d: StubDrive, failing: Failing): seq<Call> {
    var m := d.driveMount;
    var expose, patch := [Expose(m.hostPath)], [Patch(d.driveID, m.hostPath)];
    var mount := [Mount(d.driveID, m.vmPath, m.filesystemType, m.options)];
    match failing
    case Exposing => expose
    case Patching => expose + patch
    case _ => expose + patch + mount
  }

  predicate MountFails(failing: Failing) {
    failing == Exposing || failing == Patching || failing == Mounting
  }

  /** The drive that a reservation would hand out. */
  function Prepared(h: Handler, m: MountConfig): Option<StubDrive>
    requires h.free != []
  {
    match MountOptions(m.options, h.free[0].driveMount.isWritable)
    case None => None
    case Some(options) => Some(h.free[0].WithMountConfig(m.hostPath, m.vmPath, m.filesystemType, options))
  }

  function ReserveIn(h: Handler, id: string, m: MountConfig, failing: Failing): (Handler, Outcome, seq<Call>) {
    if h.free == [] then (h, Exhausted, [])
    else if id in h.used then (h, InUse, [])
    else
      match Prepared(h, m)
      case None => (h, BadOptions, [])
      case Some(d) =>
        if MountFails(failing) then (h, RequestFailed, MountCalls(d, failing))
        else (Handler(h.free[1..], h.used[id := d]), Done, MountCalls(d, failing))
  }

  function ReleaseIn(h: Handler, id: string, failing: Failing): (Handler, Outcome, seq<Call>) {
    if id !in h.used then (h, Unknown, [])
    else
      var d := h.used[id];
      var unmount, patch := [Unmount(d.driveID)], [Patch(d.driveID, Base(d.stubPath))];
      if failing == Unmounting then (h, RequestFailed, unmount)
      else if failing == Patching then (h, RequestFailed, unmount + patch)
      else (Handler(h.free + [d], h.used - {id}), Done, unmount + patch)
  }

  /** Everything that is asked for to mount a drive, in order. */
  function Requests(d: StubDrive): (calls: seq<Call>)
    ensures |calls| == 3
  {
    var m := d.driveMount;
    [Expose(m.hostPath), Patch(d.driveID, m.hostPath), Mount(d.driveID, m.vmPath, m.filesystemType, m.options)]
  }

  /** How far the requests get, the failing one included. */
  function RequestCount(failing: Failing): (n: nat)
    ensures n <= 3
  {
    if failing == Exposing then 1 else if failing == Patching then 2 else 3
  }

  // ---------------------------------------------------------------- the handler

  class StubDriveHandler {
    var freeDrives: seq<StubDrive>
    var usedDrives: map<string, StubDrive>

    ghost function Value(): Handler
      reads this
    {
      Handler(freeDrives, usedDrives)
    }

    constructor (stubs: seq<StubDrive>)
      ensures Value() == Handler(stubs, map[])
    {
      freeDrives, usedDrives := stubs, map[];
    }

    method PatchAndMount(d: StubDrive, failing: Failing) returns (ok: bool, calls: seq<Call>)
      ensures ok == !MountFails(failing) && calls == MountCalls(d, failing)
      ensures ok <==> failing != Exposing && failing != Patching && failing != Mounting
      ensures calls == Requests(d)[..RequestCount(failing)]
    {
      calls := [Expose(d.driveMount.hostPath)];
      if failing == Exposing {
        return false, calls;
      }
      calls := calls + [Patch(d.driveID, d.driveMount.hostPath)];
      if failing == Patching {
        return false, calls;
      }
      calls := calls + [Mount(d.driveID, d.driveMount.vmPath, d.driveMount.filesystemType, d.driveMount.options)];
      ok := failing != Mounting;
    }

    method Reserve(id: string, m: MountConfig, failing: Failing) returns (outcome: Outcome, calls: seq<Call>)
      modifies this
      ensures (Value(), outcome, calls) == ReserveIn(old(Value()), id, m, failing)
    {
      calls := [];
      if |freeDrives| == 0 {
        return Exhausted, calls;
      }
      if id in usedDrives {
        return InUse, calls;
      }
      var freeDrive := freeDrives[0];
      var options := SetReadWriteOptions(m.options, freeDrive.driveMount.isWritable);
      if options.None? {
        return BadOptions, calls;
      }
      var stubDrive := freeDrive.WithMountConfig(m.hostPath, m.vmPath, m.filesystemType, options.value);
      var ok;
      ok, calls := PatchAndMount(stubDrive, failing);
      if !ok {
        return RequestFailed, calls;
      }
      freeDrives := freeDrives[1..];
      usedDrives := usedDrives[id := stubDrive];
      outcome := Done;
    }

    method Release(id: string, failing: Failing) returns (outcome: Outcome, calls: seq<Call>)
      modifies this
      ensures (Value(), outcome, calls) == ReleaseIn(old(Value()), id, failing)
    {
      calls := [];
      if id !in usedDrives {
        return Unknown, calls;
      }
      var drive := usedDrives[id];
      calls := [Unmount(drive.driveID)];
      if failing == Unmounting {
        return RequestFailed, calls;
      }
      calls := calls + [Patch(drive.driveID, Base(drive.stubPath))];
      if failing == Patching {
        return RequestFailed, calls;
      }
      usedDrives := usedDrives - {id};
      freeDrives := freeDrives + [drive];
      outcome := Done;
    }
  }

  // ---------------------------------------------------------------- conservation

  type Fixed = (string, Bytes, bool, Limiter)

  function FixedOf(drives: seq<StubDrive>): seq<Fixed> {
    seq(|drives|, i requires 0 <= i < |drives| => drives[i].Fixed())
  }

  /** No drive is in two places: not twice in the queue, not with two containers, not both free and used. */
  ghost predicate Apart(h: Handler) {
    && (forall i, j :: 0 <= i < j < |h.free| ==> h.free[i].driveID != h.free[j].driveID)
    && (forall a, b :: a in h.used && b in h.used && a != b ==> h.used[a].driveID != h.used[b].driveID)
    && (forall i, a :: 0 <= i < |h.free| && a in h.used ==> h.free[i].driveID != h.used[a].driveID)
  }

  ghost function Held(h: Handler): set<Fixed> {
    (set d | d in h.free :: d.Fixed()) + (set a | a in h.used :: h.used[a].Fixed())
  }

  /** Free and used drives together are exactly the created ones, and none is in two places. */
  ghost predicate Conserved(h: Handler, created: seq<StubDrive>) {
    && Apart(h)
    && Held(h) == (set d | d in created :: d.Fixed())
    && |h.free| + |h.used| == |created|
  }

  lemma ReserveConserves(h: Handler, id: string, m: MountConfig, failing: Failing, created: seq<StubDrive>)
    requires Conserved(h, created)
    ensures Conserved(ReserveIn(h, id, m, failing).0, created)
  {
    hide Held;
    var r := ReserveIn(h, id, m, failing);
    if r.1 == Done {
      var d := Prepared(h, m).value;
      assert h.free == [h.free[0]] + h.free[1..];
      assert d.Fixed() == h.free[0].Fixed() && d.driveID == h.free[0].driveID;
      HeldAfterReserve(h, id, d);
    }
  }

  lemma HeldAfterReserve(h: Handler, id: string, d: StubDrive)
    requires h.free != [] && id !in h.used && d.Fixed() == h.free[0].Fixed()
    ensures Held(Handler(h.free[1..], h.used[id := d])) == Held(h)
  {
    var used := h.used[id := d];
    assert h.free == [h.free[0]] + h.free[1..];
    assert (set e | e in h.free :: e.Fixed()) == {d.Fixed()} + (set e | e in h.free[1..] :: e.Fixed());
    assert (set a | a in used :: used[a].Fixed()) == {d.Fixed()} + (set a | a in h.used :: h.used[a].Fixed()) by {
      assert id in used && used[id] == d;
      forall a | a in h.used ensures a in used && used[a] == h.used[a] {
      }
    }
  }

  lemma ReleaseConserves(h: Handler, id: string, failing: Failing, created: seq<StubDrive>)
    requires Conserved(h, created)
    ensures Conserved(ReleaseIn(h, id, failing).0, created)
  {
    hide Held, Apart;
    if ReleaseIn(h, id, failing).1 == Done {
      ApartAfterRelease(h, id);
      HeldAfterRelease(h, id);
      FewerUsed(h.used, id);
    }
  }

  lemma ApartAfterRelease(h: Handler, id: string)
    requires Apart(h) && id in h.used
    ensures Apart(Handler(h.free + [h.used[id]], h.used - {id}))
  {
    var d, used := h.used[id], h.used - {id};
    assert forall a :: a in used ==> a in h.used && a != id && used[a] == h.used[a];
    forall i, j | 0 <= i < j < |h.free| + 1 ensures (h.free + [d])[i].driveID != (h.free + [d])[j].driveID {
      if j == |h.free| { assert h.free[i].driveID != d.driveID; }
    }
  }

  lemma FewerUsed(used: map<string, StubDrive>, id: string)
    requires id in used
    ensures |used - {id}| == |used| - 1
  {
    assert used.Keys == (used - {id}).Keys + {id};
  }

  lemma HeldAfterRelease(h: Handler, id: string)
    requires id in h.used
    ensures Held(Handler(h.free + [h.used[id]], h.used - {id})) == Held(h)
  {
    var d, used := h.used[id], h.used - {id};
    assert (set e | e in h.free + [d] :: e.Fixed()) == (set e | e in h.free :: e.Fixed()) + {d.Fixed()};
    assert (set a | a in h.used :: h.used[a].Fixed()) == {d.Fixed()} + (set a | a in used :: used[a].Fixed()) by {
      forall a | a in used ensures a in h.used && used[a] == h.used[a] {
      }
      forall a | a in h.used && a != id ensures a in used && used[a] == h.used[a] {
      }
    }
  }

  // ---------------------------------------------------------------- runs

  datatype Op =
    | Reserve(id: string, m: MountConfig, failing: Failing)
    | Release(id: string, failing: Failing)

  /** A handler with the drives that joined its queue and those that left it, in order. */
  datatype Journal = Journal(h: Handler, joined: seq<Fixed>, left: seq<Fixed>)

  function Begin(created: seq<StubDrive>): Journal {
    Journal(Handler(created, map[]), FixedOf(created), [])
  }

  function Step(j: Journal, op: Op): Journal {
    match op
    case Reserve(id, m, failing) =>
      var (h, outcome, _) := ReserveIn(j.h, id, m, failing);
      if outcome == Done then Journal(h, j.joined, j.left + [j.h.free[0].Fixed()]) else j.(h := h)
    case Release(id, failing) =>
      var (h, outcome, _) := ReleaseIn(j.h, id, failing);
      if outcome == Done then Journal(h, j.joined + [j.h.used[id].Fixed()], j.left) else j.(h := h)
  }

  function Run(j: Journal, ops: seq<Op>): Journal {
    if ops == [] then j else Step(Run(j, ops[..|ops| - 1]), ops[|ops| - 1])
  }

  /** The queue is first in, first out: what joined is what left followed by what is waiting. */
  ghost predicate Queued(j: Journal) {
    j.joined == j.left + FixedOf(j.h.free)
  }

  lemma StepQueued(j: Journal, op: Op)
    requires Queued(j)
    ensures Queued(Step(j, op))
  {
    match op
    case Reserve(id, m, failing) =>
      if ReserveIn(j.h, id, m, failing).1 == Done {
        assert FixedOf(j.h.free) == [j.h.free[0].Fixed()] + FixedOf(j.h.free[1..]);
      }
    case Release(id, failing) =>
      if ReleaseIn(j.h, id, failing).1 == Done {
        assert FixedOf(j.h.free + [j.h.used[id]]) == FixedOf(j.h.free) + [j.h.used[id].Fixed()];
      }
  }

  ghost predicate Distinct(drives: seq<StubDrive>) {
    forall i, j :: 0 <= i < j < |drives| ==> drives[i].driveID != drives[j].driveID
  }

  /**
   * Over every sequence of reserves and releases with any failures, the drives are conserved, none is held
   * twice, and they are handed out in the order in which they became free.
   */
  lemma {:induction false} RunConserves(created: seq<StubDrive>, ops: seq<Op>)
    requires Distinct(created)
    ensures Conserved(Run(Begin(created), ops).h, created)
    ensures Queued(Run(Begin(created), ops))
    decreases |ops|
  {
    if ops == [] {
      assert [] + FixedOf(created) == FixedOf(created);
    } else {
      var before, op := Run(Begin(created), ops[..|ops| - 1]), ops[|ops| - 1];
      RunConserves(created, ops[..|ops| - 1]);
      StepQueued(before, op);
      match op
      case Reserve(id, m, failing) => ReserveConserves(before.h, id, m, failing, created);
      case Release(id, failing) => ReleaseConserves(before.h, id, failing, created);
    }
  }

  /** The container stubs of a VM satisfy what conservation starts from. */
  lemma ContainerDrivesDistinct(root: string, n: nat)
    requires IsAbs(root) && n <= MAX_INT
    ensures Distinct(ContainerDrives(root, n, n))
  {
    hide StubPath, DriveID;
    var drives := ContainerDrives(root, n, n);
    forall i, j | 0 <= i < j < n ensures drives[i].driveID != drives[j].driveID {
      ContainerIsStub(root, n, i);
      ContainerIsStub(root, n, j);
      StubIDsValid(root, n, i, j);
    }
  }

  // ---------------------------------------------------------------- one operation

  /** The first mode among the options is the other one than the drive's. */
  ghost predicate Contradicts(options: seq<string>, isWritable: bool) {
    IsFirstMode(options, if isWritable then "ro" else "rw")
  }

  /** The options, with the drive's mode at the end if they have none. */
  ghost function WithMode(options: seq<string>, isWritable: bool): seq<string> {
    if "ro" in options || "rw" in options then options else options + [if isWritable then "rw" else "ro"]
  }

  /**
   * A reservation succeeds exactly when a drive is free, the container has none, the mode fits, and none of the three
   * requests fails. It then hands out the head of the queue, set up as asked; otherwise it changes nothing.
   */
  lemma ReserveMeaning(h: Handler, id: string, m: MountConfig, failing: Failing)
    ensures var (h', outcome, calls) := ReserveIn(h, id, m, failing);
            && (outcome == Done <==>
                  && h.free != [] && id !in h.used
                  && failing != Exposing && failing != Patching && failing != Mounting
                  && !Contradicts(m.options, h.free[0].driveMount.isWritable))
            && (outcome != Done ==> h' == h)
            && (outcome == Done ==>
                  && h'.free == h.free[1..] && id in h'.used && h'.used == h.used[id := h'.used[id]]
                  && Mounted(h'.used[id], h.free[0], m, calls))
  {
    hide IsFirstMode;
    FirstModeMeaning(m.options);
    FirstModeIsMode(m.options);
  }

  /** Which error a failed reservation gives, and that it has made exactly the requests up to the failing one. */
  lemma ReserveErrors(h: Handler, id: string, m: MountConfig, failing: Failing)
    ensures var (h', outcome, calls) := ReserveIn(h, id, m, failing);
            && (outcome == Exhausted <==> h.free == [])
            && (outcome == InUse <==> h.free != [] && id in h.used)
            && (outcome == BadOptions <==>
                  h.free != [] && id !in h.used && Contradicts(m.options, h.free[0].driveMount.isWritable))
            && (outcome == RequestFailed <==>
                  && h.free != [] && id !in h.used && !Contradicts(m.options, h.free[0].driveMount.isWritable)
                  && failing in [Exposing, Patching, Mounting])
            && (outcome in [Exhausted, InUse, BadOptions] ==> calls == [])
            && (outcome == RequestFailed && failing == Exposing ==> calls == [Expose(m.hostPath)])
            && (outcome == RequestFailed && failing == Patching ==>
                  calls == [Expose(m.hostPath), Patch(h.free[0].driveID, m.hostPath)])
            && (outcome == RequestFailed && failing == Mounting ==>
                  calls == [Expose(m.hostPath), Patch(h.free[0].driveID, m.hostPath),
                            Mount(h.free[0].driveID, m.vmPath, m.filesystemType,
                                  WithMode(m.options, h.free[0].driveMount.isWritable))])
  {
    hide IsFirstMode;
    FirstModeMeaning(m.options);
    FirstModeIsMode(m.options);
  }

  /** Drive `d` is the stub `from` with the mount `m`: exposed, patched to the host path, then mounted. */
  ghost predicate Mounted(d: StubDrive, from: StubDrive, m: MountConfig, calls: seq<Call>) {
    && d.Fixed() == from.Fixed()
    && d.driveMount.hostPath == m.hostPath && d.driveMount.vmPath == m.vmPath
    && d.driveMount.filesystemType == m.filesystemType
    && d.driveMount.options == WithMode(m.options, from.driveMount.isWritable)
    && calls == [Expose(m.hostPath), Patch(from.driveID, m.hostPath),
                 Mount(from.driveID, m.vmPath, m.filesystemType, d.driveMount.options)]
  }

  lemma {:induction false} FirstModeIsMode(options: seq<string>)
    ensures FirstMode(options).None? || FirstMode(options).value in {"ro", "rw"}
  {
    if options != [] { FirstModeIsMode(options[1..]); }
  }

  /**
   * A release succeeds exactly when the container has a drive and neither request fails; a failed one changes nothing
   * and has made exactly the requests up to the failing one.
   */
  lemma ReleaseMeaning(h: Handler, id: string, failing: Failing)
    ensures var (h', outcome, calls) := ReleaseIn(h, id, failing);
            && (outcome == Unknown <==> id !in h.used)
            && (outcome == Done <==> id in h.used && failing != Unmounting && failing != Patching)
            && (outcome in [Unknown, Done] || outcome == RequestFailed)
            && (outcome != Done ==> h' == h)
            && (outcome == Done ==> h'.free == h.free + [h.used[id]] && h'.used == h.used - {id})
            && (outcome == Unknown ==> calls == [])
            && (outcome == RequestFailed && failing == Unmounting ==> calls == [Unmount(h.used[id].driveID)])
            && (outcome == Done || (outcome == RequestFailed && failing == Patching) ==>
                  calls == [Unmount(h.used[id].driveID),
                            Patch(h.used[id].driveID, Base(h.used[id].stubPath))])
  {
  }

  /** Releasing what was just reserved gives the drive back at the end of the queue, patched to its own stub file. */
  lemma ReleaseUndoesReserve(h: Handler, id: string, m: MountConfig)
    requires h.free != [] && id !in h.used && Prepared(h, m).Some?
    ensures var reserved := ReserveIn(h, id, m, Nothing);
            var (h', outcome, calls) := ReleaseIn(reserved.0, id, Nothing);
            && outcome == Done && h'.used == h.used
            && FixedOf(h'.free) == FixedOf(h.free[1..]) + [h.free[0].Fixed()]
            && calls == [Unmount(h.free[0].driveID), Patch(h.free[0].driveID, Base(h.free[0].stubPath))]
  {
    var d := Prepared(h, m).value;
    assert h.used[id := d] - {id} == h.used;
    assert d.Fixed() == h.free[0].Fixed();
    assert FixedOf(h.free[1..] + [d]) == FixedOf(h.free[1..]) + [d.Fixed()];
  }
}
