/** The guest's side: finding the stub drives among the block devices by their content. */
module GuestDrives {
  import opened Machine
  import opened Options
  import opened Paths
  import opened StubContent
  import opened HostDrives

  /** A block device as the agent meets it: each of its three reads may fail. */
  datatype Device = Device(
    name: string,
    majorMinor: Option<string>,
    probed: Option<Bytes>,
    read: Option<Bytes>)

  datatype Drive = Drive(name: string, driveID: Bytes, majorMinor: string)

  /** A device all of whose reads succeed and see the same content. */
  ghost predicate Holds(d: Device, content: Bytes) {
    d.majorMinor.Some? && d.probed == Some(content) && d.read == Some(content)
  }

  // ---------------------------------------------------------------- discovery

  predicate Probed(d: Device) { d.probed.Some? && IsStub(d.probed.value) }

  /** The drive a stub device is, unless one of its reads fails. */
  function DriveOf(d: Device): Option<Drive> {
    if d.majorMinor.None? || d.read.None? then None else
      match Parse(d.read.value)
      case None => None
      case Some(id) => Some(Drive(d.name, id, d.majorMinor.value))
  }

  /** The map after the devices from `drives` on; the last device with an ID wins. */
  function Discover(drives: map<Bytes, Drive>, devices: seq<Device>): Option<map<Bytes, Drive>>
    decreases |devices|
  {
    if devices == [] then Some(drives)
    else if devices[0].majorMinor.None? then None
    else if !Probed(devices[0]) then Discover(drives, devices[1..])
    else
      match DriveOf(devices[0])
      case None => None
      case Some(d) => Discover(drives[d.driveID := d], devices[1..])
  }

  class DriveHandler {
    var drives: map<Bytes, Drive>

    constructor ()
      ensures drives == map[]
    {
      drives := map[];
    }

    /** Replaces the map as a whole, and only when the block directory and every device could be read. */
    method DiscoverDrives(listing: Option<seq<Device>>) returns (ok: bool)
      modifies this
      ensures ok <==> listing.Some? && Discover(map[], listing.value).Some?
      ensures drives == if ok then Discover(map[], listing.value).value else old(drives)
    {
      if listing.None? {
        return false;
      }
      var devices := listing.value;
      var found: map<Bytes, Drive> := map[];
      var rest := devices;
      while rest != []
        invariant Discover(found, rest) == Discover(map[], devices)
        invariant drives == old(drives)
        decreases |rest|
      {
        var d := rest[0];
        rest := rest[1..];
        if d.majorMinor.None? {
          return false;
        }
        if d.probed.None? {
          continue;
        }
        var f := new Reader(d.probed.value);
        var stub := IsStubDrive(f);
        if !stub {
          continue;
        }
        if d.read.None? {
          return false;
        }
        f := new Reader(d.read.value);
        var id := ParseStubContent(f);
        if id.None? {
          return false;
        }
        found := found[id.value := Drive(d.name, id.value, d.majorMinor.value)];
      }
      drives := found;
      ok := true;
    }

    function GetDrive(id: Bytes): (r: Option<Drive>)
      ensures r.Some? <==> id in drives
      ensures r.Some? ==> r.value == drives[id]
      reads this
    {
      if id in drives then Some(drives[id]) else None
    }
  }

  // ---------------------------------------------------------------- what discovery finds

  /** A device whose content starts like a stub. */
  ghost predicate IsStubDevice(d: Device) { d.probed.Some? && MAGIC <= d.probed.value }

  /** A device that ends the discovery: without a number, or a stub whose content cannot be read or has no ID. */
  ghost predicate IsBad(d: Device) {
    || d.majorMinor.None?
    || (IsStubDevice(d) && (d.read.None? || |d.read.value| <= 9 || d.read.value[8] == 0))
  }

  /** The entry of a stub device. */
  ghost function EntryOf(d: Device): Drive
    requires !IsBad(d) && IsStubDevice(d)
  {
    Drive(d.name, IDIn(d.read.value), d.majorMinor.value)
  }

  /** Each stub among the first `n` devices has an entry, and each entry is that of the last stub with its ID. */
  ghost predicate Describes(drives: map<Bytes, Drive>, devices: seq<Device>, n: nat)
    requires n <= |devices| && forall i :: 0 <= i < n ==> !IsBad(devices[i])
  {
    && (forall i :: 0 <= i < n && IsStubDevice(devices[i]) ==> EntryOf(devices[i]).driveID in drives)
    && (forall id :: id in drives ==>
          exists i :: 0 <= i < n && IsLast(devices, n, i, id) && drives[id] == EntryOf(devices[i]))
  }

  ghost predicate IsLast(devices: seq<Device>, n: nat, i: nat, id: Bytes)
    requires i < n <= |devices| && forall j :: 0 <= j < n ==> !IsBad(devices[j])
  {
    && IsStubDevice(devices[i]) && EntryOf(devices[i]).driveID == id
    && forall j :: i < j < n && IsStubDevice(devices[j]) ==> EntryOf(devices[j]).driveID != id
  }

  lemma DriveOfDevice(d: Device)
    ensures Probed(d) <==> IsStubDevice(d)
    ensures IsStubDevice(d) && d.majorMinor.Some? ==> (DriveOf(d).None? <==> IsBad(d))
    ensures IsStubDevice(d) && !IsBad(d) ==> DriveOf(d) == Some(EntryOf(d))
  {
    StubBytes(if d.probed.Some? then d.probed.value else []);
    if d.read.Some? { ParseMeaning(d.read.value); }
  }

  lemma DescribesMore(drives: map<Bytes, Drive>, devices: seq<Device>, n: nat)
    requires n < |devices| && (forall i :: 0 <= i <= n ==> !IsBad(devices[i])) && Describes(drives, devices, n)
    ensures !IsStubDevice(devices[n]) ==> Describes(drives, devices, n + 1)
    ensures IsStubDevice(devices[n]) ==>
              var d := EntryOf(devices[n]); Describes(drives[d.driveID := d], devices, n + 1)
  {
    hide IsBad, IsStubDevice, EntryOf;
    var next := if IsStubDevice(devices[n])
      then drives[EntryOf(devices[n]).driveID := EntryOf(devices[n])] else drives;
    forall id | id in next
      ensures exists i :: 0 <= i < n + 1 && IsLast(devices, n + 1, i, id) && next[id] == EntryOf(devices[i])
    {
      if IsStubDevice(devices[n]) && id == EntryOf(devices[n]).driveID {
        assert IsLast(devices, n + 1, n, id);
      } else {
        var i :| 0 <= i < n && IsLast(devices, n, i, id) && drives[id] == EntryOf(devices[i]);
        assert IsLast(devices, n + 1, i, id);
      }
    }
  }

  lemma {:induction false} DiscoverRest(drives: map<Bytes, Drive>, devices: seq<Device>, n: nat)
    requires n <= |devices| && (forall i :: 0 <= i < n ==> !IsBad(devices[i])) && Describes(drives, devices, n)
    ensures var r := Discover(drives, devices[n..]);
            && (r.Some? <==> forall i :: n <= i < |devices| ==> !IsBad(devices[i]))
            && (r.Some? ==> Describes(r.value, devices, |devices|))
    decreases |devices| - n
  {
    hide Describes, DriveOf, Probed, IsStubDevice, EntryOf;
    if n < |devices| {
      var d := devices[n];
      assert devices[n..][0] == d && devices[n..][1..] == devices[n + 1..];
      DriveOfDevice(d);
      if !IsBad(d) {
        DescribesMore(drives, devices, n);
        DiscoverRest(if IsStubDevice(d) then drives[EntryOf(d).driveID := EntryOf(d)] else drives, devices, n + 1);
      }
    }
  }

  /**
   * Whatever the devices: discovery succeeds exactly when each has a number and each stub has an ID that can be read,
   * and then finds exactly the stubs, the last one where several have the same ID.
   */
  lemma DiscoverMeaning(devices: seq<Device>)
    ensures var r := Discover(map[], devices);
            && (r.Some? <==> forall i :: 0 <= i < |devices| ==> !IsBad(devices[i]))
            && (r.Some? ==> Describes(r.value, devices, |devices|))
  {
    assert devices[0..] == devices;
    DiscoverRest(map[], devices, 0);
  }

  // ---------------------------------------------------------------- host and guest agree

  /**
   * The devices of a VM: device `at[k]` holds the stub file of `ids[k]`, every other device holds
   * something that is not a stub.
   */
  ghost predicate Serves(devices: seq<Device>, ids: seq<Bytes>, at: seq<nat>) {
    && Placed(devices, ids, at)
    && (forall k :: 0 <= k < |ids| ==> Holds(devices[at[k]], StubFile(ids[k])))
    && (forall i :: 0 <= i < |devices| && i !in at ==> IsOther(devices[i]))
  }

  /** A device that cannot be opened, or whose content does not start like a stub. */
  ghost predicate IsOther(d: Device) {
    d.majorMinor.Some? && (d.probed.Some? ==> !(MAGIC <= d.probed.value))
  }

  ghost predicate Placed(devices: seq<Device>, ids: seq<Bytes>, at: seq<nat>) {
    && |at| == |ids|
    && (forall k :: 0 <= k < |ids| ==> at[k] < |devices|)
    && (forall j, k :: 0 <= j < k < |ids| ==> at[j] != at[k])
  }

  ghost predicate GoodIDs(ids: seq<Bytes>) {
    && (forall k :: 0 <= k < |ids| ==> 1 <= |ids[k]| <= 127)
    && (forall j, k :: 0 <= j < k < |ids| ==> ids[j] != ids[k])
  }

  /** The entry for the stub on device `i`. */
  ghost predicate Maps(drives: map<Bytes, Drive>, id: Bytes, d: Device) {
    id in drives && drives[id].driveID == id && drives[id].name == d.name
    && d.majorMinor == Some(drives[id].majorMinor)
  }

  /** What discovery has found after the first `n` devices: the IDs of the stubs among them, each at its device. */
  ghost predicate Found(drives: map<Bytes, Drive>, devices: seq<Device>, ids: seq<Bytes>, at: seq<nat>, n: nat)
    requires Placed(devices, ids, at)
  {
    && (forall k :: 0 <= k < |ids| && at[k] < n ==> Maps(drives, ids[k], devices[at[k]]))
    && (forall k :: 0 <= k < |ids| && at[k] >= n ==> ids[k] !in drives)
    && (forall id :: id in drives ==> id in ids)
  }

  /** One more device is one more stub found, or nothing new. */
  lemma FoundStep(drives: map<Bytes, Drive>, devices: seq<Device>, ids: seq<Bytes>, at: seq<nat>, n: nat)
    returns (next: map<Bytes, Drive>)
    requires Serves(devices, ids, at) && GoodIDs(ids) && n < |devices|
    requires Found(drives, devices, ids, at, n)
    ensures Found(next, devices, ids, at, n + 1)
    ensures Discover(drives, devices[n..]) == Discover(next, devices[n + 1..])
  {
    hide StubFile, Parse, Discover, Found, GoodIDs;
    DiscoverOne(drives, devices, n);
    if n in at {
      var k :| 0 <= k < |at| && at[k] == n;
      StubServed(devices, ids, at, k);
      var d := DriveOf(devices[n]).value;
      next := drives[ids[k] := d];
      FoundStub(drives, devices, ids, at, k, d);
    } else {
      next := drives;
      FoundNothing(drives, devices, ids, at, n);
    }
  }

  lemma StubServed(devices: seq<Device>, ids: seq<Bytes>, at: seq<nat>, k: nat)
    requires Serves(devices, ids, at) && GoodIDs(ids) && k < |ids|
    ensures var d := devices[at[k]];
            && Probed(d) && d.majorMinor.Some?
            && DriveOf(d) == Some(Drive(d.name, ids[k], d.majorMinor.value))
  {
    hide StubFile, Parse, IsStub;
    StubFileRead(ids[k]);
    assert Holds(devices[at[k]], StubFile(ids[k]));
  }

  lemma FoundNothing(drives: map<Bytes, Drive>, devices: seq<Device>, ids: seq<Bytes>, at: seq<nat>, n: nat)
    requires Placed(devices, ids, at) && n !in at && Found(drives, devices, ids, at, n)
    ensures Found(drives, devices, ids, at, n + 1)
  {
  }

  lemma DiscoverOne(drives: map<Bytes, Drive>, devices: seq<Device>, n: nat)
    requires n < |devices| && devices[n].majorMinor.Some?
    ensures Probed(devices[n]) && DriveOf(devices[n]).Some? ==>
              var d := DriveOf(devices[n]).value;
              Discover(drives, devices[n..]) == Discover(drives[d.driveID := d], devices[n + 1..])
    ensures !Probed(devices[n]) ==> Discover(drives, devices[n..]) == Discover(drives, devices[n + 1..])
  {
    assert devices[n..][0] == devices[n] && devices[n..][1..] == devices[n + 1..];
  }

  lemma FoundStub(
    drives: map<Bytes, Drive>, devices: seq<Device>, ids: seq<Bytes>, at: seq<nat>, k: nat, d: Drive)
    requires Placed(devices, ids, at) && GoodIDs(ids) && k < |at|
    requires Found(drives, devices, ids, at, at[k])
    requires d.driveID == ids[k] && d.name == devices[at[k]].name
    requires devices[at[k]].majorMinor == Some(d.majorMinor)
    ensures Found(drives[ids[k] := d], devices, ids, at, at[k] + 1)
  {
    var next := drives[ids[k] := d];
    forall j | 0 <= j < |ids| && j != k ensures ids[j] != ids[k] && at[j] != at[k] {
    }
    forall j | 0 <= j < |ids| && at[j] <= at[k] ensures Maps(next, ids[j], devices[at[j]]) {
      if j != k { assert Maps(drives, ids[j], devices[at[j]]); }
    }
    forall j | 0 <= j < |ids| && at[j] > at[k] ensures ids[j] !in next {
    }
  }

  lemma {:induction false} DiscoverFrom(
    drives: map<Bytes, Drive>, devices: seq<Device>, ids: seq<Bytes>, at: seq<nat>, n: nat)
    requires Serves(devices, ids, at) && GoodIDs(ids) && n <= |devices|
    requires Found(drives, devices, ids, at, n)
    ensures Discover(drives, devices[n..]).Some?
    ensures Found(Discover(drives, devices[n..]).value, devices, ids, at, |devices|)
    decreases |devices| - n
  {
    if n < |devices| {
      var next := FoundStep(drives, devices, ids, at, n);
      DiscoverFrom(next, devices, ids, at, n + 1);
    }
  }

  /** The IDs the host generates for a VM: its containers' stubs, then its drive mounts'. */
  function HostIDs(root: string, containers: nat, mounts: nat): seq<Bytes>
    requires IsAbs(root)
  {
    seq(containers + mounts, k requires 0 <= k < containers + mounts => StubID(root, containers, k))
  }

  lemma HostIDsGood(root: string, containers: nat, mounts: nat)
    requires IsAbs(root) && containers + mounts <= MAX_INT
    ensures GoodIDs(HostIDs(root, containers, mounts))
  {
    var ids := HostIDs(root, containers, mounts);
    forall k | 0 <= k < |ids| ensures 1 <= |ids[k]| <= 127 {
      StubIDsValid(root, containers, k, k);
    }
    forall j, k | 0 <= j < k < |ids| ensures ids[j] != ids[k] {
      StubIDsValid(root, containers, j, k);
    }
  }

  /** They are the IDs of the drives the host creates. */
  lemma HostIDsOfDrives(root: string, containers: nat, mounts: seq<MountConfig>, k: nat)
    requires IsAbs(root) && k < containers + |mounts|
    ensures HostIDs(root, containers, |mounts|)[k]
         == (ContainerDrives(root, containers, containers) + MountDrives(root, mounts))[k].driveID
  {
    hide StubPath, DriveID;
    if k < containers {
      ContainerIsStub(root, containers, k);
    } else {
      MountPath(root, containers, k - containers);
      MountIsStub(root, k - containers);
    }
  }

  /** Discovery returns exactly the host's drive IDs, each at the device that holds its stub file. */
  lemma HostGuestAgree(root: string, containers: nat, mounts: nat, devices: seq<Device>, at: seq<nat>)
    requires IsAbs(root) && containers + mounts <= MAX_INT
    requires Serves(devices, HostIDs(root, containers, mounts), at)
    ensures var r, ids := Discover(map[], devices), HostIDs(root, containers, mounts);
            && r.Some?
            && (forall id :: id in r.value <==> id in ids)
            && forall k :: 0 <= k < |ids| ==> Maps(r.value, ids[k], devices[at[k]])
  {
    hide HostIDs, Discover;
    var ids := HostIDs(root, containers, mounts);
    HostIDsGood(root, containers, mounts);
    assert devices[0..] == devices;
    DiscoverFrom(map[], devices, ids, at, 0);
  }

  /** The devices of a VM whose stub files are the first `n` stub files on the host's disk. */
  ghost predicate Attached(root: string, disk: map<string, Bytes>, containers: nat, n: nat,
                           devices: seq<Device>, at: seq<nat>)
    requires IsAbs(root)
  {
    && |at| == n
    && (forall k :: 0 <= k < n ==> at[k] < |devices|)
    && (forall j, k :: 0 <= j < k < n ==> at[j] != at[k])
    && (forall k :: 0 <= k < n ==>
          && StubPath(root, containers, k) in disk
          && Holds(devices[at[k]], disk[StubPath(root, containers, k)]))
    && (forall i :: 0 <= i < |devices| && i !in at ==> IsOther(devices[i]))
  }

  /** The files that the host creates for a VM are what its devices then serve. */
  lemma AttachedServes(root: string, disk: map<string, Bytes>, containers: nat, mounts: nat,
                       devices: seq<Device>, at: seq<nat>)
    requires IsAbs(root)
    requires Attached(root, DiskWith(root, DiskWith(root, disk, containers, containers), 0, mounts),
                      containers, containers + mounts, devices, at)
    ensures Serves(devices, HostIDs(root, containers, mounts), at)
  {
    hide StubPath, StubID, StubFile, DiskWith, Holds, Probed;
    var ids := HostIDs(root, containers, mounts);
    forall k | 0 <= k < |ids| ensures Holds(devices[at[k]], StubFile(ids[k])) {
      VMStubFiles(root, disk, containers, mounts, k);
    }
  }

  /**
   * In a VM made of the files the host created, a successful discovery lets the agent find exactly the drives with
   * the host's IDs, each under the name and number of the device that its file was attached as.
   */
  lemma GetDriveMeaning(h: DriveHandler, root: string, disk: map<string, Bytes>, containers: nat, mounts: nat,
                        devices: seq<Device>, at: seq<nat>)
    requires IsAbs(root) && containers + mounts <= MAX_INT
    requires Attached(root, DiskWith(root, DiskWith(root, disk, containers, containers), 0, mounts),
                      containers, containers + mounts, devices, at)
    requires Discover(map[], devices) == Some(h.drives)
    ensures var ids := HostIDs(root, containers, mounts);
            && (forall id :: h.GetDrive(id).Some? <==> id in ids)
            && (forall k :: 0 <= k < |ids| ==>
                  var d := devices[at[k]];
                  d.majorMinor.Some? && h.GetDrive(ids[k]) == Some(Drive(d.name, ids[k], d.majorMinor.value)))
  {
    hide HostIDs, Discover, DiskWith, StubPath, StubFile, Probed;
    var ids := HostIDs(root, containers, mounts);
    AttachedServes(root, disk, containers, mounts, devices, at);
    HostGuestAgree(root, containers, mounts, devices, at);
    forall k | 0 <= k < |ids|
      ensures devices[at[k]].majorMinor.Some?
      ensures h.GetDrive(ids[k]) == Some(Drive(devices[at[k]].name, ids[k], devices[at[k]].majorMinor.value))
    {
      assert Maps(h.drives, ids[k], devices[at[k]]);
    }
  }
}
