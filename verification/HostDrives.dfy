/** The host's side of stub drives: names, IDs, padded files, and the machine configuration. */
module HostDrives {
  import opened Machine
  import opened Options
  import opened Text
  import opened Paths
  import opened Encoding
  import opened StubContent

  const SECTOR := 512

  // ---------------------------------------------------------------- names and IDs

  ghost predicate IsAscii(s: string) {
    forall i :: 0 <= i < |s| ==> s[i] < 128 as char
  }

  /** The bytes of a string of ASCII characters. */
  function ToBytes(s: string): (r: Bytes) {
    seq(|s|, i requires 0 <= i < |s| => s[i] as int % 256)
  }

  lemma ToBytesInjective(a: string, b: string)
    requires IsAscii(a) && IsAscii(b) && ToBytes(a) == ToBytes(b)
    ensures a == b
  {
    assert |a| == |ToBytes(a)| == |ToBytes(b)| == |b|;
    forall i | 0 <= i < |a| ensures a[i] == b[i] {
      assert ToBytes(a)[i] == a[i] as int && ToBytes(b)[i] == b[i] as int;
    }
  }

  function ContainerName(i: nat): string { "ctrstub" + Decimal(i) }

  function MountName(i: nat): string { "drivemntstub" + Decimal(i) }

  /** `stubPathToDriveID`: the file's base name in base 32. */
  function DriveID(stubPath: string): Bytes
    requires IsAbs(stubPath)
  {
    Base32(ToBytes(Base(stubPath)))
  }

  /** The names a VM's stub files get: containers first, then drive mounts. */
  function StubName(containers: nat, k: nat): string {
    if k < containers then ContainerName(k) else MountName(k - containers)
  }

  lemma NumberedName(prefix: string, n: nat)
    requires |prefix| >= 3 && IsAscii(prefix) && '/' !in prefix
    ensures IsName(prefix + Decimal(n)) && IsAscii(prefix + Decimal(n))
  {
    DecimalRoundTrip(n);
    var name := prefix + Decimal(n);
    assert forall i :: |prefix| <= i < |name| ==> IsDigit(name[i]);
  }

  /** A Go `int` has at most 19 digits. */
  lemma IntLength(n: nat)
    requires n <= MAX_INT
    ensures |Decimal(n)| <= 19
  {
    assert Pow10(6) == 1_000_000;
    assert Pow10(12) == 1_000_000_000_000;
    assert Pow10(19) == 10_000_000_000_000_000_000;
    DecimalLength(n, 19);
  }

  lemma StubNameShape(containers: nat, k: nat)
    ensures IsName(StubName(containers, k)) && IsAscii(StubName(containers, k))
    ensures k <= MAX_INT ==> |StubName(containers, k)| <= 31
  {
    hide IsName;
    NumberedName("ctrstub", k);
    if k >= containers { NumberedName("drivemntstub", k - containers); }
    if k <= MAX_INT {
      IntLength(if k < containers then k else k - containers);
    }
  }

  lemma StubNameHead(containers: nat, k: nat)
    ensures var name := StubName(containers, k);
            |name| > 0 && name[0] == if k < containers then 'c' else 'd'
  {
    if k < containers {
      assert StubName(containers, k) == "ctrstub" + Decimal(k);
    } else {
      assert StubName(containers, k) == "drivemntstub" + Decimal(k - containers);
    }
  }

  lemma StubNamesDistinct(containers: nat, j: nat, k: nat)
    requires StubName(containers, j) == StubName(containers, k)
    ensures j == k
  {
    var a, b := StubName(containers, j), StubName(containers, k);
    StubNameHead(containers, j);
    StubNameHead(containers, k);
    assert j < containers <==> k < containers;
    if j < containers {
      assert a[7..] == Decimal(j) && b[7..] == Decimal(k);
      DecimalInjective(j, k);
    } else {
      assert a[12..] == Decimal(j - containers) && b[12..] == Decimal(k - containers);
      DecimalInjective(j - containers, k - containers);
    }
  }

  /** The drive ID of the `k`-th stub file under a jail's root. */
  function StubID(root: string, containers: nat, k: nat): Bytes
    requires IsAbs(root)
  {
    DriveID(JoinPath(root, StubName(containers, k)))
  }

  lemma StubIDIsName(root: string, containers: nat, k: nat)
    requires IsAbs(root)
    ensures StubID(root, containers, k) == Base32(ToBytes(StubName(containers, k)))
  {
    StubNameShape(containers, k);
    BaseOfJoin(root, StubName(containers, k));
  }

  /** All generated drive IDs are different, allowed by Firecracker, and short enough for a one-byte length. */
  lemma StubIDsValid(root: string, containers: nat, j: nat, k: nat)
    requires IsAbs(root) && j <= MAX_INT && k <= MAX_INT
    ensures StubID(root, containers, j) == StubID(root, containers, k) <==> j == k
    ensures 1 <= |StubID(root, containers, k)| <= 127
    ensures forall i :: 0 <= i < |StubID(root, containers, k)| ==>
              IsAlphanumeric(StubID(root, containers, k)[i])
  {
    hide Base32, Base, JoinPath, StubName;
    StubIDIsName(root, containers, j);
    StubIDIsName(root, containers, k);
    StubNameShape(containers, j);
    StubNameShape(containers, k);
    var a, b := ToBytes(StubName(containers, j)), ToBytes(StubName(containers, k));
    Base32Shape(b);
    if Base32(a) == Base32(b) {
      Base32Injective(a, b);
      ToBytesInjective(StubName(containers, j), StubName(containers, k));
      StubNamesDistinct(containers, j, k);
    }
  }

  // ---------------------------------------------------------------- files

  /** The size a stub file is truncated to: the least multiple of the sector size that holds it. */
  function DriveSize(fileSize: nat): (r: nat)
    ensures r % 512 == 0 && fileSize <= r < fileSize + 512
  {
    var sectorCount := fileSize / SECTOR;
    var driveSize := SECTOR * sectorCount;
    if fileSize % SECTOR != 0 then driveSize + SECTOR else driveSize
  }

  function Padded(content: Bytes): (r: Bytes)
    ensures |r| % 512 == 0 && content <= r && |r| < |content| + 512
    ensures forall i :: |content| <= i < |r| ==> r[i] == 0
  {
    content + Zeroes(DriveSize(|content|) - |content|)
  }

  function StubFile(id: Bytes): Bytes {
    match Generate(id)
    case None => []
    case Some(content) => Padded(content)
  }

  /** The guest reads a generated ID back from the padded file. */
  lemma StubFileRead(id: Bytes)
    requires 1 <= |id| <= 127
    ensures IsStub(StubFile(id)) && Parse(StubFile(id)) == Some(id)
  {
    var content := Generate(id).value;
    GeneratedIsStub(id, Zeroes(DriveSize(|content|) - |content|));
    StubRoundTrip(id, Zeroes(DriveSize(|content|) - |content|));
  }

  // ---------------------------------------------------------------- mount options

  /** The first of `ro` and `rw` in a list of options. */
  function FirstMode(options: seq<string>): Option<string> {
    if options == [] then None
    else if options[0] == "ro" || options[0] == "rw" then Some(options[0])
    else FirstMode(options[1..])
  }

  function Mode(isWritable: bool): string { if isWritable then "rw" else "ro" }

  lemma {:induction false} FirstModeSnoc(options: seq<string>, mode: string)
    requires mode == "ro" || mode == "rw"
    ensures FirstMode(options + [mode]) == if FirstMode(options).None? then Some(mode) else FirstMode(options)
  {
    if options == [] {
      assert options + [mode] == [mode];
    } else {
      assert (options + [mode])[1..] == options[1..] + [mode];
      FirstModeSnoc(options[1..], mode);
    }
  }

  /** The first element that is a mode. */
  ghost predicate IsFirstMode(options: seq<string>, mode: string) {
    mode in ["ro", "rw"] &&
    exists i :: 0 <= i < |options| && options[i] == mode && "ro" !in options[..i] && "rw" !in options[..i]
  }

  lemma {:induction false} FirstModeMeaning(options: seq<string>)
    ensures FirstMode(options).None? <==> "ro" !in options && "rw" !in options
    ensures forall mode :: FirstMode(options) == Some(mode) <==> IsFirstMode(options, mode)
    ensures Mode(true) == "rw" && Mode(false) == "ro"
  {
    if options != [] {
      var rest := options[1..];
      FirstModeMeaning(rest);
      assert options == [options[0]] + rest;
      forall mode | mode in ["ro", "rw"] ensures FirstMode(options) == Some(mode) <==> IsFirstMode(options, mode) {
        if options[0] == mode {
          assert options[..0] == [];
        } else if options[0] !in ["ro", "rw"] {
          ModeLater(options, mode);
        }
      }
    }
  }

  lemma ModeLater(options: seq<string>, mode: string)
    requires options != [] && options[0] !in ["ro", "rw"] && mode in ["ro", "rw"]
    ensures IsFirstMode(options, mode) <==> IsFirstMode(options[1..], mode)
  {
    var rest := options[1..];
    if i :| 0 <= i < |options| && options[i] == mode && "ro" !in options[..i] && "rw" !in options[..i] {
      assert rest[i - 1] == mode;
      assert options[..i] == [options[0]] + rest[..i - 1];
    }
    if i :| 0 <= i < |rest| && rest[i] == mode && "ro" !in rest[..i] && "rw" !in rest[..i] {
      assert options[i + 1] == mode;
      assert options[..i + 1] == [options[0]] + rest[..i];
    }
  }

  /** Rejects exactly the lists whose first mode contradicts; otherwise the result's first mode is the right one. */
  method SetReadWriteOptions(options: seq<string>, isWritable: bool) returns (r: Option<seq<string>>)
    ensures r.None? <==> FirstMode(options) == Some(Mode(!isWritable))
    ensures r.Some? ==> FirstMode(r.value) == Some(Mode(isWritable))
    ensures r.Some? ==> r.value == if FirstMode(options).Some? then options else options + [Mode(isWritable)]
    ensures r.None? <==> IsFirstMode(options, if isWritable then "ro" else "rw")
    ensures r.Some? ==> r.value == if "ro" in options || "rw" in options then options
                                   else options + [if isWritable then "rw" else "ro"]
  {
    FirstModeMeaning(options);
    var expectedOpt := if isWritable then "rw" else "ro";
    assert options[0..] == options;
    for i := 0 to |options|
      invariant FirstMode(options) == FirstMode(options[i..])
    {
      assert options[i..][1..] == options[i + 1..];
      var opt := options[i];
      if opt == "ro" || opt == "rw" {
        if opt != expectedOpt {
          return None;
        }
        return Some(options);
      }
    }
    FirstModeSnoc(options, expectedOpt);
    r := Some(options + [expectedOpt]);
  }

  // ---------------------------------------------------------------- creating stubs

  datatype Limiter = Unlimited | Limited(bandwidth: nat, operations: nat)

  datatype MountConfig = MountConfig(
    hostPath: string, vmPath: string, filesystemType: string, options: seq<string>,
    isWritable: bool, rateLimiter: Limiter)

  datatype StubDrive = StubDrive(stubPath: string, driveID: Bytes, driveMount: MountConfig) {
    /** The mount of one container, with what Firecracker cannot change kept. */
    function WithMountConfig(hostPath: string, vmPath: string, filesystemType: string, options: seq<string>)
      : (d: StubDrive)
      ensures d.Fixed() == Fixed()
    {
      this.(driveMount := MountConfig(hostPath, vmPath, filesystemType, options,
                                      driveMount.isWritable, driveMount.rateLimiter))
    }

    /** What never changes during the life of a drive. */
    function Fixed(): (string, Bytes, bool, Limiter) {
      (stubPath, driveID, driveMount.isWritable, driveMount.rateLimiter)
    }
  }

  datatype DriveConfig = DriveConfig(
    driveID: Bytes, pathOnHost: string, isReadOnly: bool, rateLimiter: Limiter, isRootDevice: bool)

  function ConfigOf(d: StubDrive): DriveConfig {
    DriveConfig(d.driveID, d.stubPath, !d.driveMount.isWritable, d.driveMount.rateLimiter, false)
  }

  /** Where creating one stub file fails outside the code's control. */
  datatype Fault = NoFault | OpenFails | WriteFails | StatFails | TruncateFails | OptionFails

  function FreshDrive(stubPath: string, isWritable: bool, limiter: Limiter): StubDrive
    requires IsAbs(stubPath)
  {
    StubDrive(stubPath, DriveID(stubPath), MountConfig("", "", "", [], isWritable, limiter))
  }

  /** The jail's directory and the drives of the machine configuration. */
  class Host {
    const root: string
    var disk: map<string, Bytes>
    var drives: seq<DriveConfig>

    constructor (root: string, disk: map<string, Bytes>)
      ensures this.root == root && this.disk == disk && drives == []
    {
      this.root, this.disk, drives := root, disk, [];
    }

    method NewStubDrive(stubPath: string, isWritable: bool, limiter: Limiter, fault: Fault)
      returns (r: Option<StubDrive>)
      requires IsAbs(stubPath)
      modifies this`disk
      ensures r.Some? <==> fault.NoFault? && stubPath !in old(disk) && |DriveID(stubPath)| <= MAX_ID
      ensures r.Some? ==> r.value == FreshDrive(stubPath, isWritable, limiter)
      ensures r.Some? ==> disk == old(disk)[stubPath := StubFile(DriveID(stubPath))]
      ensures disk - {stubPath} == old(disk) - {stubPath} // a failure may leave the new file unfinished
      ensures stubPath in old(disk) ==> disk == old(disk)
    {
      hide Padded, DriveID;
      var driveID := DriveID(stubPath);
      if fault == OpenFails || stubPath in disk {
        return None;
      }
      disk := disk[stubPath := []];
      var stubContent := Generate(driveID);
      if stubContent.None? || fault == WriteFails {
        return None;
      }
      disk := disk[stubPath := stubContent.value];
      if fault == StatFails || fault == TruncateFails {
        return None;
      }
      disk := disk[stubPath := Padded(stubContent.value)];
      if fault == OptionFails {
        return None;
      }
      r := Some(FreshDrive(stubPath, isWritable, limiter));
    }

    /** Creates the read-write stub drives of the containers; a fault or an existing file ends it. */
    method CreateContainerStubs(containerCount: int, faults: nat -> Fault)
      returns (r: Option<seq<StubDrive>>, ghost done: nat)
      requires IsAbs(root) && containerCount <= MAX_INT
      modifies this
      ensures done <= Count(containerCount) && (r.Some? <==> done == Count(containerCount))
      ensures forall k :: 0 <= k < done ==>
                faults(k).NoFault? && StubPath(root, Count(containerCount), k) !in old(disk)
      ensures r.None? ==>
                !(faults(done).NoFault? && StubPath(root, Count(containerCount), done) !in old(disk))
      ensures drives == old(drives) + Configs(ContainerDrives(root, Count(containerCount), done))
      ensures r.Some? ==>
                && r.value == ContainerDrives(root, done, done)
                && disk == DiskWith(root, old(disk), done, done)
      ensures r.None? ==> (
                var n := Count(containerCount);
                disk - {StubPath(root, n, done)} == DiskWith(root, old(disk), n, done) - {StubPath(root, n, done)})
    {
      hide StubFile, StubPath, DriveID, FreshDrive, JoinPath, ContainerName, IsAbs;
      ghost var n := Count(containerCount);
      var stubs: seq<StubDrive> := [];
      var i := 0;
      while i < containerCount
        invariant 0 <= i <= n && stubs == ContainerDrives(root, n, i)
        invariant drives == old(drives) + Configs(stubs)
        invariant disk == DiskWith(root, old(disk), n, i)
        invariant forall k :: 0 <= k < i ==> faults(k).NoFault? && StubPath(root, n, k) !in old(disk)
      {
        StubIDsValid(root, n, i, i);
        StubPathNew(root, old(disk), n, i, i);
        var path := JoinPath(root, ContainerName(i));
        ContainerIsStub(root, n, i);
        var stubDrive := NewStubDrive(path, true, Unlimited, faults(i));
        if stubDrive.None? {
          return None, i;
        }
        drives := drives + [ConfigOf(stubDrive.value)];
        stubs := stubs + [stubDrive.value];
        i := i + 1;
      }
      r, done := Some(stubs), i;
    }

    /** One iteration for a drive mount: its options, its stub file, its entry in the configuration. */
    method NewMountStub(driveMount: MountConfig, k: nat, fault: Fault) returns (r: Option<StubDrive>)
      requires IsAbs(root) && k <= MAX_INT
      modifies this
      ensures r.Some? <==> CanMount(root, driveMount, k, fault, old(disk))
      ensures r.Some? ==>
                && r.value == MountDrive(root, driveMount, k)
                && drives == old(drives) + [ConfigOf(r.value)]
                && disk == old(disk)[StubPath(root, 0, k) := StubFile(StubID(root, 0, k))]
      ensures r.None? ==>
                && drives == old(drives)
                && disk - {StubPath(root, 0, k)} == old(disk) - {StubPath(root, 0, k)}
    {
      hide StubFile, DriveID, FirstMode;
      var options := SetReadWriteOptions(driveMount.options, driveMount.isWritable);
      if options.None? {
        return None;
      }
      StubIDsValid(root, 0, k, k);
      MountIsStub(root, k);
      hide StubPath;
      var stubDrive := NewStubDrive(
        JoinPath(root, MountName(k)), driveMount.isWritable, driveMount.rateLimiter, fault);
      if stubDrive.None? {
        return None;
      }
      drives := drives + [ConfigOf(stubDrive.value)];
      r := Some(stubDrive.value.WithMountConfig(
        driveMount.hostPath, driveMount.vmPath, driveMount.filesystemType, options.value));
    }

    /** Creates the stub drives of the drive mounts, with their mount configuration already set. */
    method CreateDriveMountStubs(driveMounts: seq<MountConfig>, faults: nat -> Fault)
      returns (r: Option<seq<StubDrive>>, ghost done: nat)
      requires IsAbs(root) && |driveMounts| <= MAX_INT
      modifies this
      ensures done <= |driveMounts| && (r.Some? <==> done == |driveMounts|)
      ensures forall k :: 0 <= k < done ==> CanMount(root, driveMounts[k], k, faults(k), old(disk))
      ensures r.None? ==> !CanMount(root, driveMounts[done], done, faults(done), old(disk))
      ensures drives == old(drives) + Configs(MountDrives(root, driveMounts[..done]))
      ensures r.Some? ==> r.value == MountDrives(root, driveMounts) && disk == DiskWith(root, old(disk), 0, done)
      ensures r.None? ==> (
                disk - {StubPath(root, 0, done)} == DiskWith(root, old(disk), 0, done) - {StubPath(root, 0, done)})
    {
      hide StubFile, StubPath, StubID, CanMount, DiskWith, MountDrive, ConfigOf;
      var stubs: seq<StubDrive> := [];
      var i := 0;
      NoMounts(root, drives, disk, driveMounts, faults);
      while i < |driveMounts|
        invariant 0 <= i <= |driveMounts|
        invariant DoneWith(root, drives, disk, driveMounts, faults, old(drives), old(disk), i, stubs)
      {
        ghost var drives0, disk0 := drives, disk;
        CanMountLater(root, driveMounts[i], i, faults(i), old(disk));
        var stubDrive := NewMountStub(driveMounts[i], i, faults(i));
        if stubDrive.None? {
          return None, i;
        }
        hide DoneWith;
        NextMount(root, drives0, disk0, driveMounts, faults, old(drives), old(disk), i, stubs, stubDrive.value);
        stubs := stubs + [stubDrive.value];
        i := i + 1;
      }
      assert driveMounts[..i] == driveMounts;
      r, done := Some(stubs), i;
    }

    /** The stub drives of a VM: at least one container's, then the drive mounts'. */
    method CreateVMStubs(containerCount: int, driveMounts: seq<MountConfig>,
                         containerFaults: nat -> Fault, mountFaults: nat -> Fault)
      returns (r: Option<(seq<StubDrive>, seq<StubDrive>)>)
      requires IsAbs(root) && containerCount <= MAX_INT && |driveMounts| <= MAX_INT
      modifies this
      ensures r.Some? <==> (
                var n := Containers(containerCount);
                && (forall k :: 0 <= k < n ==> containerFaults(k).NoFault? && StubPath(root, n, k) !in old(disk))
                && (forall k :: 0 <= k < |driveMounts| ==>
                      CanMount(root, driveMounts[k], k, mountFaults(k), old(disk))))
      ensures r.Some? ==> (
                var n := Containers(containerCount);
                && r.value == (ContainerDrives(root, n, n), MountDrives(root, driveMounts))
                && |r.value.0| == (if containerCount >= 1 then containerCount else 1)
                && |r.value.1| == |driveMounts|
                && drives == old(drives) + Configs(r.value.0) + Configs(r.value.1)
                && disk == DiskWith(root, old(disk), n, n + |driveMounts|))
    {
      hide StubFile, StubPath, StubID, CanMount, DiskWith, MountDrives, ContainerDrives, Configs;
      var count := if containerCount < 1 then 1 else containerCount;
      assert Containers(containerCount) == count == Count(count);
      var containerStubs, done := CreateContainerStubs(count, containerFaults);
      if containerStubs.None? {
        return None;
      }
      CanMountAfterContainers(root, count, driveMounts, mountFaults, old(disk));
      var mountStubs, mounted := CreateDriveMountStubs(driveMounts, mountFaults);
      if mountStubs.None? {
        return None;
      }
      assert driveMounts[..mounted] == driveMounts;
      DiskTwice(root, old(disk), count, |driveMounts|);
      r := Some((containerStubs.value, mountStubs.value));
    }
  }

  /** The state after the first `i` drive mounts. */
  ghost predicate DoneWith(root: string, drives: seq<DriveConfig>, disk: map<string, Bytes>,
                           mounts: seq<MountConfig>, faults: nat -> Fault, drives0: seq<DriveConfig>,
                           disk0: map<string, Bytes>, i: nat, stubs: seq<StubDrive>)
    requires IsAbs(root) && i <= |mounts|
  {
    && stubs == MountDrives(root, mounts[..i])
    && drives == drives0 + Configs(stubs)
    && disk == DiskWith(root, disk0, 0, i)
    && forall k :: 0 <= k < i ==> CanMount(root, mounts[k], k, faults(k), disk0)
  }

  lemma NoMounts(root: string, drives: seq<DriveConfig>, disk: map<string, Bytes>,
                 mounts: seq<MountConfig>, faults: nat -> Fault)
    requires IsAbs(root)
    ensures DoneWith(root, drives, disk, mounts, faults, drives, disk, 0, [])
  {
  }

  lemma NextMount(root: string, drives: seq<DriveConfig>, disk: map<string, Bytes>,
                  mounts: seq<MountConfig>, faults: nat -> Fault, drives0: seq<DriveConfig>,
                  disk0: map<string, Bytes>, i: nat, stubs: seq<StubDrive>, d: StubDrive)
    requires IsAbs(root) && i < |mounts|
    requires DoneWith(root, drives, disk, mounts, faults, drives0, disk0, i, stubs)
    requires d == MountDrive(root, mounts[i], i) && CanMount(root, mounts[i], i, faults(i), disk0)
    ensures DoneWith(root, drives + [ConfigOf(d)], disk[StubPath(root, 0, i) := StubFile(StubID(root, 0, i))],
                     mounts, faults, drives0, disk0, i + 1, stubs + [d])
  {
    hide StubFile, StubPath, StubID, CanMount, DiskWith, MountDrive, ConfigOf, Configs;
    DiskStep(root, disk0, 0, i);
    MountDrivesSnoc(root, mounts, i);
    ConfigsSnoc(stubs, d);
  }

  /** What one drive mount's stub needs: consistent options, no fault, and no file in its place. */
  ghost predicate CanMount(root: string, m: MountConfig, k: nat, fault: Fault, disk: map<string, Bytes>)
    requires IsAbs(root)
  {
    Compatible(m) && fault.NoFault? && StubPath(root, 0, k) !in disk
  }

  /** The stubs created before do not get in the way. */
  lemma CanMountLater(root: string, m: MountConfig, k: nat, fault: Fault, disk: map<string, Bytes>)
    requires IsAbs(root)
    ensures CanMount(root, m, k, fault, DiskWith(root, disk, 0, k)) <==> CanMount(root, m, k, fault, disk)
  {
    StubPathNew(root, disk, 0, k, k);
  }

  /** Nor do the containers' stubs. */
  lemma CanMountAfterContainers(root: string, n: nat, mounts: seq<MountConfig>, faults: nat -> Fault,
                                disk: map<string, Bytes>)
    requires IsAbs(root)
    ensures forall k :: 0 <= k < |mounts| ==>
              CanMount(root, mounts[k], k, faults(k), DiskWith(root, disk, n, n))
                == CanMount(root, mounts[k], k, faults(k), disk)
  {
    hide StubPath, DiskWith, Compatible;
    forall k | 0 <= k < |mounts|
      ensures StubPath(root, 0, k) in DiskWith(root, disk, n, n) <==> StubPath(root, 0, k) in disk
    {
      MountPath(root, n, k);
      StubPathNew(root, disk, n, n + k, n);
    }
  }

  lemma MountDrivesSnoc(root: string, mounts: seq<MountConfig>, i: nat)
    requires IsAbs(root) && i < |mounts|
    ensures MountDrives(root, mounts[..i + 1])
         == MountDrives(root, mounts[..i]) + [MountDrive(root, mounts[i], i)]
  {
    hide MountDrive;
    assert mounts[..i + 1] == mounts[..i] + [mounts[i]];
  }

  lemma ConfigsSnoc(drives: seq<StubDrive>, d: StubDrive)
    ensures Configs(drives + [d]) == Configs(drives) + [ConfigOf(d)]
  {
  }

  ghost predicate Compatible(m: MountConfig) {
    FirstMode(m.options) != Some(Mode(!m.isWritable))
  }

  /** The drive of the `k`-th drive mount; an option list without a mode gets one. */
  function MountDrive(root: string, m: MountConfig, k: nat): StubDrive
    requires IsAbs(root)
  {
    var options := if FirstMode(m.options).Some? then m.options else m.options + [Mode(m.isWritable)];
    FreshDrive(StubPath(root, 0, k), m.isWritable, m.rateLimiter)
      .WithMountConfig(m.hostPath, m.vmPath, m.filesystemType, options)
  }

  function MountDrives(root: string, mounts: seq<MountConfig>): (drives: seq<StubDrive>)
    requires IsAbs(root)
    ensures |drives| == |mounts|
  {
    seq(|mounts|, k requires 0 <= k < |mounts| => MountDrive(root, mounts[k], k))
  }

  lemma DiskStep(root: string, disk: map<string, Bytes>, n: nat, i: nat)
    requires IsAbs(root)
    ensures DiskWith(root, disk, n, i + 1)
         == DiskWith(root, disk, n, i)[StubPath(root, n, i) := StubFile(StubID(root, n, i))]
  {
  }

  lemma MountIsStub(root: string, i: nat)
    requires IsAbs(root)
    ensures JoinPath(root, MountName(i)) == StubPath(root, 0, i)
    ensures DriveID(StubPath(root, 0, i)) == StubID(root, 0, i)
  {
  }

  /** Whether a drive mount's stub is numbered alone or after the containers', its path is the same. */
  lemma MountPath(root: string, containers: nat, i: nat)
    requires IsAbs(root)
    ensures StubPath(root, 0, i) == StubPath(root, containers, containers + i)
    ensures StubID(root, 0, i) == StubID(root, containers, containers + i)
  {
  }

  function Count(n: int): nat { if n < 0 then 0 else n }

  /** The number of container stubs of a VM. */
  function Containers(n: int): nat { if n < 1 then 1 else n }

  /** The path of the `k`-th stub file. */
  function StubPath(root: string, containers: nat, k: nat): (p: string)
    requires IsAbs(root)
    ensures IsAbs(p)
  {
    JoinPath(root, StubName(containers, k))
  }

  lemma StubPathsDistinct(root: string, containers: nat, j: nat, k: nat)
    requires IsAbs(root) && StubPath(root, containers, j) == StubPath(root, containers, k)
    ensures j == k
  {
    StubNameShape(containers, j);
    StubNameShape(containers, k);
    BaseOfJoin(root, StubName(containers, j));
    BaseOfJoin(root, StubName(containers, k));
    StubNamesDistinct(containers, j, k);
  }

  /** The first `i` container drives, in order. */
  function ContainerDrives(root: string, n: nat, i: nat): (drives: seq<StubDrive>)
    requires IsAbs(root)
    ensures |drives| == i
  {
    seq(i, k requires 0 <= k < i => FreshDrive(StubPath(root, n, k), true, Unlimited))
  }

  function Configs(drives: seq<StubDrive>): seq<DriveConfig> {
    seq(|drives|, k requires 0 <= k < |drives| => ConfigOf(drives[k]))
  }

  /** The jail's files after the first `i` stub files were added. */
  function DiskWith(root: string, disk: map<string, Bytes>, n: nat, i: nat): map<string, Bytes>
    requires IsAbs(root)
  {
    if i == 0 then disk
    else DiskWith(root, disk, n, i - 1)[StubPath(root, n, i - 1) := StubFile(StubID(root, n, i - 1))]
  }

  lemma {:induction false} StubPathNew(root: string, disk: map<string, Bytes>, n: nat, i: nat, j: nat)
    requires IsAbs(root) && j <= i
    ensures StubPath(root, n, i) in DiskWith(root, disk, n, j) <==> StubPath(root, n, i) in disk
  {
    if j > 0 {
      StubPathNew(root, disk, n, i, j - 1);
      if StubPath(root, n, i) == StubPath(root, n, j - 1) { StubPathsDistinct(root, n, i, j - 1); }
    }
  }

  /** Every stub file that was added is still there, complete, after the later ones. */
  lemma {:induction false} StubFileStays(root: string, disk: map<string, Bytes>, n: nat, i: nat, k: nat)
    requires IsAbs(root) && k < i
    ensures StubPath(root, n, k) in DiskWith(root, disk, n, i)
    ensures DiskWith(root, disk, n, i)[StubPath(root, n, k)] == StubFile(StubID(root, n, k))
  {
    hide StubFile, StubPath, StubID;
    if k < i - 1 {
      StubFileStays(root, disk, n, i - 1, k);
      if StubPath(root, n, k) == StubPath(root, n, i - 1) { StubPathsDistinct(root, n, k, i - 1); }
    }
  }

  /** Adding the containers' stub files and then the drive mounts' is adding all of the VM's in one numbering. */
  lemma {:induction false} DiskTwice(root: string, disk: map<string, Bytes>, n: nat, m: nat)
    requires IsAbs(root)
    ensures DiskWith(root, DiskWith(root, disk, n, n), 0, m) == DiskWith(root, disk, n, n + m)
  {
    hide StubFile, StubPath, StubID;
    if m > 0 {
      DiskTwice(root, disk, n, m - 1);
      MountPath(root, n, m - 1);
    }
  }

  /** So a container's stub file survives the creation of the drive mounts', and all of them are complete. */
  lemma VMStubFiles(root: string, disk: map<string, Bytes>, n: nat, m: nat, k: nat)
    requires IsAbs(root) && k < n + m
    ensures var after := DiskWith(root, DiskWith(root, disk, n, n), 0, m);
            && StubPath(root, n, k) in after
            && after[StubPath(root, n, k)] == StubFile(StubID(root, n, k))
  {
    hide StubFile, StubPath, StubID, DiskWith;
    DiskTwice(root, disk, n, m);
    StubFileStays(root, disk, n, n + m, k);
  }

  lemma ContainerIsStub(root: string, n: nat, i: nat)
    requires IsAbs(root) && i < n
    ensures JoinPath(root, ContainerName(i)) == StubPath(root, n, i)
    ensures DriveID(StubPath(root, n, i)) == StubID(root, n, i)
    ensures FreshDrive(StubPath(root, n, i), true, Unlimited).driveID == StubID(root, n, i)
  {
  }

  // ---------------------------------------------------------------- what the VM is given

  /** The stub files lie in the jail's root, under a name with their number. */
  lemma StubNames(root: string, n: nat, k: nat)
    requires IsAbs(root)
    ensures var name := if k < n then "ctrstub" + Decimal(k) else "drivemntstub" + Decimal(k - n);
            && Components(StubPath(root, n, k)) == Components(root) + [name]
            && Base(StubPath(root, n, k)) == name
            && StubID(root, n, k) == Base32(ToBytes(name))
  {
    var name := StubName(n, k);
    StubNameShape(n, k);
    BaseOfJoin(root, name);
    JoinComponents(root, name);
    SplitNone(name, '/');
    NormalizeOfNames(Components(root), [name]);
  }

  /** A drive mount's drive has the mount as it was asked for; only a missing mode is added to its options. */
  lemma MountDriveMeaning(root: string, m: MountConfig, k: nat)
    requires IsAbs(root)
    ensures var d := MountDrive(root, m, k);
            && d.stubPath == StubPath(root, 0, k) && d.driveID == StubID(root, 0, k)
            && d.driveMount == m.(options := d.driveMount.options)
            && d.driveMount.options == if "ro" in m.options || "rw" in m.options then m.options
                                       else m.options + [if m.isWritable then "rw" else "ro"]
  {
    FirstModeMeaning(m.options);
    MountIsStub(root, k);
  }

  /**
   * The drives of the machine configuration, in the order of the stub files: each with the ID and the path of its
   * stub, none of them the root device, read-only and limited exactly as the drive mount asks; containers' drives are
   * writable and unlimited.
   */
  lemma VMConfigs(root: string, n: nat, mounts: seq<MountConfig>, k: nat)
    requires IsAbs(root) && k < n + |mounts|
    ensures var configs := Configs(ContainerDrives(root, n, n)) + Configs(MountDrives(root, mounts));
            && |configs| == n + |mounts|
            && configs[k].driveID == StubID(root, n, k) && configs[k].pathOnHost == StubPath(root, n, k)
            && !configs[k].isRootDevice
            && configs[k].isReadOnly == (k >= n && !mounts[k - n].isWritable)
            && configs[k].rateLimiter == if k < n then Unlimited else mounts[k - n].rateLimiter
  {
    hide StubPath, DriveID, FirstMode;
    if k < n {
      ContainerIsStub(root, n, k);
    } else {
      MountPath(root, n, k - n);
      MountIsStub(root, k - n);
    }
  }
}
