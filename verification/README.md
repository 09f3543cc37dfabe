# firecracker-containerd: verified models

Models, in Dafny, of the parts of firecracker-containerd where correctness is not visible from one function:

- the wire codec of the drive mount service (`Machine`, `Varint`, `Wire`, `Records`, `Messages`, `DriveMount`);
- the stub drives by which host and guest agree on block devices (`Encoding`, `StubContent`, `HostDrives`,
  `GuestDrives`, `StubHandler`);
- the concurrent lifecycle of processes and of the VM (`TaskManager`, `TaskRuns`, `TaskRaces`, `TaskHistory`,
  `IoProxy`, `VmLifecycle`, `VmHistory`, `AgentCleanup`, `AgentCalls`);
- the containment check before a mount and the cpuset printer (`Paths`, `Cpuset`, with `Text` and `Options`).

`dafny verify dfyconfig.toml` checks everything.

## How it is modelled

Code that updates state is a class or a method with loops, proved against a function of its inputs or of the old state;
the laws are lemmas about those functions. Strings and byte slices are sequences. Go's fixed-width integers are written
out: `Machine` defines 64-bit wrap-around, the truncation to `int32`, bitwise and, or, and the shift. The only
preconditions about size say that a slice is not longer than the largest `int`.

Concurrent code is a step relation: a state, one event for each atomic step (a critical section, a channel operation, an
answer from outside), and runs of events in any order with any results. What happens outside the process is always
arbitrary. Where a run shows that something can go wrong, `TaskRaces` also asks that the task service be consistent: it
creates only what it does not have and deletes only what it has.

The wire grammar follows the "Message Structure" and "Groups" sections of the Protocol Buffers encoding specification,
except where the code is more lenient: the field number that closes a group need not match the one that opens it, and
field numbers are truncated to 32 bits. The drive ID encoding is base 32 (section 6 of RFC 4648) without padding, the
cleanup key is base64url (section 5 of RFC 4648).

## Where the code does less than its documentation says

- Stub content is documented for IDs of up to 255 bytes, but the length is printed as a character, so from 128 on it
  takes two bytes. `StubContent.StubRoundTrip` has the exact set of IDs that survive; the generated ones do.
- The rollback of a failed create or exec deletes by key. If the process was deleted and the key registered again
  meanwhile, the rollback removes the new process: `TaskRaces.RollbackTakesAnother`. `TaskRuns.RollbackExact` has the
  condition, `TaskRuns.OrderlyRollback` a rule for clients under which it never happens.
- So does `DeleteProcess` in the time between the service's answer and the manager's critical section:
  `TaskRaces.DeleteTakesAnother`, with the condition in `TaskRuns.DeleteExact`.
- After a successful `ShutdownIfEmpty` a create can then still reach the service: `TaskRaces.LateCall`.
  `TaskRuns.NoLateCall` has a condition on runs under which no call does, `TaskRaces.LateCallIff` the exact condition
  under which a given waiting call still may.
- The failure of an agent's `Create` or `Exec` cleans up by key. A second create of a running task is refused, and then
  removes the first one's bundle: `AgentCalls.UnwindsAnother`. `AgentCalls.UnwindsOwnIff` has the condition,
  `AgentCalls.OrderlyUnwinds` a rule for clients under which every call undoes exactly its own work.
- A `Shutdown` call during `CreateVM` can publish the stop event before the start event, for a request that sets
  `ExitAfterAllTasksDeleted`, as the shim does for every VM that it names itself, and with `Now` for every request:
  `VmLifecycle.EarlyRun`. `VmLifecycle.NeverEarly` and `VmLifecycle.EarlyIff` have the condition on runs.
- The cpuset builder looks like a value, but two builders made from one may share an array, and then the later `AddCPU`
  overwrites the earlier one's number: `Cpuset.Overwritten`. `Cpuset.AddCPUTwice` has the condition.
- `setReadWriteOptions` looks at the first mode only: a list with both modes passes when the first one fits. Its contract
  in `HostDrives` says so.

## Model

| member | source | states |
|---|---|---|
| `Wire.SkipIffField` | Firecracker/firecracker-containerd/proto/service/drivemount/ttrpc/drivemount.pb.go:644-721 | the depth counter refines the recursive grammar: for `n` within the input, skipping returns `n` exactly when the first `n` bytes are one complete field (scalar, fixed, length-delimited, or balanced groups to any depth) |
| `Wire.SkipExact` | Firecracker/firecracker-containerd/proto/service/drivemount/ttrpc/drivemount.pb.go:644-721 | every complete field is skipped exactly, whatever bytes follow |
| `Wire.SkipSound` | Firecracker/firecracker-containerd/proto/service/drivemount/ttrpc/drivemount.pb.go:644-721 | whatever the skipper accepts within its input is a complete field, which is constructed |
| `Wire.CloseInnermost` | Firecracker/firecracker-containerd/proto/service/drivemount/ttrpc/drivemount.pb.go:701-718 | closing several open groups is closing the innermost first: the meaning of the depth counter |
| `Wire.SkipDrivemount` | Firecracker/firecracker-containerd/proto/service/drivemount/ttrpc/drivemount.pb.go:644-721 | the loop terminates, stays in bounds, and returns the specified length (possibly past the end) or the specified error |
| `Wire.PassToken` | Firecracker/firecracker-containerd/proto/service/drivemount/ttrpc/drivemount.pb.go:649-712 | one iteration: tag, wire type, index after the token with 64-bit wrap-around, all errors |
| `Wire.PassVarint` | Firecracker/firecracker-containerd/proto/service/drivemount/ttrpc/drivemount.pb.go:667-678 | the loop that passes over a varint without its value |
| `Wire.SkipCutField` | Firecracker/firecracker-containerd/proto/service/drivemount/ttrpc/drivemount.pb.go:644-721 | a field that is cut off anywhere, at any depth, fails with an unexpected end, or, if it is not in a group and not one, gives a length past the end |
| `Wire.RejectedVarint` | Firecracker/firecracker-containerd/proto/service/drivemount/ttrpc/drivemount.pb.go:652-666 | a tag, value or length that is cut off or longer than ten bytes gives that error at any depth |
| `Wire.RejectedWireType` | Firecracker/firecracker-containerd/proto/service/drivemount/ttrpc/drivemount.pb.go:667-714 | wire types 6 and 7, and the end of a group that was not opened |
| `Wire.SkippedLength` | Firecracker/firecracker-containerd/proto/service/drivemount/ttrpc/drivemount.pb.go:682-700 | a length that leads past the largest `int` is invalid; one that leads past the end is left to the caller, and in a group is an unexpected end |
| `Messages.DecodeMountTruncated` | Firecracker/firecracker-containerd/proto/service/drivemount/ttrpc/drivemount.pb.go:376-557 | a request that ends inside a field fails with an unexpected end, and the message holds what the fields before it say |
| `Messages.DecodeUnmountTruncated` | Firecracker/firecracker-containerd/proto/service/drivemount/ttrpc/drivemount.pb.go:558-643 | the same for the unmount request |
| `Messages.EncodingAscending` | Firecracker/firecracker-containerd/proto/service/drivemount/ttrpc/drivemount.pb.go:154-194 | a request is encoded with its fields by ascending number, the unrecognized ones last |
| `Messages.EncodingExample` | Firecracker/firecracker-containerd/proto/service/drivemount/ttrpc/drivemount.pb.go:154-228 | the bytes of two small requests |
| `Messages.MountRoundTrip` | Firecracker/firecracker-containerd/proto/service/drivemount/ttrpc/drivemount.pb.go:139-194 | decoding an encoded request into a fresh one gives it back exactly when its unrecognized bytes are complete fields with numbers other than 1 to 4 |
| `Messages.MountCanonical` | Firecracker/firecracker-containerd/proto/service/drivemount/ttrpc/drivemount.pb.go:376-557 | whatever bytes a request was decoded from, re-encoding is no longer and decodes to the same request |
| `Messages.ForwardCompatible` | Firecracker/firecracker-containerd/proto/service/drivemount/ttrpc/drivemount.pb.go:558-643 | a mount request decoded and re-encoded as an unmount request is the same byte string |
| `Messages.MountReadAsUnmount` | Firecracker/firecracker-containerd/proto/service/drivemount/ttrpc/drivemount.pb.go:620-636 | read by a program that knows field 1 only, fields 2 to 4 and the unrecognized bytes are kept, in order |
| `Messages.CompleteIffKept` | Firecracker/firecracker-containerd/proto/service/drivemount/ttrpc/drivemount.pb.go:533-549 | a byte string is a sequence of complete fields numbered above the known ones exactly when decoding succeeds and keeps all of it as unrecognized |
| `Messages.CompleteForFewer` | Firecracker/firecracker-containerd/proto/service/drivemount/ttrpc/drivemount.pb.go:619-636 | bytes that are complete unknown fields for four known fields are so for one |
| `Messages.DecodeMountConcat` | Firecracker/firecracker-containerd/proto/service/drivemount/ttrpc/drivemount.pb.go:376-557 | decoding is a merge: after an input that decodes, a second one decodes exactly as alone, into the result of the first |
| `Messages.DecodeUnmountConcat` | Firecracker/firecracker-containerd/proto/service/drivemount/ttrpc/drivemount.pb.go:558-643 | the same for the unmount request |
| `Messages.MergeMountMeaning` | Firecracker/firecracker-containerd/proto/service/drivemount/ttrpc/drivemount.pb.go:404-549 | last one wins for the three strings; options and unknown bytes accumulate in order |
| `Messages.MergeUnmountMeaning` | Firecracker/firecracker-containerd/proto/service/drivemount/ttrpc/drivemount.pb.go:586-636 | the last drive ID wins; unknown bytes accumulate in order |
| `Messages.UnmountCanonical` | Firecracker/firecracker-containerd/proto/service/drivemount/ttrpc/drivemount.pb.go:558-643 | whatever bytes an unmount request was decoded from, re-encoding is no longer and decodes to the same request |
| `Messages.KeptIsComplete` | Firecracker/firecracker-containerd/proto/service/drivemount/ttrpc/drivemount.pb.go:533-549 | what a successful decoding keeps as unrecognized is always a sequence of complete unknown fields |
| `Messages.ApplyCost` | Firecracker/firecracker-containerd/proto/service/drivemount/ttrpc/drivemount.pb.go:404-549 | one decoded field lengthens the request's own encoding by no more than that field |
| `Messages.UnmountRoundTrip` | Firecracker/firecracker-containerd/proto/service/drivemount/ttrpc/drivemount.pb.go:196-228 | the round trip of the unmount request, with the exact condition |
| `Records.ParseIffGrammar` | Firecracker/firecracker-containerd/proto/service/drivemount/ttrpc/drivemount.pb.go:376-557 | decoding succeeds exactly on sequences of complete fields with positive 32-bit numbers whose known ones are length-delimited |
| `Records.ParseComplete` | Firecracker/firecracker-containerd/proto/service/drivemount/ttrpc/drivemount.pb.go:379-551 | every such sequence decodes, to one record a field |
| `Records.ParseSound` | Firecracker/firecracker-containerd/proto/service/drivemount/ttrpc/drivemount.pb.go:379-551 | every input that decodes is such a sequence |
| `Records.ParseTruncated` | Firecracker/firecracker-containerd/proto/service/drivemount/ttrpc/drivemount.pb.go:376-557 | after any accepted fields, every nonempty proper beginning of another one fails with an unexpected end and adds no record |
| `Records.ParseBeginning` | Firecracker/firecracker-containerd/proto/service/drivemount/ttrpc/drivemount.pb.go:376-557 | every beginning of an input that decodes is decoded as well or fails with an unexpected end, with the first of its records |
| `Records.RejectedTag` | Firecracker/firecracker-containerd/proto/service/drivemount/ttrpc/drivemount.pb.go:396-408 | which error a complete tag gives that is not accepted: end of group, number not positive as a signed 32-bit number, wrong or unknown wire type |
| `Records.RejectedTagBytes` | Firecracker/firecracker-containerd/proto/service/drivemount/ttrpc/drivemount.pb.go:381-423 | tags and lengths that are cut off or longer than ten bytes |
| `Records.RejectedLength` | Firecracker/firecracker-containerd/proto/service/drivemount/ttrpc/drivemount.pb.go:424-436 | an announced length that leads past the largest `int` is invalid, one that leads past the end of the input an unexpected end |
| `Records.ParseConcat` | Firecracker/firecracker-containerd/proto/service/drivemount/ttrpc/drivemount.pb.go:376-557 | the records of a concatenation are the records of the parts |
| `Records.FieldOfRecord` | Firecracker/firecracker-containerd/proto/service/drivemount/ttrpc/drivemount.pb.go:380-550 | one iteration that succeeds consumed exactly one accepted field |
| `Records.NextRecordOfField` | Firecracker/firecracker-containerd/proto/service/drivemount/ttrpc/drivemount.pb.go:380-550 | every accepted field is consumed by one iteration, whatever follows |
| `Records.PassRecord` | Firecracker/firecracker-containerd/proto/service/drivemount/ttrpc/drivemount.pb.go:380-409 | one iteration up to the assignment: tag, int32 field number, all errors in order |
| `Records.PassPayload` | Firecracker/firecracker-containerd/proto/service/drivemount/ttrpc/drivemount.pb.go:409-436 | length, signed and wrap-around checks, payload |
| `Records.PassUnknown` | Firecracker/firecracker-containerd/proto/service/drivemount/ttrpc/drivemount.pb.go:533-549 | the skipper's length checked against the input; the check for a negative length is never taken |
| `DriveMount.MountDriveRequest.Unmarshal` | Firecracker/firecracker-containerd/proto/service/drivemount/ttrpc/drivemount.pb.go:376-557 | terminates, stays in bounds, ends exactly at the end of the input on success, and leaves the message with what was decoded before an error |
| `DriveMount.MountDriveRequest.MarshalToSizedBuffer` | Firecracker/firecracker-containerd/proto/service/drivemount/ttrpc/drivemount.pb.go:154-194 | on any buffer that is large enough: returns the size, writes the encoding at the end, changes nothing before it |
| `DriveMount.MountDriveRequest.Marshal` | Firecracker/firecracker-containerd/proto/service/drivemount/ttrpc/drivemount.pb.go:139-147 | a buffer of exactly the size holds exactly the encoding |
| `DriveMount.MountDriveRequest.Size` | Firecracker/firecracker-containerd/proto/service/drivemount/ttrpc/drivemount.pb.go:241-269 | the size is the length of the encoding |
| `DriveMount.UnmountDriveRequest.Unmarshal` | Firecracker/firecracker-containerd/proto/service/drivemount/ttrpc/drivemount.pb.go:558-643 | the same for the unmount request |
| `DriveMount.UnmountDriveRequest.MarshalToSizedBuffer` | Firecracker/firecracker-containerd/proto/service/drivemount/ttrpc/drivemount.pb.go:211-228 | the same for the unmount request |
| `DriveMount.UnmountDriveRequest.Marshal` | Firecracker/firecracker-containerd/proto/service/drivemount/ttrpc/drivemount.pb.go:196-204 | the same for the unmount request |
| `DriveMount.UnmountDriveRequest.Size` | Firecracker/firecracker-containerd/proto/service/drivemount/ttrpc/drivemount.pb.go:271-285 | the same for the unmount request |
| `DriveMount.WriteString` | Firecracker/firecracker-containerd/proto/service/drivemount/ttrpc/drivemount.pb.go:165-169 | bytes, length and tag written backwards in place |
| `DriveMount.WriteRepeated` | Firecracker/firecracker-containerd/proto/service/drivemount/ttrpc/drivemount.pb.go:163-171 | options written from the last to the first end up in order, empty ones included |
| `Varint.VarintRoundTrip` | Firecracker/firecracker-containerd/proto/service/drivemount/ttrpc/drivemount.pb.go:230-240 | every uint64 is read back from its encoding, consuming exactly those bytes |
| `Varint.EncodeVarintMinimal` | Firecracker/firecracker-containerd/proto/service/drivemount/ttrpc/drivemount.pb.go:230-240 | no complete varint with the same value is shorter |
| `Varint.SovIsLength` | Firecracker/firecracker-containerd/proto/service/drivemount/ttrpc/drivemount.pb.go:287-289 | the bit-length formula is the number of bytes written, one to ten |
| `Varint.ReadVarintIff` | Firecracker/firecracker-containerd/proto/service/drivemount/ttrpc/drivemount.pb.go:381-395 | reading succeeds exactly on inputs that start with a complete varint of at most ten bytes |
| `Varint.ReadVarintErrors` | Firecracker/firecracker-containerd/proto/service/drivemount/ttrpc/drivemount.pb.go:381-395 | reading fails at the end of the input exactly inside a varint, and with an overflow exactly after ten bytes |
| `Varint.DecodeVarint` | Firecracker/firecracker-containerd/proto/service/drivemount/ttrpc/drivemount.pb.go:409-423 | the shift-and-or loop computes that value and length, or that error |
| `Varint.OrGroup` | Firecracker/firecracker-containerd/proto/service/drivemount/ttrpc/drivemount.pb.go:419 | one update of the loop: seven more bits, bit 63 the last one kept |
| `Varint.WriteVarint` | Firecracker/firecracker-containerd/proto/service/drivemount/ttrpc/drivemount.pb.go:230-240 | writes the encoding in place just before the offset, touching nothing else |
| `GuestDrives.HostGuestAgree` | Firecracker/firecracker-containerd/agent/drive_handler.go:88-120 | for any numbers of container stubs and drive mounts, discovery returns exactly the host's drive IDs, each at the device that holds its stub file; other devices are skipped |
| `GuestDrives.DiscoverMeaning` | Firecracker/firecracker-containerd/agent/drive_handler.go:88-120 | whatever the devices: discovery succeeds exactly when each has a number and each stub an ID that can be read, and finds exactly the stubs, the last one of those with the same ID |
| `GuestDrives.HostIDsOfDrives` | Firecracker/firecracker-containerd/runtime/drive_handler.go:178-216 | those are the IDs of the drives that creating the stubs returns |
| `GuestDrives.HostIDsGood` | Firecracker/firecracker-containerd/runtime/drive_handler.go:249-255 | the generated IDs are pairwise distinct and 1 to 127 bytes long |
| `GuestDrives.AttachedServes` | Firecracker/firecracker-containerd/runtime/service.go:777-787 | the files on the jail's disk after both steps are what the devices of the VM serve |
| `GuestDrives.GetDriveMeaning` | Firecracker/firecracker-containerd/agent/drive_handler.go:81-84 | in a VM made of the files the host created, a successful discovery lets the agent find exactly the host's IDs, each under the name and number of the device its file was attached as |
| `GuestDrives.DriveHandler.DiscoverDrives` | Firecracker/firecracker-containerd/agent/drive_handler.go:88-120 | the map is replaced as a whole, and only when the block directory and every device could be read |
| `StubContent.StubRoundTrip` | Firecracker/firecracker-containerd/internal/common.go:93-127 | parsing a generated stub, whatever follows it, gives the ID back exactly for 1 to 127 bytes, and for one ID of 195 bytes that equals its own shift |
| `StubContent.ParseTwoByteLength` | Firecracker/firecracker-containerd/internal/common.go:118-127 | what is read back for longer IDs, whose length takes two bytes |
| `StubContent.GeneratedIsStub` | Firecracker/firecracker-containerd/internal/common.go:76-89 | every generated stub is recognised |
| `StubContent.IsStubDrive` | Firecracker/firecracker-containerd/internal/common.go:76-89 | true exactly when the first eight bytes are the magic ones |
| `StubContent.StubBytes` | Firecracker/firecracker-containerd/internal/common.go:76-89 | which eight bytes those are |
| `StubContent.ParseMeaning` | Firecracker/firecracker-containerd/internal/common.go:93-116 | parsing fails exactly without a length, with the length zero, or with nothing after it, and else gives as many bytes as the length says, zeroes where there are none |
| `StubContent.GenerateMeaning` | Firecracker/firecracker-containerd/internal/common.go:118-127 | the bytes of a generated stub, for IDs of up to 255 bytes and no others |
| `StubContent.ParseStubContent` | Firecracker/firecracker-containerd/internal/common.go:93-116 | short inputs, a zero length and short IDs as the reader delivers them |
| `HostDrives.StubIDsValid` | Firecracker/firecracker-containerd/runtime/drive_handler.go:249-255 | all drive IDs are distinct, alphanumeric, and fit a one-byte length |
| `HostDrives.StubFileRead` | Firecracker/firecracker-containerd/runtime/drive_handler.go:277-310 | a padded stub file is recognised and gives its ID back |
| `HostDrives.DriveSize` | Firecracker/firecracker-containerd/runtime/drive_handler.go:291-301 | the least multiple of 512 that holds the content |
| `HostDrives.StubFileStays` | Firecracker/firecracker-containerd/runtime/drive_handler.go:56-77 | a stub file stays complete while later ones are created |
| `HostDrives.SetReadWriteOptions` | Firecracker/firecracker-containerd/runtime/drive_handler.go:218-237 | rejects exactly the lists whose first mode contradicts; otherwise the first mode of the result is the drive's |
| `HostDrives.Host.NewStubDrive` | Firecracker/firecracker-containerd/runtime/drive_handler.go:257-328 | succeeds exactly when nothing fails and the file is new; then the file holds the padded stub; other files are untouched |
| `HostDrives.Host.CreateContainerStubs` | Firecracker/firecracker-containerd/runtime/drive_handler.go:49-83 | all stubs, configurations and files in order, or those before the first failure |
| `HostDrives.Host.CreateDriveMountStubs` | Firecracker/firecracker-containerd/runtime/drive_handler.go:178-216 | the same for drive mounts, with their options checked first |
| `HostDrives.Host.NewMountStub` | Firecracker/firecracker-containerd/runtime/drive_handler.go:185-212 | one drive mount |
| `HostDrives.Host.CreateVMStubs` | Firecracker/firecracker-containerd/runtime/service.go:768-787 | both steps for a VM with at least one container: exactly when they succeed, the drives, configurations and files of both, in one numbering |
| `HostDrives.VMStubFiles` | Firecracker/firecracker-containerd/runtime/service.go:777-787 | after both steps every stub file of the VM is complete: a container's survives the creation of the drive mounts' |
| `HostDrives.StubNames` | Firecracker/firecracker-containerd/runtime/drive_handler.go:56-62 | the stub files lie in the jail's root, named `ctrstub` or `drivemntstub` and their number, and the ID is that name in base 32 |
| `HostDrives.MountDriveMeaning` | Firecracker/firecracker-containerd/runtime/drive_handler.go:185-212 | a drive mount's drive has the mount as it was asked for, with a mode added where there is none |
| `HostDrives.VMConfigs` | Firecracker/firecracker-containerd/runtime/drive_handler.go:68-77 | each configured drive has the ID and path of its stub file, is not the root device, and is read-only and limited exactly as its mount asks |
| `HostDrives.StubDrive.WithMountConfig` | Firecracker/firecracker-containerd/runtime/drive_handler.go:337-352 | path, ID, writability and rate limiter never change |
| `Encoding.Base32Injective` | Firecracker/firecracker-containerd/runtime/drive_handler.go:249-255 | different names have different base 32 encodings |
| `Encoding.Base32Meaning` | Firecracker/firecracker-containerd/runtime/drive_handler.go:249-255 | the encoding spells the bytes, as one number, in base 32, with zero bits at the end |
| `Encoding.Base32Alphabet` | Firecracker/firecracker-containerd/runtime/drive_handler.go:249-255 | the standard alphabet |
| `Encoding.Base32Shape` | Firecracker/firecracker-containerd/runtime/drive_handler.go:249-255 | length and alphabet of the encoding |
| `Paths.BaseOfJoin` | Firecracker/firecracker-containerd/runtime/drive_handler.go:62 | the base name of a joined path is the name joined |
| `StubHandler.RunConserves` | Firecracker/firecracker-containerd/runtime/drive_handler.go:89-173 | over every sequence of reserves and releases with any failures: free plus used drives are exactly the created ones, none is held twice, and the queue is first in, first out |
| `StubHandler.ReserveConserves` | Firecracker/firecracker-containerd/runtime/drive_handler.go:98-141 | a reservation keeps the drives together, whether it succeeds or not |
| `StubHandler.ReleaseConserves` | Firecracker/firecracker-containerd/runtime/drive_handler.go:145-173 | so does a release |
| `StubHandler.ReserveMeaning` | Firecracker/firecracker-containerd/runtime/drive_handler.go:98-141 | exactly when a reservation succeeds, by the requests that must not fail, which drive it hands out, and that it is exposed, patched and mounted in that order |
| `StubHandler.ReserveErrors` | Firecracker/firecracker-containerd/runtime/drive_handler.go:98-141 | which error each failing reservation gives, and exactly the requests it has made |
| `StubHandler.ReleaseMeaning` | Firecracker/firecracker-containerd/runtime/drive_handler.go:145-173 | exactly when a release succeeds; a failing one changes nothing and has made exactly the requests up to the failing one |
| `StubHandler.ReleaseUndoesReserve` | Firecracker/firecracker-containerd/runtime/drive_handler.go:145-173 | releasing gives the drive back at the end of the queue, unmounted and then patched to its own file |
| `StubHandler.ContainerDrivesDistinct` | Firecracker/firecracker-containerd/runtime/drive_handler.go:49-83 | the container stubs are distinct, which is where conservation starts |
| `StubHandler.StubDriveHandler.Reserve` | Firecracker/firecracker-containerd/runtime/drive_handler.go:98-141 | the state after each of its outcomes |
| `StubHandler.StubDriveHandler.Release` | Firecracker/firecracker-containerd/runtime/drive_handler.go:145-173 | the state after each of its outcomes |
| `StubHandler.StubDriveHandler.PatchAndMount` | Firecracker/firecracker-containerd/runtime/drive_handler.go:354-380 | the requests made up to the one that fails |
| `TaskManager.CanAddMeaning` | Firecracker/firecracker-containerd/internal/vm/task.go:94-114 | on the flat set: open, new key, and for an exec some process of the same container |
| `TaskManager.AddRefines` | Firecracker/firecracker-containerd/internal/vm/task.go:107-123 | registering adds one key to the flat map and leaves no inner map empty |
| `TaskManager.RemoveRefines` | Firecracker/firecracker-containerd/internal/vm/task.go:126-146 | deleting removes one key from the flat map and leaves no inner map empty |
| `TaskManager.ShutdownRefines` | Firecracker/firecracker-containerd/internal/vm/task.go:148-158 | the nested map is empty exactly when the flat one is |
| `TaskManager.RemoveUndoesAdd` | Firecracker/firecracker-containerd/internal/vm/task.go:174-179 | a registration taken back leaves the nested map as it was |
| `TaskManager.TaskManager.NewProc` | Firecracker/firecracker-containerd/internal/vm/task.go:94-124 | succeeds exactly when allowed; the nested map afterwards |
| `TaskManager.TaskManager.DeleteProc` | Firecracker/firecracker-containerd/internal/vm/task.go:126-146 | returns the registered process, if any; the nested map afterwards |
| `TaskManager.TaskManager.ShutdownIfEmpty` | Firecracker/firecracker-containerd/internal/vm/task.go:148-158 | succeeds exactly when the map is empty |
| `TaskManager.TaskManager.CreateProcess` | Firecracker/firecracker-containerd/internal/vm/task.go:160-240 | without interference a failing create or exec cancels its process and restores the map exactly |
| `TaskRuns.Conservation` | Firecracker/firecracker-containerd/internal/vm/task.go:94-146 | in every interleaving: registered is removed plus live, nothing is removed twice, no inner map is empty |
| `TaskRuns.RunInv` | Firecracker/firecracker-containerd/internal/vm/task.go:94-286 | the invariant of every reachable state |
| `TaskRuns.ShutdownIffEmpty` | Firecracker/firecracker-containerd/internal/vm/task.go:148-158 | in every reachable state shutting down succeeds exactly when nothing is registered |
| `TaskRuns.AfterShutdown` | Firecracker/firecracker-containerd/internal/vm/task.go:98-100 | once shut down, forever: nothing is registered, and a call reaches the service only for a process registered and removed before |
| `TaskRuns.NoLateCall` | Firecracker/firecracker-containerd/internal/vm/task.go:148-188 | if no delete and no rollback takes a key while a call is between registering it and the task service, then no create or exec reaches the service after a shutdown, in any continuation |
| `TaskRuns.OrderlyGuarded` | Firecracker/firecracker-containerd/internal/vm/task.go:160-265 | that holds of every run whose clients do not create and delete the same process at the same time |
| `TaskRuns.OrderlyRollback` | Firecracker/firecracker-containerd/internal/vm/task.go:174-179 | and in those runs every rollback removes exactly the process its own call registered |
| `TaskRuns.RunLiveIff` | Firecracker/firecracker-containerd/internal/vm/task.go:126-146 | a registered process is still registered after a run exactly when nothing took its key |
| `TaskRuns.RollbackMeaning` | Firecracker/firecracker-containerd/internal/vm/task.go:174-179 | after a rollback the key is absent, the context cancelled, other keys untouched; it removed its own process exactly when nothing else had |
| `TaskRuns.RollbackExact` | Firecracker/firecracker-containerd/internal/vm/task.go:160-180 | a rollback removes the process its call registered exactly when nothing took the key in between; otherwise whatever is registered under the key by then |
| `TaskRuns.DeleteExact` | Firecracker/firecracker-containerd/internal/vm/task.go:242-255 | a delete removes the process that the service has deleted exactly when nothing took the key in between; otherwise whatever is registered under the key by then |
| `TaskRuns.ShutdownDisturbs` | Firecracker/firecracker-containerd/internal/vm/task.go:148-188 | whenever the manager is shut down, every call that was registered before has had its key taken by a delete or a rollback since |
| `TaskHistory.Answers` | Firecracker/firecracker-containerd/internal/vm/task.go:160-240 | in every interleaving a create or exec answers success exactly when its IO was initialized, after the service created it, and an error either without reaching the service or with its context cancelled and its registration rolled back |
| `TaskHistory.RegisterMeaning` | Firecracker/firecracker-containerd/internal/vm/task.go:169-172 | a registration is accepted exactly under the stated condition on the flat set; a refused one ends the call with an error and changes nothing else |
| `TaskHistory.AskedOnce` | Firecracker/firecracker-containerd/internal/vm/task.go:185 | the service is asked at most once to create each registered process |
| `TaskHistory.DeletesInOrder` | Firecracker/firecracker-containerd/internal/vm/task.go:247-255 | a delete reaches the manager only after the service has deleted the process |
| `TaskHistory.Contexts` | Firecracker/firecracker-containerd/internal/vm/task.go:267-286 | in every run the context of a process is cancelled when it exits, and otherwise only by a failing call for its key |
| `TaskHistory.FailedDelete` | Firecracker/firecracker-containerd/internal/vm/task.go:247-250 | a delete that the service refuses changes nothing |
| `TaskHistory.NeverStuck` | Firecracker/firecracker-containerd/internal/vm/task.go:160-240 | a create or exec that is not over can always go on, whatever the service answers |
| `TaskHistory.DeleteNeverStuck` | Firecracker/firecracker-containerd/internal/vm/task.go:242-265 | so can a delete |
| `TaskRaces.LateCallIff` | Firecracker/firecracker-containerd/internal/vm/task.go:148-188 | with a task service that answers consistently: a waiting call may still reach the service after some later shutdown exactly when its process was removed already, or the service has a process of that name, or another call or delete in progress can still take the key |
| `TaskRaces.LateCallAfter` | Firecracker/firecracker-containerd/internal/vm/task.go:148-188 | the same with the first condition on the run: a delete or rollback has taken the key since the call registered |
| `TaskRaces.StrandedIff` | Firecracker/firecracker-containerd/internal/vm/task.go:148-188 | among the continuations that do not themselves remove the call's process, one leads to a late call exactly when a delete or rollback has taken the key since the call registered |
| `TaskRaces.AlwaysGood` | Firecracker/firecracker-containerd/internal/vm/task.go:160-265 | with such a service, in every run from the start, every registered process is with the service, or some call in progress is about to create it or to take it away |
| `TaskRaces.StoryGood` | Firecracker/firecracker-containerd/internal/vm/task.go:160-265 | and every further run keeps that so |
| `TaskRaces.ClearAll` | Firecracker/firecracker-containerd/internal/vm/task.go:126-146 | around a waiting call whose process was removed, everything that is registered can be removed |
| `TaskRaces.DeleteTakesAnother` | Firecracker/firecracker-containerd/internal/vm/task.go:247-255 | a run in which a delete removes a later, healthy process of the same key |
| `TaskRaces.LateCall` | Firecracker/firecracker-containerd/internal/vm/task.go:183-188 | a run in which that healthy process's create reaches the service after a shutdown |
| `TaskRaces.RollbackTakesAnother` | Firecracker/firecracker-containerd/internal/vm/task.go:174-179 | a run in which a rollback removes a later, healthy process of the same key |
| `IoProxy.JoinMeaning` | Firecracker/firecracker-containerd/internal/vm/ioproxy.go:169-211 | under every ordering, what CreateTask receives is nil exactly when every configured stream initialized |
| `IoProxy.JoinError` | Firecracker/firecracker-containerd/internal/vm/ioproxy.go:169-211 | and an error it receives is one that a connector failed with |
| `IoProxy.StreamMeaning` | Firecracker/firecracker-containerd/internal/vm/ioproxy.go:69-149 | at most two sends, never into a full channel, one close, copying exactly when both sides are up |
| `IoProxy.InitPair` | Firecracker/firecracker-containerd/internal/vm/ioproxy.go:85-117 | the loop: whichever result comes first, the channel ends closed with exactly the errors |
| `IoProxy.RunEnds` | Firecracker/firecracker-containerd/internal/vm/ioproxy.go:169-211 | every run is bounded by the steps its streams have left |
| `IoProxy.NoDeadlock` | Firecracker/firecracker-containerd/internal/vm/ioproxy.go:169-211 | as long as nothing was received, some step is possible, whatever the next connector returns |
| `VmLifecycle.CreatedOnce` | Firecracker/firecracker-containerd/runtime/service.go:439-495 | creation runs at most once; the ready channel is closed at most once, after clients, drive mounts and the start event |
| `VmHistory.ReadyMeans` | Firecracker/firecracker-containerd/runtime/service.go:439-592 | the ready channel is closed only in runs in which no stage of the creation failed, the machine was built and started, the agent answered, exactly the requested drives were mounted, and the start event was attempted |
| `VmHistory.CreateAnswers` | Firecracker/firecracker-containerd/runtime/service.go:456-481 | what CreateVM answers: created, something failed in this call, or refused without having done anything |
| `VmHistory.CleanupAnswers` | Firecracker/firecracker-containerd/runtime/service.go:1319-1340 | the error of the cleanup names exactly the steps of it that failed |
| `VmHistory.CloseAnswers` | Firecracker/firecracker-containerd/runtime/service.go:1186-1209 | StopVM, Shutdown and the monitor return only after the machine exited, StopVM in addition only after the VM was ready; StopVM gives up waiting for that only by its timeout |
| `VmHistory.ShutdownIff` | Firecracker/firecracker-containerd/runtime/service.go:1170-1201 | after any run, a Shutdown goes on to wait for the machine exactly when one was built, if it is asked for at once, or else when an agent answered and the VM exits with its last task |
| `VmHistory.NeverStuck` | Firecracker/firecracker-containerd/runtime/service.go:439-617 | in every run each call that is not over can go on, whatever the outcome of its next step, or waits for a thread in a once that can |
| `VmHistory.CallEnds` | Firecracker/firecracker-containerd/runtime/service.go:439-617 | and no call takes more steps than there are drives, and ten |
| `VmLifecycle.CleanedOnce` | Firecracker/firecracker-containerd/runtime/service.go:1319-1340 | cleanup runs at most once and all its callers return the same error |
| `VmLifecycle.NeverEarly` | Firecracker/firecracker-containerd/runtime/service.go:1170-1209 | for every request: in every run whose shutdowns come after the start event was attempted, cleanup comes after it too |
| `VmLifecycle.NeverEarlyWithoutShutdown` | Firecracker/firecracker-containerd/runtime/service.go:439-617 | in particular in every interleaving of `CreateVM`, `StopVM` and the exit monitor |
| `VmLifecycle.EarlyIff` | Firecracker/firecracker-containerd/runtime/service.go:1170-1209 | after any such run, one more shutdown that goes ahead makes cleanup before the start event possible exactly when that event has not been attempted yet |
| `VmLifecycle.EarlyRun` | Firecracker/firecracker-containerd/runtime/service.go:1174-1201 | a run, for each way to ask for the shutdown, in which it happens while the drives are being mounted |
| `VmLifecycle.CleanupAfterStartIff` | Firecracker/firecracker-containerd/runtime/service.go:343-360 | without shutdowns that are asked for at once, all runs of a VM are in order exactly when it is not to exit with its last container |
| `VmLifecycle.RunInv` | Firecracker/firecracker-containerd/runtime/service.go:439-617 | the invariant of every reachable state |
| `AgentCleanup.TaskExecIDInjective` | Firecracker/firecracker-containerd/agent/service.go:75-87 | different valid pairs of IDs have different keys |
| `AgentCleanup.TaskExecIDMeaning` | Firecracker/firecracker-containerd/agent/service.go:75-87 | which pairs have a key, and what it encodes |
| `AgentCleanup.FailedMeaning` | Firecracker/firecracker-containerd/agent/service.go:138-150 | the errors of a cleanup are exactly those of the ones that failed, in the order they ran |
| `AgentCleanup.RunInv` | Firecracker/firecracker-containerd/agent/service.go:132-150 | in every interleaving each cleanup waits under its own key or has run exactly once |
| `AgentCleanup.DoMeaning` | Firecracker/firecracker-containerd/agent/service.go:138-150 | a cleanup runs exactly what was registered for its pair and not run before, last one first, and removes the entry |
| `AgentCleanup.Cleanups.AddCleanup` | Firecracker/firecracker-containerd/agent/service.go:132-136 | appends to the entry of the key |
| `AgentCleanup.Cleanups.DoCleanup` | Firecracker/firecracker-containerd/agent/service.go:138-150 | runs the entry in reverse, failures or not, and removes it |
| `AgentCalls.UnwindsOwnIff` | Firecracker/firecracker-containerd/agent/service.go:166-173 | a failing Create or Exec runs exactly the cleanups it registered itself if and only if no other call ran its pair's cleanups after its first one, and nothing of another call is waiting there: left from before it began, or registered since another call last ran them |
| `AgentCalls.OrderlyUnwinds` | Firecracker/firecracker-containerd/agent/service.go:153-322 | with clients that create a process only when there is none, and create or delete it in one call at a time: every failing call runs exactly its own cleanups, every delete exactly those of the create, and nothing waits for a process that neither exists nor is being created or deleted |
| `AgentCalls.UnwindsAnother` | Firecracker/firecracker-containerd/agent/service.go:166-173 | a run in which a refused second create runs the cleanups of the running process |
| `AgentCalls.RunStacks` | Firecracker/firecracker-containerd/agent/service.go:132-150 | the invariant of the cleanup stacks in every run of such calls |
| `AgentCalls.NeverStuck` | Firecracker/firecracker-containerd/agent/service.go:153-262 | in every run a call that is not over can go on, and one that has not reached the task manager can fail, which starts its cleanups |
| `Encoding.Base64Meaning` | Firecracker/firecracker-containerd/agent/service.go:86 | the encoding spells the bytes, as one number, in base 64, and is filled up with equals signs |
| `Encoding.Base64Alphabet` | Firecracker/firecracker-containerd/agent/service.go:86 | the URL alphabet |
| `Encoding.Base64Injective` | Firecracker/firecracker-containerd/agent/service.go:86 | different strings have different base 64 encodings |
| `Paths.UnderIffPrefix` | Firecracker/firecracker-containerd/agent/drive_handler.go:280-293 | the string test holds exactly when the base's components are a prefix of the path's |
| `Paths.CleanElements` | Firecracker/firecracker-containerd/agent/drive_handler.go:281-282 | what cleaning does with empty, dot, dot-dot and other elements |
| `Paths.IsSystemDir` | Firecracker/firecracker-containerd/agent/drive_handler.go:236-253 | accepts exactly the destinations that resolve, and to a path whose first component is not `proc`, `sys` or `dev`, also when files change meanwhile |
| `Paths.EvalAnySymlinks` | Firecracker/firecracker-containerd/agent/drive_handler.go:259-277 | the loop terminates on every path, for every sequence of answers: the files may change between two iterations |
| `Paths.ResolveTree` | Firecracker/firecracker-containerd/agent/drive_handler.go:255-277 | on every file system with symlinks: the loop gives what the longest existing part of the path leads to, followed by the names that do not exist, and fails exactly when the first of those is not just missing |
| `Paths.ResolveExisting` | Firecracker/firecracker-containerd/agent/drive_handler.go:259-277 | for every resolver that answers coherently: the existing part of the path resolves as `EvalSymlinks` resolves it as a whole |
| `Paths.TreeCoherent` | Firecracker/firecracker-containerd/agent/drive_handler.go:266 | a file system with symlinks to files and directories, dangling ones and loops answers coherently |
| `Paths.ResolvePlain` | Firecracker/firecracker-containerd/agent/drive_handler.go:255-277 | without symlinks it is lexical cleaning, wherever the path stops existing |
| `Paths.ComponentsOfRender` | Firecracker/firecracker-containerd/agent/drive_handler.go:281-282 | cleaned paths are canonical |
| `Cpuset.StringifyMeaning` | Firecracker/firecracker-containerd/runtime/cpuset/cpuset_builder.go:132-143 | the string read by the list format denotes exactly the union of what was added, and is readable exactly when no number is negative and no range descending; empty for the empty builder only |
| `Cpuset.StringifyItems` | Firecracker/firecracker-containerd/runtime/cpuset/cpuset_builder.go:132-143 | the items of the list are the elements in the order they were added, and then the ranges |
| `Cpuset.Builder.Build` | Firecracker/firecracker-containerd/runtime/cpuset/cpuset_builder.go:122-130 | both strings |
| `Cpuset.BuildList` | Firecracker/firecracker-containerd/runtime/cpuset/cpuset_builder.go:132-143 | the two loops |
| `Cpuset.ParseRange` | Firecracker/firecracker-containerd/runtime/cpuset/cpuset_builder.go:63-65 | a printed range denotes its interval |
| `Cpuset.Append` | Firecracker/firecracker-containerd/runtime/cpuset/cpuset_builder.go:90 | `append`: in place if there is spare capacity, into a copy if not; the longer slice, and the old one as it was |
| `Cpuset.AppendTwice` | Firecracker/firecracker-containerd/runtime/cpuset/cpuset_builder.go:89-92 | two slices made from one keep their own elements exactly when it had no spare capacity or the elements are equal |
| `Cpuset.AddCPUTwice` | Firecracker/firecracker-containerd/runtime/cpuset/cpuset_builder.go:89-92 | two builders made from one: the later `AddCPU` replaces the earlier one's number exactly when there is spare capacity |
| `Cpuset.Overwritten` | Firecracker/firecracker-containerd/runtime/cpuset/cpuset_builder.go:89-130 | a chain of calls from the empty builder after which builders for CPUs 0 to 3 and for 0, 1, 2 and 4 both print the latter |
| `Cpuset.NewBuilder` | Firecracker/firecracker-containerd/runtime/cpuset/cpuset_builder.go:51-57 | the empty builder has no members and no spare capacity |
| `Cpuset.Builder.AddCPU` | Firecracker/firecracker-containerd/runtime/cpuset/cpuset_builder.go:89-92 | one more CPU, memory nodes and the old builder unchanged, and what is written in place |
| `Cpuset.Builder.AddCPURange` | Firecracker/firecracker-containerd/runtime/cpuset/cpuset_builder.go:96-103 | the same for a range of CPUs |
| `Cpuset.Builder.AddMem` | Firecracker/firecracker-containerd/runtime/cpuset/cpuset_builder.go:106-109 | the same for a memory node |
| `Cpuset.Builder.AddMemRange` | Firecracker/firecracker-containerd/runtime/cpuset/cpuset_builder.go:112-119 | the same for a range of memory nodes |

## Left out

- DriveMount.MountDriveRequest.Size: a nil receiver and sizes beyond the largest `int`, which no slice reaches.
- DriveMount.MountDriveRequest.Unmarshal: the difference between nil and empty unrecognized bytes, which encode alike.
- StubContent.ParseStubContent: readers that deliver fewer bytes than they have; the files read here deliver all.
- HostDrives.Host.NewStubDrive: a partial write leaves the file empty in the model.
- HostDrives.Host.CreateContainerStubs: the drive slices are values, so sharing of their backing arrays is not captured.
- GuestDrives.GetDriveMeaning: which devices the kernel makes of the attached files; their placement is a parameter.
- StubHandler.RunConserves: the mount and the backing file of a drive after a failed request, which the code does not restore.
- TaskRuns.RunInv: `DeleteProcess` waiting for the copied IO, and the cancellation of the shim's own context.
- IoProxy.JoinMeaning: on values, since the goroutines share only channels; each connector delivers one result. Copying, the flush timeout and the copy-done channel are not modelled.
- VmLifecycle.CreatedOnce: on values, since the claim is about interleavings; building the configuration, the jailer and the machine are one step that may fail.
- VmLifecycle.EarlyIff: `Shutdown` with `Now` before the machine exists, which ends the shim with a panic.
- Paths.ResolveTree: the limit on the number of links in one path, beyond which `EvalSymlinks` fails; links are listed with the entry they finally lead to.
- Paths.EvalAnySymlinks: relative paths; the caller has checked that the path is absolute, and the resolver answers with absolute paths.
- AgentCleanup.TaskExecIDInjective: which IDs containerd accepts; the validator is a parameter that rejects slashes, as the code's comment says.
- AgentCalls.UnwindsOwnIff: what the cleanups do, and the task manager between accepting a create and its return; a call that fails there fails like any other.
- Cpuset.Append: how much capacity Go adds when it copies; it is a parameter.
- The vsock port counter, configuration defaults, log levels, retry timers, CPU averages and JSON handling: easy or library-bound.
- Shim creation and process waiting in the control plugin, the forwarding methods of both services, the event bridge: plumbing.
- Generated accessors, descriptors and RPC glue; `XXX_Marshal`, which is only meaningful when the capacity equals the size.
- Real files, mounts, devices, sockets, runc and the Firecracker SDK: arbitrary answers.
- Error texts, except for the codec, where every error is a value; logging.
