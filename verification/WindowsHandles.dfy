/**
 Handles on the target disk in the Windows worker (`WindowsPlatform` and `WindowsTarget` in
 src/worker/windows.rs): which kernel file objects are open when, which disk they belong to, and
 what a rollback restores.
 */
module WindowsHandles {
  import opened Common
  import opened DiskIdentity
  import opened SectorGeometry

  /** The device object behind a handle. */
  datatype Device = Device(number: nat, guid: seq<byte>)

  /** What `query_open_disk` reads from an open handle. */
  datatype OpenDiskIdentity = OpenDiskIdentity(
    device: Device, size: nat, logicalSectorSize: nat, physicalSectorSize: nat, busType: Text)

  // The worker's error kinds; an I/O error of a handle operation reads as `Platform`.
  type HandleError = IdentityError

  predicate MatchesSnapshot(d: DiskSnapshot, current: OpenDiskIdentity)
  {
    && current.device.number == d.number && current.size == d.size
    && current.logicalSectorSize == d.logicalSectorSize && current.physicalSectorSize == d.physicalSectorSize
    && current.busType == d.busType
    && exists i :: 0 <= i < |current.device.guid| && current.device.guid[i] != 0
  }

  /**
   An open handle: its own number, the file object it refers to, and the device that object is on.
   A file object stays on its device while any handle on it is open; the size, sector geometry and
   bus that a query reports may change.
   */
  datatype Handle = Handle(number: nat, fileObject: nat, device: Device, exclusive: bool)

  function Of(handle: Option<Handle>): set<Handle>
  {
    if handle.Some? then {handle.value} else {}
  }

  predicate SameObject(a: Option<Handle>, b: Option<Handle>)
  {
    a.Some? && b.Some? && a.value.fileObject == b.value.fileObject
  }

  // ---------------------------------------------------------------- the operating system

  /**
   This process's handles on the disk. Opening fails when it clashes with a file object this process
   still holds, and may fail for any other reason. `trueRecord` and `trueIdentity` stand for any one
   disk, which `troubles` is about.
   */
  class Kernel {
    ghost const trueRecord: DiskSnapshot
    ghost const trueIdentity: OpenDiskIdentity
    var open: set<Handle>
    // How often an open failed because of this process's own handles.
    var selfConflicts: nat
    // How often data was flushed to the disk and its volumes were dismounted, the last record that
    // the storage provider gave, and which handles were open at that record and that dismount.
    ghost var syncs: nat
    ghost var dismounts: nat
    ghost var record: Option<DiskSnapshot>
    ghost var recordedUnder: set<Handle>
    ghost var dismountedUnder: set<Handle>
    // Whether this process holds the volume locks, whether it held them at the last exclusive open,
    // and every identity that was read through a handle.
    ghost var locked: bool
    ghost var openedUnderLocks: bool
    ghost var identified: seq<(Handle, OpenDiskIdentity)>
    // Every device that was named in a call, and how often something other than an open that clashes
    // failed or told of another disk than the one meant.
    ghost var named: set<Text>
    ghost var troubles: nat

    constructor (ghost trueRecord: DiskSnapshot, ghost trueIdentity: OpenDiskIdentity)
      ensures this.trueRecord == trueRecord && this.trueIdentity == trueIdentity
      ensures open == {} && selfConflicts == 0 && !locked && named == {} && troubles == 0
    {
      this.trueRecord, this.trueIdentity := trueRecord, trueIdentity;
      named, troubles := {}, 0;
      open, selfConflicts := {}, 0;
      syncs, dismounts, record := 0, 0, None;
      recordedUnder, dismountedUnder := {}, {};
      locked, openedUnderLocks, identified := false, false, [];
    }

    /** Only this device was named meanwhile. */
    twostate predicate Only(device: Text)
      reads this
    {
      && old(troubles) <= troubles
      && forall name :: name in named && name !in old(named) ==> name == device
    }

    twostate predicate Troubled(yes: bool)
      reads this
    {
      troubles == old(troubles) + if yes then 1 else 0
    }

    predicate Clashes(wantsExclusive: bool)
      reads this
    {
      if wantsExclusive then open != {} else exists h :: h in open && h.exclusive
    }

    method Open(device: Text, wantsExclusive: bool) returns (result: Result<Handle, HandleError>)
      modifies this`open, this`selfConflicts, this`openedUnderLocks, this`named, this`troubles
      ensures named == old(named) + {device}
      ensures old(Clashes(wantsExclusive)) ==> result.Failure? && selfConflicts == old(selfConflicts) + 1 && Troubled(false)
      ensures !old(Clashes(wantsExclusive)) ==> selfConflicts == old(selfConflicts) && Troubled(result.Failure?)
      ensures result.Failure? ==> result.error == Platform && open == old(open)
      ensures result.Success? ==>
        result.value !in old(open) && open == old(open) + {result.value} && result.value.exclusive == wantsExclusive
      ensures result.Success? && wantsExclusive ==> openedUnderLocks == locked
    {
      named := named + {device};
      if Clashes(wantsExclusive) {
        selfConflicts := selfConflicts + 1;
        return Failure(Platform);
      }
      var fails: bool, number: nat, fileObject: nat, behind: Device := *, *, *, *;
      var handle := Handle(number, fileObject, behind, wantsExclusive);
      if fails || handle in open {
        troubles := troubles + 1;
        return Failure(Platform);
      }
      open := open + {handle};
      if wantsExclusive {
        openedUnderLocks := locked;
      }
      return Success(handle);
    }

    method Close(handle: Option<Handle>)
      modifies this`open
      ensures open == old(open) - Of(handle)
    {
      open := open - Of(handle);
    }

    /** A second handle on the same file object. */
    method Clone(handle: Handle) returns (result: Result<Handle, HandleError>)
      requires handle in open
      modifies this`open, this`troubles
      ensures Troubled(result.Failure?)
      ensures result.Failure? ==> open == old(open)
      ensures result.Success? ==>
        && result.value !in old(open) && open == old(open) + {result.value}
        && result.value.(number := handle.number) == handle
    {
      var fails: bool, number: nat := *, *;
      var clone := handle.(number := number);
      if fails || clone in open {
        troubles := troubles + 1;
        return Failure(Platform);
      }
      open := open + {clone};
      return Success(clone);
    }

    method Query(handle: Handle) returns (result: Result<OpenDiskIdentity, HandleError>)
      requires handle in open
      modifies this`identified, this`troubles
      ensures Troubled(result != Success(trueIdentity))
      ensures result.Success? ==>
        result.value.device == handle.device && identified == old(identified) + [(handle, result.value)]
      ensures result.Failure? ==> result.error == Platform && identified == old(identified)
    {
      var fails: bool, seen: OpenDiskIdentity := *, *;
      if fails {
        troubles := troubles + 1;
        return Failure(Platform);
      }
      var identity := seen.(device := handle.device);
      identified := identified + [(handle, identity)];
      if identity != trueIdentity {
        troubles := troubles + 1;
      }
      return Success(identity);
    }

    method Sync(handle: Handle) returns (result: Result<Unit, HandleError>)
      requires handle in open
      modifies this`syncs, this`troubles
      ensures Troubled(result.Failure?)
      ensures result == Success(Unit.Unit) || result == Failure(Platform)
      ensures syncs == old(syncs) + if result.Success? then 1 else 0
    {
      var fails: bool := *;
      if fails {
        troubles := troubles + 1;
        return Failure(Platform);
      }
      syncs := syncs + 1;
      return Success(Unit.Unit);
    }

    /** The storage provider's record of a disk, which may change from one call to the next. */
    method QueryDisk(number: nat) returns (result: Result<DiskSnapshot, HandleError>)
      modifies this`record, this`recordedUnder, this`named, this`troubles
      ensures named == old(named) + {DeviceOf(number)} && Troubled(result != Success(trueRecord))
      ensures result.Success? ==> record == Some(result.value) && recordedUnder == open
      ensures result.Failure? ==> record == old(record) && recordedUnder == old(recordedUnder)
    {
      result := *;
      named := named + {DeviceOf(number)};
      if result.Success? {
        record, recordedUnder := Some(result.value), open;
      }
      if result != Success(trueRecord) {
        troubles := troubles + 1;
      }
    }

    method LockAndDismountVolumes(number: nat) returns (result: Result<Unit, HandleError>)
      modifies this`dismounts, this`dismountedUnder, this`locked, this`named, this`troubles
      ensures named == old(named) + {DeviceOf(number)} && Troubled(result.Failure?)
      ensures result == Success(Unit.Unit) || result == Failure(Platform)
      ensures result.Success? ==> dismountedUnder == open && locked
      ensures result.Failure? ==> locked == old(locked)
      ensures dismounts == old(dismounts) + if result.Success? then 1 else 0
    {
      var fails: bool := *;
      named := named + {DeviceOf(number)};
      if fails {
        troubles := troubles + 1;
        return Failure(Platform);
      }
      dismounts, dismountedUnder, locked := dismounts + 1, open, true;
      return Success(Unit.Unit);
    }

    /** Dropping the volume handles gives up their locks. */
    method ReleaseVolumes()
      modifies this`locked
      ensures !locked
    {
      locked := false;
    }
  }

  // ---------------------------------------------------------------- the target

  class WindowsTarget {
    const kernel: Kernel
    var writer: Option<Handle>
    var verifier: Option<Handle>

    constructor (kernel: Kernel, writer: Handle)
      ensures this.kernel == kernel && this.writer == Some(writer) && verifier == None
    {
      this.kernel, this.writer, verifier := kernel, Some(writer), None;
    }

    function Handles(): set<Handle>
      reads this
    {
      Of(writer) + Of(verifier)
    }

    /** Every handle of the target is open, exclusive and on the device of `expected`. */
    ghost predicate Valid(expected: OpenDiskIdentity)
      reads this, kernel
    {
      && Handles() <= kernel.open
      && (writer.Some? ==> verifier.None?)
      && forall h :: h in Handles() ==> h.device == expected.device && h.exclusive
    }

    method SyncAll() returns (result: Result<Unit, HandleError>)
      requires writer.Some? ==> writer.value in kernel.open
      modifies kernel`syncs, kernel`troubles
      ensures kernel.Troubled(result.Failure?)
      ensures writer.None? ==> result == Success(Unit.Unit) && kernel.syncs == old(kernel.syncs)
      ensures writer.Some? ==> kernel.syncs == old(kernel.syncs) + if result.Success? then 1 else 0
    {
      if writer.None? {
        return Success(Unit.Unit);
      }
      result := kernel.Sync(writer.value);
    }

    method OpenIdentity() returns (result: Result<OpenDiskIdentity, HandleError>)
      requires Handles() <= kernel.open
      modifies kernel`identified, kernel`troubles
      ensures writer.Some? || verifier.Some? ==> kernel.Troubled(result != Success(kernel.trueIdentity))
      ensures old(kernel.troubles) <= kernel.troubles
      ensures result.Success? ==>
        && (writer.Some? || verifier.Some?)
        && var handle := if writer.Some? then writer.value else verifier.value;
           result.value.device == handle.device && kernel.identified == old(kernel.identified) + [(handle, result.value)]
    {
      if writer.Some? {
        assert writer.value in Handles();
        result := kernel.Query(writer.value);
      } else if verifier.Some? {
        assert verifier.value in Handles();
        result := kernel.Query(verifier.value);
      } else {
        return Failure(Platform);
      }
    }

    /** Swaps the writer for a cache-bypassing reader of the same disk. */
    method BeginVerification(device: Text, expected: OpenDiskIdentity) returns (result: Result<Unit, HandleError>)
      requires Valid(expected) && kernel.open == Handles() && writer.Some?
      modifies this, kernel
      ensures Valid(expected) && kernel.open == Handles()
      ensures kernel.selfConflicts == old(kernel.selfConflicts) && kernel.Only(device)
      ensures result.Failure? && kernel.troubles == 0 ==>
        || expected != kernel.trueIdentity
        || !ValidSectorGeometry(expected.size, expected.logicalSectorSize, expected.physicalSectorSize)
      ensures kernel.locked == old(kernel.locked)
      ensures result.Success? ==>
        && writer.None? && verifier.Some? && kernel.syncs > old(kernel.syncs)
        && kernel.identified == old(kernel.identified) + [(verifier.value, expected)]
        && ValidSectorGeometry(expected.size, expected.logicalSectorSize, expected.physicalSectorSize)
    {
      var synced := SyncAll();
      if synced.Failure? {
        return synced;
      }
      kernel.Close(writer);
      writer := None;
      var file := kernel.Open(device, true);
      if file.Failure? {
        return Failure(file.error);
      }
      var reopened := kernel.Query(file.value);
      if reopened.Failure? {
        kernel.Close(Some(file.value));
        return Failure(reopened.error);
      }
      if reopened.value != expected {
        kernel.Close(Some(file.value));
        return Failure(TargetChanged);
      }
      if !ValidSectorGeometry(expected.size, expected.logicalSectorSize, expected.physicalSectorSize) {
        kernel.Close(Some(file.value));
        return Failure(Platform);
      }
      verifier := Some(file.value);
      return Success(Unit.Unit);
    }

    /** The handle a write goes through; none once verification has begun. */
    method WriteHandle() returns (result: Result<Handle, HandleError>)
      ensures result.Success? <==> writer.Some? && verifier.None?
      ensures result.Success? ==> writer == Some(result.value)
    {
      if verifier.Some? || writer.None? {
        return Failure(Platform);
      }
      return Success(writer.value);
    }

    /** The handle a read goes through: the cache-bypassing one as soon as there is one. */
    method ReadHandle() returns (result: Result<Handle, HandleError>)
      ensures result.Success? <==> writer.Some? || verifier.Some?
      ensures result.Success? ==> if verifier.Some? then verifier == Some(result.value) else writer == Some(result.value)
    {
      if verifier.Some? {
        return Success(verifier.value);
      }
      return if writer.Some? then Success(writer.value) else Failure(Platform);
    }

    /** Dropping the target closes whatever it holds. */
    method Drop()
      requires Handles() <= kernel.open
      modifies this, kernel`open
      ensures kernel.open == old(kernel.open) - old(Handles()) && Handles() == {}
    {
      kernel.Close(writer);
      writer := None;
      kernel.Close(verifier);
      verifier := None;
    }
  }

  // ---------------------------------------------------------------- the platform

  /** The platform's seven fields, and five ghosts that count and remember. */
  class WindowsPlatform {
    const kernel: Kernel
    const sha: Hash
    var volumesDismounted: bool
    var writeMayHaveStarted: bool
    var preparedTarget: Option<Handle>
    var postWritePin: Option<Handle>
    var openIdentity: Option<OpenDiskIdentity>
    var rollbackSnapshot: Option<DiskSnapshot>
    var lockedVolumes: bool
    // The identity read through the pin taken before the last dismount, and that pin.
    ghost var pinned: Option<OpenDiskIdentity>
    ghost var heldPin: Option<Handle>
    ghost var unmounts: nat
    ghost var writers: nat
    // The handle through which the last successful cleanup held the disk exclusively.
    ghost var proved: Option<Handle>

    constructor (kernel: Kernel, sha: Hash)
      requires kernel.open == {} && !kernel.locked
      ensures this.kernel == kernel && this.sha == sha
      ensures IsDefault() && unmounts == 0 && writers == 0 && Valid({})
    {
      this.kernel, this.sha := kernel, sha;
      volumesDismounted, writeMayHaveStarted, lockedVolumes := false, false, false;
      preparedTarget, postWritePin, openIdentity, rollbackSnapshot := None, None, None, None;
      pinned, heldPin, unmounts, writers, proved := None, None, 0, 0, None;
    }

    ghost predicate IsDefault()
      reads this
    {
      && !volumesDismounted && !writeMayHaveStarted && !lockedVolumes
      && preparedTarget == None && postWritePin == None && openIdentity == None && rollbackSnapshot == None
    }

    function Handles(): set<Handle>
      reads this
    {
      Of(preparedTarget) + Of(postWritePin)
    }

    /**
     Every handle this process has on the disk is the platform's or the live target's, and has the
     identity that was pinned before the dismount; the volumes stay locked for as long as there is
     anything to write through or to prove; and the fields agree on how far things have come.
     */
    ghost predicate Valid(ofTarget: set<Handle>)
      reads this, kernel
    {
      && kernel.open == Handles() + ofTarget
      && Stage()
      && (postWritePin.Some? ==> postWritePin.value !in ofTarget)
      && (ofTarget != {} ==> writeMayHaveStarted && lockedVolumes)
      && lockedVolumes == kernel.locked
      && (openIdentity.Some? ==> openIdentity == pinned)
      && (kernel.troubles == 0 ==> Knows())
      && (forall h :: h in kernel.open ==> openIdentity.Some? && openIdentity.value.device == h.device)
    }

    /** What the platform remembers of the disk is what is true of the one meant. */
    ghost predicate Knows()
      reads this
    {
      && (openIdentity.Some? ==> openIdentity.value == kernel.trueIdentity)
      && (rollbackSnapshot.Some? ==> rollbackSnapshot.value == kernel.trueRecord)
    }

    /** The disk meant is the selected one. */
    ghost predicate Meant(selected: WorkerDrive)
    {
      && ParseSelected(selected).Success?
      && Vouched(selected, ParseSelected(selected).value, kernel.trueRecord, kernel.trueIdentity)
    }

    ghost predicate Stage()
      reads this
    {
      && (preparedTarget.Some? ==>
            volumesDismounted && !writeMayHaveStarted && lockedVolumes && preparedTarget.value.exclusive
            && openIdentity.Some? && rollbackSnapshot.Some? && postWritePin.None? && writers < unmounts)
      && (postWritePin.Some? ==> writeMayHaveStarted && lockedVolumes)
      && (writeMayHaveStarted ==> volumesDismounted && openIdentity.Some? && rollbackSnapshot.None? && preparedTarget.None?)
      && (volumesDismounted && !writeMayHaveStarted ==> rollbackSnapshot.Some?)
      && (!volumesDismounted ==> IsDefault())
      && writers == (if writeMayHaveStarted then 1 else 0)
      && writers <= unmounts
    }

    /**
     Succeeds only before any write may have started and only if the disk's record is again the one
     pinned before the dismount, and then restores the default state.
     */
    method RollbackUnmount(selected: WorkerDrive) returns (result: Result<Unit, HandleError>)
      requires Valid({}) && volumesDismounted
      modifies this, kernel
      ensures kernel.Only(selected.device)
      ensures result.Failure? && kernel.troubles == 0 ==> old(writeMayHaveStarted) || !Meant(selected)
      ensures Valid({}) && kernel.selfConflicts == old(kernel.selfConflicts)
      ensures unmounts == old(unmounts) && writers == old(writers)
      ensures old(writeMayHaveStarted) ==> result == Failure(UnsafeTarget) && unchanged(this) && unchanged(kernel)
      ensures result.Success? ==> IsDefault() && kernel.open == {}
      ensures result.Success? ==> old(rollbackSnapshot).Some? && kernel.record == old(rollbackSnapshot)
      ensures result.Failure? && !old(writeMayHaveStarted) ==>
        volumesDismounted && !writeMayHaveStarted && !lockedVolumes && preparedTarget.None? && kernel.open == {}
    {
      hide ParseSelected, Vouched;
      if writeMayHaveStarted {
        return Failure(UnsafeTarget);
      }
      ReleaseEverything();
      if rollbackSnapshot.None? {
        return Failure(UnsafeTarget);
      }
      var unchangedRecord := RecordIsStill(selected, rollbackSnapshot.value);
      if unchangedRecord.Failure? {
        return unchangedRecord;
      }
      rollbackSnapshot := None;
      openIdentity := None;
      volumesDismounted := false;
      return Success(Unit.Unit);
    }

    /** Drops the prepared handle, the pin and the volume locks. */
    method ReleaseEverything()
      requires Valid({}) && volumesDismounted && !writeMayHaveStarted
      modifies this`preparedTarget, this`postWritePin, this`lockedVolumes, kernel`open, kernel`locked
      ensures Valid({}) && preparedTarget.None? && postWritePin.None? && !lockedVolumes && kernel.open == {}
    {
      kernel.Close(preparedTarget);
      preparedTarget := None;
      kernel.Close(postWritePin);
      postWritePin := None;
      kernel.ReleaseVolumes();
      lockedVolumes := false;
    }

    /** Reads the disk's record again and accepts only the expected one. */
    method RecordIsStill(selected: WorkerDrive, expected: DiskSnapshot) returns (result: Result<Unit, HandleError>)
      modifies kernel`record, kernel`recordedUnder, kernel`named, kernel`troubles
      ensures kernel.Only(selected.device)
      ensures result.Failure? && kernel.troubles == 0 ==> expected != kernel.trueRecord || !Meant(selected)
      ensures result.Success? ==> kernel.record == Some(expected)
    {
      hide ParseSelected, ValidateSnapshot, MatchesSnapshot;
      var identity := ParseSelected(selected);
      if identity.Failure? {
        return Failure(identity.error);
      }
      ParsedDevice(selected);
      var current := kernel.QueryDisk(identity.value.number);
      if current.Failure? {
        return Failure(current.error);
      }
      var validated := ValidateSnapshot(selected, identity.value, current.value, Some(false), sha);
      if validated.Failure? {
        return Failure(validated.error);
      }
      if current.value != expected {
        return Failure(TargetChanged);
      }
      return Success(Unit.Unit);
    }

    /** The record is one the worker accepts for the selection, and the open disk is the recorded one. */
    predicate Vouched(selected: WorkerDrive, identity: SelectedDisk, snapshot: DiskSnapshot, current: OpenDiskIdentity)
    {
      && ValidateSnapshot(selected, identity, snapshot, Some(false), sha).Success?
      && MatchesSnapshot(snapshot, current)
    }

    lemma MeantGeometry(selected: WorkerDrive)
      ensures var id := kernel.trueIdentity;
        Meant(selected) ==> ValidSectorGeometry(id.size, id.logicalSectorSize, id.physicalSectorSize)
    {
      hide ParseSelected, ValidSectorGeometry;
    }

    /** What is pinned was vouched for before the dismount. */
    predicate PinnedVouched(selected: WorkerDrive)
      reads this
    {
      && ParseSelected(selected).Success? && rollbackSnapshot.Some? && openIdentity.Some?
      && Vouched(selected, ParseSelected(selected).value, rollbackSnapshot.value, openIdentity.value)
    }

    /**
     So it is the selected disk: a card target of exactly that name and capacity, and an open handle on
     a device of the same number, size, geometry and bus that has a device identifier.
     */
    lemma PinnedIsSelected(selected: WorkerDrive)
      requires ParseSelected(selected).Success? && rollbackSnapshot.Some? && openIdentity.Some?
      requires rollbackSnapshot.value.number < U32_LIMIT && |sha(Preimage(rollbackSnapshot.value))| == 32
      ensures PinnedVouched(selected) <==>
        var d, current := rollbackSnapshot.value, openIdentity.value;
        && RemovableCard(d) && selected == OfferOf(d, sha)
        && current == OpenDiskIdentity(
             Device(d.number, current.device.guid), d.size, d.logicalSectorSize, d.physicalSectorSize, d.busType)
        && exists i :: 0 <= i < |current.device.guid| && current.device.guid[i] > 0
    {
      hide ParseSelected, ValidateSnapshot, RemovableCard, OfferOf;
      ValidationExact(selected, rollbackSnapshot.value, sha);
    }

    /**
     The record was taken, and the volumes were dismounted, while a shared handle on the pinned device was
     open: the disk number could not be given to another disk in between.
     */
    ghost predicate PinHeld()
      reads this, kernel
    {
      && heldPin.Some? && pinned.Some? && heldPin.value.device == pinned.value.device && !heldPin.value.exclusive
      && heldPin.value in kernel.recordedUnder && kernel.record == rollbackSnapshot
      && heldPin.value in kernel.dismountedUnder
    }

    /** Pins the disk and its record before anything is locked. */
    method PinDevice(selected: WorkerDrive, identity: SelectedDisk)
      returns (result: Result<(Handle, DiskSnapshot, OpenDiskIdentity), HandleError>)
      requires kernel.open == {} && ParseSelected(selected) == Success(identity)
      requires identity.device == selected.device == DeviceOf(identity.number)
      modifies kernel
      ensures kernel.selfConflicts == old(kernel.selfConflicts) && kernel.Only(selected.device)
      ensures result.Failure? && kernel.troubles == 0 ==> !Meant(selected)
      ensures result.Success? && kernel.troubles == 0 ==>
        result.value.1 == kernel.trueRecord && result.value.2 == kernel.trueIdentity
      ensures result.Failure? ==> kernel.open == {}
      ensures result.Success? ==>
        var (pin, snapshot, current) := result.value;
        && kernel.open == {pin} && pin.device == current.device && !pin.exclusive
        && Vouched(selected, identity, snapshot, current)
        && kernel.record == Some(snapshot) && kernel.recordedUnder == {pin}
        && kernel.dismounts == old(kernel.dismounts)
        && kernel.identified == old(kernel.identified) + [(pin, current)]
      ensures kernel.locked == old(kernel.locked)
    {
      hide ParseSelected, ValidateSnapshot, MatchesSnapshot;
      var snapshot := kernel.QueryDisk(identity.number);
      if snapshot.Failure? {
        return Failure(snapshot.error);
      }
      var validated := ValidateSnapshot(selected, identity, snapshot.value, Some(false), sha);
      if validated.Failure? {
        return Failure(validated.error);
      }
      var devicePin := kernel.Open(identity.device, false);
      if devicePin.Failure? {
        return Failure(devicePin.error);
      }
      var pinnedSnapshot := kernel.QueryDisk(identity.number);
      if pinnedSnapshot.Failure? {
        kernel.Close(Some(devicePin.value));
        return Failure(pinnedSnapshot.error);
      }
      validated := ValidateSnapshot(selected, identity, pinnedSnapshot.value, Some(false), sha);
      if validated.Failure? {
        kernel.Close(Some(devicePin.value));
        return Failure(validated.error);
      }
      var pinnedIdentity := kernel.Query(devicePin.value);
      if pinnedIdentity.Failure? {
        kernel.Close(Some(devicePin.value));
        return Failure(pinnedIdentity.error);
      }
      if !MatchesSnapshot(pinnedSnapshot.value, pinnedIdentity.value) {
        kernel.Close(Some(devicePin.value));
        return Failure(TargetChanged);
      }
      return Success((devicePin.value, pinnedSnapshot.value, pinnedIdentity.value));
    }

    /** The zero-share handle that will be written through, checked against the pinned identity. */
    method PrepareTarget(device: Text, pinnedIdentity: OpenDiskIdentity) returns (result: Result<Handle, HandleError>)
      requires kernel.open == {}
      modifies kernel`open, kernel`selfConflicts, kernel`openedUnderLocks, kernel`identified,
        kernel`named, kernel`troubles
      ensures kernel.selfConflicts == old(kernel.selfConflicts) && kernel.Only(device)
      ensures result.Failure? && kernel.troubles == 0 ==> pinnedIdentity != kernel.trueIdentity
      ensures result.Failure? ==> kernel.open == {}
      ensures result.Success? ==>
        && kernel.open == {result.value} && result.value.device == pinnedIdentity.device && result.value.exclusive
        && kernel.openedUnderLocks == kernel.locked
        && kernel.identified == old(kernel.identified) + [(result.value, pinnedIdentity)]
    {
      hide ParseSelected, ValidateSnapshot, MatchesSnapshot, Vouched;
      var target := kernel.Open(device, true);
      if target.Failure? {
        return Failure(target.error);
      }
      var current := kernel.Query(target.value);
      if current.Failure? {
        kernel.Close(Some(target.value));
        return Failure(current.error);
      }
      if current.value != pinnedIdentity {
        kernel.Close(Some(target.value));
        return Failure(TargetChanged);
      }
      return Success(target.value);
    }

    /**
     A success leaves a prepared handle; a failure leaves either the state it found or a dismounted
     disk that still has to be rolled back. It succeeds at most once.
     */
    method Unmount(selected: WorkerDrive) returns (result: Result<Unit, HandleError>)
      requires Valid({})
      modifies this, kernel
      ensures kernel.Only(selected.device)
      ensures result.Failure? && kernel.troubles == 0 ==> old(volumesDismounted) || !Meant(selected)
      ensures Valid({}) && kernel.selfConflicts == old(kernel.selfConflicts)
      ensures writers == old(writers)
      ensures old(volumesDismounted) ==> result == Failure(UnsafeTarget) && unchanged(this) && unchanged(kernel)
      ensures result.Success? ==> preparedTarget.Some? && unmounts == old(unmounts) + 1
      ensures result.Success? ==> PinnedVouched(selected) && kernel.dismounts == old(kernel.dismounts) + 1 && PinHeld()
      ensures result.Success? ==>
        && kernel.openedUnderLocks
        && kernel.identified == old(kernel.identified) + [(heldPin.value, pinned.value), (preparedTarget.value, pinned.value)]
      ensures result.Failure? ==> unmounts == old(unmounts)
      ensures result.Failure? && !old(volumesDismounted) ==>
        (IsDefault() || (volumesDismounted && !lockedVolumes)) && !writeMayHaveStarted && kernel.open == {}
    {
      hide ParseSelected, ValidateSnapshot, MatchesSnapshot, Vouched;
      if preparedTarget.Some? || volumesDismounted || writeMayHaveStarted || lockedVolumes {
        return Failure(UnsafeTarget);
      }
      var identity := ParseSelected(selected);
      if identity.Failure? {
        return Failure(identity.error);
      }
      ParsedDevice(selected);
      var pin := PinDevice(selected, identity.value);
      if pin.Failure? {
        return Failure(pin.error);
      }
      var (devicePin, pinnedSnapshot, pinnedIdentity) := pin.value;
      var dismounted := DismountUnderPin(identity.value.number, devicePin, pinnedSnapshot, pinnedIdentity);
      if dismounted.Failure? {
        return dismounted;
      }
      result := TakeExclusively(selected, pinnedIdentity);
    }

    /** The pin is only closed once the volumes are dismounted. */
    method DismountUnderPin(number: nat, devicePin: Handle, snapshot: DiskSnapshot, current: OpenDiskIdentity)
      returns (result: Result<Unit, HandleError>)
      requires IsDefault() && writers == 0 && kernel.open == {devicePin} && devicePin.device == current.device
      requires !devicePin.exclusive
      requires !kernel.locked
      requires kernel.record == Some(snapshot) && devicePin in kernel.recordedUnder
      requires kernel.troubles == 0 ==> snapshot == kernel.trueRecord && current == kernel.trueIdentity
      modifies this, kernel
      ensures kernel.Only(DeviceOf(number))
      ensures result.Failure? ==> kernel.troubles > 0
      ensures Valid({}) && kernel.open == {} && kernel.selfConflicts == old(kernel.selfConflicts)
      ensures writers == old(writers) && unmounts == old(unmounts)
      ensures result.Success? ==>
        && volumesDismounted && lockedVolumes && !writeMayHaveStarted && openIdentity.None?
        && rollbackSnapshot == Some(snapshot) && pinned == Some(current) && PinHeld()
        && heldPin == Some(devicePin) && kernel.identified == old(kernel.identified)
        && kernel.dismounts == old(kernel.dismounts) + 1
      ensures result.Failure? ==> IsDefault()
    {
      pinned, heldPin := Some(current), Some(devicePin);
      rollbackSnapshot := Some(snapshot);
      var locked := kernel.LockAndDismountVolumes(number);
      if locked.Failure? {
        openIdentity := None;
        rollbackSnapshot := None;
        kernel.Close(Some(devicePin));
        return Failure(locked.error);
      }
      lockedVolumes := true;
      volumesDismounted := true;
      kernel.Close(Some(devicePin));
      return Success(Unit.Unit);
    }

    /** The second half of `unmount`: the volumes are dismounted and the pin is closed. */
    method TakeExclusively(selected: WorkerDrive, pinnedIdentity: OpenDiskIdentity) returns (result: Result<Unit, HandleError>)
      requires Valid({}) && volumesDismounted && lockedVolumes && !writeMayHaveStarted && kernel.open == {}
      requires openIdentity.None? && pinned == Some(pinnedIdentity)
      requires ParseSelected(selected).Success? && rollbackSnapshot.Some?
      requires Vouched(selected, ParseSelected(selected).value, rollbackSnapshot.value, pinnedIdentity) && PinHeld()
      requires kernel.troubles == 0 ==> pinnedIdentity == kernel.trueIdentity
      modifies this, kernel
      ensures kernel.Only(selected.device)
      ensures result.Failure? ==> kernel.troubles > 0
      ensures Valid({}) && kernel.selfConflicts == old(kernel.selfConflicts)
      ensures writers == old(writers)
      ensures result.Success? ==> preparedTarget.Some? && unmounts == old(unmounts) + 1
      ensures result.Success? ==>
        && PinnedVouched(selected) && kernel.dismounts == old(kernel.dismounts) && PinHeld()
        && pinned == old(pinned) && heldPin == old(heldPin) && kernel.openedUnderLocks
        && kernel.identified == old(kernel.identified) + [(preparedTarget.value, pinnedIdentity)]
      ensures result.Failure? ==>
        && unmounts == old(unmounts)
        && (IsDefault() || (volumesDismounted && !lockedVolumes))
        && !writeMayHaveStarted && kernel.open == {}
    {
      hide ParseSelected, ValidateSnapshot, MatchesSnapshot, Vouched;
      ParsedDevice(selected);
      var prepared := PrepareTarget(ParseSelected(selected).value.device, pinnedIdentity);
      if prepared.Failure? {
        var rolledBack := RollbackUnmount(selected);
        return Failure(if rolledBack.Success? then prepared.error else Platform);
      }
      unmounts := unmounts + 1;
      preparedTarget := Some(prepared.value);
      openIdentity := Some(pinnedIdentity);
      return Success(Unit.Unit);
    }

    /** The prepared handle is taken, once it is identified as the pinned disk again, or closed. */
    method TakePrepared(selected: WorkerDrive) returns (result: Result<Handle, HandleError>)
      requires Valid({})
      modifies this`preparedTarget, kernel`open, kernel`identified, kernel`troubles
      ensures old(kernel.troubles) <= kernel.troubles
      ensures result.Failure? ==> Valid({})
      ensures result.Failure? && kernel.troubles == 0 ==> old(preparedTarget).None? || !Meant(selected)
      ensures result.Success? ==>
        && old(preparedTarget) == Some(result.value) && preparedTarget.None? && openIdentity.Some?
        && kernel.open == old(kernel.open) && kernel.identified == old(kernel.identified) + [(result.value, openIdentity.value)]
    {
      hide ParseSelected, ValidateSnapshot, MatchesSnapshot, Vouched;
      if !volumesDismounted {
        return Failure(UnsafeTarget);
      }
      var identity := ParseSelected(selected);
      if identity.Failure? {
        return Failure(identity.error);
      }
      if preparedTarget.None? {
        return Failure(UnsafeTarget);
      }
      var target := preparedTarget.value;
      preparedTarget := None;
      var current := kernel.Query(target);
      if current.Failure? {
        kernel.Close(Some(target));
        return Failure(current.error);
      }
      if openIdentity != Some(current.value) {
        kernel.Close(Some(target));
        return Failure(TargetChanged);
      }
      return Success(target);
    }

    /** Hands the prepared handle over, with a second handle on the same object as a pin. */
    method OpenTarget(selected: WorkerDrive) returns (result: Result<WindowsTarget, HandleError>)
      requires Valid({})
      modifies this, kernel
      ensures kernel.Only(selected.device)
      ensures result.Failure? && kernel.troubles == 0 ==> old(preparedTarget).None? || !Meant(selected)
      ensures kernel.selfConflicts == old(kernel.selfConflicts) && unmounts == old(unmounts)
      ensures result.Failure? ==> Valid({}) && writers == old(writers) && writeMayHaveStarted == old(writeMayHaveStarted)
      ensures result.Success? ==>
        var target := result.value;
        && fresh(target) && target.kernel == kernel && target.writer.Some?
        && Valid(target.Handles()) && pinned.Some? && target.Valid(pinned.value)
        && writeMayHaveStarted && SameObject(postWritePin, target.writer)
        && old(writers) == 0 && writers == 1
        && kernel.identified == old(kernel.identified) + [(target.writer.value, pinned.value)]
    {
      hide ParseSelected, Vouched;
      var target := TakePrepared(selected);
      if target.Failure? {
        return Failure(target.error);
      }
      var clone := kernel.Clone(target.value);
      if clone.Failure? {
        kernel.Close(Some(target.value));
        return Failure(clone.error);
      }
      postWritePin := Some(clone.value);
      writeMayHaveStarted := true;
      rollbackSnapshot := None;
      writers := writers + 1;
      var handed := new WindowsTarget(kernel, target.value);
      return Success(handed);
    }

    /** The writer is identified as the pinned disk and flushed. */
    method SyncIdentified(selected: WorkerDrive, target: WindowsTarget) returns (result: Result<Unit, HandleError>)
      requires target.kernel == kernel && target.writer.Some?
      requires Valid(target.Handles()) && pinned.Some? && target.Valid(pinned.value)
      modifies kernel`identified, kernel`syncs, kernel`troubles
      ensures old(kernel.troubles) <= kernel.troubles
      ensures result.Failure? && kernel.troubles == 0 ==> !Meant(selected)
      ensures result.Success? ==>
        && ParseSelected(selected).Success? && openIdentity.Some? && kernel.syncs > old(kernel.syncs)
        && kernel.identified == old(kernel.identified) + [(target.writer.value, pinned.value)]
    {
      hide ParseSelected, ValidateSnapshot, MatchesSnapshot, Vouched;
      assert target.writer.value in target.Handles();
      var identity := ParseSelected(selected);
      if identity.Failure? {
        return Failure(identity.error);
      }
      if openIdentity.None? {
        return Failure(UnsafeTarget);
      }
      var current := target.OpenIdentity();
      if current.Failure? {
        return Failure(current.error);
      }
      if current.value != openIdentity.value {
        return Failure(TargetChanged);
      }
      result := target.SyncAll();
    }

    /** Closes every write handle before the zero-share reader is opened, and pins that reader. */
    method PrepareVerification(selected: WorkerDrive, target: WindowsTarget) returns (result: Result<Unit, HandleError>)
      requires target.kernel == kernel && target.writer.Some?
      requires Valid(target.Handles()) && pinned.Some? && target.Valid(pinned.value)
      modifies this, kernel, target
      ensures kernel.Only(selected.device)
      ensures result.Failure? && kernel.troubles == 0 ==> !Meant(selected)
      ensures result.Failure? && target.writer.None? ==> postWritePin.None?
      ensures Valid(target.Handles()) && pinned == old(pinned) && target.Valid(pinned.value)
      ensures kernel.selfConflicts == old(kernel.selfConflicts)
      ensures unmounts == old(unmounts) && writers == old(writers) && writeMayHaveStarted
      ensures result.Success? ==>
        && target.writer.None? && target.verifier.Some? && SameObject(postWritePin, target.verifier)
        && kernel.syncs > old(kernel.syncs)
        && ValidSectorGeometry(pinned.value.size, pinned.value.logicalSectorSize, pinned.value.physicalSectorSize)
        && kernel.identified == old(kernel.identified)
             + [(old(target.writer).value, pinned.value), (target.verifier.value, pinned.value)]
    {
      hide ParseSelected, ValidateSnapshot, MatchesSnapshot, Vouched, ValidSectorGeometry;
      ParsedDevice(selected);
      MeantGeometry(selected);
      var synced := SyncIdentified(selected, target);
      if synced.Failure? {
        return synced;
      }
      kernel.Close(postWritePin);
      postWritePin := None;
      var begun := target.BeginVerification(ParseSelected(selected).value.device, openIdentity.value);
      if begun.Failure? {
        return begun;
      }
      var clone := kernel.Clone(target.verifier.value);
      if clone.Failure? {
        return Failure(clone.error);
      }
      postWritePin := Some(clone.value);
      return Success(Unit.Unit);
    }

    /** Opens the disk exclusively once more, checks and syncs it, and closes it again. */
    method ProveExclusive(device: Text, expected: OpenDiskIdentity)
      returns (result: Result<Unit, HandleError>, ghost held: Option<Handle>)
      requires kernel.open == {}
      modifies kernel
      ensures kernel.Only(device)
      ensures result.Failure? && kernel.troubles == 0 ==> expected != kernel.trueIdentity
      ensures kernel.open == {} && kernel.selfConflicts == old(kernel.selfConflicts) && kernel.locked == old(kernel.locked)
      ensures result.Success? ==>
        && held.Some? && held.value.exclusive && held.value.device == expected.device
        && kernel.openedUnderLocks == kernel.locked
        && kernel.identified == old(kernel.identified) + [(held.value, expected)]
        && kernel.syncs == old(kernel.syncs) + 1
    {
      held := None;
      var proof := kernel.Open(device, true);
      if proof.Failure? {
        return Failure(proof.error), held;
      }
      held := Some(proof.value);
      var proven := kernel.Query(proof.value);
      if proven.Failure? {
        result := Failure(proven.error);
      } else if proven.value != expected {
        result := Failure(TargetChanged);
      } else {
        result := kernel.Sync(proof.value);
      }
      kernel.Close(Some(proof.value));
    }

    /** The target is gone by now: cleanup either rolls back, or proves the disk exclusively its own. */
    method Eject(selected: WorkerDrive) returns (result: Result<Unit, HandleError>)
      requires Valid({})
      modifies this, kernel
      ensures kernel.Only(selected.device)
      ensures result.Failure? && kernel.troubles == 0 ==>
        !Meant(selected) || (old(writeMayHaveStarted) && old(postWritePin).None?)
      ensures Valid({}) && kernel.selfConflicts == old(kernel.selfConflicts)
      ensures unmounts == old(unmounts) && writers == old(writers)
      ensures writeMayHaveStarted == old(writeMayHaveStarted)
      ensures result.Success? ==> kernel.open == {} && !lockedVolumes
      ensures result.Success? && !old(writeMayHaveStarted) ==> IsDefault()
      ensures result.Success? && old(writeMayHaveStarted) ==>
        && old(PinAndLocks()) && ProvedUnderLocks(old(postWritePin).value, old(openIdentity).value, old(kernel.identified))
        && kernel.syncs == old(kernel.syncs) + 1
      ensures old(IsDefault()) ==> result.Success?
      ensures old(writeMayHaveStarted) && old(postWritePin).None? ==> result.Failure?
    {
      hide ParseSelected, Vouched;
      if volumesDismounted && !writeMayHaveStarted {
        result := RollbackUnmount(selected);
        return;
      }
      if !volumesDismounted && !writeMayHaveStarted {
        return Success(Unit.Unit);
      }
      kernel.Close(preparedTarget);
      preparedTarget := None;
      result := CleanUpAfterWrite(selected);
    }

    ghost predicate PinAndLocks()
      reads this, kernel
    {
      postWritePin.Some? && openIdentity.Some? && lockedVolumes && kernel.locked
    }

    /**
     Since `before`, the pin was found to be on the expected disk, and then the disk was held
     exclusively and identified once more, with the volume locks still held.
     */
    ghost predicate ProvedUnderLocks(pin: Handle, expected: OpenDiskIdentity, before: seq<(Handle, OpenDiskIdentity)>)
      reads this, kernel
    {
      && proved.Some? && proved.value.exclusive && proved.value.device == expected.device
      && kernel.openedUnderLocks
      && kernel.identified == before + [(pin, expected), (proved.value, expected)]
    }

    /** Closes the pin once it was found to be on the disk that was pinned before the dismount. */
    method DropCheckedPin(selected: WorkerDrive) returns (result: Result<Unit, HandleError>)
      requires Valid({}) && writeMayHaveStarted
      modifies this`postWritePin, kernel`open, kernel`identified, kernel`troubles
      ensures old(kernel.troubles) <= kernel.troubles
      ensures result.Failure? && kernel.troubles == 0 ==> !Meant(selected) || old(postWritePin).None?
      ensures Valid({})
      ensures result.Success? ==>
        && ParseSelected(selected).Success? && old(PinAndLocks()) && postWritePin.None? && kernel.open == {}
        && kernel.identified == old(kernel.identified) + [(old(postWritePin).value, openIdentity.value)]
    {
      hide ParseSelected, ValidateSnapshot, MatchesSnapshot, Vouched;
      var identity := ParseSelected(selected);
      if identity.Failure? {
        return Failure(identity.error);
      }
      if openIdentity.None? || postWritePin.None? {
        return Failure(UnsafeTarget);
      }
      var current := kernel.Query(postWritePin.value);
      if current.Failure? {
        return Failure(current.error);
      }
      if current.value != openIdentity.value {
        return Failure(TargetChanged);
      }
      kernel.Close(postWritePin);
      postWritePin := None;
      return Success(Unit.Unit);
    }

    /** The second half of `eject`: a write may have started, and only the pin is left. */
    method CleanUpAfterWrite(selected: WorkerDrive) returns (result: Result<Unit, HandleError>)
      requires Valid({}) && writeMayHaveStarted
      modifies this, kernel
      ensures kernel.Only(selected.device)
      ensures result.Failure? && kernel.troubles == 0 ==> !Meant(selected) || old(postWritePin).None?
      ensures Valid({}) && kernel.selfConflicts == old(kernel.selfConflicts)
      ensures unmounts == old(unmounts) && writers == old(writers) && writeMayHaveStarted
      ensures result.Success? ==>
        && kernel.open == {} && !lockedVolumes
        && old(PinAndLocks()) && ProvedUnderLocks(old(postWritePin).value, old(openIdentity).value, old(kernel.identified))
        && kernel.syncs == old(kernel.syncs) + 1
    {
      hide ParseSelected, ValidateSnapshot, MatchesSnapshot, Vouched;
      ParsedDevice(selected);
      var dropped := DropCheckedPin(selected);
      if dropped.Failure? {
        return dropped;
      }
      if !lockedVolumes {
        return Failure(UnsafeTarget);
      }
      var proof: Result<Unit, HandleError>;
      ghost var held;
      proof, held := ProveExclusive(ParseSelected(selected).value.device, openIdentity.value);
      if proof.Failure? {
        return proof;
      }
      proved := held;
      kernel.ReleaseVolumes();
      lockedVolumes := false;
      volumesDismounted := true;
      writeMayHaveStarted := true;
      return Success(Unit.Unit);
    }
  }
}
