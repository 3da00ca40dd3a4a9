/**
 The Linux device graph check (src/worker/linux.rs): the whole disk, its partitions and every
 device held on top of them, against the mount table and the list of active swap sources.
 */
module HolderGraph {
  import opened Common

  datatype Device = Device(major: nat, minor: nat)

  datatype GraphError = TargetMissing | Platform | UnsafeTarget

  // One reading of a `dev` file or of a directory.
  type Reading<T> = Result<T, GraphError>

  /** An entry of the disk's sysfs directory; only partitions have a device number of interest. */
  datatype Entry = Unreadable | NotPartition | Partition(dev: Reading<Device>)

  /**
   What sysfs answers. A device missing from `holders` has no holders directory; the graph may be
   cyclic and may be unreadable anywhere.
   */
  datatype Sysfs = Sysfs(
    whole: Reading<Device>,
    entries: Reading<seq<Entry>>,
    holders: map<Device, Reading<seq<Reading<Device>>>>)

  // ---------------------------------------------------------------- reference: reachability

  ghost predicate Root(sys: Sysfs, d: Device)
  {
    || sys.whole == Success(d)
    || (sys.entries.Success? && Partition(Success(d)) in sys.entries.value)
  }

  ghost predicate Holds(sys: Sysfs, d: Device, holder: Device)
  {
    d in sys.holders && sys.holders[d].Success? && Success(holder) in sys.holders[d].value
  }

  ghost predicate IsPath(sys: Sysfs, path: seq<Device>)
  {
    && path != [] && Root(sys, path[0])
    && forall i :: 0 <= i < |path| - 1 ==> Holds(sys, path[i], path[i + 1])
  }

  ghost predicate Reachable(sys: Sysfs, d: Device)
  {
    exists path :: IsPath(sys, path) && path[|path| - 1] == d
  }

  /** Everything the traversal has to read can be read. */
  ghost predicate Readable(sys: Sysfs)
  {
    && sys.whole.Success?
    && sys.entries.Success?
    && (forall e :: e in sys.entries.value ==> ReadableEntry(e))
    && (forall d :: Reachable(sys, d) ==> ReadableHolders(sys, d))
  }

  predicate ReadableEntry(e: Entry)
  {
    e.NotPartition? || (e.Partition? && e.dev.Success?)
  }

  ghost predicate ReadableHolders(sys: Sysfs, d: Device)
  {
    d in sys.holders ==>
      && sys.holders[d].Success?
      && forall h :: h in sys.holders[d].value ==> h.Success?
  }

  lemma RootReachable(sys: Sysfs, d: Device)
    requires Root(sys, d)
    ensures Reachable(sys, d)
  {
    assert IsPath(sys, [d]);
  }

  lemma HolderReachable(sys: Sysfs, d: Device, holder: Device)
    requires Reachable(sys, d) && Holds(sys, d, holder)
    ensures Reachable(sys, holder)
  {
    var path :| IsPath(sys, path) && path[|path| - 1] == d;
    assert IsPath(sys, path + [holder]);
  }

  lemma {:induction false} ClosedContainsPath(sys: Sysfs, devices: set<Device>, path: seq<Device>)
    requires forall d :: Root(sys, d) ==> d in devices
    requires forall d, h :: d in devices && Holds(sys, d, h) ==> h in devices
    requires IsPath(sys, path)
    ensures path[|path| - 1] in devices
    decreases |path|
  {
    if |path| > 1 {
      ClosedContainsPath(sys, devices, path[..|path| - 1]);
      assert Holds(sys, path[|path| - 2], path[|path| - 1]);
    }
  }

  // ---------------------------------------------------------------- the traversal

  ghost function Universe(sys: Sysfs): (u: set<Device>)
    ensures forall d, h :: Holds(sys, d, h) ==> h in u
  {
    set d, h | d in sys.holders && sys.holders[d].Success? && h in sys.holders[d].value && h.Success? :: h.value
  }

  method CollectRoots(sys: Sysfs) returns (result: Reading<set<Device>>)
    ensures result.Success? <==>
      sys.whole.Success? && sys.entries.Success? && forall e :: e in sys.entries.value ==> ReadableEntry(e)
    ensures result.Success? ==> forall d :: d in result.value <==> Root(sys, d)
  {
    if sys.whole.Failure? {
      return Failure(sys.whole.error);
    }
    var devices := {sys.whole.value};
    if sys.entries.Failure? {
      return Failure(sys.entries.error);
    }
    var entries := sys.entries.value;
    for i := 0 to |entries|
      invariant sys.entries == Success(entries)
      invariant forall e :: e in entries[..i] ==> ReadableEntry(e)
      invariant forall d :: d in devices <==> d == sys.whole.value || Partition(Success(d)) in entries[..i]
    {
      assert entries[i] in entries;
      match entries[i] {
        case Unreadable => return Failure(Platform);
        case NotPartition =>
        case Partition(dev) =>
          if dev.Failure? {
            return Failure(dev.error);
          }
          devices := devices + {dev.value};
      }
    }
    assert entries[..|entries|] == entries;
    return Success(devices);
  }

  method Listed(devices: set<Device>) returns (pending: seq<Device>)
    ensures forall d :: d in pending <==> d in devices
  {
    pending := [];
    var rest := devices;
    while rest != {}
      invariant rest <= devices
      invariant forall d :: d in pending <==> d in devices - rest
    {
      var d :| d in rest;
      rest := rest - {d};
      pending := pending + [d];
    }
  }

  /** What the worklist has established: `pending` is exactly what is still to be expanded. */
  ghost predicate Expanding(sys: Sysfs, devices: set<Device>, pending: seq<Device>)
  {
    && (forall d :: Root(sys, d) ==> d in devices)
    && (forall d :: d in devices ==> Reachable(sys, d))
    && (forall d :: d in pending ==> d in devices)
    && (forall d :: d in devices && d !in pending ==> Expanded(sys, devices, d))
  }

  ghost predicate Expanded(sys: Sysfs, devices: set<Device>, d: Device)
  {
    ReadableHolders(sys, d) && forall h :: Holds(sys, d, h) ==> h in devices
  }

  /**
   Terminates on every finite graph and returns exactly the reachable devices; it fails exactly
   when something it has to read is unreadable.
   */
  method CollectRelatedDeviceNumbers(sys: Sysfs) returns (result: Reading<set<Device>>)
    ensures result.Success? <==> Readable(sys)
    ensures result.Success? ==> forall d :: d in result.value <==> Reachable(sys, d)
  {
    var roots := CollectRoots(sys);
    if roots.Failure? {
      return roots;
    }
    hide Reachable, Root;
    var devices := roots.value;
    var pending := Listed(devices);
    WorklistStarts(sys, devices, pending);
    while pending != []
      invariant Expanding(sys, devices, pending)
      decreases Universe(sys) - devices, |pending|
    {
      var device := pending[|pending| - 1];
      ghost var popped := pending;
      pending := pending[..|pending| - 1];
      assert forall d :: d in popped <==> d in pending || d == device;
      if device !in sys.holders {
        continue;
      }
      var listing := sys.holders[device];
      assert !listing.Failure? || !ReadableHolders(sys, device);
      assert Reachable(sys, device);
      if listing.Failure? {
        return Failure(listing.error);
      }
      var more := AddHolders(sys, device, listing.value, devices, pending);
      if more.Failure? {
        return Failure(more.error);
      }
      devices, pending := more.value.0, more.value.1;
    }
    WorklistEnds(sys, devices);
    return Success(devices);
  }

  lemma WorklistStarts(sys: Sysfs, devices: set<Device>, pending: seq<Device>)
    requires forall d :: d in devices <==> Root(sys, d)
    requires forall d :: d in devices <==> d in pending
    ensures Expanding(sys, devices, pending)
  {
    forall d | d in devices
      ensures Reachable(sys, d)
    {
      RootReachable(sys, d);
    }
  }

  /** With nothing left to expand, the devices are exactly the reachable ones, and all were readable. */
  lemma WorklistEnds(sys: Sysfs, devices: set<Device>)
    requires Expanding(sys, devices, [])
    ensures forall d :: d in devices <==> Reachable(sys, d)
    ensures forall d :: Reachable(sys, d) ==> ReadableHolders(sys, d)
  {
    forall d | Reachable(sys, d)
      ensures d in devices && ReadableHolders(sys, d)
    {
      var path :| IsPath(sys, path) && path[|path| - 1] == d;
      assert forall e, h :: e in devices && Holds(sys, e, h) ==> Expanded(sys, devices, e);
      ClosedContainsPath(sys, devices, path);
      assert Expanded(sys, devices, d);
    }
  }

  lemma PushHolder(sys: Sysfs, devices: set<Device>, pending: seq<Device>, device: Device, holder: Device)
    requires Expanding(sys, devices, pending + [device]) && Reachable(sys, holder)
    ensures Expanding(sys, devices + {holder}, pending + [holder] + [device])
  {
    var devices', pending' := devices + {holder}, pending + [holder] + [device];
    assert forall d :: d in pending' <==> d in pending + [device] || d == holder;
    forall d | d in devices' && d !in pending'
      ensures Expanded(sys, devices', d)
    {
      assert Expanded(sys, devices, d);
    }
  }

  /** The inner loop: one device's holders. */
  method AddHolders(sys: Sysfs, ghost device: Device, listing: seq<Reading<Device>>, before: set<Device>, stack: seq<Device>)
    returns (result: Reading<(set<Device>, seq<Device>)>)
    requires device in sys.holders && sys.holders[device] == Success(listing)
    requires device in before && Expanding(sys, before, stack + [device])
    ensures result.Failure? ==> !ReadableHolders(sys, device)
    ensures result.Success? ==>
      var (devices, pending) := result.value;
      && Expanding(sys, devices, pending)
      && before <= devices && devices <= before + Universe(sys)
      && (devices == before ==> pending == stack)
  {
    hide Reachable, Root;
    var devices, pending := before, stack;
    for i := 0 to |listing|
      invariant before <= devices <= before + Universe(sys)
      invariant devices == before ==> pending == stack
      invariant Expanding(sys, devices, pending + [device])
      invariant forall h :: h in listing[..i] ==> h.Success? && h.value in devices
    {
      if listing[i].Failure? {
        assert listing[i] in listing;
        return Failure(listing[i].error);
      }
      var holder := listing[i].value;
      assert Success(holder) in listing;
      assert Holds(sys, device, holder);
      HolderReachable(sys, device, holder);
      if holder !in devices {
        PushHolder(sys, devices, pending, device, holder);
        devices := devices + {holder};
        pending := pending + [holder];
      }
    }
    assert listing[..|listing|] == listing;
    assert Expanded(sys, devices, device) by {
      hide Expanding;
    }
    assert forall d :: d in pending + [device] <==> d in pending || d == device;
    return Success((devices, pending));
  }

  // ---------------------------------------------------------------- mounts and swap

  // An absolute path by its components.
  type Components = seq<string>

  datatype Mount = Mount(device: Device, path: Components)

  datatype SwapSource = Uninspectable | BlockDevice(device: Device) | SwapFile(device: Device) | OtherSource

  const REMOVABLE_ROOTS: seq<Components> := [["media"], ["mnt"], ["run", "media"]]

  /** Mounted anywhere but at or below a removable-media root. */
  predicate ProtectedMountPoint(path: Components)
  {
    !exists i :: 0 <= i < |REMOVABLE_ROOTS| && REMOVABLE_ROOTS[i] <= path
  }

  /** Said of the components: `/media`, `/mnt`, `/run/media` or anything below one of them. */
  ghost predicate OnRemovableMedia(path: Components)
  {
    || (|path| >= 1 && (path[0] == "media" || path[0] == "mnt"))
    || (|path| >= 2 && path[0] == "run" && path[1] == "media")
  }

  /** In particular the root file system and `/run` itself are protected, and a card's automatic mounts are not. */
  lemma ProtectedExactly(path: Components)
    ensures ProtectedMountPoint(path) <==> !OnRemovableMedia(path)
    ensures ProtectedMountPoint([]) && ProtectedMountPoint(["run"])
    ensures ProtectedMountPoint(["boot"] + path) && ProtectedMountPoint(["run", "user"] + path)
    ensures !ProtectedMountPoint(["media"] + path) && !ProtectedMountPoint(["mnt"] + path)
    ensures !ProtectedMountPoint(["run", "media"] + path)
  {
    ProtectedByComponents(path);
    ProtectedByComponents([]);
    ProtectedByComponents(["run"]);
    ProtectedByComponents(["boot"] + path);
    ProtectedByComponents(["run", "user"] + path);
    ProtectedByComponents(["media"] + path);
    ProtectedByComponents(["mnt"] + path);
    ProtectedByComponents(["run", "media"] + path);
  }

  lemma ProtectedByComponents(path: Components)
    ensures ProtectedMountPoint(path) <==> !OnRemovableMedia(path)
  {
    var roots := REMOVABLE_ROOTS;
    assert |roots| == 3 && roots[0] == ["media"] && roots[1] == ["mnt"] && roots[2] == ["run", "media"];
    assert ProtectedMountPoint(path) <==> !(roots[0] <= path || roots[1] <= path || roots[2] <= path);
  }

  method RejectProtectedMounts(mounts: seq<Mount>, devices: set<Device>) returns (result: Reading<Unit>)
    ensures result.Success? <==> forall m :: m in mounts && m.device in devices ==> OnRemovableMedia(m.path)
    ensures result.Failure? ==> result.error == UnsafeTarget
  {
    hide ProtectedMountPoint, OnRemovableMedia;
    for i := 0 to |mounts|
      invariant forall m :: m in mounts[..i] && m.device in devices ==> OnRemovableMedia(m.path)
    {
      var mount := mounts[i];
      ProtectedByComponents(mount.path);
      if mount.device in devices && ProtectedMountPoint(mount.path) {
        assert mount in mounts;
        return Failure(UnsafeTarget);
      }
    }
    return Success(Unit.Unit);
  }

  predicate SwapAllowed(source: SwapSource, devices: set<Device>)
  {
    match source
    case Uninspectable => false
    case BlockDevice(device) => device !in devices
    case SwapFile(device) => device !in devices
    case OtherSource => true
  }

  method RejectRelatedSwap(swaps: seq<SwapSource>, devices: set<Device>) returns (result: Reading<Unit>)
    ensures result.Success? <==> forall s :: s in swaps ==> SwapAllowed(s, devices)
  {
    for i := 0 to |swaps|
      invariant forall s :: s in swaps[..i] ==> SwapAllowed(s, devices)
    {
      assert swaps[i] in swaps;
      var sourceDevice: Option<Device>;
      match swaps[i] {
        case Uninspectable => return Failure(Platform);
        case BlockDevice(device) => sourceDevice := Some(device);
        case SwapFile(device) => sourceDevice := Some(device);
        case OtherSource => sourceDevice := None;
      }
      if sourceDevice.Some? && sourceDevice.value in devices {
        return Failure(UnsafeTarget);
      }
    }
    return Success(Unit.Unit);
  }

  /**
   The three checks together: a disk is accepted exactly when its graph is readable, nothing
   reachable from it is mounted outside `/media`, `/mnt` and `/run/media`, every active swap source
   can be inspected and none lies on a reachable device.
   */
  method ValidateRelatedDevices(sys: Sysfs, mounts: seq<Mount>, swaps: seq<SwapSource>)
    returns (result: Reading<set<Device>>)
    ensures result.Success? <==>
      && Readable(sys)
      && (forall m :: m in mounts && Reachable(sys, m.device) ==> OnRemovableMedia(m.path))
      && (forall s :: s in swaps ==> s != Uninspectable)
      && (forall d :: Reachable(sys, d) ==> BlockDevice(d) !in swaps && SwapFile(d) !in swaps)
    ensures result.Success? ==> forall d :: d in result.value <==> Reachable(sys, d)
  {
    result := CollectRelatedDeviceNumbers(sys);
    if result.Failure? {
      return;
    }
    var mountCheck := RejectProtectedMounts(mounts, result.value);
    if mountCheck.Failure? {
      return Failure(mountCheck.error);
    }
    var swapCheck := RejectRelatedSwap(swaps, result.value);
    if swapCheck.Failure? {
      return Failure(swapCheck.error);
    }
  }
}
