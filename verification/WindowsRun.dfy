/**
 The Windows platform under the worker: every log of target actions the worker can produce
 (`WorkerRun`, where such a log is `safe`) replayed on the platform and its handles
 (`WindowsHandles`).
 */
module WindowsRun {
  import opened Common
  import opened WindowsHandles
  import DiskIdentity
  import W = WorkerWorld

  /** Which device a write or readback went to, and which one was pinned before the dismount. */
  datatype Use = Use(device: Device, pinned: Device)

  /** The platform and the live target, if the log has one, as far as the log has come. */
  ghost predicate Live(platform: WindowsPlatform, target: Option<WindowsTarget>, m: W.Monitor)
    reads platform, platform.kernel, if target.Some? then {target.value} else {}
  {
    match target
    case None => !m.open && platform.Valid({})
    case Some(t) =>
      && m.open && t.kernel == platform.kernel
      && platform.Valid(t.Handles()) && platform.pinned.Some? && t.Valid(platform.pinned.value)
      && (!m.asked ==> t.writer.Some?)
      && (m.barrier ==> m.asked && t.verifier.Some?)
  }

  lemma {:induction false} PrefixSafe(log: seq<W.Action>, k: nat)
    requires W.Scan(log).safe && k < |log|
    ensures W.Scan(log[..k + 1]).safe
    ensures W.Scan(log[..k + 1]) == W.Advance(W.Scan(log[..k]), log[k])
    decreases |log|
  {
    hide W.Advance;
    var next := log[..k + 1];
    assert next[..|next| - 1] == log[..k];
    if k + 1 < |log| {
      var before := log[..|log| - 1];
      PrefixSafe(before, k);
      assert before[..k + 1] == next;
    } else {
      assert next == log;
    }
  }

  /** The platform says of it whether it succeeded, and may say otherwise than the log. */
  predicate Answered(action: W.Action)
  {
    action.Unmount? || action.Open? || action.PrepareReadback? || action.Sync? || action.Eject?
  }

  function Transfers(log: seq<W.Action>): nat
  {
    if log == [] then 0
    else Transfers(log[..|log| - 1]) + if log[|log| - 1].Write? || log[|log| - 1].Readback? then 1 else 0
  }

  /**
   One action of the log; `agreed` tells whether the platform answered as the log has it. A write
   goes through the pinned device's writer, a readback through its cache-bypassing reader.
   */
  method ReplayAction(
    platform: WindowsPlatform, target: Option<WindowsTarget>, action: W.Action, ghost m: W.Monitor)
    returns (agreed: bool, next: Option<WindowsTarget>, ghost used: Option<Use>)
    requires Live(platform, target, m) && W.Advance(m, action).safe
    modifies platform, platform.kernel, if target.Some? then {target.value} else {}
    ensures platform.kernel.selfConflicts == old(platform.kernel.selfConflicts)
    ensures forall name :: name in platform.kernel.named && name !in old(platform.kernel.named) ==>
      W.Targeted(action) && name == action.drive.device
    ensures next == target || next == None || fresh(next.value)
    ensures agreed ==> Live(platform, next, W.Advance(m, action))
    ensures platform.writers <= 1
    ensures agreed && action.Eject? && action.ok ==> platform.kernel.open == {} && !platform.lockedVolumes
    ensures used.Some? ==> used.value.device == used.value.pinned
    ensures action.Write? || action.Readback? <==> used.Some?
    ensures Answered(action) || agreed
    ensures action.Unmount? ==> (agreed <==> (action.ok <==> platform.unmounts == old(platform.unmounts) + 1))
    ensures action.Open? ==> (agreed <==> (action.ok <==> platform.writers == old(platform.writers) + 1))
  {
    hide DiskIdentity.ParseSelected, WindowsPlatform.Vouched;
    used, next := None, target;
    match action
    case Vet(_) | Inspect(_, _) =>
      return true, next, used;
    case Unmount(_, _) =>
      agreed := ReplayWithoutTarget(platform, action, m);
    case Eject(_, _) =>
      agreed := ReplayWithoutTarget(platform, action, m);
    case Open(selected, _, ok) =>
      var result := platform.OpenTarget(selected);
      if result.Success? {
        next := Some(result.value);
      }
      return result.Success? == ok, next, used;
    case _ =>
      agreed, used := ReplayOnTarget(platform, target.value, action, m);
      if action.Close? {
        next := None;
      }
  }

  /** The calls that come before the target is opened, or after it is gone. */
  method ReplayWithoutTarget(platform: WindowsPlatform, action: W.Action, ghost m: W.Monitor) returns (agreed: bool)
    requires Live(platform, None, m) && W.Advance(m, action).safe && (action.Unmount? || action.Eject?)
    modifies platform, platform.kernel
    ensures platform.kernel.selfConflicts == old(platform.kernel.selfConflicts)
    ensures platform.kernel.Only(action.drive.device) && platform.writers <= 1
    ensures agreed ==> Live(platform, None, W.Advance(m, action))
    ensures action.Unmount? ==> (agreed <==> (action.ok <==> platform.unmounts == old(platform.unmounts) + 1))
    ensures agreed && action.Eject? && action.ok ==> platform.kernel.open == {} && !platform.lockedVolumes
  {
    hide DiskIdentity.ParseSelected, WindowsPlatform.Vouched;
    if action.Unmount? {
      var result := platform.Unmount(action.drive);
      agreed := result.Success? == action.ok;
    } else {
      var result := platform.Eject(action.drive);
      agreed := result.Success? == action.ok;
    }
  }

  /** What is done with the open target. */
  method ReplayOnTarget(platform: WindowsPlatform, target: WindowsTarget, action: W.Action, ghost m: W.Monitor)
    returns (agreed: bool, ghost used: Option<Use>)
    requires Live(platform, Some(target), m) && W.Advance(m, action).safe
    requires action.Write? || action.Sync? || action.PrepareReadback? || action.Readback? || action.Close?
    modifies platform, platform.kernel, target
    ensures platform.kernel.selfConflicts == old(platform.kernel.selfConflicts) && platform.writers <= 1
    ensures forall name :: name in platform.kernel.named && name !in old(platform.kernel.named) ==>
      action.PrepareReadback? && name == action.drive.device
    ensures agreed ==> Live(platform, if action.Close? then None else Some(target), W.Advance(m, action))
    ensures used.Some? ==> used.value.device == used.value.pinned
    ensures action.Write? || action.Readback? <==> used.Some?
    ensures Answered(action) || agreed
    ensures action.PrepareReadback? ==>
      (agreed <==> (action.ok <==> target.writer.None? && platform.postWritePin.Some?))
  {
    hide DiskIdentity.ParseSelected, WindowsPlatform.Vouched;
    used := None;
    match action
    case Write =>
      var through := target.WriteHandle();
      assert through.value in target.Handles();
      used := Some(Use(through.value.device, platform.pinned.value.device));
      return true, used;
    case Sync(ok) =>
      var result := target.SyncAll();
      return result.Success? == ok, used;
    case PrepareReadback(selected, ok) =>
      var result := platform.PrepareVerification(selected, target);
      return result.Success? == ok, used;
    case Readback =>
      var from := target.ReadHandle();
      assert from.value in target.Handles();
      used := Some(Use(from.value.device, platform.pinned.value.device));
      return true, used;
    case Close =>
      target.Drop();
      return true, used;
  }

  /** Some call of the log named this device. */
  ghost predicate Named(log: seq<W.Action>, name: DiskIdentity.Text)
  {
    exists i :: 0 <= i < |log| && W.Targeted(log[i]) && log[i].drive.device == name
  }

  /**
   Replays a log until the platform answers differently from it. No exclusive open ever meets a
   handle of this process, no device is named that the log does not name, every write and readback
   goes to the device that was pinned before the dismount, at most one writer is handed out, and a
   successful eject leaves no handle.
   */
  method ReplayWorker(platform: WindowsPlatform, log: seq<W.Action>)
    returns (agreed: bool, ghost used: seq<Use>)
    requires platform.Valid({}) && platform.IsDefault()
    requires W.Scan(log).safe
    modifies platform, platform.kernel
    ensures platform.kernel.selfConflicts == old(platform.kernel.selfConflicts)
    ensures platform.writers <= 1
    ensures forall name :: name in platform.kernel.named && name !in old(platform.kernel.named) ==> Named(log, name)
    ensures forall use :: use in used ==> use.device == use.pinned
    ensures agreed ==> |used| == Transfers(log)
    ensures !agreed ==> exists i :: 0 <= i < |log| && Answered(log[i])
    ensures agreed && !W.Scan(log).open ==> platform.Valid({})
    ensures agreed && log != [] && log[|log| - 1].Eject? && log[|log| - 1].ok ==>
      platform.kernel.open == {} && !platform.lockedVolumes
  {
    hide W.Scan;
    used := [];
    var target: Option<WindowsTarget> := None;
    assert log[..0] == [];
    assert W.Scan(log[..0]) == W.CALM by { EmptyLog(); }
    for i := 0 to |log|
      invariant target.Some? ==> fresh(target.value)
      invariant Live(platform, target, W.Scan(log[..i])) && platform.writers <= 1
      invariant i > 0 && log[i - 1].Eject? && log[i - 1].ok ==> platform.kernel.open == {} && !platform.lockedVolumes
      invariant platform.kernel.selfConflicts == old(platform.kernel.selfConflicts)
      invariant forall use :: use in used ==> use.device == use.pinned
      invariant |used| == Transfers(log[..i])
      invariant forall name :: name in platform.kernel.named && name !in old(platform.kernel.named) ==> Named(log, name)
    {
      PrefixSafe(log, i);
      assert log[..i + 1][..i] == log[..i];
      ghost var use;
      agreed, target, use := ReplayAction(platform, target, log[i], W.Scan(log[..i]));
      if use.Some? {
        used := used + [use.value];
      }
      if !agreed {
        return;
      }
    }
    assert log[..|log|] == log;
    agreed := true;
  }

  lemma EmptyLog()
    ensures W.Scan([]) == W.CALM
  {
  }

  /**
   The calls of a run in which nothing goes wrong, verified or not. If no operation fails and every
   answer is about the selected disk, all of them succeed, although the disk is opened exclusively up
   to three times: no handle of this process is ever in the way. A done run has identified the disk through
   every handle it had, two more of them to verify.
   */
  method CleanRun(platform: WindowsPlatform, selected: DiskIdentity.WorkerDrive, verify: bool) returns (done: bool)
    requires platform.Valid({}) && platform.IsDefault()
    modifies platform, platform.kernel
    ensures platform.kernel.selfConflicts == old(platform.kernel.selfConflicts)
    ensures platform.kernel.troubles == 0 && platform.Meant(selected) ==> done
    ensures done ==> platform.kernel.open == {} && !platform.lockedVolumes && platform.writers == 1
    ensures done ==> |platform.kernel.identified| == |old(platform.kernel.identified)| + if verify then 7 else 5
  {
    var unmounted := platform.Unmount(selected);
    if unmounted.Failure? {
      return false;
    }
    var target := platform.OpenTarget(selected);
    if target.Failure? {
      return false;
    }
    assert target.value.writer.value in target.value.Handles();
    if verify {
      var prepared := platform.PrepareVerification(selected, target.value);
      if prepared.Failure? {
        return false;
      }
    }
    done := Finish(platform, selected, target.value);
  }

  /** The end of such a run. */
  method Finish(platform: WindowsPlatform, selected: DiskIdentity.WorkerDrive, target: WindowsTarget) returns (done: bool)
    requires target.kernel == platform.kernel && platform.Valid(target.Handles()) && target.Handles() != {}
    requires platform.pinned.Some? && target.Valid(platform.pinned.value) && platform.postWritePin.Some?
    modifies platform, platform.kernel, target
    ensures platform.kernel.selfConflicts == old(platform.kernel.selfConflicts) && platform.writers == old(platform.writers)
    ensures platform.kernel.troubles == 0 && platform.Meant(selected) ==> done
    ensures done ==> platform.kernel.open == {} && !platform.lockedVolumes
    ensures done ==> |platform.kernel.identified| == |old(platform.kernel.identified)| + 2
  {
    assert target.writer.Some? ==> target.writer.value in target.Handles();
    var synced := target.SyncAll();
    if synced.Failure? {
      return false;
    }
    target.Drop();
    var ejected := platform.Eject(selected);
    return ejected.Success?;
  }
}
