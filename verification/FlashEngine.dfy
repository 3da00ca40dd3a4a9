/**
 The write and verify engine (`write_raw_from_with_prepare` in src/flash.rs) with the signals and the
 progress callback the worker runs it with (src/worker.rs).
 */
module FlashEngine {
  import opened Common
  import opened WorkerWorld

  const BUFFER_SIZE: nat := MEBIBYTE

  class WorkerSignals {
    var cancelled: bool
    var skipVerification: bool
    const cancelPath: Option<Path>
    const skipVerificationPath: Option<Path>

    constructor (cancelPath: Option<Path>, skipVerificationPath: Option<Path>)
      ensures !cancelled && !skipVerification
      ensures this.cancelPath == cancelPath && this.skipVerificationPath == skipVerificationPath
    {
      cancelled, skipVerification := false, false;
      this.cancelPath, this.skipVerificationPath := cancelPath, skipVerificationPath;
    }

    /**
     Verification is only ever skipped because the marker asked for it, and at most one read of the
     target started after that marker appeared.
     */
    predicate SkipHonored(b: State)
      reads this`skipVerification
    {
      && (skipVerification ==> Raised(b, skipVerificationPath))
      && (skipVerificationPath == Some(b.control.skipVerification) ==>
            b.readback.unwanted == 0 || (b.readback.unwanted == 1 && SkipTouched(b)))
    }

    /** No read has started too late, or a flag that stops the next one is up. */
    predicate MayRead(b: State)
      reads this`cancelled, this`skipVerification
    {
      skipVerificationPath == Some(b.control.skipVerification) && b.readback.unwanted > 0 ==> cancelled || skipVerification
    }

    method RequestCancel()
      modifies this`cancelled
      ensures cancelled
    {
      cancelled := true;
    }

    method CheckCancelled() returns (result: Result<Unit, WorkerError>)
      ensures result == if cancelled then Failure(Verdict(RunCancelled)) else Success(Unit.Unit)
    {
      return if cancelled then Failure(Verdict(RunCancelled)) else Success(Unit.Unit);
    }

    /** Flags only rise; a cancel marker that was already there is never missed. */
    method Refresh(w: World) returns (result: Result<Unit, WorkerError>)
      modifies this`cancelled, this`skipVerification, w
      ensures Quiet(old(w.s), w.s)
      ensures old(cancelled) ==> cancelled
      ensures Raised(old(w.s), cancelPath) && result.Success? ==> cancelled
      ensures cancelled && !old(cancelled) ==> Raised(w.s, cancelPath)
      ensures old(skipVerification) ==> skipVerification
      ensures Raised(old(w.s), skipVerificationPath) && result.Success? ==> skipVerification
      ensures old(SkipHonored(w.s)) ==> SkipHonored(w.s)
      ensures result.Failure? ==> result.error == WorkerError(Marker, ErrorKind.Platform) && result.error in w.s.faults
    {
      var cancels := w.MarkerExists(cancelPath);
      if cancels.Failure? {
        return Failure(cancels.error);
      }
      if cancels.value {
        cancelled := true;
      }
      var skips := w.MarkerExists(skipVerificationPath);
      if skips.Failure? {
        return Failure(skips.error);
      }
      if skips.value {
        skipVerification := true;
      }
      return Success(Unit.Unit);
    }

    method IsCancelled(w: World) returns (result: Result<bool, WorkerError>)
      modifies this`cancelled, this`skipVerification, w
      ensures Quiet(old(w.s), w.s)
      ensures old(cancelled) ==> cancelled
      ensures result.Success? ==> result.value == cancelled
      ensures Raised(old(w.s), cancelPath) && result.Success? ==> cancelled
      ensures cancelled && !old(cancelled) ==> Raised(w.s, cancelPath)
      ensures old(SkipHonored(w.s)) ==> SkipHonored(w.s)
      ensures result.Failure? ==> result.error == WorkerError(Marker, ErrorKind.Platform) && result.error in w.s.faults
    {
      var refreshed := Refresh(w);
      if refreshed.Failure? {
        return Failure(refreshed.error);
      }
      return Success(cancelled);
    }
  }

  /** The closure the worker passes as progress callback: it keeps the first error. */
  class FlashCallback {
    var error: Option<WorkerError>

    constructor ()
      ensures error == None
    {
      error := None;
    }

    method OnProgress(e: Event, w: World, signals: WorkerSignals)
      modifies this, w, signals`cancelled, signals`skipVerification
      ensures Reported(old(w.s), w.s, e, signals.cancelPath, old(signals.cancelled), signals.cancelled, old(error), error)
      ensures Raised(old(w.s), signals.cancelPath) ==> signals.cancelled || old(error).Some?
      ensures Raised(old(w.s), signals.skipVerificationPath) ==>
        signals.cancelled || signals.skipVerification || old(error).Some?
      ensures old(signals.SkipHonored(w.s)) ==> signals.SkipHonored(w.s)
    {
      if error.Some? {
        return;
      }
      var refreshed := signals.Refresh(w);
      if refreshed.Failure? {
        signals.RequestCancel();
        error := Some(refreshed.error);
        return;
      }
      var emitted := w.Emit(e);
      if emitted.Failure? {
        signals.RequestCancel();
        error := Some(emitted.error);
      }
    }
  }

  // ---------------------------------------------------------------- what the engine keeps

  /** The target stays open, nothing is out of order, and what was unmounted stays so. */
  predicate Orderly(a: State, b: State)
  {
    var before, after := Scan(a.log), Scan(b.log);
    && after.open == before.open && after.detached == before.detached && after.safe == before.safe
    && after.mistaken == before.mistaken && after.aim == before.aim && after.wish == before.wish
    && b.control == a.control && b.source == a.source
  }

  /** The run has reacted in time to every cancel marker so far. */
  predicate OnTime(b: State, cancelPath: Option<Path>)
  {
    Tracked(b, cancelPath) ==> Reacted(b.late) && (b.late != [] ==> CancelTouched(b))
  }

  /** `action` may start even if the marker has appeared, or the flag that prevents it is up. */
  predicate MayStart(b: State, cancelPath: Option<Path>, cancelled: bool, action: Action)
  {
    Tracked(b, cancelPath) ==> cancelled || MayFollow(b.late, action)
  }

  lemma LateKeeps(a: State, b: State, action: Action, cancelPath: Option<Path>)
    requires OnTime(a, cancelPath) && LateStep(a, b, action) && a.files <= b.files && b.control == a.control
    requires Finishing(action) || MayStart(a, cancelPath, false, action)
    ensures OnTime(b, cancelPath)
  {
    if b.late != a.late {
      assert forall i :: 0 <= i < |a.late| ==> b.late[i] == a.late[i];
    }
  }

  predicate OpenStage(stage: Stage)
  {
    stage == Reselected || stage.Writing? || stage.Verifying?
  }

  function StageAfter(written: nat, total: nat): Stage
  {
    if written == 0 then Reselected else Writing(written, total)
  }

  /** The device holds the first `written` staged bytes and is otherwise as it was. */
  predicate Holds(a: State, b: State, staged: seq<byte>, written: nat)
  {
    && written <= |staged| && written <= |b.device|
    && SameOutside(a.device, b.device, 0, |staged|)
    && b.device[..written] == staged[..written]
  }

  predicate CallbackError(error: WorkerError)
  {
    error.origin == Sink || error == WorkerError(Marker, ErrorKind.Platform)
  }

  predicate Terminal(e: Event)
  {
    e.phase == CompletedPhase || e.phase == CancelledPhase || e.phase == FailedPhase
  }

  /** A run that stops for the sink stops for the one event the sink refused, and no other refuses one. */
  predicate RefusalOf(error: WorkerError, b: State)
  {
    if error.origin == Sink then
      && |b.refused| == 1 && b.refused[0].error == error
      && b.refused[0].event.phase != FailedPhase && b.refused[0].event.phase != CancelledPhase
    else b.refused == []
  }

  /** An error that neither the worker nor the sink gave is one that an operation gave. */
  predicate Grounded(error: WorkerError, b: State)
  {
    error.origin != Worker && error.origin != Sink ==> error in b.faults
  }

  predicate EngineInv(a: State, b: State, cancelPath: Option<Path>, cancelled: bool, error: Option<WorkerError>)
  {
    && Orderly(a, b)
    && OnTime(b, cancelPath)
    && OpenStage(Trace(b.events))
    && (error.None? ==> b.refused == [])
    && (error.Some? ==> cancelled && CallbackError(error.value) && RefusalOf(error.value, b) && Grounded(error.value, b))
    && (cancelled && error.None? ==> Raised(b, cancelPath))
  }

  /** What one call of the progress callback can have done. */
  ghost predicate Reported(
    before: State, after: State, e: Event, cancelPath: Option<Path>, cancelledBefore: bool, cancelled: bool,
    errorBefore: Option<WorkerError>, error: Option<WorkerError>)
  {
    && (cancelledBefore ==> cancelled)
    && (errorBefore.Some? ==> error == errorBefore && after == before && cancelled == cancelledBefore)
    && (errorBefore.None? && error.Some? ==>
          && cancelled && CallbackError(error.value)
          && if error.value.origin == Sink then Refused(before, after, e, error.value)
             else Quiet(before, after) && error.value in after.faults)
    && (error.None? ==> Emitted(before, after, e))
    && (error.None? && cancelled && !cancelledBefore ==> Raised(after, cancelPath))
  }

  lemma ReportedKeeps(
    a: State, before: State, after: State, e: Event, cancelPath: Option<Path>, cancelledBefore: bool, cancelled: bool,
    errorBefore: Option<WorkerError>, error: Option<WorkerError>)
    requires EngineInv(a, before, cancelPath, cancelledBefore, errorBefore)
    requires Reported(before, after, e, cancelPath, cancelledBefore, cancelled, errorBefore, error)
    requires errorBefore.None? ==> OpenStage(Follow(Trace(before.events), e))
    requires !Terminal(e)
    ensures EngineInv(a, after, cancelPath, cancelled, error)
    ensures after.log == before.log && after.device == before.device && after.position == before.position
    ensures after.readback == before.readback && after.late == before.late
    ensures before.files <= after.files && after.control == before.control
    ensures error.None? ==> Trace(after.events) == Follow(Trace(before.events), e)
  {
    hide Scan, Trace, Follow;
  }

  lemma QuietKeeps(a: State, before: State, after: State, cancelPath: Option<Path>, cancelled: bool, error: Option<WorkerError>)
    requires EngineInv(a, before, cancelPath, cancelled, error)
    requires Quiet(before.(position := after.position), after)
    ensures EngineInv(a, after, cancelPath, cancelled, error)
    ensures after.log == before.log && after.events == before.events && after.device == before.device
    ensures after.readback == before.readback && after.late == before.late && before.files <= after.files
    ensures after.control == before.control
  {
    hide Scan, Trace;
  }

  /** Raising the barrier leaves everything but the log alone. */
  lemma BarrierKeeps(
    a: State, before: State, after: State, drive: WorkerDrive, ok: bool, cancelPath: Option<Path>, cancelled: bool, error: Option<WorkerError>)
    requires Scan(before.log).aim == Only(drive)
    requires EngineInv(a, before, cancelPath, cancelled, error)
    requires Writable(before) && MayStart(before, cancelPath, false, PrepareReadback(drive, ok))
    requires Acted(before, after, PrepareReadback(drive, ok))
    ensures EngineInv(a, after, cancelPath, cancelled, error)
    ensures Scan(after.log).open && Scan(after.log).barrier == ok && after.events == before.events
    ensures after.device == before.device && after.readback == before.readback
    ensures before.files <= after.files && after.control == before.control
    ensures MayStart(after, cancelPath, false, Readback)
  {
    hide Scan, Trace;
    LateKeeps(before, after, PrepareReadback(drive, ok), cancelPath);
  }

  /** Reading back leaves everything but the log, the position and the readback alone. */
  lemma ReadKeeps(a: State, before: State, after: State, cancelPath: Option<Path>, cancelled: bool, error: Option<WorkerError>)
    requires EngineInv(a, before, cancelPath, cancelled, error)
    requires Scan(before.log).open && Scan(before.log).barrier && MayStart(before, cancelPath, false, Readback)
    requires Acted(before.(readback := after.readback, position := after.position), after, Readback)
    ensures EngineInv(a, after, cancelPath, cancelled, error)
    ensures Scan(after.log).open && Scan(after.log).barrier && after.events == before.events
    ensures after.device == before.device && before.files <= after.files && after.control == before.control
    ensures Tracked(after, cancelPath) && after.late != [] ==> Raised(after, cancelPath)
  {
    hide Scan, Trace;
    LateKeeps(before, after, Readback, cancelPath);
  }

  /**
   Who the engine's errors come from: only a raised flag makes the engine itself report a cancel, and
   whatever is not its own verdict is what an operation gave.
   */
  predicate EngineError(error: FlashError, cancelled: bool, b: State)
  {
    && error.origin in {Worker, ImageFile, TargetIo, Barrier}
    && (error.kind == FlashCancelled ==> error.origin == Barrier || cancelled)
    && Grounded(FromFlash(error), b)
  }

  /** What was read back is not what was written: a read came back empty, or all of it has another digest. */
  predicate ReadbackWrong(sha: seq<byte> -> Digest, count: nat, digest: Digest, r: Recovered)
  {
    r.dry || (ReadThrough(r, count) && sha(r.bytes) != digest)
  }

  /** When the engine's own verdicts, other than a cancel, are true. */
  predicate VerdictHolds(error: FlashError, tooSmall: bool, wrong: bool)
  {
    error.origin == Worker ==>
      match error.kind
      case TargetTooSmall => tooSmall
      case Verification => wrong
      case FlashCancelled => true
      case _ => false
  }

  /** The target is open and its barrier has not been asked for. */
  predicate Writable(b: State)
  {
    Scan(b.log).open && !Scan(b.log).asked
  }

  method WriteAndReport(
    w: World, chunk: seq<byte>, staged: seq<byte>, written: nat, ghost a: State, signals: WorkerSignals, callback: FlashCallback)
    returns (result: Result<Unit, FlashError>)
    requires 0 < |chunk| <= BUFFER_SIZE && written + |chunk| <= |staged| && chunk == staged[written..written + |chunk|]
    requires !signals.cancelled && callback.error.None? && Writable(w.s)
    requires EngineInv(a, w.s, signals.cancelPath, false, None) && MayStart(w.s, signals.cancelPath, false, Write)
    requires Holds(a, w.s, staged, written) && w.s.position == written && Trace(w.s.events) == StageAfter(written, |staged|)
    requires signals.SkipHonored(w.s)
    modifies w, signals`cancelled, signals`skipVerification, callback
    ensures signals.SkipHonored(w.s)
    ensures EngineInv(a, w.s, signals.cancelPath, signals.cancelled, callback.error)
    ensures SameOutside(a.device, w.s.device, 0, |staged|) && w.s.readback == old(w.s.readback)
    ensures Writable(w.s)
    ensures result.Failure? ==> result.error == FlashError(TargetIo, Io) && Grounded(FromFlash(result.error), w.s)
    ensures result.Success? ==>
      && MayStart(w.s, signals.cancelPath, signals.cancelled, Write)
      && Holds(a, w.s, staged, written + |chunk|) && w.s.position == written + |chunk|
      && (callback.error.None? ==> Trace(w.s.events) == StageAfter(written + |chunk|, |staged|))
  {
    hide Scan, Trace, Reported, EngineInv;
    ghost var cancelPath := signals.cancelPath;
    ghost var before := w.s;
    result := w.WriteAll(chunk);
    WroteChunk(a, before, w.s, staged, written, chunk);
    WriteKeeps(a, before, w.s, cancelPath);
    if result.Failure? {
      return;
    }
    before := w.s;
    var e := ByteEvent(WritingPhase, written + |chunk|, |staged|);
    callback.OnProgress(e, w, signals);
    ReportedKeeps(a, before, w.s, e, cancelPath, false, signals.cancelled, None, callback.error);
  }

  /** A write leaves everything but the device, the position and the log alone. */
  lemma WriteKeeps(a: State, before: State, after: State, cancelPath: Option<Path>)
    requires EngineInv(a, before, cancelPath, false, None) && Writable(before) && MayStart(before, cancelPath, false, Write)
    requires Acted(before.(position := after.position, device := after.device), after, Write)
    ensures EngineInv(a, after, cancelPath, false, None) && Writable(after)
    ensures after.events == before.events && after.readback == before.readback
    ensures before.files <= after.files && after.control == before.control
    ensures Tracked(after, cancelPath) && after.late != [] ==> Raised(after, cancelPath)
  {
    hide Scan, Trace;
    LateKeeps(before, after, Write, cancelPath);
  }

  lemma WroteChunk(a: State, before: State, after: State, staged: seq<byte>, written: nat, chunk: seq<byte>)
    requires Holds(a, before, staged, written) && written + |chunk| <= |staged| && chunk == staged[written..written + |chunk|]
    requires SameOutside(before.device, after.device, written, written + |chunk|)
    ensures SameOutside(a.device, after.device, 0, |staged|)
    ensures written + |chunk| <= |after.device| && after.device[written..written + |chunk|] == chunk ==>
      Holds(a, after, staged, written + |chunk|)
  {
    assert after.device[..written] == before.device[..written];
    if written + |chunk| <= |after.device| && after.device[written..written + |chunk|] == chunk {
      assert after.device[..written + |chunk|] == after.device[..written] + after.device[written..written + |chunk|];
      assert staged[..written + |chunk|] == staged[..written] + chunk;
    }
  }

  /** The write loop: on success the whole staged image is on the device. */
  method WriteLoop(w: World, staged: seq<byte>, ghost a: State, signals: WorkerSignals, callback: FlashCallback)
    returns (result: Result<Digest, FlashError>)
    requires callback.error.None? && Writable(w.s)
    requires EngineInv(a, w.s, signals.cancelPath, signals.cancelled, None)
    requires MayStart(w.s, signals.cancelPath, signals.cancelled, Write)
    requires Holds(a, w.s, staged, 0) && w.s.position == 0 && Trace(w.s.events) == Reselected
    requires signals.SkipHonored(w.s)
    modifies w, signals`cancelled, signals`skipVerification, callback
    ensures signals.SkipHonored(w.s)
    ensures EngineInv(a, w.s, signals.cancelPath, signals.cancelled, callback.error)
    ensures SameOutside(a.device, w.s.device, 0, |staged|) && w.s.readback == old(w.s.readback)
    ensures Writable(w.s) && Scan(w.s.log).aim == Scan(a.log).aim
    ensures result.Failure? ==>
      EngineError(result.error, signals.cancelled, w.s) && VerdictHolds(result.error, false, false)
    ensures result.Success? ==>
      && result.value == w.sha(staged) && Holds(a, w.s, staged, |staged|)
      && callback.error.None? && Trace(w.s.events) == StageAfter(|staged|, |staged|)
      && forall drive, ok :: MayStart(w.s, signals.cancelPath, false, PrepareReadback(drive, ok))
  {
    hide Scan, Trace;
    var hashed: seq<byte> := [];
    var written := 0;
    while true
      invariant written <= |staged| && hashed == staged[..written]
      invariant EngineInv(a, w.s, signals.cancelPath, signals.cancelled, callback.error)
      invariant MayStart(w.s, signals.cancelPath, signals.cancelled, Write) && signals.SkipHonored(w.s)
      invariant Writable(w.s) && w.s.readback == old(w.s.readback)
      invariant Holds(a, w.s, staged, written) && w.s.position == written
      invariant callback.error.None? ==> Trace(w.s.events) == StageAfter(written, |staged|)
      decreases |staged| - written
    {
      if signals.cancelled {
        return Failure(FlashError(Worker, FlashCancelled));
      }
      var chunk := w.ReadStaged(staged, written, BUFFER_SIZE);
      if chunk.Failure? {
        return Failure(chunk.error);
      }
      if chunk.value == [] {
        break;
      }
      var wrote := WriteAndReport(w, chunk.value, staged, written, a, signals, callback);
      if wrote.Failure? {
        return Failure(wrote.error);
      }
      hashed := hashed + chunk.value;
      written := written + |chunk.value|;
    }
    assert staged[..|staged|] == staged;
    var flushed := w.Flush();
    if flushed.Failure? {
      return Failure(flushed.error);
    }
    return Success(w.sha(hashed));
  }

  /** How far the trace is once `read` of `written` bytes were read back. */
  function ReadStage(written: nat, read: nat): Stage
  {
    if read == 0 then StageAfter(written, written) else Verifying(written, read)
  }

  predicate ReadStageOf(stage: Stage, written: nat)
  {
    || stage == StageAfter(written, written)
    || (stage.Verifying? && stage.written == written)
  }

  /** One read of the target, which goes on exactly where the last one ended. */
  method ReadAndReport(
    w: World, written: nat, read: nat, ghost a: State, signals: WorkerSignals, callback: FlashCallback)
    returns (result: Result<seq<byte>, FlashError>)
    requires read < written && Scan(w.s.log).open && Scan(w.s.log).barrier
    requires !signals.cancelled && !signals.skipVerification
    requires EngineInv(a, w.s, signals.cancelPath, signals.cancelled, callback.error)
    requires MayStart(w.s, signals.cancelPath, false, Readback) && signals.MayRead(w.s)
    requires callback.error.None? ==> Trace(w.s.events) == ReadStage(written, read)
    requires ReadThrough(w.s.readback, read) && w.s.position == read
    requires signals.SkipHonored(w.s)
    modifies w, signals`cancelled, signals`skipVerification, callback
    ensures signals.SkipHonored(w.s)
    ensures EngineInv(a, w.s, signals.cancelPath, signals.cancelled, callback.error)
    ensures Scan(w.s.log).open && Scan(w.s.log).barrier && w.s.device == old(w.s.device)
    ensures result.Failure? ==>
      EngineError(result.error, signals.cancelled, w.s) && VerdictHolds(result.error, false, w.s.readback.dry)
    ensures result.Success? ==>
      && 0 < |result.value| <= written - read
      && w.s.readback.bytes == old(w.s.readback.bytes) + result.value
      && ReadThrough(w.s.readback, read + |result.value|) && w.s.position == read + |result.value|
      && MayStart(w.s, signals.cancelPath, signals.cancelled, Readback) && signals.MayRead(w.s)
      && (callback.error.None? ==> Trace(w.s.events) == Verifying(written, read + |result.value|))
  {
    hide Scan, Trace, EngineInv, Reported, Acted, Span;
    ghost var cancelPath, cancelled, error := signals.cancelPath, signals.cancelled, callback.error;
    assert error.None? by { NotCancelledMeansNoError(a, w.s, cancelPath, error); }
    ghost var before := w.s;
    result := w.ReadTarget(Min(written - read, BUFFER_SIZE));
    ReadKeeps(a, before, w.s, cancelPath, cancelled, error);
    if result.Failure? {
      return;
    }
    SpanGrows(0, read, |result.value|);
    if result.value == [] {
      return Failure(FlashError(Worker, Verification));
    }
    before := w.s;
    var e := ByteEvent(VerifyingPhase, read + |result.value|, written);
    callback.OnProgress(e, w, signals);
    ReportedKeeps(a, before, w.s, e, cancelPath, cancelled, signals.cancelled, error, callback.error);
  }

  lemma NotCancelledMeansNoError(a: State, b: State, cancelPath: Option<Path>, error: Option<WorkerError>)
    requires EngineInv(a, b, cancelPath, false, error)
    ensures error.None?
  {
    hide Scan, Trace;
  }

  /**
   The readback loop: a success means that the first `written` bytes of the target were read in
   order, after the barrier and with no write in between, and have the digest of what was written.
   */
  method ReadbackLoop(
    w: World, written: nat, digest: Digest, ghost a: State, signals: WorkerSignals, callback: FlashCallback)
    returns (result: Result<bool, FlashError>)
    requires Scan(w.s.log).open && Scan(w.s.log).barrier
    requires EngineInv(a, w.s, signals.cancelPath, signals.cancelled, callback.error)
    requires MayStart(w.s, signals.cancelPath, signals.cancelled, Readback)
    requires callback.error.None? ==> Trace(w.s.events) == ReadStage(written, 0)
    requires w.s.readback == NOTHING_READ && w.s.position == 0
    requires signals.SkipHonored(w.s)
    modifies w, signals`cancelled, signals`skipVerification, callback
    ensures signals.SkipHonored(w.s)
    ensures EngineInv(a, w.s, signals.cancelPath, signals.cancelled, callback.error)
    ensures w.s.device == old(w.s.device)
    ensures result.Failure? ==>
      && EngineError(result.error, signals.cancelled, w.s)
      && VerdictHolds(result.error, false, ReadbackWrong(w.sha, written, digest, w.s.readback))
    ensures result.Success? && callback.error.None? ==> ReadStageOf(Trace(w.s.events), written)
    ensures result == Success(false) ==> signals.skipVerification
    ensures written > 0 && old(signals.cancelled) ==>
      result == Failure(FlashError(Worker, FlashCancelled)) && w.s == old(w.s)
    ensures written > 0 && !old(signals.cancelled) && old(signals.skipVerification) ==>
      result == Success(false) && w.s == old(w.s)
    ensures result == Success(true) ==>
      && ReadThrough(w.s.readback, written) && w.sha(w.s.readback.bytes) == digest && Scan(w.s.log).barrier
      && (callback.error.None? ==> Trace(w.s.events) == ReadStage(written, written))
  {
    hide Scan, Trace, EngineInv, Span;
    var hashed: seq<byte> := [];
    var read := 0;
    assert ReadThrough(w.s.readback, 0) by { NothingReadThrough(); }
    while read < written
      invariant read <= written && hashed == w.s.readback.bytes
      invariant if read > 0 then !old(signals.cancelled) && !old(signals.skipVerification)
        else
          && w.s == old(w.s)
          && signals.cancelled == old(signals.cancelled) && signals.skipVerification == old(signals.skipVerification)
      invariant EngineInv(a, w.s, signals.cancelPath, signals.cancelled, callback.error)
      invariant MayStart(w.s, signals.cancelPath, signals.cancelled, Readback) && signals.MayRead(w.s)
      invariant Scan(w.s.log).open && Scan(w.s.log).barrier && signals.SkipHonored(w.s)
      invariant ReadThrough(w.s.readback, read) && w.s.position == read && w.s.device == old(w.s.device)
      invariant callback.error.None? ==> Trace(w.s.events) == ReadStage(written, read)
    {
      if signals.cancelled {
        return Failure(FlashError(Worker, FlashCancelled));
      }
      if signals.skipVerification {
        return Success(false);
      }
      var bytes := ReadAndReport(w, written, read, a, signals, callback);
      if bytes.Failure? {
        return Failure(bytes.error);
      }
      hashed := hashed + bytes.value;
      read := read + |bytes.value|;
    }
    if w.sha(hashed) != digest {
      return Failure(FlashError(Worker, Verification));
    }
    return Success(true);
  }

  lemma NothingReadThrough()
    ensures ReadThrough(NOTHING_READ, 0)
  {
  }

  /**
   Verification, when it is wanted: raise the barrier, rewind, then read everything back. The answer
   tells whether the target is verified.
   */
  method Verify(
    w: World, written: nat, digest: Digest, verify: bool, drive: WorkerDrive, ghost a: State,
    signals: WorkerSignals, callback: FlashCallback)
    returns (result: Result<bool, FlashError>)
    requires Writable(w.s) && w.s.readback == NOTHING_READ && Scan(w.s.log).aim == Only(drive)
    requires EngineInv(a, w.s, signals.cancelPath, signals.cancelled, callback.error)
    requires forall ok :: MayStart(w.s, signals.cancelPath, false, PrepareReadback(drive, ok))
    requires callback.error.None? ==> Trace(w.s.events) == StageAfter(written, written)
    requires signals.SkipHonored(w.s)
    modifies w, signals`cancelled, signals`skipVerification, callback
    ensures signals.SkipHonored(w.s)
    ensures EngineInv(a, w.s, signals.cancelPath, signals.cancelled, callback.error)
    ensures w.s.device == old(w.s.device)
    ensures result.Failure? ==>
      && EngineError(result.error, signals.cancelled, w.s)
      && VerdictHolds(result.error, false, ReadbackWrong(w.sha, written, digest, w.s.readback))
    ensures result.Success? && callback.error.None? ==> ReadStageOf(Trace(w.s.events), written)
    ensures result == Success(false) ==> !verify || signals.skipVerification
    ensures !verify || old(signals.skipVerification) ==> result == Success(false) && w.s == old(w.s)
    ensures result == Success(true) ==>
      && verify && Scan(w.s.log).barrier
      && ReadThrough(w.s.readback, written) && w.sha(w.s.readback.bytes) == digest
      && (callback.error.None? ==> Trace(w.s.events) == ReadStage(written, written))
  {
    hide Scan, Trace, EngineInv, Acted, Quiet, StageAfter, Span;
    ghost var cancelPath := signals.cancelPath;
    assert callback.error.None? ==> Trace(w.s.events) == ReadStage(written, 0);
    if !verify || signals.skipVerification {
      return Success(false);
    }
    ghost var before := w.s;
    var prepared := w.PrepareVerification(drive);
    BarrierKeeps(a, before, w.s, drive, prepared.Success?, cancelPath, signals.cancelled, callback.error);
    if prepared.Failure? {
      return Failure(prepared.error);
    }
    if signals.cancelled {
      return Failure(FlashError(Worker, FlashCancelled));
    }
    if signals.skipVerification {
      return Success(false);
    }
    before := w.s;
    var rewound := w.Rewind();
    QuietKeeps(a, before, w.s, cancelPath, signals.cancelled, callback.error);
    if rewound.Failure? {
      return Failure(rewound.error);
    }
    result := ReadbackLoop(w, written, digest, a, signals, callback);
  }

  lemma EngineStarts(a: State, cancelPath: Option<Path>, cancelled: bool)
    requires OnTime(a, cancelPath) && a.refused == []
    requires cancelled ==> Raised(a, cancelPath)
    requires Trace(a.events) == Reselected
    ensures EngineInv(a, a, cancelPath, cancelled, None)
  {
    hide Scan, Trace;
  }

  /**
   The whole engine. Whatever happens, only the image's own range of the device changes and the
   target is left open. A success has the staged bytes on the device, and `verified` means that the
   barrier succeeded after the last write and the whole range, read in order from its start, then had
   the same digest.
   */
  method WriteRawWithPrepare(
    w: World, staged: seq<byte>, capacity: nat, verify: bool, drive: WorkerDrive, signals: WorkerSignals, callback: FlashCallback)
    returns (result: Result<FlashReport, FlashError>)
    requires callback.error.None? && Writable(w.s) && Scan(w.s.log).aim == Only(drive)
    requires OnTime(w.s, signals.cancelPath) && MayStart(w.s, signals.cancelPath, signals.cancelled, Write)
    requires signals.cancelled ==> Raised(w.s, signals.cancelPath)
    requires Trace(w.s.events) == Reselected && w.s.refused == [] && w.s.readback == NOTHING_READ
    requires signals.SkipHonored(w.s)
    modifies w, signals`cancelled, signals`skipVerification, callback
    ensures signals.SkipHonored(w.s)
    ensures EngineInv(old(w.s), w.s, signals.cancelPath, signals.cancelled, callback.error)
    ensures SameOutside(old(w.s.device), w.s.device, 0, |staged|)
    ensures result.Failure? ==>
      && EngineError(result.error, signals.cancelled, w.s)
      && VerdictHolds(result.error, |staged| > capacity, ReadbackWrong(w.sha, |staged|, w.sha(staged), w.s.readback))
    ensures result.Success? ==>
      && result.value.bytesWritten == |staged| <= capacity && result.value.rawSha256 == w.sha(staged)
      && |staged| <= |w.s.device| && w.s.device[..|staged|] == staged
    ensures result.Success? && result.value.verified ==>
      && verify && Scan(w.s.log).barrier
      && ReadThrough(w.s.readback, |staged|) && w.sha(w.s.readback.bytes) == w.sha(staged)
    ensures result.Success? && !result.value.verified ==> !verify || signals.skipVerification
    ensures result.Success? && callback.error.None? && staged != [] ==>
      var stage := Trace(w.s.events);
      && (stage == Writing(|staged|, |staged|) || (stage.Verifying? && stage.written == |staged|))
      && (result.value.verified ==> stage == Verifying(|staged|, |staged|))
  {
    hide Scan, Trace, EngineInv, Span;
    ghost var a := w.s;
    ghost var cancelPath := signals.cancelPath;
    EngineStarts(a, cancelPath, signals.cancelled);
    ghost var before := w.s;
    var metadata := w.ImageOperation();
    QuietKeeps(a, before, w.s, cancelPath, signals.cancelled, None);
    if metadata.Failure? {
      return Failure(metadata.error);
    }
    if |staged| > capacity {
      return Failure(FlashError(Worker, TargetTooSmall));
    }
    before := w.s;
    var sought := w.ImageOperation();
    QuietKeeps(a, before, w.s, cancelPath, signals.cancelled, None);
    if sought.Failure? {
      return Failure(sought.error);
    }
    before := w.s;
    var rewound := w.Rewind();
    QuietKeeps(a, before, w.s, cancelPath, signals.cancelled, None);
    if rewound.Failure? {
      return Failure(rewound.error);
    }
    var digest := WriteLoop(w, staged, a, signals, callback);
    if digest.Failure? {
      return Failure(digest.error);
    }
    var verified := Verify(w, |staged|, digest.value, verify, drive, a, signals, callback);
    if verified.Failure? {
      return Failure(verified.error);
    }
    return Success(FlashReport(|staged|, digest.value, verified.value));
  }
}
