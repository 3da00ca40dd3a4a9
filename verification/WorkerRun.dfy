/**
 The isolated worker's run (src/worker.rs): validate the job, stage the image privately, select and
 unmount the target, write and verify it, then sync, close and eject it.
 */
module WorkerRun {
  import opened Common
  import opened WorkerWorld
  import opened FlashEngine

  const JOB_SCHEMA_VERSION: nat := 1
  const STAGING_BUFFER_SIZE: nat := MEBIBYTE

  // ---------------------------------------------------------------- digests and jobs

  predicate IsHexDigit(c: char)
  {
    '0' <= c <= '9' || 'a' <= c <= 'f' || 'A' <= c <= 'F'
  }

  predicate ValidSha256(value: string)
  {
    |value| == 64 && forall i :: 0 <= i < |value| ==> IsHexDigit(value[i])
  }

  predicate JobAccepted(validDrive: WorkerDrive -> bool, job: Job)
  {
    && job.schemaVersion == JOB_SCHEMA_VERSION
    && validDrive(job.drive)
    && ValidSha256(job.expectedRawSha256)
    && 0 < job.rawSize <= job.drive.capacity
  }

  method ValidateJob(w: World, job: Job) returns (result: Result<Unit, WorkerError>)
    modifies w
    ensures Quiet(old(w.s), w.s)
    ensures result.Success? ==> JobAccepted(w.validDrive, job)
    ensures result.Failure? ==> result.error.kind == InvalidJob && result.error.origin in {Worker, ImageFile} && Grounded(result.error, w.s)
    ensures !JobAccepted(w.validDrive, job) <==> result == Failure(Verdict(InvalidJob))
  {
    if job.schemaVersion != JOB_SCHEMA_VERSION || !w.validDrive(job.drive) || !ValidSha256(job.expectedRawSha256) {
      return Failure(Verdict(InvalidJob));
    }
    if job.rawSize == 0 || job.rawSize > job.drive.capacity {
      return Failure(Verdict(InvalidJob));
    }
    result := w.CheckJobFiles(job);
  }

  method CompareDrive(selected: WorkerDrive, current: WorkerDrive) returns (result: Result<Unit, WorkerError>)
    ensures result.Success? <==> selected == current
    ensures result.Failure? ==> result.error == Verdict(TargetChanged)
  {
    return if selected == current then Success(Unit.Unit) else Failure(Verdict(TargetChanged));
  }

  // ---------------------------------------------------------------- what every failure keeps

  /**
   The returned error is the one the run stopped for: its origin is the operation under way when the
   trace stopped. A cleanup step is never that operation: while a cleanup sync or eject runs, the
   trace has stopped at some earlier operation, and a second eject is `EjectingAgain`.
   */
  predicate Primary(error: WorkerError, stage: Stage)
  {
    && Running(stage)
    && match error.origin
       case StagedImageCheck => stage.Imaging?
       case TargetCheck => stage == Selected || stage == Reselected
       case Unmounting => stage == Detaching
       case Opening => stage == Reselected
       case TargetIo | Barrier => OpenStage(stage)
       case Syncing => stage.Flushing?
       case Ejecting => stage.Releasing?
       case EjectingAgain => false
       case Worker | ImageFile | Marker | Sink => true
  }

  /**
   A cancel is reported only when the marker asked for it, and as nothing else: unless a platform or
   sink itself returns a flash cancel, no run fails with one.
   */
  predicate Honest(error: WorkerError, b: State, cancelPath: Option<Path>)
  {
    && (error == Verdict(RunCancelled) ==> Raised(b, cancelPath))
    && (error.kind == Flash(FlashCancelled) ==>
      error.origin in {Sink, StagedImageCheck, TargetCheck, Unmounting, Opening, Barrier, Ejecting})
  }

  predicate Blamed(error: WorkerError, b: State, cancelPath: Option<Path>)
  {
    && Primary(error, Trace(b.events)) && Honest(error, b, cancelPath)
    && RefusalOf(error, b) && Grounded(error, b)
  }

  /**
   Nothing was done to the target yet, and the flags of the run follow its markers: only time has
   passed, events were emitted and checks were made.
   */
  ghost predicate Prelude(a: State, b: State, signals: WorkerSignals)
    reads signals
  {
    && Quiet(a.(events := b.events, refused := b.refused, log := b.log, late := b.late, source := b.source), b)
    && OnlyChecked(Scan(a.log), Scan(b.log))
    && (signals.cancelled ==> Raised(b, signals.cancelPath))
    && signals.SkipHonored(b)
    && OnTime(b, signals.cancelPath)
  }

  /** Checks change nothing but what they are about. */
  predicate OnlyChecked(m: Monitor, n: Monitor)
  {
    n == m.(vetted := n.vetted, confirmed := n.confirmed, mistaken := n.mistaken, aim := n.aim)
  }

  function Checked(m: Monitor, action: Action): Monitor
    requires action.Vet? || action.Inspect?
  {
    match action
    case Vet(ok) => m.(vetted := ok)
    case Inspect(drive, _) =>
      m.(confirmed := Confirms(action), mistaken := m.mistaken || Mistakes(action), aim := Choose(m.aim, drive))
  }

  lemma CheckEffect(m: Monitor, action: Action)
    requires action.Vet? || action.Inspect?
    ensures Advance(m, action) == Checked(m, action)
  {
    hide Confirms, Choose;
  }

  lemma CheckedOnly(a: Monitor, m: Monitor, action: Action)
    requires OnlyChecked(a, m) && (action.Vet? || action.Inspect?)
    ensures OnlyChecked(a, Checked(m, action))
  {
    hide Confirms, Mistakes, Choose;
  }

  lemma QuietPrelude(a: State, before: State, after: State, signals: WorkerSignals)
    requires Prelude(a, before, signals) && Quiet(before, after)
    ensures Prelude(a, after, signals) && after.events == before.events && after.log == before.log
    ensures after.late == before.late && after.refused == before.refused
    ensures after.control == before.control && before.files <= after.files && before.faults <= after.faults
    ensures after.source == before.source
  {
    hide Scan;
  }

  lemma CheckPrelude(a: State, before: State, after: State, action: Action, signals: WorkerSignals)
    requires Prelude(a, before, signals) && Acted(before, after, action) && (action.Vet? || action.Inspect?)
    requires Tracked(before, signals.cancelPath) ==> before.late == []
    ensures Prelude(a, after, signals) && after.events == before.events && after.refused == before.refused
    ensures after.control == before.control && before.files <= after.files && after.source == before.source
    ensures Tracked(after, signals.cancelPath) ==> after.late == [] || after.late == [action]
    ensures Scan(after.log) == Checked(Scan(before.log), action)
  {
    hide Scan, Advance, Checked, OnlyChecked;
    CheckEffect(Scan(before.log), action);
    CheckedOnly(Scan(a.log), Scan(before.log), action);
    LateKeeps(before, after, action, signals.cancelPath);
  }

  lemma PlainFailure(error: WorkerError, b: State, cancelPath: Option<Path>)
    requires Running(Trace(b.events)) && error.origin in {Worker, ImageFile, Marker} && b.refused == []
    requires error != Verdict(RunCancelled) && error.kind != Flash(FlashCancelled) && Grounded(error, b)
    ensures Blamed(error, b, cancelPath)
  {
    hide Trace;
  }

  /** What is recorded of markers and of the image file only grows. */
  predicate Unchanged(a: State, b: State)
  {
    b.control == a.control && a.files <= b.files && a.faults <= b.faults && b.source == a.source
  }

  predicate NothingLate(b: State, cancelPath: Option<Path>)
  {
    Tracked(b, cancelPath) ==> b.late == []
  }

  /** `signals.refresh()?; signals.check_cancelled()?` */
  method Checkpoint(w: World, signals: WorkerSignals, ghost a: State) returns (result: Result<Unit, WorkerError>)
    requires Prelude(a, w.s, signals) && Running(Trace(w.s.events)) && w.s.refused == []
    modifies w, signals`cancelled, signals`skipVerification
    ensures Prelude(a, w.s, signals) && w.s.events == old(w.s.events) && w.s.log == old(w.s.log)
    ensures w.s.late == old(w.s.late) && w.s.refused == [] && Unchanged(old(w.s), w.s)
    ensures result.Success? ==> !Raised(old(w.s), signals.cancelPath) && NothingLate(w.s, signals.cancelPath)
    ensures result.Failure? ==>
      && (result.error.origin == Marker || result.error == Verdict(RunCancelled))
      && Blamed(result.error, w.s, signals.cancelPath)
  {
    hide Trace, Scan;
    var refreshed := signals.Refresh(w);
    if refreshed.Failure? {
      return Failure(refreshed.error);
    }
    result := signals.CheckCancelled();
  }

  /** `progress.emit(&event)?` */
  method Announce(w: World, e: Event, signals: WorkerSignals, ghost a: State) returns (result: Result<Unit, WorkerError>)
    requires Prelude(a, w.s, signals) && Running(Trace(w.s.events)) && w.s.refused == [] && !Terminal(e)
    modifies w
    ensures Prelude(a, w.s, signals) && w.s.log == old(w.s.log) && w.s.late == old(w.s.late) && Unchanged(old(w.s), w.s)
    ensures result.Success? ==> w.s.refused == [] && Trace(w.s.events) == Follow(Trace(old(w.s.events)), e)
    ensures result.Failure? ==>
      result.error.origin == Sink && w.s.events == old(w.s.events) && Blamed(result.error, w.s, signals.cancelPath)
  {
    hide Trace, Scan, Follow;
    result := w.Emit(e);
  }

  // ---------------------------------------------------------------- staging

  predicate Matches(sha: seq<byte> -> Digest, bytes: seq<byte>, job: Job)
  {
    |bytes| == job.rawSize && EqIgnoreAsciiCase(sha(bytes), job.expectedRawSha256)
  }

  /** How far the trace is after `copied` bytes were staged. */
  predicate Staged(stage: Stage, copied: nat, total: nat)
  {
    stage == if copied == 0 then Imaging(-1, 0) else Imaging(copied, total)
  }

  /** What the image file gave is not the announced image: it is too much, or all of it and another one. */
  predicate ImageWrong(sha: seq<byte> -> Digest, job: Job, given: Given)
  {
    |given.bytes| > job.rawSize || (given.ended && !Matches(sha, given.bytes, job))
  }

  /** One turn of the staging loop; the empty chunk is the end of the source. */
  method CopyChunk(w: World, job: Job, signals: WorkerSignals, ghost a: State)
    returns (result: Result<seq<byte>, WorkerError>)
    requires Prelude(a, w.s, signals) && Staged(Trace(w.s.events), |w.s.source.bytes|, job.rawSize) && w.s.refused == []
    requires !w.s.source.ended && |w.s.source.bytes| <= job.rawSize
    modifies w, signals`cancelled, signals`skipVerification
    ensures Prelude(a, w.s, signals) && Trace(w.s.events).Imaging?
    ensures w.s.log == old(w.s.log) && w.s.late == old(w.s.late)
    ensures Unchanged(old(w.s), w.s.(source := old(w.s.source)))
    ensures Raised(old(w.s), signals.cancelPath) ==> result.Failure? && w.s.source == old(w.s.source)
    ensures result.Success? ==>
      && w.s.refused == [] && w.s.source == Given(old(w.s.source.bytes) + result.value, result.value == [])
      && |w.s.source.bytes| <= job.rawSize && Staged(Trace(w.s.events), |w.s.source.bytes|, job.rawSize)
    ensures result.Failure? && result.error.origin == Worker ==>
      || result.error == Verdict(RunCancelled)
      || (result.error == Verdict(Flash(Verification)) && |w.s.source.bytes| > job.rawSize)
    ensures result.Failure? ==> Blamed(result.error, w.s, signals.cancelPath)
  {
    hide Trace, Scan, Prelude, Blamed, Quiet;
    var checked := Checkpoint(w, signals, a);
    if checked.Failure? {
      return Failure(checked.error);
    }
    ghost var before := w.s;
    var copied := |w.s.source.bytes|;
    var chunk := w.ReadSource(STAGING_BUFFER_SIZE);
    SourcePrelude(a, before, w.s, signals);
    if chunk.Failure? {
      PlainFailure(FromFlash(chunk.error), w.s, signals.cancelPath);
      return Failure(FromFlash(chunk.error));
    }
    if chunk.value == [] {
      return Success([]);
    }
    var total := copied + |chunk.value|;
    if total >= U64_LIMIT || total > job.rawSize {
      PlainFailure(Verdict(Flash(Verification)), w.s, signals.cancelPath);
      return Failure(Verdict(Flash(Verification)));
    }
    before := w.s;
    var appended := w.ImageOperation();
    QuietPrelude(a, before, w.s, signals);
    if appended.Failure? {
      PlainFailure(FromFlash(appended.error), w.s, signals.cancelPath);
      return Failure(FromFlash(appended.error));
    }
    var emitted := Announce(w, ByteEvent(ValidatingImage, total, job.rawSize), signals, a);
    if emitted.Failure? {
      return Failure(emitted.error);
    }
    return Success(chunk.value);
  }

  lemma SourcePrelude(a: State, before: State, after: State, signals: WorkerSignals)
    requires Prelude(a, before, signals) && Quiet(before.(source := after.source), after)
    ensures Prelude(a, after, signals) && after.events == before.events && after.log == before.log
    ensures after.late == before.late && after.refused == before.refused
    ensures after.control == before.control && before.files <= after.files && before.faults <= after.faults
  {
    hide Scan;
  }

  /**
   Copies the source, which anybody may be changing, into the private staging file. What the source
   gave is accepted only with the announced size and digest, and rejected as an image only without.
   */
  method StageRawImage(w: World, job: Job, signals: WorkerSignals, ghost a: State)
    returns (result: Result<seq<byte>, WorkerError>)
    requires Prelude(a, w.s, signals) && Trace(w.s.events) == Imaging(-1, 0) && w.s.refused == []
    requires w.s.source == NOTHING_GIVEN
    modifies w, signals`cancelled, signals`skipVerification
    ensures Prelude(a, w.s, signals) && Trace(w.s.events).Imaging?
    ensures w.s.log == old(w.s.log) && w.s.late == old(w.s.late)
    ensures Unchanged(old(w.s), w.s.(source := old(w.s.source)))
    ensures result.Success? ==> w.s.refused == [] && Staged(Trace(w.s.events), job.rawSize, job.rawSize)
    ensures Raised(old(w.s), signals.cancelPath) ==> result.Failure? && w.s.source == NOTHING_GIVEN
    ensures result.Success? ==> w.s.source == Given(result.value, true) && Matches(w.sha, result.value, job)
    ensures result.Failure? && result.error.origin == Worker ==>
      || result.error == Verdict(RunCancelled)
      || (result.error == Verdict(Flash(Verification)) && ImageWrong(w.sha, job, w.s.source))
    ensures result.Failure? ==> Blamed(result.error, w.s, signals.cancelPath)
  {
    hide Trace, Scan, Prelude, Blamed, Quiet, EqIgnoreAsciiCase;
    ghost var before := w.s;
    var sourceOpened := w.CheckJobFiles(job);
    QuietPrelude(a, before, w.s, signals);
    if sourceOpened.Failure? {
      PlainFailure(sourceOpened.error, w.s, signals.cancelPath);
      return Failure(sourceOpened.error);
    }
    before := w.s;
    var created := w.ImageOperation();
    QuietPrelude(a, before, w.s, signals);
    if created.Failure? {
      PlainFailure(FromFlash(created.error), w.s, signals.cancelPath);
      return Failure(FromFlash(created.error));
    }
    var staged: seq<byte> := [];
    while true
      invariant |staged| <= job.rawSize && w.s.source == Given(staged, false)
      invariant Prelude(a, w.s, signals) && Staged(Trace(w.s.events), |staged|, job.rawSize)
      invariant w.s.log == old(w.s.log) && w.s.late == old(w.s.late) && w.s.refused == []
      invariant Unchanged(old(w.s), w.s.(source := old(w.s.source)))
      invariant Raised(old(w.s), signals.cancelPath) ==> staged == []
      decreases job.rawSize - |staged|
    {
      var chunk := CopyChunk(w, job, signals, a);
      if chunk.Failure? {
        return Failure(chunk.error);
      }
      staged := staged + chunk.value;
      if chunk.value == [] {
        break;
      }
    }
    if |staged| != job.rawSize || !EqIgnoreAsciiCase(w.sha(staged), job.expectedRawSha256) {
      PlainFailure(Verdict(Flash(Verification)), w.s, signals.cancelPath);
      return Failure(Verdict(Flash(Verification)));
    }
    before := w.s;
    var settled := w.ImageOperation();
    QuietPrelude(a, before, w.s, signals);
    if settled.Failure? {
      PlainFailure(FromFlash(settled.error), w.s, signals.cancelPath);
      return Failure(FromFlash(settled.error));
    }
    return Success(staged);
  }

  // ---------------------------------------------------------------- up to the target

  /** `compare_drive(&job.drive, &platform.validate_target(&job.drive)?)?` */
  method ValidateSelection(w: World, job: Job)
    returns (result: Result<Unit, WorkerError>, ghost found: Option<WorkerDrive>)
    requires (Trace(w.s.events) == Selected || Trace(w.s.events) == Reselected) && w.s.refused == []
    modifies w
    ensures Acted(old(w.s), w.s, Inspect(job.drive, found))
    ensures result.Success? <==> found == Some(job.drive)
    ensures result.Failure? && result.error.origin == Worker ==>
      result.error == Verdict(TargetChanged) && found.Some? && found.value != job.drive
    ensures result.Failure? ==> forall cancelPath :: Blamed(result.error, w.s, cancelPath)
  {
    hide Trace, Scan;
    var current := w.ValidateTarget(job.drive);
    if current.Failure? {
      return Failure(current.error), None;
    }
    found := Some(current.value);
    result := CompareDrive(job.drive, current.value);
  }

  /** The calls so far named no drive but the job's, and opened it only with the job's wish for verification. */
  predicate Aimed(log: seq<Action>, job: Job)
  {
    var m := Scan(log);
    && (m.aim == Nothing || m.aim == Only(job.drive))
    && (m.wish == Nothing || m.wish == Only(job.verify))
  }

  /**
   The worker's own verdicts are true: a cancel was asked for, another drive was found, or the image
   file or the medium gave something else than the image. There are no others.
   */
  predicate Justified(sha: seq<byte> -> Digest, job: Job, error: WorkerError, b: State)
  {
    error.origin == Worker ==>
      match error.kind
      case RunCancelled => Raised(b, job.cancelPath)
      case TargetChanged => Scan(b.log).mistaken
      case Flash(flash) =>
        && flash == Verification
        && (ImageWrong(sha, job, b.source) || ReadbackWrong(sha, job.rawSize, sha(b.source.bytes), b.readback))
      case _ => false
  }

  lemma JustifiedStays(sha: seq<byte> -> Digest, job: Job, error: WorkerError, a: State, b: State)
    requires Justified(sha, job, error, a) && b.source == a.source && b.readback == a.readback && a.files <= b.files
    requires Scan(a.log).mistaken ==> Scan(b.log).mistaken
    ensures Justified(sha, job, error, b)
  {
    hide Scan;
  }

  lemma CancelJustified(sha: seq<byte> -> Digest, job: Job, error: WorkerError, b: State)
    requires error.origin != Worker || error == Verdict(RunCancelled)
    requires Blamed(error, b, job.cancelPath)
    ensures Justified(sha, job, error, b)
  {
    hide Scan, Trace;
  }

  /** Everything before the first thing that happens to the target. */
  method SelectTarget(w: World, job: Job, signals: WorkerSignals, ghost a: State)
    returns (result: Result<seq<byte>, WorkerError>)
    requires Prelude(a, w.s, signals) && Trace(w.s.events) == Start && w.s.refused == []
    requires SignalsOf(signals, job) && w.s.source == NOTHING_GIVEN && Aimed(w.s.log, job) && 0 < job.rawSize
    modifies w, signals`cancelled, signals`skipVerification
    ensures Prelude(a, w.s, signals) && Aimed(w.s.log, job)
    ensures result.Success? ==>
      && Trace(w.s.events) == Detaching && Matches(w.sha, result.value, job)
      && w.s.source == Given(result.value, true)
      && Scan(w.s.log).vetted && Scan(w.s.log).confirmed && w.s.refused == []
      && NothingLate(w.s, job.cancelPath)
    ensures Raised(old(w.s), job.cancelPath) ==>
      result.Failure? && w.s.log == old(w.s.log) && w.s.events == old(w.s.events) && w.s.refused == []
    ensures result.Failure? ==>
      Blamed(result.error, w.s, job.cancelPath) && Justified(w.sha, job, result.error, w.s)
  {
    hide Trace, Scan, Matches, Prelude, Blamed, Quiet, Acted, Aimed, Justified, ImageWrong;
    var checked := Checkpoint(w, signals, a);
    if checked.Failure? {
      CancelJustified(w.sha, job, checked.error, w.s);
      return Failure(checked.error);
    }
    var emitted := Announce(w, PhaseEvent(ValidatingImage), signals, a);
    if emitted.Failure? {
      CancelJustified(w.sha, job, emitted.error, w.s);
      return Failure(emitted.error);
    }
    result := StageAndVet(w, job, signals, a);
    if result.Failure? {
      return;
    }
    checked := Checkpoint(w, signals, a);
    if checked.Failure? {
      CancelJustified(w.sha, job, checked.error, w.s);
      return Failure(checked.error);
    }
    emitted := Announce(w, PhaseEvent(ValidatingTarget), signals, a);
    if emitted.Failure? {
      CancelJustified(w.sha, job, emitted.error, w.s);
      return Failure(emitted.error);
    }
    var compared := Confirm(w, job, signals, a);
    if compared.Failure? {
      return Failure(compared.error);
    }
    checked := Checkpoint(w, signals, a);
    if checked.Failure? {
      CancelJustified(w.sha, job, checked.error, w.s);
      return Failure(checked.error);
    }
    emitted := Announce(w, PhaseEvent(UnmountingPhase), signals, a);
    if emitted.Failure? {
      CancelJustified(w.sha, job, emitted.error, w.s);
      return Failure(emitted.error);
    }
  }

  /** The private copy, and the platform's look at it. */
  method StageAndVet(w: World, job: Job, signals: WorkerSignals, ghost a: State)
    returns (result: Result<seq<byte>, WorkerError>)
    requires Prelude(a, w.s, signals) && Trace(w.s.events) == Imaging(-1, 0) && w.s.refused == []
    requires SignalsOf(signals, job) && w.s.source == NOTHING_GIVEN && Aimed(w.s.log, job) && NothingLate(w.s, job.cancelPath)
    modifies w, signals`cancelled, signals`skipVerification
    ensures Prelude(a, w.s, signals) && Aimed(w.s.log, job) && Trace(w.s.events).Imaging?
    ensures result.Success? ==>
      && Matches(w.sha, result.value, job) && w.s.source == Given(result.value, true)
      && Scan(w.s.log).vetted && w.s.refused == [] && Staged(Trace(w.s.events), job.rawSize, job.rawSize)
    ensures result.Failure? ==>
      Blamed(result.error, w.s, job.cancelPath) && Justified(w.sha, job, result.error, w.s)
  {
    hide Trace, Scan, Matches, Prelude, Blamed, Quiet, Acted, ImageWrong;
    result := StageRawImage(w, job, signals, a);
    if result.Failure? {
      assert Justified(w.sha, job, result.error, w.s) by {
        if result.error == Verdict(RunCancelled) {
          CancelJustified(w.sha, job, result.error, w.s);
        }
      }
      return;
    }
    ghost var before := w.s;
    var validated := w.ValidateStagedImage();
    CheckPrelude(a, before, w.s, Vet(validated.Success?), signals);
    if validated.Failure? {
      StagedImageBlamed(validated.error, w.s, job.cancelPath);
      return Failure(validated.error);
    }
  }

  /** The target that is there now is the selected one. */
  method Confirm(w: World, job: Job, signals: WorkerSignals, ghost a: State) returns (result: Result<Unit, WorkerError>)
    requires Prelude(a, w.s, signals) && SignalsOf(signals, job) && Aimed(w.s.log, job) && NothingLate(w.s, job.cancelPath)
    requires (Trace(w.s.events) == Selected || Trace(w.s.events) == Reselected) && w.s.refused == []
    modifies w
    ensures Prelude(a, w.s, signals) && Aimed(w.s.log, job) && w.s.events == old(w.s.events) && w.s.source == old(w.s.source)
    ensures w.s.refused == [] && w.s.control == old(w.s.control) && old(w.s.files) <= w.s.files
    ensures Tracked(w.s, job.cancelPath) ==> w.s.late == [] || (|w.s.late| == 1 && w.s.late[0].Inspect?)
    ensures Scan(w.s.log).vetted == Scan(old(w.s.log)).vetted
    ensures result.Success? ==> Scan(w.s.log).confirmed
    ensures result.Failure? ==>
      Blamed(result.error, w.s, job.cancelPath) && Justified(w.sha, job, result.error, w.s)
  {
    hide Trace, Scan, Prelude, Blamed, Quiet, Acted;
    ghost var before, found := w.s, None;
    result, found := ValidateSelection(w, job);
    CheckPrelude(a, before, w.s, Inspect(job.drive, found), signals);
  }

  lemma StagedImageBlamed(error: WorkerError, b: State, cancelPath: Option<Path>)
    requires error.origin == StagedImageCheck && Trace(b.events).Imaging? && b.refused == [] && error in b.faults
    ensures Blamed(error, b, cancelPath)
  {
    hide Trace;
  }

  // ---------------------------------------------------------------- the end of a run

  /** The target is closed and synced, and no action was out of order. */
  predicate Shut(b: State)
  {
    var m := Scan(b.log);
    m.safe && !m.open && !m.asked && !m.dirty
  }

  /** What the end of a run leaves alone: the medium, what was read back and what started late. */
  predicate SameMedium(a: State, b: State)
  {
    && b.device == a.device && b.readback == a.readback && b.late == a.late
    && b.source == a.source && b.control == a.control && a.faults <= b.faults
    && a.files <= b.files
    && var before, after := Scan(a.log), Scan(b.log);
       && after.barrier == before.barrier && after.mistaken == before.mistaken
       && after.aim == before.aim && after.wish == before.wish
  }

  /** `target.sync_all()` and `drop(target)`; most callers ignore what the sync said. */
  method SyncAndDrop(w: World) returns (synced: Result<Unit, FlashError>)
    requires Scan(w.s.log).open && Scan(w.s.log).safe
    modifies w
    ensures SameMedium(old(w.s), w.s) && Shut(w.s) && w.s.events == old(w.s.events) && w.s.refused == old(w.s.refused)
    ensures Scan(w.s.log).detached == Scan(old(w.s.log)).detached
    ensures w.s.log == old(w.s.log) + [Sync(synced.Success?), Close]
    ensures synced.Failure? ==> synced.error == FlashError(Syncing, Io) && FromFlash(synced.error) in w.s.faults
  {
    hide Scan, Trace;
    synced := w.SyncAll();
    w.DropTarget();
  }

  /**
   What the run reports once the engine is done, in this order of precedence: the error the callback
   kept, a failing marker, a cancel, and only then what the engine said.
   */
  method Settle(
    w: World, job: Job, flashed: Result<FlashReport, FlashError>, signals: WorkerSignals, callback: FlashCallback)
    returns (result: Result<FlashReport, WorkerError>)
    requires OpenStage(Trace(w.s.events))
    requires OnTime(w.s, signals.cancelPath) && signals.SkipHonored(w.s)
    requires if callback.error.Some? then RefusalOf(callback.error.value, w.s) else w.s.refused == []
    requires signals.cancelled && callback.error.None? ==> Raised(w.s, signals.cancelPath)
    requires callback.error.Some? ==> CallbackError(callback.error.value)
    requires callback.error.Some? ==> Grounded(callback.error.value, w.s)
    requires flashed.Failure? ==> EngineError(flashed.error, signals.cancelled, w.s)
    modifies w, signals`cancelled, signals`skipVerification
    ensures Quiet(old(w.s), w.s) && signals.SkipHonored(w.s)
    ensures callback.error.Some? ==> result == Failure(callback.error.value)
    ensures callback.error.None? && old(signals.cancelled) ==>
      result.Failure? && result.error in {Verdict(RunCancelled), WorkerError(Marker, ErrorKind.Platform)}
    ensures result.Success? ==>
      && flashed == Success(result.value) && callback.error.None?
      && result.value.bytesWritten == job.rawSize && EqIgnoreAsciiCase(result.value.rawSha256, job.expectedRawSha256)
      && !Raised(old(w.s), signals.cancelPath) && NothingLate(w.s, signals.cancelPath) && w.s.refused == []
    ensures result.Failure? ==> Blamed(result.error, w.s, signals.cancelPath)
    ensures result.Failure? && result.error.origin == Worker ==>
      || result.error == Verdict(RunCancelled)
      || (flashed.Failure? && result.error == FromFlash(flashed.error) && flashed.error.kind != FlashCancelled)
      || (flashed.Success? && result.error == Verdict(Flash(Verification))
          && (flashed.value.bytesWritten != job.rawSize || !EqIgnoreAsciiCase(flashed.value.rawSha256, job.expectedRawSha256)))
  {
    hide Scan, Trace, EqIgnoreAsciiCase;
    if callback.error.Some? {
      return Failure(callback.error.value);
    }
    var cancelled := signals.IsCancelled(w);
    if cancelled.Failure? {
      return Failure(cancelled.error);
    }
    if cancelled.value {
      return Failure(Verdict(RunCancelled));
    }
    match flashed
    case Failure(error) => return Failure(FromFlash(error));
    case Success(report) =>
      if report.bytesWritten == job.rawSize && EqIgnoreAsciiCase(report.rawSha256, job.expectedRawSha256) {
        return Success(report);
      }
      return Failure(Verdict(Flash(Verification)));
  }

  /** Sync, then close: closed whether or not the sync succeeds. */
  method CloseTarget(w: World) returns (result: Result<Unit, WorkerError>)
    requires Scan(w.s.log).open && Scan(w.s.log).safe
    requires var stage := Trace(w.s.events); (stage.Writing? && stage.written == stage.total) || stage.Verifying?
    requires w.s.refused == []
    modifies w
    ensures SameMedium(old(w.s), w.s) && Shut(w.s)
    ensures Scan(w.s.log).detached == Scan(old(w.s.log)).detached
    ensures result.Success? ==>
      && w.s.refused == []
      && w.s.log == old(w.s.log) + [Sync(true), Close]
      && Trace(w.s.events) == Follow(Trace(old(w.s.events)), PhaseEvent(SyncingPhase))
    ensures result.Failure? ==> result.error.origin != Worker && forall cancelPath :: Blamed(result.error, w.s, cancelPath)
  {
    hide Scan, Trace, Shut;
    var emitted := w.Emit(PhaseEvent(SyncingPhase));
    if emitted.Failure? {
      var ignored := SyncAndDrop(w);
      return Failure(emitted.error);
    }
    var synced := SyncAndDrop(w);
    if synced.Failure? {
      return Failure(FromFlash(synced.error));
    }
    return Success(Unit.Unit);
  }

  predicate LastEvent(b: State, e: Event)
  {
    b.events != [] && b.events[|b.events| - 1] == e
  }

  /** Announce the eject of what was synced and closed, and do it. */
  method EjectTarget(w: World, job: Job) returns (result: Result<Unit, WorkerError>)
    requires Shut(w.s) && Scan(w.s.log).detached && Scan(w.s.log).aim == Only(job.drive) && w.s.refused == []
    requires Trace(w.s.events).Flushing?
    modifies w
    ensures SameMedium(old(w.s), w.s) && Shut(w.s)
    ensures result.Success? ==>
      && w.s.refused == [] && Trace(w.s.events) == Follow(Trace(old(w.s.events)), PhaseEvent(EjectingPhase))
      && w.s.log == old(w.s.log) + [Eject(job.drive, true)] && !Scan(w.s.log).detached
    ensures result.Failure? ==> result.error.origin != Worker && forall cancelPath :: Blamed(result.error, w.s, cancelPath)
  {
    hide Scan, Trace;
    var emitted := w.Emit(PhaseEvent(EjectingPhase));
    if emitted.Failure? {
      return Failure(emitted.error);
    }
    result := w.EjectDisk(job.drive);
  }

  /** Eject, and report completion. */
  method EjectAndComplete(w: World, job: Job, report: FlashReport) returns (result: Result<FlashReport, WorkerError>)
    requires Shut(w.s) && Scan(w.s.log).detached && Scan(w.s.log).aim == Only(job.drive) && w.s.refused == []
    requires Trace(w.s.events).Flushing? && Trace(w.s.events).written == report.bytesWritten
    requires report.verified ==> Trace(w.s.events).complete
    modifies w
    ensures SameMedium(old(w.s), w.s) && Shut(w.s)
    ensures result.Success? ==>
      && result.value == report && Trace(w.s.events) == Done && LastEvent(w.s, CompletedEvent(report))
      && w.s.refused == []
      && w.s.log == old(w.s.log) + [Eject(job.drive, true)] && !Scan(w.s.log).detached
    ensures result.Failure? ==> result.error.origin != Worker && forall cancelPath :: Blamed(result.error, w.s, cancelPath)
  {
    hide Scan, Trace;
    var ejected := EjectTarget(w, job);
    if ejected.Failure? {
      return Failure(ejected.error);
    }
    var emitted := w.Emit(CompletedEvent(report));
    if emitted.Failure? {
      return Failure(emitted.error);
    }
    return Success(report);
  }

  /** What a delivered image means, in terms of the medium alone. */
  predicate Delivered(sha: seq<byte> -> Digest, job: Job, report: FlashReport, b: State)
  {
    && report.bytesWritten == job.rawSize <= |b.device|
    && Matches(sha, b.device[..job.rawSize], job)
    && report.rawSha256 == sha(b.device[..job.rawSize])
    && (report.verified ==>
      && job.verify && Scan(b.log).barrier
      && ReadThrough(b.readback, job.rawSize) && sha(b.readback.bytes) == report.rawSha256)
    && (job.verify && !report.verified ==> Raised(b, job.skipVerificationPath))
  }

  /**
   What holds however a run ends: after a touch of the cancel file it names the run goes no further
   than to its next checkpoint, after one of its skip file at most one read starts, and every call was
   for the job's drive.
   */
  predicate Bounded(b: State, job: Job)
  {
    && OnTime(b, job.cancelPath)
    && (job.skipVerificationPath == Some(b.control.skipVerification) ==> b.readback.unwanted <= 1)
    && Aimed(b.log, job)
  }

  /** And only the image's range may have changed. */
  predicate Contained(a: State, b: State, job: Job)
  {
    SameOutside(a.device, b.device, 0, job.rawSize) && b.control == a.control && Bounded(b, job)
  }

  /** A job's signals, before anything raised them for a reason other than a marker. */
  ghost predicate SignalsOf(signals: WorkerSignals, job: Job)
  {
    signals.cancelPath == job.cancelPath && signals.skipVerificationPath == job.skipVerificationPath
  }

  /** Write and verify on the open target, and decide what to report. */
  method WriteAndSettle(w: World, job: Job, staged: seq<byte>, signals: WorkerSignals)
    returns (result: Result<FlashReport, WorkerError>)
    requires SignalsOf(signals, job) && Matches(w.sha, staged, job) && 0 < job.rawSize <= job.drive.capacity
    requires Writable(w.s) && MayStart(w.s, job.cancelPath, false, Write)
    requires w.s.readback == NOTHING_READ && w.s.refused == [] && w.s.source == Given(staged, true)
    requires Scan(w.s.log).aim == Only(job.drive) && Scan(w.s.log).wish == Only(job.verify)
    requires Trace(w.s.events) == Reselected
    requires Prelude(w.s, w.s, signals)
    modifies w, signals`cancelled, signals`skipVerification
    ensures Contained(old(w.s), w.s, job) && Orderly(old(w.s), w.s)
    ensures result.Success? ==>
      && Delivered(w.sha, job, result.value, w.s) && NothingLate(w.s, job.cancelPath) && w.s.refused == []
      && WrittenStage(Trace(w.s.events), result.value)
    ensures result.Failure? ==>
      Blamed(result.error, w.s, job.cancelPath) && Justified(w.sha, job, result.error, w.s)
  {
    hide Scan, Trace, EqIgnoreAsciiCase, SameOutside, Blamed;
    ghost var a := w.s;
    var callback := new FlashCallback();
    var flashed := WriteRawWithPrepare(w, staged, job.drive.capacity, job.verify, job.drive, signals, callback);
    ghost var engine := w.s;
    result := Settle(w, job, flashed, signals, callback);
    if result.Failure? {
      SettledJustly(w.sha, job, flashed, result.error, engine, w.s);
    }
    assert result.Success? ==> w.s.device[..job.rawSize] == staged;
  }

  /** For a staged image that fits, whatever is reported of the engine is true. */
  lemma SettledJustly(
    sha: seq<byte> -> Digest, job: Job, flashed: Result<FlashReport, FlashError>, error: WorkerError, a: State, b: State)
    requires Matches(sha, a.source.bytes, job) && job.rawSize <= job.drive.capacity
    requires Quiet(a, b) && Blamed(error, b, job.cancelPath)
    requires flashed.Success? ==>
      flashed.value.bytesWritten == job.rawSize && EqIgnoreAsciiCase(flashed.value.rawSha256, job.expectedRawSha256)
    requires flashed.Failure? ==>
      VerdictHolds(flashed.error, job.rawSize > job.drive.capacity, ReadbackWrong(sha, job.rawSize, sha(a.source.bytes), a.readback))
    requires error.origin == Worker ==>
      || error == Verdict(RunCancelled)
      || (flashed.Failure? && error == FromFlash(flashed.error) && flashed.error.kind != FlashCancelled)
      || (flashed.Success? && error == Verdict(Flash(Verification))
          && (flashed.value.bytesWritten != job.rawSize || !EqIgnoreAsciiCase(flashed.value.rawSha256, job.expectedRawSha256)))
    ensures Justified(sha, job, error, b)
  {
    hide Scan, Trace, EqIgnoreAsciiCase;
  }

  /** The stages a finished engine can leave the trace in. */
  predicate WrittenStage(stage: Stage, report: FlashReport)
  {
    && (stage.Writing? ==> stage.total == stage.written)
    && (stage.Writing? || stage.Verifying?) && stage.written == report.bytesWritten
    && (report.verified ==> stage == Verifying(report.bytesWritten, report.bytesWritten))
  }

  /** `open_target` onwards: write, verify, settle, and leave the target closed and synced. */
  method FlashTarget(w: World, job: Job, staged: seq<byte>, signals: WorkerSignals)
    returns (result: Result<FlashReport, WorkerError>)
    requires SignalsOf(signals, job) && Matches(w.sha, staged, job) && 0 < job.rawSize <= job.drive.capacity
    requires Shut(w.s) && Scan(w.s.log).ready && Scan(w.s.log).confirmed && Scan(w.s.log).detached
    requires forall ok :: MayStart(w.s, job.cancelPath, false, Open(job.drive, job.verify, ok))
    requires w.s.readback == NOTHING_READ && w.s.refused == [] && w.s.source == Given(staged, true) && Aimed(w.s.log, job)
    requires Trace(w.s.events) == Reselected
    requires Prelude(w.s, w.s, signals)
    modifies w, signals`cancelled, signals`skipVerification
    ensures Contained(old(w.s), w.s, job) && Shut(w.s) && Scan(w.s.log).detached
    ensures result.Success? ==>
      && Delivered(w.sha, job, result.value, w.s) && NothingLate(w.s, job.cancelPath) && w.s.refused == []
      && FlushedStage(Trace(w.s.events), result.value)
      && |w.s.log| >= 2 && w.s.log[|w.s.log| - 2..] == [Sync(true), Close]
    ensures result.Success? ==> Scan(w.s.log).aim == Only(job.drive)
    ensures result.Failure? ==>
      Blamed(result.error, w.s, job.cancelPath) && Justified(w.sha, job, result.error, w.s)
  {
    hide Scan, Trace, Matches;
    var target := w.OpenTarget(job.drive, job.verify);
    if target.Failure? {
      return Failure(target.error);
    }
    ghost var a := w.s;
    var report := WriteAndSettle(w, job, staged, signals);
    if report.Failure? {
      ghost var before := w.s;
      var ignored := SyncAndDrop(w);
      BlamedStays(report.error, before, w.s, job.cancelPath);
      JustifiedStays(w.sha, job, report.error, before, w.s);
      return Failure(report.error);
    }
    var closed := CloseTarget(w);
    if closed.Failure? {
      return Failure(closed.error);
    }
    return report;
  }

  predicate FlushedStage(stage: Stage, report: FlashReport)
  {
    stage.Flushing? && stage.written == report.bytesWritten && (report.verified ==> stage.complete)
  }

  lemma BlamedStays(error: WorkerError, a: State, b: State, cancelPath: Option<Path>)
    requires Blamed(error, a, cancelPath) && b.events == a.events && b.refused == a.refused
    requires a.files <= b.files && a.faults <= b.faults
    ensures Blamed(error, b, cancelPath)
  {
    hide Trace;
  }

  // ---------------------------------------------------------------- whole runs

  /** What a successful run has done, whatever the platform, sink and markers did. */
  predicate Completed(sha: seq<byte> -> Digest, job: Job, report: FlashReport, b: State)
  {
    && Delivered(sha, job, report, b)
    && NothingLate(b, job.cancelPath) && b.refused == []
    && Trace(b.events) == Done && LastEvent(b, CompletedEvent(report))
    && |b.log| >= 3 && b.log[|b.log| - 3..] == [Sync(true), Close, Eject(job.drive, true)]
  }

  /** The identity is checked once more after the unmount, right before the target is opened. */
  method Reconfirm(w: World, job: Job, signals: WorkerSignals, ghost a: State) returns (result: Result<Unit, WorkerError>)
    requires Prelude(a, w.s, signals) && Trace(w.s.events) == Detaching && w.s.refused == []
    requires SignalsOf(signals, job) && Aimed(w.s.log, job)
    modifies w, signals`cancelled, signals`skipVerification
    ensures Prelude(a, w.s, signals) && Aimed(w.s.log, job) && w.s.source == old(w.s.source)
    ensures Raised(old(w.s), job.cancelPath) ==> result.Failure? && w.s.log == old(w.s.log)
    ensures result.Success? ==>
      && Trace(w.s.events) == Reselected && Scan(w.s.log).confirmed && w.s.refused == []
      && forall ok :: MayStart(w.s, job.cancelPath, false, Open(job.drive, job.verify, ok))
    ensures result.Failure? ==>
      Blamed(result.error, w.s, job.cancelPath) && Justified(w.sha, job, result.error, w.s)
  {
    hide Trace, Scan, Prelude, Blamed, Quiet, Acted, Aimed, Justified;
    var checked := Checkpoint(w, signals, a);
    if checked.Failure? {
      CancelJustified(w.sha, job, checked.error, w.s);
      return Failure(checked.error);
    }
    var emitted := Announce(w, PhaseEvent(ValidatingTarget), signals, a);
    if emitted.Failure? {
      CancelJustified(w.sha, job, emitted.error, w.s);
      return Failure(emitted.error);
    }
    result := Confirm(w, job, signals, a);
  }

  method RunAfterUnmount(w: World, job: Job, staged: seq<byte>, signals: WorkerSignals)
    returns (result: Result<FlashReport, WorkerError>)
    requires SignalsOf(signals, job) && Matches(w.sha, staged, job) && 0 < job.rawSize <= job.drive.capacity
    requires Shut(w.s) && Scan(w.s.log).ready && Scan(w.s.log).detached && w.s.readback == NOTHING_READ && w.s.refused == []
    requires Trace(w.s.events) == Detaching && w.s.source == Given(staged, true) && Aimed(w.s.log, job)
    requires Prelude(w.s, w.s, signals)
    modifies w, signals`cancelled, signals`skipVerification
    ensures Contained(old(w.s), w.s, job) && Shut(w.s)
    ensures Raised(old(w.s), job.cancelPath) ==> result.Failure? && w.s.log == old(w.s.log)
    ensures result.Success? ==> Completed(w.sha, job, result.value, w.s) && !Scan(w.s.log).detached
    ensures result.Failure? ==>
      Blamed(result.error, w.s, job.cancelPath) && Justified(w.sha, job, result.error, w.s)
  {
    hide Scan, Trace, Matches, Blamed, EqIgnoreAsciiCase, Prelude, Contained, Shut, Delivered, MayStart;
    ghost var a := w.s;
    var confirmed := Reconfirm(w, job, signals, a);
    PreludeEnds(a, w.s, job, signals);
    if confirmed.Failure? {
      return Failure(confirmed.error);
    }
    ghost var before := w.s;
    result := FlashTarget(w, job, staged, signals);
    ContainedFrom(a, before, w.s, job);
    if result.Failure? {
      return;
    }
    ghost var flushed := w.s;
    result := EjectAndComplete(w, job, result.value);
    MediumContained(a, flushed, w.s, job);
    if result.Success? {
      DeliveredStays(w.sha, job, result.value, flushed, w.s);
      TailExtends(flushed.log, Sync(true), Close, Eject(job.drive, true));
    }
  }

  /** A prelude changes nothing that a run's end looks at, and the next part may start from it. */
  lemma PreludeEnds(a: State, b: State, job: Job, signals: WorkerSignals)
    requires SignalsOf(signals, job) && Prelude(a, b, signals) && Shut(a) && a.readback == NOTHING_READ && Aimed(b.log, job)
    ensures Contained(a, b, job) && Shut(b) && Prelude(b, b, signals)
    ensures Scan(b.log).ready == Scan(a.log).ready && Scan(b.log).detached == Scan(a.log).detached
    ensures b.device == a.device && b.readback == a.readback && b.control == a.control
  {
    hide Scan;
  }

  lemma ContainedFrom(a: State, before: State, after: State, job: Job)
    requires before.device == a.device && before.control == a.control && Contained(before, after, job)
    ensures Contained(a, after, job)
  {
  }

  lemma MediumContained(a: State, before: State, after: State, job: Job)
    requires Contained(a, before, job) && SameMedium(before, after)
    ensures Contained(a, after, job)
  {
    hide Scan;
  }

  lemma DeliveredStays(sha: seq<byte> -> Digest, job: Job, report: FlashReport, a: State, b: State)
    requires Delivered(sha, job, report, a) && SameMedium(a, b)
    ensures Delivered(sha, job, report, b)
  {
    hide Scan;
  }

  lemma TailExtends(log: seq<Action>, x: Action, y: Action, z: Action)
    requires |log| >= 2 && log[|log| - 2..] == [x, y]
    ensures (log + [z])[|log| - 2..] == [x, y, z]
  {
    assert (log + [z])[|log| - 2..] == log[|log| - 2..] + [z];
  }

  predicate Fresh(b: State)
  {
    && b.log == [] && b.late == [] && b.events == [] && b.refused == []
    && b.source == NOTHING_GIVEN && b.readback == NOTHING_READ
  }

  /**
   The run. However it ends, the target is closed, synced and ejected again if it was ever unmounted,
   only the image's range has changed, and a failure names the step that stopped it.
   */
  method RunJob(w: World, job: Job) returns (result: Result<FlashReport, WorkerError>)
    requires Fresh(w.s)
    modifies w
    ensures Contained(old(w.s), w.s, job) && Shut(w.s) && !Scan(w.s.log).detached
    ensures !JobAccepted(w.validDrive, job) ==> result == Failure(Verdict(InvalidJob)) && w.s.log == [] && w.s.events == []
    ensures Raised(old(w.s), job.cancelPath) ==>
      result.Failure? && w.s.log == [] && w.s.events == [] && w.s.refused == []
    ensures result.Success? ==> Completed(w.sha, job, result.value, w.s)
    ensures result.Failure? ==> Blamed(result.error, w.s, job.cancelPath)
    ensures result.Failure? && JobAccepted(w.validDrive, job) ==> Justified(w.sha, job, result.error, w.s)
  {
    hide Matches, Blamed, EqIgnoreAsciiCase;
    ghost var a := w.s;
    var valid := ValidateJob(w, job);
    if valid.Failure? {
      PlainFailure(valid.error, w.s, job.cancelPath);
      return Failure(valid.error);
    }
    var signals := new WorkerSignals(job.cancelPath, job.skipVerificationPath);
    var staged := SelectTarget(w, job, signals, a);
    if staged.Failure? {
      return Failure(staged.error);
    }
    result := UnmountAndRun(w, job, staged.value, signals);
  }

  /** From the unmount on, every failure attempts the eject and still reports what failed first. */
  method UnmountAndRun(w: World, job: Job, staged: seq<byte>, signals: WorkerSignals)
    returns (result: Result<FlashReport, WorkerError>)
    requires SignalsOf(signals, job) && Matches(w.sha, staged, job) && 0 < job.rawSize <= job.drive.capacity
    requires Shut(w.s) && Scan(w.s.log).vetted && Scan(w.s.log).confirmed && w.s.readback == NOTHING_READ && w.s.refused == []
    requires NothingLate(w.s, job.cancelPath) && w.s.source == Given(staged, true) && Aimed(w.s.log, job)
    requires Trace(w.s.events) == Detaching
    requires Prelude(w.s, w.s, signals)
    modifies w, signals`cancelled, signals`skipVerification
    ensures Contained(old(w.s), w.s, job) && Shut(w.s) && !Scan(w.s.log).detached
    ensures result.Success? ==> Completed(w.sha, job, result.value, w.s)
    ensures result.Failure? ==>
      Blamed(result.error, w.s, job.cancelPath) && Justified(w.sha, job, result.error, w.s)
  {
    hide Scan, Trace, Matches, EqIgnoreAsciiCase, Completed;
    var unmounted := w.UnmountDisk(job.drive);
    if unmounted.Failure? {
      var ignored := w.EjectDisk(job.drive);
      return Failure(unmounted.error);
    }
    result := RunAfterUnmount(w, job, staged, signals);
    if result.Failure? {
      ghost var before := w.s;
      var ignored := w.EjectDisk(job.drive);
      BlamedStays(result.error, before, w.s, job.cancelPath);
      JustifiedStays(w.sha, job, result.error, before, w.s);
    }
  }

  // ---------------------------------------------------------------- reports

  predicate LastRefused(b: State, e: Event)
  {
    b.refused != [] && b.refused[|b.refused| - 1].event == e
  }

  /**
   How a run that stopped for `stopped` ends. Its report is attempted in any case. If the sink takes
   it, it is the last event, after a trace that stopped at the failing step, and `stopped` is what
   the run returns. If the sink refuses it, the run returns the sink's error for exactly that event.
   */
  predicate Told(stopped: WorkerError, error: WorkerError, render: Render, b: State, cancelPath: Option<Path>)
  {
    var report := FailedEvent(stopped, render);
    && Honest(stopped, b, cancelPath) && Grounded(stopped, b)
    && if LastRefused(b, report) then
         && b.refused[|b.refused| - 1].error == error && error.origin == Sink
         && Primary(stopped, Trace(b.events))
         && RefusalOf(stopped, b.(refused := b.refused[..|b.refused| - 1]))
       else
         && error == stopped
         && LastEvent(b, report) && Trace(b.events) == Stopped
         && Primary(stopped, Trace(b.events[..|b.events| - 1]))
         && RefusalOf(stopped, b)
  }

  lemma ToldByEvent(stopped: WorkerError, render: Render, before: State, after: State, cancelPath: Option<Path>)
    requires Blamed(stopped, before, cancelPath) && Emitted(before, after, FailedEvent(stopped, render))
    ensures Told(stopped, stopped, render, after, cancelPath)
  {
    hide Trace;
    assert after.events[..|after.events| - 1] == before.events;
  }

  lemma BlamedSink(error: WorkerError, b: State, cancelPath: Option<Path>)
    requires Blamed(error, b, cancelPath)
    ensures b.refused == [] ==> error.origin != Sink
  {
    hide Trace;
  }

  lemma ToldBySink(stopped: WorkerError, error: WorkerError, render: Render, before: State, after: State, cancelPath: Option<Path>)
    requires Blamed(stopped, before, cancelPath) && error.origin == Sink
    requires Refused(before, after, FailedEvent(stopped, render), error)
    ensures Told(stopped, error, render, after, cancelPath)
  {
    hide Trace;
    assert after.refused[..|after.refused| - 1] == before.refused;
  }

  lemma EndStays(a: State, before: State, after: State, job: Job)
    requires Contained(a, before, job) && Shut(before)
    requires Quiet(before.(events := after.events, refused := after.refused), after)
    ensures Contained(a, after, job) && Shut(after) && after.log == before.log
  {
    hide Scan;
  }

  /** The whole run with its report; `stopped` is what a failed run stopped for. */
  method RunAndReport(w: World, job: Job) returns (result: Result<FlashReport, WorkerError>, ghost stopped: Option<WorkerError>)
    requires Fresh(w.s)
    modifies w
    ensures Contained(old(w.s), w.s, job) && Shut(w.s) && !Scan(w.s.log).detached
    ensures !JobAccepted(w.validDrive, job) ==> stopped == Some(Verdict(InvalidJob)) && w.s.log == []
    ensures Raised(old(w.s), job.cancelPath) ==>
      result.Failure? && w.s.log == [] && stopped.Some? && stopped.value.origin != Sink
    ensures result.Success? ==> stopped == None && Completed(w.sha, job, result.value, w.s)
    ensures result.Failure? && JobAccepted(w.validDrive, job) ==>
      stopped.Some? && Justified(w.sha, job, stopped.value, w.s)
    ensures result.Failure? ==>
      && stopped.Some? && Told(stopped.value, result.error, w.render, w.s, job.cancelPath)
      && (w.refuses(FailedEvent(stopped.value, w.render)) ==> LastRefused(w.s, FailedEvent(stopped.value, w.render)))
  {
    hide Scan, Trace, Completed, JobAccepted, Contained, Shut, Honest, Follow, Blamed, Told, Justified;
    ghost var a := w.s;
    ghost var cancelPath := job.cancelPath;
    stopped := None;
    result := RunJob(w, job);
    if result.Failure? {
      stopped := Some(result.error);
      BlamedSink(result.error, w.s, cancelPath);
      ghost var before := w.s;
      var emitted := w.Emit(FailedEvent(result.error, w.render));
      EndStays(a, before, w.s, job);
      if JobAccepted(w.validDrive, job) {
        JustifiedStays(w.sha, job, result.error, before, w.s);
      }
      if emitted.Failure? {
        ToldBySink(result.error, emitted.error, w.render, before, w.s, cancelPath);
        return Failure(emitted.error), stopped;
      }
      ToldByEvent(result.error, w.render, before, w.s, cancelPath);
    }
  }
}
