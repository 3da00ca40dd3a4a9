/**
 Everything outside the isolated worker of src/worker.rs: the platform, the open target, the
 progress sink, the marker files and the image file.

 `World` is the environment. Its methods promise only what the corresponding operation promises;
 every answer they leave open is arbitrary, so what is proved about the worker holds for every
 platform, sink, device and timing of the marker files.
 */
module WorkerWorld {
  import opened Common
  import DiskIdentity

  type WorkerDrive = DiskIdentity.WorkerDrive
  type Digest = string
  type Path = string

  // ---------------------------------------------------------------- jobs, errors and events

  datatype Job = Job(
    schemaVersion: nat,
    drive: WorkerDrive,
    rawSize: U64,
    verify: bool,
    expectedRawSha256: Digest,
    cancelPath: Option<Path>,
    skipVerificationPath: Option<Path>)

  datatype FlashReport = FlashReport(bytesWritten: nat, rawSha256: Digest, verified: bool)

  datatype FlashKind = Io | CompressedChecksum | TargetTooSmall | RawSize | FlashCancelled | Verification

  datatype ErrorKind =
    | InvalidJob | RawDeviceDisabled | NotRoot | TargetMissing | TargetChanged | UnsafeTarget
    | RunCancelled | Progress | Platform
    | Flash(flash: FlashKind)

  /**
   Who produced an error. The source has no such tag; it changes no behaviour here and only lets
   properties tell the worker's own verdicts from what it was handed. An eject that is tried when
   nothing has been unmounted since the last one is `EjectingAgain`.
   */
  datatype Origin =
    | Worker | ImageFile | Marker | Sink
    | StagedImageCheck | TargetCheck | Unmounting | Opening | TargetIo | Barrier | Syncing
    | Ejecting | EjectingAgain

  datatype FlashError = FlashError(origin: Origin, kind: FlashKind)

  datatype WorkerError = WorkerError(origin: Origin, kind: ErrorKind)

  function FromFlash(error: FlashError): WorkerError
  {
    WorkerError(error.origin, Flash(error.kind))
  }

  function Verdict(kind: ErrorKind): WorkerError
  {
    WorkerError(Worker, kind)
  }

  datatype Phase =
    | ValidatingImage | ValidatingTarget | UnmountingPhase | WritingPhase | VerifyingPhase
    | SyncingPhase | EjectingPhase | CompletedPhase | CancelledPhase | FailedPhase

  datatype Event = Event(
    phase: Phase,
    bytesProcessed: Option<nat>,
    totalBytes: Option<nat>,
    rawSha256: Option<Digest>,
    verified: Option<bool>,
    message: Option<string>)

  function PhaseEvent(phase: Phase): Event
  {
    Event(phase, None, None, None, None, None)
  }

  function ByteEvent(phase: Phase, processed: nat, total: nat): Event
  {
    Event(phase, Some(processed), Some(total), None, None, None)
  }

  function CompletedEvent(report: FlashReport): Event
  {
    Event(CompletedPhase, Some(report.bytesWritten), Some(report.bytesWritten), Some(report.rawSha256), Some(report.verified), None)
  }

  // The text of an error.
  type Render = WorkerError -> string

  function FailedEvent(error: WorkerError, render: Render): Event
  {
    Event(if error.kind == RunCancelled then CancelledPhase else FailedPhase, None, None, None, None, Some(render(error)))
  }

  // ---------------------------------------------------------------- what the device saw

  /**
   `Vet` and `Inspect` are the platform's checks of the staged image and of the target; `found` is the
   drive an inspection found. Each call that names a drive is recorded with the drive it was given.
   */
  datatype Action =
    | Vet(ok: bool)
    | Inspect(drive: WorkerDrive, found: Option<WorkerDrive>)
    | Unmount(drive: WorkerDrive, ok: bool)
    | Open(drive: WorkerDrive, verify: bool, ok: bool)
    | Write
    | Sync(ok: bool)
    | PrepareReadback(drive: WorkerDrive, ok: bool)
    | Readback
    | Close
    | Eject(drive: WorkerDrive, ok: bool)

  predicate Targeted(action: Action)
  {
    action.Inspect? || action.Unmount? || action.Open? || action.PrepareReadback? || action.Eject?
  }

  /** The target that was found is the selected one. */
  predicate Confirms(action: Action)
  {
    action.Inspect? && action.found == Some(action.drive)
  }

  /** Another one was found in its place. */
  predicate Mistakes(action: Action)
  {
    action.Inspect? && action.found.Some? && action.found.value != action.drive
  }

  /** Which of the values that may be given has been given so far. */
  datatype Choice<T> = Nothing | Only(value: T) | Several

  function Choose<T(==)>(choice: Choice<T>, value: T): Choice<T>
  {
    if choice == Nothing || choice == Only(value) then Only(value) else Several
  }

  /**
   A running summary of a log: was the staged image vetted, was the target last seen to be the selected
   one and has nothing been unmounted since, is the target open, has its barrier been asked for, is there unsynced
   data, has an unmount been tried without a later eject, did the last one succeed, has the barrier
   succeeded since the last write, was another drive ever found, which drives were named and with
   which wish for verification was the target opened, and was every action in order.
   */
  datatype Monitor = Monitor(
    vetted: bool, confirmed: bool, open: bool, asked: bool, dirty: bool, detached: bool, ready: bool, barrier: bool,
    mistaken: bool, aim: Choice<WorkerDrive>, wish: Choice<bool>, safe: bool)

  const CALM := Monitor(false, false, false, false, false, false, false, false, false, Nothing, Nothing, true)

  predicate InOrder(m: Monitor, action: Action)
  {
    match action
    case Vet(_) | Inspect(_, _) => true
    case Unmount(_, _) => m.vetted && m.confirmed && !m.open
    case Open(_, _, _) => m.ready && m.confirmed && !m.open
    case Write => m.open && !m.asked
    case Sync(_) | Close => m.open
    case PrepareReadback(_, _) => m.open && !m.asked
    case Readback => m.open && m.barrier
    case Eject(_, _) => !m.open && !m.dirty
  }

  /** Field by field, what an action raises and what it clears. */
  function Effect(m: Monitor, action: Action): Monitor
  {
    Monitor(
      vetted := if action.Vet? then action.ok else m.vetted,
      confirmed := if action.Inspect? then Confirms(action) else m.confirmed && !action.Unmount?,
      open := (action.Open? && action.ok) || (m.open && !action.Close?),
      asked := action.PrepareReadback? || (m.asked && !action.Close?),
      dirty := action.Write? || (m.dirty && !action.Sync?),
      detached := action.Unmount? || (m.detached && !action.Eject?),
      ready := if action.Unmount? then action.ok else m.ready && !action.Eject?,
      barrier := if action.PrepareReadback? then action.ok
        else m.barrier && !action.Write? && !(action.Open? && action.ok),
      mistaken := m.mistaken || Mistakes(action),
      aim := if Targeted(action) then Choose(m.aim, action.drive) else m.aim,
      wish := if action.Open? then Choose(m.wish, action.verify) else m.wish,
      safe := m.safe)
  }

  function Advance(m: Monitor, action: Action): (next: Monitor)
    ensures next.safe ==> m.safe
  {
    Effect(m, action).(safe := m.safe && InOrder(m, action))
  }

  function Scan(log: seq<Action>): Monitor
  {
    if log == [] then CALM
    else Advance(Scan(log[..|log| - 1]), log[|log| - 1])
  }

  // ---------------------------------------------------------------- reacting to a cancel

  /** What only brings a run to its end; a cancel never has to wait for less than this. */
  predicate Finishing(action: Action)
  {
    action.Sync? || action.Close? || action.Eject?
  }

  /** What may start after `earlier` when both start after the cancel marker appeared. */
  predicate Follows(earlier: Action, action: Action)
  {
    || (earlier.Inspect? && action.Open?)
    || (earlier.Open? && (action.Write? || action.PrepareReadback?))
    || (earlier.PrepareReadback? && action.Readback?)
  }

  predicate MayFollow(late: seq<Action>, action: Action)
  {
    late == [] || Follows(late[|late| - 1], action)
  }

  /** The late actions of a run that reacts at its next checkpoint. */
  predicate Reacted(late: seq<Action>)
  {
    forall i :: 0 <= i < |late| - 1 ==> Follows(late[i], late[i + 1])
  }

  // ---------------------------------------------------------------- what came back

  /**
   Everything the target was read back as, byte by byte with the offset it was read from, how many
   reads started after the skip marker appeared, and whether a read came back empty.
   */
  datatype Recovered = Recovered(bytes: seq<byte>, offsets: seq<nat>, unwanted: nat, dry: bool)

  const NOTHING_READ := Recovered([], [], 0, false)

  function Span(start: nat, count: nat): (r: seq<nat>)
    ensures |r| == count
  {
    seq(count, i requires 0 <= i => start + i)
  }

  /** The first `count` bytes of the target, in order and once each. */
  predicate ReadThrough(r: Recovered, count: nat)
  {
    |r.bytes| == count && r.offsets == Span(0, count)
  }

  lemma SpanGrows(start: nat, count: nat, more: nat)
    ensures Span(start, count) + Span(start + count, more) == Span(start, count + more)
  {
  }

  // ---------------------------------------------------------------- what the sink saw

  /** How far an event trace has come; `Broken` means it left the expected order. */
  datatype Stage =
    | Start
    | Imaging(last: int, total: nat)
    | Selected
    | Detaching
    | Reselected
    | Writing(written: nat, total: nat)
    | Verifying(written: nat, read: nat)
    | Flushing(written: nat, complete: bool)
    | Releasing(written: nat, complete: bool)
    | Done
    | Stopped
    | Broken

  predicate Running(stage: Stage)
  {
    !stage.Done? && !stage.Stopped? && !stage.Broken?
  }

  /** A count and the total it counts towards. */
  predicate Counting(e: Event)
  {
    e.bytesProcessed.Some? && e.totalBytes.Some? && e.bytesProcessed.value <= e.totalBytes.value
  }

  /** Each stage counts up to one total, and ends with it. */
  function Follow(stage: Stage, e: Event): Stage
  {
    if e.phase == FailedPhase || e.phase == CancelledPhase then
      if Running(stage) && e.message.Some? then Stopped else Broken
    else match e.phase
      case ValidatingImage =>
        if stage == Start && e.bytesProcessed == None then Imaging(-1, 0)
        else if stage.Imaging? && Counting(e) && e.bytesProcessed.value > stage.last
          && (stage.last == -1 || e.totalBytes.value == stage.total)
        then Imaging(e.bytesProcessed.value, e.totalBytes.value)
        else Broken
      case ValidatingTarget =>
        if stage.Imaging? && stage.last == stage.total then Selected
        else if stage == Detaching then Reselected else Broken
      case UnmountingPhase => if stage == Selected then Detaching else Broken
      case WritingPhase =>
        if !Counting(e) then Broken
        else if stage == Reselected && e.bytesProcessed.value > 0 then Writing(e.bytesProcessed.value, e.totalBytes.value)
        else if stage.Writing? && e.bytesProcessed.value > stage.written && e.totalBytes.value == stage.total
        then Writing(e.bytesProcessed.value, stage.total)
        else Broken
      case VerifyingPhase =>
        if !Counting(e) then Broken
        else if stage.Writing? && stage.written == stage.total == e.totalBytes.value && 0 < e.bytesProcessed.value
        then Verifying(stage.written, e.bytesProcessed.value)
        else if stage.Verifying? && stage.read < e.bytesProcessed.value && stage.written == e.totalBytes.value
        then Verifying(stage.written, e.bytesProcessed.value)
        else Broken
      case SyncingPhase =>
        if stage.Writing? && stage.written == stage.total then Flushing(stage.written, false)
        else if stage.Verifying? then Flushing(stage.written, stage.read == stage.written)
        else Broken
      case EjectingPhase => if stage.Flushing? then Releasing(stage.written, stage.complete) else Broken
      case CompletedPhase =>
        if stage.Releasing? && e.bytesProcessed == e.totalBytes == Some(stage.written) && e.verified.Some?
          && (e.verified.value ==> stage.complete)
        then Done else Broken
      case _ => Broken
  }

  function Trace(events: seq<Event>): Stage
  {
    if events == [] then Start
    else Follow(Trace(events[..|events| - 1]), events[|events| - 1])
  }

  // ---------------------------------------------------------------- the environment

  /** An event the sink did not take, and the error it gave instead. */
  datatype Refusal = Refusal(event: Event, error: WorkerError)

  /** The files that the unprivileged side touches to cancel and to skip verification. */
  datatype MarkerPaths = MarkerPaths(cancel: Path, skipVerification: Path)

  /**
   `source` is what the image file gave when it was staged, `files` are the marker files there are, `faults` the errors that operations gave, except the
   sink's, which are in `refused`. `late` are the actions, other than finishing ones, that started
   while the cancel file of `control` already existed. The worker never looks at these records.
   */
  datatype State = State(
    log: seq<Action>,
    late: seq<Action>,
    events: seq<Event>,
    refused: seq<Refusal>,
    device: seq<byte>,
    position: nat,
    files: set<Path>,
    control: MarkerPaths,
    faults: set<WorkerError>,
    source: Given,
    readback: Recovered)

  predicate CancelTouched(b: State)
  {
    b.control.cancel in b.files
  }

  predicate SkipTouched(b: State)
  {
    b.control.skipVerification in b.files
  }

  /** The records of `b` are about the file that a job names for cancelling. */
  predicate Tracked(b: State, cancelPath: Option<Path>)
  {
    cancelPath == Some(b.control.cancel)
  }

  /** The marker that a job names is there. */
  predicate Raised(b: State, path: Option<Path>)
  {
    path.Some? && path.value in b.files
  }

  /** Nothing happened but time: files may have appeared, and never go away; something may have failed. */
  predicate Quiet(a: State, b: State)
  {
    b == a.(files := b.files, faults := b.faults) && a.files <= b.files && a.faults <= b.faults
  }

  predicate Acted(a: State, b: State, action: Action)
  {
    && Quiet(a.(log := a.log + [action], late := b.late), b)
    && Scan(b.log) == Advance(Scan(a.log), action)
    && LateStep(a, b, action)
  }

  predicate LateStep(a: State, b: State, action: Action)
  {
    if b.late == a.late then Finishing(action) || !CancelTouched(a)
    else b.late == a.late + [action] && CancelTouched(b) && !Finishing(action)
  }

  predicate Refused(a: State, b: State, e: Event, error: WorkerError)
  {
    Quiet(a.(refused := a.refused + [Refusal(e, error)]), b)
  }

  predicate Emitted(a: State, b: State, e: Event)
  {
    && Quiet(a.(events := a.events + [e]), b)
    && Trace(b.events) == Follow(Trace(a.events), e)
  }

  /** Only bytes from `from` up to `to` may differ. */
  predicate SameOutside(a: seq<byte>, b: seq<byte>, from: nat, to: nat)
  {
    && |a| == |b|
    && forall i :: 0 <= i < |a| && !(from <= i < to) ==> a[i] == b[i]
  }

  function Overwrite(device: seq<byte>, position: nat, chunk: seq<byte>): (r: seq<byte>)
    requires position + |chunk| <= |device|
    ensures SameOutside(device, r, position, position + |chunk|)
    ensures r[position..position + |chunk|] == chunk
  {
    device[..position] + chunk + device[position + |chunk|..]
  }

  /** `refuses` tells which events the sink is sure to refuse; it may refuse any other as well. */
  class World {
    const sha: seq<byte> -> Digest
    const validDrive: WorkerDrive -> bool
    const render: Render
    const refuses: Event -> bool
    var s: State

    constructor (
      sha: seq<byte> -> Digest, validDrive: WorkerDrive -> bool, render: Render, refuses: Event -> bool, device: seq<byte>,
      control: MarkerPaths)
      ensures this.sha == sha && this.validDrive == validDrive && this.render == render && this.refuses == refuses
      ensures s == State([], [], [], [], device, 0, {}, control, {}, NOTHING_GIVEN, NOTHING_READ)
    {
      this.sha, this.validDrive, this.render, this.refuses := sha, validDrive, render, refuses;
      s := State([], [], [], [], device, 0, {}, control, {}, NOTHING_GIVEN, NOTHING_READ);
    }

    method Elapse()
      modifies this
      ensures Quiet(old(s), s) && s.faults == old(s.faults)
    {
      var touched: set<Path> := *;
      s := s.(files := s.files + touched);
    }

    /** An operation gives this error. */
    method Fail(error: WorkerError)
      modifies this
      ensures Quiet(old(s), s) && s.faults == old(s.faults) + {error}
    {
      Elapse();
      s := s.(faults := s.faults + {error});
    }

    /** `action` starts now. */
    method Act(action: Action)
      modifies this
      ensures Acted(old(s), s, action) && s.faults == old(s.faults)
    {
      Elapse();
      var log := s.log + [action];
      assert log[..|log| - 1] == s.log;
      var late := if CancelTouched(s) && !Finishing(action) then s.late + [action] else s.late;
      s := s.(log := log, late := late);
      Elapse();
    }

    // ---- the progress sink

    /** Appends exactly when it succeeds. */
    method Emit(e: Event) returns (result: Result<Unit, WorkerError>)
      modifies this
      ensures result.Success? ==> Emitted(old(s), s, e) && !refuses(e)
      ensures result.Failure? ==> Refused(old(s), s, e, result.error) && result.error.origin == Sink
      ensures s.faults == old(s.faults)
    {
      var fails: bool, kind: ErrorKind := *, *;
      if fails || refuses(e) {
        var error := WorkerError(Sink, kind);
        s := s.(refused := s.refused + [Refusal(e, error)]);
        Elapse();
        return Failure(error);
      }
      var events := s.events + [e];
      assert events[..|events| - 1] == s.events;
      s := s.(events := events);
      Elapse();
      return Success(Unit.Unit);
    }

    // ---- marker files

    method MarkerExists(path: Option<Path>) returns (result: Result<bool, WorkerError>)
      modifies this
      ensures Quiet(old(s), s)
      ensures path.None? ==> result == Success(false)
      ensures path.Some? && result.Success? ==> result.value == (path.value in s.files)
      ensures result.Success? ==> s.faults == old(s.faults)
      ensures result.Failure? ==>
        result.error == WorkerError(Marker, Platform) && s.faults == old(s.faults) + {result.error}
    {
      Elapse();
      var fails: bool := *;
      if path.None? {
        return Success(false);
      }
      if fails {
        Fail(WorkerError(Marker, Platform));
        return Failure(WorkerError(Marker, Platform));
      }
      return Success(path.value in s.files);
    }

    // ---- the image file, which others may still be writing, and the private staging file

    method CheckJobFiles(job: Job) returns (result: Result<Unit, WorkerError>)
      modifies this
      ensures Quiet(old(s), s)
      ensures result.Success? ==> s.faults == old(s.faults)
      ensures result.Failure? ==>
        result.error == WorkerError(ImageFile, InvalidJob) && s.faults == old(s.faults) + {result.error}
    {
      Elapse();
      var fails: bool := *;
      if fails {
        Fail(WorkerError(ImageFile, InvalidJob));
        return Failure(WorkerError(ImageFile, InvalidJob));
      }
      return Success(Unit.Unit);
    }

    method ImageOperation() returns (result: Result<Unit, FlashError>)
      modifies this
      ensures Quiet(old(s), s)
      ensures result.Success? ==> s.faults == old(s.faults)
      ensures result.Failure? ==>
        result.error == FlashError(ImageFile, Io) && s.faults == old(s.faults) + {FromFlash(result.error)}
    {
      Elapse();
      var fails: bool := *;
      if fails {
        Fail(FromFlash(FlashError(ImageFile, Io)));
        return Failure(FlashError(ImageFile, Io));
      }
      return Success(Unit.Unit);
    }

    /** Any bytes at all: the source file may be changed at any moment. */
    method ReadSource(limit: nat) returns (result: Result<seq<byte>, FlashError>)
      modifies this
      ensures Quiet(old(s).(source := s.source), s)
      ensures result.Success? ==>
        && |result.value| <= limit && s.faults == old(s.faults)
        && s.source == Given(old(s.source.bytes) + result.value, old(s.source.ended) || result.value == [])
      ensures result.Failure? ==>
        && result.error == FlashError(ImageFile, Io) && s.faults == old(s.faults) + {FromFlash(result.error)}
        && s.source == old(s.source)
    {
      Elapse();
      var fails: bool, bytes: seq<byte> := *, *;
      if fails || |bytes| > limit {
        Fail(FromFlash(FlashError(ImageFile, Io)));
        return Failure(FlashError(ImageFile, Io));
      }
      s := s.(source := Given(s.source.bytes + bytes, s.source.ended || bytes == []));
      return Success(bytes);
    }

    /** The staging file is private: reads may be short but not wrong. */
    method ReadStaged(staged: seq<byte>, offset: nat, limit: nat) returns (result: Result<seq<byte>, FlashError>)
      requires offset <= |staged| && limit > 0
      modifies this
      ensures Quiet(old(s), s)
      ensures result.Success? ==>
        && |result.value| <= limit && offset + |result.value| <= |staged|
        && result.value == staged[offset..offset + |result.value|]
        && (result.value == [] <==> offset == |staged|)
        && s.faults == old(s.faults)
      ensures result.Failure? ==>
        result.error == FlashError(ImageFile, Io) && s.faults == old(s.faults) + {FromFlash(result.error)}
    {
      Elapse();
      var fails: bool, count: nat := *, *;
      if fails || count > limit || offset + count > |staged| || (count == 0 && offset < |staged|) {
        Fail(FromFlash(FlashError(ImageFile, Io)));
        return Failure(FlashError(ImageFile, Io));
      }
      return Success(staged[offset..offset + count]);
    }

    // ---- the platform

    method ValidateStagedImage() returns (result: Result<Unit, WorkerError>)
      modifies this
      ensures Acted(old(s), s, Vet(result.Success?))
      ensures result.Success? ==> s.faults == old(s.faults)
      ensures result.Failure? ==> result.error.origin == StagedImageCheck && s.faults == old(s.faults) + {result.error}
    {
      var fails: bool, kind: ErrorKind := *, *;
      Act(Vet(!fails));
      result := Answer(fails, StagedImageCheck, kind);
    }

    /** What a platform call that has just been recorded answers. */
    method Answer(fails: bool, origin: Origin, kind: ErrorKind) returns (result: Result<Unit, WorkerError>)
      modifies this
      ensures Quiet(old(s), s)
      ensures !fails ==> result == Success(Unit.Unit) && s == old(s)
      ensures fails ==> result == Failure(WorkerError(origin, kind)) && s.faults == old(s.faults) + {result.error}
    {
      if fails {
        Fail(WorkerError(origin, kind));
        return Failure(WorkerError(origin, kind));
      }
      return Success(Unit.Unit);
    }

    method ValidateTarget(selected: WorkerDrive) returns (result: Result<WorkerDrive, WorkerError>)
      modifies this
      ensures Acted(old(s), s, Inspect(selected, if result.Success? then Some(result.value) else None))
      ensures result.Success? ==> s.faults == old(s.faults)
      ensures result.Failure? ==> result.error.origin == TargetCheck && s.faults == old(s.faults) + {result.error}
    {
      var fails: bool, kind: ErrorKind, current: WorkerDrive := *, *, *;
      Act(Inspect(selected, if fails then None else Some(current)));
      var answer := Answer(fails, TargetCheck, kind);
      return if answer.Failure? then Failure(answer.error) else Success(current);
    }

    method UnmountDisk(selected: WorkerDrive) returns (result: Result<Unit, WorkerError>)
      modifies this
      ensures Acted(old(s), s, Unmount(selected, result.Success?))
      ensures result.Success? ==> s.faults == old(s.faults)
      ensures result.Failure? ==> result.error.origin == Unmounting && s.faults == old(s.faults) + {result.error}
    {
      var fails: bool, kind: ErrorKind := *, *;
      Act(Unmount(selected, !fails));
      result := Answer(fails, Unmounting, kind);
    }

    method OpenTarget(selected: WorkerDrive, verify: bool) returns (result: Result<Unit, WorkerError>)
      modifies this
      ensures Acted(old(s), s, Open(selected, verify, result.Success?))
      ensures result.Success? ==> s.faults == old(s.faults)
      ensures result.Failure? ==> result.error.origin == Opening && s.faults == old(s.faults) + {result.error}
    {
      var fails: bool, kind: ErrorKind := *, *;
      Act(Open(selected, verify, !fails));
      result := Answer(fails, Opening, kind);
    }

    /** A platform's barrier may report any flash error. */
    method PrepareVerification(selected: WorkerDrive) returns (result: Result<Unit, FlashError>)
      modifies this
      ensures Acted(old(s), s, PrepareReadback(selected, result.Success?))
      ensures result.Success? ==> s.faults == old(s.faults)
      ensures result.Failure? ==> result.error.origin == Barrier && s.faults == old(s.faults) + {FromFlash(result.error)}
    {
      var fails: bool, kind: FlashKind := *, *;
      Act(PrepareReadback(selected, !fails));
      var answer := Answer(fails, Barrier, Flash(kind));
      return if fails then Failure(FlashError(Barrier, kind)) else Success(Unit.Unit);
    }

    method EjectDisk(selected: WorkerDrive) returns (result: Result<Unit, WorkerError>)
      modifies this
      ensures Acted(old(s), s, Eject(selected, result.Success?))
      ensures result.Success? ==> s.faults == old(s.faults)
      ensures result.Failure? ==>
        && result.error.origin == (if Scan(old(s.log)).detached then Ejecting else EjectingAgain)
        && s.faults == old(s.faults) + {result.error}
    {
      var fails: bool, kind: ErrorKind := *, *;
      var origin := if Scan(s.log).detached then Ejecting else EjectingAgain;
      Act(Eject(selected, !fails));
      result := Answer(fails, origin, kind);
    }

    // ---- the open target

    method Rewind() returns (result: Result<Unit, FlashError>)
      modifies this
      ensures Quiet(old(s).(position := s.position), s)
      ensures result.Success? ==> s.position == 0 && s.faults == old(s.faults)
      ensures result.Failure? ==>
        result.error == FlashError(TargetIo, Io) && s.faults == old(s.faults) + {FromFlash(result.error)}
    {
      Elapse();
      var fails: bool := *;
      if fails {
        Fail(FromFlash(FlashError(TargetIo, Io)));
        return Failure(FlashError(TargetIo, Io));
      }
      s := s.(position := 0);
      return Success(Unit.Unit);
    }

    /** Writes all of `chunk` at the position, or fails having written any part of that range. */
    method WriteAll(chunk: seq<byte>) returns (result: Result<Unit, FlashError>)
      requires |chunk| <= MEBIBYTE
      modifies this
      ensures var a := old(s);
        && Acted(a.(position := s.position, device := s.device), s, Write)
        && SameOutside(a.device, s.device, a.position, a.position + |chunk|)
      ensures result.Success? ==>
        && s.position == old(s.position) + |chunk| <= |s.device|
        && s.device[old(s.position)..s.position] == chunk
        && s.faults == old(s.faults)
      ensures result.Failure? ==>
        result.error == FlashError(TargetIo, Io) && s.faults == old(s.faults) + {FromFlash(result.error)}
    {
      hide Overwrite, Scan, Advance;
      var fails: bool, partial: nat, wherever: nat := *, *, *;
      if fails || s.position + |chunk| > |s.device| {
        var device := s.device;
        if partial <= |chunk| && s.position + partial <= |device| {
          device := Overwrite(device, s.position, chunk[..partial]);
        }
        s := s.(device := device, position := wherever);
        Act(Write);
        Fail(FromFlash(FlashError(TargetIo, Io)));
        return Failure(FlashError(TargetIo, Io));
      }
      var device := Overwrite(s.device, s.position, chunk);
      s := s.(device := device, position := s.position + |chunk|);
      Act(Write);
      return Success(Unit.Unit);
    }

    method Flush() returns (result: Result<Unit, FlashError>)
      modifies this
      ensures Quiet(old(s), s)
      ensures result.Success? ==> s.faults == old(s.faults)
      ensures result.Failure? ==>
        result.error == FlashError(TargetIo, Io) && s.faults == old(s.faults) + {FromFlash(result.error)}
    {
      Elapse();
      var fails: bool := *;
      if fails {
        Fail(FromFlash(FlashError(TargetIo, Io)));
        return Failure(FlashError(TargetIo, Io));
      }
      return Success(Unit.Unit);
    }

    /** Reads on from the position. The medium may give back anything. */
    method ReadTarget(limit: nat) returns (result: Result<seq<byte>, FlashError>)
      modifies this
      ensures Acted(old(s).(readback := s.readback, position := s.position), s, Readback)
      ensures result.Success? ==>
        && |result.value| <= limit && s.position == old(s.position) + |result.value|
        && s.readback.bytes == old(s.readback.bytes) + result.value
        && s.readback.offsets == old(s.readback.offsets) + Span(old(s.position), |result.value|)
        && s.readback.dry == (old(s.readback.dry) || result.value == [])
        && s.faults == old(s.faults)
      ensures result.Failure? ==>
        && result.error == FlashError(TargetIo, Io) && s.faults == old(s.faults) + {FromFlash(result.error)}
        && s.readback == old(s.readback).(unwanted := s.readback.unwanted)
      ensures if s.readback.unwanted == old(s.readback.unwanted) then !SkipTouched(old(s))
        else s.readback.unwanted == old(s.readback.unwanted) + 1 && SkipTouched(s)
    {
      hide Scan, Advance;
      Elapse();
      var fails: bool, bytes: seq<byte>, wherever: nat := *, *, *;
      var unwanted := s.readback.unwanted + if SkipTouched(s) then 1 else 0;
      if fails || |bytes| > limit {
        s := s.(readback := s.readback.(unwanted := unwanted), position := wherever);
        Act(Readback);
        Fail(FromFlash(FlashError(TargetIo, Io)));
        return Failure(FlashError(TargetIo, Io));
      }
      var r := Recovered(
        s.readback.bytes + bytes, s.readback.offsets + Span(s.position, |bytes|), unwanted, s.readback.dry || bytes == []);
      s := s.(readback := r, position := s.position + |bytes|);
      Act(Readback);
      return Success(bytes);
    }

    method SyncAll() returns (result: Result<Unit, FlashError>)
      modifies this
      ensures Acted(old(s), s, Sync(result.Success?))
      ensures result.Success? ==> s.faults == old(s.faults)
      ensures result.Failure? ==>
        result.error == FlashError(Syncing, Io) && s.faults == old(s.faults) + {FromFlash(result.error)}
    {
      var fails: bool := *;
      Act(Sync(!fails));
      var answer := Answer(fails, Syncing, Flash(Io));
      return if fails then Failure(FlashError(Syncing, Io)) else Success(Unit.Unit);
    }

    method DropTarget()
      modifies this
      ensures Acted(old(s), s, Close) && s.faults == old(s.faults)
    {
      Act(Close);
    }
  }
}
