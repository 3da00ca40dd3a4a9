/**
 How the unprivileged side turns a worker's events and exit into its own result (the end of
 `run_pipeline` in src/pipeline.rs).
 */
module PipelineOutcome {
  import opened Common
  import opened WorkerWorld
  import opened FlashEngine
  import opened WorkerRun
  import opened WorkerTheorems
  import DiskIdentity
  import Download
  import ProgressFraming

  type RunnerError = ProgressFraming.RunnerError

  datatype PipelineError =
    | PipelineCancelled
    | Runner(error: RunnerError)
    | WorkerFailed(message: string)
    | MissingTerminalEvent

  function MessageOf(e: Event): string
  {
    if e.message.Some? then e.message.value else "unknown worker failure"
  }

  /** The last terminal event, which is what the pipeline's callback keeps. */
  function LastTerminal(events: seq<Event>): Option<Event>
  {
    if events == [] then None
    else
      var last := events[|events| - 1];
      if Terminal(last) then Some(last) else LastTerminal(events[..|events| - 1])
  }

  class TerminalObserver {
    var terminal: Option<Event>

    constructor ()
      ensures terminal == None
    {
      terminal := None;
    }

    method OnProgress(e: Event)
      modifies this
      ensures terminal == if Terminal(e) then Some(e) else old(terminal)
    {
      if Terminal(e) {
        terminal := Some(e);
      }
    }
  }

  /**
   The runner delivers `delivered` and returns `worker`; `cancelled` is the control's flag afterwards.
   The answer is what `PipelineReport.verified` becomes.
   */
  method ConcludeRun(delivered: seq<Event>, worker: Result<Unit, RunnerError>, cancelled: bool)
    returns (result: Result<bool, PipelineError>)
    ensures cancelled ==> result == Failure(PipelineCancelled)
    ensures !cancelled && worker.Failure? ==> result == Failure(Runner(worker.error))
    ensures !cancelled && worker.Success? ==> result == Judged(LastTerminal(delivered))
    ensures result == Concluded(delivered, worker, cancelled)
  {
    var observer := new TerminalObserver();
    for i := 0 to |delivered|
      invariant observer.terminal == LastTerminal(delivered[..i])
    {
      observer.OnProgress(delivered[i]);
      assert delivered[..i + 1][..i] == delivered[..i];
    }
    assert delivered[..|delivered|] == delivered;
    if cancelled {
      return Failure(PipelineCancelled);
    }
    if worker.Failure? {
      return Failure(Runner(worker.error));
    }
    match observer.terminal
    case None => return Failure(MissingTerminalEvent);
    case Some(e) =>
      if e.phase == CompletedPhase {
        return if e.verified.Some? then Success(e.verified.value) else Failure(MissingTerminalEvent);
      } else if e.phase == CancelledPhase {
        return Failure(PipelineCancelled);
      } else if e.phase == FailedPhase {
        return Failure(WorkerFailed(MessageOf(e)));
      } else {
        return Failure(MissingTerminalEvent);
      }
  }

  /** What a terminal event means when nothing else went wrong. */
  function Judged(terminal: Option<Event>): Result<bool, PipelineError>
  {
    match terminal
    case None => Failure(MissingTerminalEvent)
    case Some(e) =>
      match e.phase
      case CompletedPhase => if e.verified.Some? then Success(e.verified.value) else Failure(MissingTerminalEvent)
      case CancelledPhase => Failure(PipelineCancelled)
      case FailedPhase => Failure(WorkerFailed(MessageOf(e)))
      case _ => Failure(MissingTerminalEvent)
  }

  /** The answer of `ConcludeRun` as a function, for the theorems below. */
  function Concluded(delivered: seq<Event>, worker: Result<Unit, RunnerError>, cancelled: bool): Result<bool, PipelineError>
  {
    if cancelled then Failure(PipelineCancelled)
    else if worker.Failure? then Failure(Runner(worker.error))
    else Judged(LastTerminal(delivered))
  }

  /** The whole way from the running worker to the pipeline's answer. */
  method FollowWorker(
    tail: ProgressFraming.ProgressTail<Event>, host: ProgressFraming.Host, polls: seq<ProgressFraming.Bytes>, last: ProgressFraming.Bytes,
    status: nat, cancelled: bool)
    returns (result: Result<bool, PipelineError>, ghost delivered: seq<Event>, ghost worker: Result<Unit, RunnerError>, ghost watch: ProgressFraming.Watch)
    requires tail.pending == []
    modifies tail, host
    ensures watch.disturbed ==> tail.faults + host.faults > old(tail.faults + host.faults)
    ensures ProgressFraming.Monitored(polls, last, status, tail.decode, delivered, worker, watch)
    ensures result == Concluded(delivered, worker, cancelled)
  {
    hide ProgressFraming.Monitored, Concluded;
    var events, answer;
    events, answer, watch := ProgressFraming.MonitorRun(tail, host, polls, last, status);
    delivered, worker := events, answer;
    result := ConcludeRun(events, answer, cancelled);
  }

  // ---------------------------------------------------------------- traces and terminal events

  lemma {:induction false} RunningHasNoTerminal(events: seq<Event>)
    requires Running(Trace(events))
    ensures LastTerminal(events) == None
  {
    if events != [] {
      RunningHasNoTerminal(events[..|events| - 1]);
    }
  }

  lemma {:induction false} PrefixRuns(events: seq<Event>, count: nat)
    requires !Trace(events).Broken? && count < |events|
    ensures Running(Trace(events[..count]))
    decreases |events|
  {
    if count < |events| - 1 {
      PrefixRuns(events[..|events| - 1], count);
      assert events[..|events| - 1][..count] == events[..count];
    }
  }

  /** A finished run of the worker: its job, what it returned and stopped for, and the state it left. */
  datatype WorkerOutcome = WorkerOutcome(
    job: Job, result: Result<FlashReport, WorkerError>, stopped: Option<WorkerError>, end: State)

  /** What `RunAndReport` promises of such a run. */
  ghost predicate WorkerEnded(sha: seq<byte> -> Digest, render: Render, run: WorkerOutcome)
  {
    && Bounded(run.end, run.job)
    && match run.result
       case Success(report) => Completed(sha, run.job, report, run.end)
       case Failure(error) =>
         run.stopped.Some? && Told(run.stopped.value, error, render, run.end, run.job.cancelPath)
  }

  /** The worker, as the pipeline sees it once it has ended. */
  method RunWorker(w: World, job: Job) returns (result: Result<FlashReport, WorkerError>, ghost run: WorkerOutcome)
    requires Fresh(w.s)
    modifies w
    ensures run.job == job && run.result == result && run.end == w.s && run.end.control == old(w.s.control)
    ensures WorkerEnded(w.sha, w.render, run)
  {
    hide Completed, Told, Scan, Trace, SameOutside;
    ghost var stopped;
    result, stopped := RunAndReport(w, job);
    run := WorkerOutcome(job, result, stopped, w.s);
  }

  /** The worker process exits with zero exactly when its run returned a report. */
  predicate ExitOf(run: WorkerOutcome, status: nat)
  {
    status == 0 <==> run.result.Success?
  }

  /** What the pipeline would say if it repeated the worker's own verdict. */
  function WorkerVerdict(render: Render, run: WorkerOutcome): Result<bool, PipelineError>
  {
    if run.result.Success? then Success(run.result.value.verified)
    else if run.stopped.Some? && run.stopped.value.kind == RunCancelled then Failure(PipelineCancelled)
    else Failure(WorkerFailed(if run.stopped.Some? then render(run.stopped.value) else ""))
  }

  lemma PrimaryIsRunning(error: WorkerError, stage: Stage)
    requires Primary(error, stage)
    ensures Running(stage)
  {
  }

  /**
   What the terminal events say: whatever part of the events arrived, they report a success only if
   the worker succeeded, with the same `verified`; and when all arrived they report it exactly then.
   */
  lemma {:induction false} PipelineAgreesWithWorker(
    sha: seq<byte> -> Digest, render: Render, run: WorkerOutcome, delivered: seq<Event>)
    requires WorkerEnded(sha, render, run)
    requires delivered <= run.end.events
    ensures Judged(LastTerminal(delivered)).Success? ==>
      run.result.Success? && Judged(LastTerminal(delivered)).value == run.result.value.verified
    ensures delivered == run.end.events && run.result.Success? ==>
      Judged(LastTerminal(delivered)) == Success(run.result.value.verified)
  {
    hide Scan, Trace, Delivered, Primary, Honest, RefusalOf;
    var events := run.end.events;
    if run.result.Failure? && LastRefused(run.end, FailedEvent(run.stopped.value, render)) {
      PrimaryIsRunning(run.stopped.value, Trace(events));
    }
    if |delivered| < |events| {
      PrefixRuns(events, |delivered|);
      assert delivered == events[..|delivered|];
      RunningHasNoTerminal(delivered);
    } else {
      assert delivered == events;
      if run.result.Failure? && LastRefused(run.end, FailedEvent(run.stopped.value, render)) {
        RunningHasNoTerminal(events);
      }
    }
  }

  /** A worker's finished run, its progress file as the polls cut it, its exit, and how the runner followed it. */
  ghost predicate Followed(
    sha: seq<byte> -> Digest, render: Render, run: WorkerOutcome,
    polls: seq<ProgressFraming.Bytes>, last: ProgressFraming.Bytes, status: nat,
    encode: Event -> ProgressFraming.Bytes, decode: ProgressFraming.Decoder<Event>,
    delivered: seq<Event>, worker: Result<Unit, RunnerError>, watch: ProgressFraming.Watch)
  {
    && WorkerEnded(sha, render, run) && ExitOf(run, status)
    && ProgressFraming.Faithful(run.end.events, encode, decode)
    && ProgressFraming.Concat(polls) + last == ProgressFraming.Emitted(run.end.events, encode)
    && ProgressFraming.Monitored(polls, last, status, decode, delivered, worker, watch)
  }

  /** No chunk was too big and nothing but the file and the exit status stood in the way. */
  ghost predicate Undisturbed(polls: seq<ProgressFraming.Bytes>, last: ProgressFraming.Bytes, watch: ProgressFraming.Watch)
  {
    && !watch.disturbed && |last| <= 1_048_576
    && forall i :: 0 <= i < |polls| ==> |polls[i]| <= 1_048_576
  }

  /**
   Whatever went wrong while following it: what was delivered is a first part of the worker's events,
   a reported success is the worker's, and a failed worker is a cancel or a runner error. So the
   branches for a failed worker and for a missing terminal event are never reached.
   */
  lemma {:induction false} PipelineSafeThroughFile(
    sha: seq<byte> -> Digest, render: Render, run: WorkerOutcome,
    polls: seq<ProgressFraming.Bytes>, last: ProgressFraming.Bytes, status: nat,
    encode: Event -> ProgressFraming.Bytes, decode: ProgressFraming.Decoder<Event>,
    delivered: seq<Event>, worker: Result<Unit, RunnerError>, watch: ProgressFraming.Watch, cancelled: bool)
    requires Followed(sha, render, run, polls, last, status, encode, decode, delivered, worker, watch)
    ensures delivered <= run.end.events
    ensures worker.Success? ==> run.result.Success? && delivered == run.end.events
    ensures Concluded(delivered, worker, cancelled) ==
      if cancelled then Failure(PipelineCancelled)
      else if worker.Failure? then Failure(Runner(worker.error))
      else Success(run.result.value.verified)
  {
    hide WorkerEnded, Judged, LastTerminal;
    hide ProgressFraming.Monitored, ProgressFraming.Faithful, ProgressFraming.Emitted, ProgressFraming.Concat;
    ProgressFraming.ReceivedIsPrefix(run.end.events, polls, last, status, encode, decode, delivered, worker, watch);
    PipelineAgreesWithWorker(sha, render, run, delivered);
    if worker.Success? {
      ProgressFraming.OkMeansAll(run.end.events, polls, last, status, encode, decode, delivered, worker, watch);
    }
  }

  /**
   When the pipeline repeats the worker's verdict: while its own cancel flag is down, exactly if the
   run succeeded, since a failed one is only ever its exit status; while the flag is up, exactly if
   the run stopped for a cancel.
   */
  lemma {:induction false} PipelineVerdictExactly(
    sha: seq<byte> -> Digest, render: Render, run: WorkerOutcome,
    polls: seq<ProgressFraming.Bytes>, last: ProgressFraming.Bytes, status: nat,
    encode: Event -> ProgressFraming.Bytes, decode: ProgressFraming.Decoder<Event>,
    delivered: seq<Event>, worker: Result<Unit, RunnerError>, watch: ProgressFraming.Watch, cancelled: bool)
    requires Followed(sha, render, run, polls, last, status, encode, decode, delivered, worker, watch)
    requires Undisturbed(polls, last, watch)
    ensures !cancelled && run.result.Failure? ==>
      Concluded(delivered, worker, cancelled) == Failure(Runner(ProgressFraming.Failed(status)))
    ensures Concluded(delivered, worker, cancelled) == WorkerVerdict(render, run) <==>
      if cancelled then run.result.Failure? && run.stopped.Some? && run.stopped.value.kind == RunCancelled
      else run.result.Success?
  {
    hide WorkerEnded, Concluded, ProgressFraming.Faithful, ProgressFraming.Emitted, ProgressFraming.Concat;
    hide ProgressFraming.Answer, ProgressFraming.Received, ProgressFraming.DrainAll;
    ProgressFraming.AnswerIsStatus(run.end.events, polls, last, status, encode, decode);
    PipelineSafeThroughFile(sha, render, run, polls, last, status, encode, decode, delivered, worker, watch, cancelled);
  }

  /**
   A run whose failure is lost: the image file was changed between the check at the start of the
   worker and the run. The worker reports the text of that error, and the pipeline, following it
   without any disturbance, answers with the exit status alone.
   */
  lemma {:induction false} FailedRunLosesItsVerdict(
    sha: seq<byte> -> Digest, render: Render, job: Job, status: nat,
    encode: Event -> ProgressFraming.Bytes, decode: ProgressFraming.Decoder<Event>)
    returns (run: WorkerOutcome, last: ProgressFraming.Bytes)
    requires status != 0
    requires ProgressFraming.Faithful([FailedEvent(WorkerError(ImageFile, InvalidJob), render)], encode, decode)
    ensures var answer := Failure(ProgressFraming.Failed(status));
      && Followed(sha, render, run, [], last, status, encode, decode, run.end.events, answer, ProgressFraming.Watch(0, true, false))
      && Concluded(run.end.events, answer, false) == Failure(Runner(ProgressFraming.Failed(status)))
      && WorkerVerdict(render, run) == Failure(WorkerFailed(render(WorkerError(ImageFile, InvalidJob))))
  {
    var stopped := WorkerError(ImageFile, InvalidJob);
    var report := FailedEvent(stopped, render);
    var events := [report];
    var end := State([], [], events, [], [], 0, {}, MarkerPaths("", ""), {stopped}, NOTHING_GIVEN, NOTHING_READ);
    run := WorkerOutcome(job, Failure(stopped), Some(stopped), end);
    last := ProgressFraming.Emitted(events, encode);
    assert WorkerEnded(sha, render, run) by { ReportedAtOnce(stopped, render, end, job.cancelPath); }
    assert Followed(sha, render, run, [], last, status, encode, decode, events, Failure(ProgressFraming.Failed(status)), ProgressFraming.Watch(0, true, false)) by {
      OneRecordFollowed(report, status, encode, decode);
    }
  }

  lemma ReportedAtOnce(stopped: WorkerError, render: Render, end: State, cancelPath: Option<Path>)
    requires stopped == WorkerError(ImageFile, InvalidJob)
    requires end.events == [FailedEvent(stopped, render)] && end.refused == [] && stopped in end.faults
    ensures Told(stopped, stopped, render, end, cancelPath)
  {
    assert end.events[..|end.events| - 1] == [];
    assert Trace([]) == Start;
  }

  lemma {:induction false} OneRecordFollowed(
    report: Event, status: nat, encode: Event -> ProgressFraming.Bytes, decode: ProgressFraming.Decoder<Event>)
    requires status != 0 && ProgressFraming.Faithful([report], encode, decode)
    ensures var last := ProgressFraming.Emitted([report], encode);
      && ProgressFraming.Concat([]) + last == last
      && ProgressFraming.Monitored(
           [], last, status, decode, [report], Failure(ProgressFraming.Failed(status)), ProgressFraming.Watch(0, true, false))
  {
    var events, last := [report], ProgressFraming.Emitted([report], encode);
    var record := encode(events[0]);
    assert events[1..] == [] && ProgressFraming.Emitted(events[1..], encode) == [];
    assert last == record + [ProgressFraming.NEWLINE] + [];
    assert |last| <= ProgressFraming.MAX_PROGRESS_READ;
    hide ProgressFraming.Finished, ProgressFraming.Emitted, ProgressFraming.Faithful;
    ProgressFraming.FramingRoundTrip(events, [], last, encode, decode);
  }

  // ---------------------------------------------------------------- from the prepared image to the medium

  /** The job the pipeline writes for a prepared image. */
  function BuildWorkerJob(
    drive: WorkerDrive, prepared: Download.PreparedImage, verify: bool, cancelPath: Path, skipPath: Path): Job
    requires prepared.bytes < U64_LIMIT
  {
    Job(JOB_SCHEMA_VERSION, drive, prepared.bytes, verify, prepared.rawSha256, Some(cancelPath), Some(skipPath))
  }

  // Text of ASCII bytes as the characters it stands for.
  function Chars(t: DiskIdentity.Text): string
  {
    seq(|t|, i requires 0 <= i < |t| => t[i] as char)
  }

  lemma HexDigitInEitherCase(c: char, d: byte)
    requires DiskIdentity.IsHexDigit(d) && Lower(c) == Lower(d as char)
    ensures IsHexDigit(c)
  {
  }

  lemma LowerHexDigit(c: char)
    requires IsHexDigit(c)
    ensures var d := Lower(c) as byte; DiskIdentity.IsHexDigit(d) && DiskIdentity.Lower(d) == d && Lower(d as char) == Lower(c)
  {
  }

  /** The digests that a job may announce are exactly the texts of 32 bytes, in either case. */
  lemma {:induction false} DigestTextExactly(value: string)
    ensures ValidSha256(value) <==> exists bytes: seq<byte> :: |bytes| == 32 && EqIgnoreAsciiCase(value, Chars(DiskIdentity.HexEncode(bytes)))
  {
    if ValidSha256(value) {
      forall i | 0 <= i < |value|
        ensures Lower(value[i]) < 128 as char
      {
        LowerHexDigit(value[i]);
      }
      var t: DiskIdentity.Text := seq(|value|, i requires 0 <= i < |value| => Lower(value[i]) as byte);
      forall i | 0 <= i < |t|
        ensures DiskIdentity.IsHexDigit(t[i]) && DiskIdentity.Lower(t[i]) == t[i] && Lower(t[i] as char) == Lower(value[i])
      {
        LowerHexDigit(value[i]);
      }
      DiskIdentity.HexOnly(t);
      assert EqIgnoreAsciiCase(value, Chars(DiskIdentity.HexEncode(DiskIdentity.HexDecode(t))));
    }
    if bytes: seq<byte> :| |bytes| == 32 && EqIgnoreAsciiCase(value, Chars(DiskIdentity.HexEncode(bytes))) {
      var t := DiskIdentity.HexEncode(bytes);
      forall i | 0 <= i < |value|
        ensures IsHexDigit(value[i])
      {
        HexDigitInEitherCase(value[i], t[i]);
      }
    }
  }

  /**
   The job that the pipeline builds for a disk that discovery offers and an image whose digest is
   that of a prepared one is a job the worker accepts exactly if the image is not empty and fits.
   */
  lemma {:induction false} BuiltJobAccepted(
    d: DiskIdentity.DiskSnapshot, hash: DiskIdentity.Hash, prepared: Download.PreparedImage, digest: seq<byte>,
    verify: bool, cancelPath: Path, skipPath: Path)
    requires DiskIdentity.RemovableCard(d) && d.number < U32_LIMIT && |hash(DiskIdentity.Preimage(d))| == 32
    requires prepared.bytes < U64_LIMIT && |digest| == 32 && prepared.rawSha256 == Chars(DiskIdentity.HexEncode(digest))
    ensures
      JobAccepted(
        DiskIdentity.ValidWorkerDrive, BuildWorkerJob(DiskIdentity.OfferOf(d, hash), prepared, verify, cancelPath, skipPath))
      <==> 0 < prepared.bytes <= d.size
  {
    hide DiskIdentity.ValidWorkerDrive, DiskIdentity.ParseSelected, ValidSha256, EqIgnoreAsciiCase;
    var drive := DiskIdentity.OfferOf(d, hash);
    DiskIdentity.ParseOffer(d, hash);
    DiskIdentity.ParseAgreesWithValidity(drive);
    assert EqIgnoreAsciiCase(prepared.rawSha256, Chars(DiskIdentity.HexEncode(digest))) by {
      EqualToItself(prepared.rawSha256);
    }
    DigestTextExactly(prepared.rawSha256);
  }

  lemma EqualToItself(text: string)
    ensures EqIgnoreAsciiCase(text, text)
  {
  }

  /** The digest does not collide between the image and what ended up on, or came back from, the medium. */
  predicate DistinctDigests(sha: seq<byte> -> Digest, raw: seq<byte>, b: State)
  {
    && (|raw| <= |b.device| ==> NoCollision(sha, b.device[..|raw|], raw))
    && NoCollision(sha, b.readback.bytes, raw)
  }

  /**
   End to end: when the pipeline reports success for a prepared image, whatever part of the worker's
   events it saw, that image is on the medium; if it reports it as verified, the user asked for that
   and exactly the image was read back from there after the barrier; if it does not although the user
   asked for it, the control's skip file was touched; and nothing but the end of the run started after
   the control's cancel file was. `run.end.control` are the files that the control was given.
   */
  lemma {:induction false} PipelineDelivers(
    sha: seq<byte> -> Digest, render: Render, raw: seq<byte>, drive: WorkerDrive, verify: bool,
    cancelPath: Path, skipPath: Path, run: WorkerOutcome,
    delivered: seq<Event>, worker: Result<Unit, RunnerError>, cancelled: bool)
    requires |raw| < U64_LIMIT
    requires run.job == BuildWorkerJob(drive, Download.PreparedImage(|raw|, sha(raw)), verify, cancelPath, skipPath)
    requires run.end.control == MarkerPaths(cancelPath, skipPath)
    requires WorkerEnded(sha, render, run)
    requires delivered <= run.end.events && Concluded(delivered, worker, cancelled).Success?
    requires DistinctDigests(sha, raw, run.end)
    ensures |raw| <= |run.end.device| && run.end.device[..|raw|] == raw
    ensures Concluded(delivered, worker, cancelled).value ==>
      && verify && Barriered(run.end.log)
      && run.end.readback.bytes == raw && run.end.readback.offsets == Span(0, |raw|)
    ensures verify && !Concluded(delivered, worker, cancelled).value ==> skipPath in run.end.files
    ensures run.end.late == []
  {
    hide Scan, Trace, Judged, LastTerminal, Barriered, Span, Bounded;
    PipelineAgreesWithWorker(sha, render, run, delivered);
    CompletedMeansImage(sha, run.job, run.result.value, run.end, raw);
    ScanMeaning(run.end.log);
  }

  /**
   Whatever becomes of the worker that the pipeline started: it touches no drive but the chosen one; of
   what it starts after the control's cancel file was touched, other than its end, there are at most
   four actions and at most one transfer, the last; after the control's skip file was touched at most
   one more read starts; and it stops for a cancel only if the control's cancel file was touched.
   */
  lemma {:induction false} PipelineReacts(
    sha: seq<byte> -> Digest, render: Render, drive: WorkerDrive, prepared: Download.PreparedImage, verify: bool,
    cancelPath: Path, skipPath: Path, run: WorkerOutcome)
    requires prepared.bytes < U64_LIMIT
    requires run.job == BuildWorkerJob(drive, prepared, verify, cancelPath, skipPath)
    requires run.end.control == MarkerPaths(cancelPath, skipPath)
    requires WorkerEnded(sha, render, run)
    ensures NamesOnly(run.end.log, drive) && WishesOnly(run.end.log, verify)
    ensures run.end.late != [] ==> cancelPath in run.end.files
    ensures |run.end.late| <= 4
    ensures forall i :: 0 <= i < |run.end.late| && Transfer(run.end.late[i]) ==> i == |run.end.late| - 1
    ensures run.end.readback.unwanted <= 1
    ensures run.result.Failure? && run.stopped == Some(Verdict(RunCancelled)) ==> cancelPath in run.end.files
  {
    hide Scan, Trace, NamesOnly, WishesOnly, Completed, Primary, RefusalOf;
    CallsNameTheJob(run.end, run.job);
    BoundedReaction(run.end.late);
  }
}
