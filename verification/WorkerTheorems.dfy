/**
 What the summaries used to state the worker's run mean, in terms of the whole log of actions and
 the whole trace of events.
 */
module WorkerTheorems {
  import opened Common
  import opened WorkerWorld
  import opened WorkerRun

  // ---------------------------------------------------------------- logs

  /** Something raised it, and nothing has cleared it since. */
  ghost predicate Since(log: seq<Action>, raises: Action -> bool, clears: Action -> bool)
  {
    exists i :: 0 <= i < |log| && raises(log[i]) && NoneAfter(log, i, clears)
  }

  predicate NoneAfter(log: seq<Action>, i: int, clears: Action -> bool)
  {
    forall j :: 0 <= j < |log| && i < j ==> !clears(log[j])
  }

  lemma SinceSnoc(log: seq<Action>, x: Action, raises: Action -> bool, clears: Action -> bool)
    ensures Since(log + [x], raises, clears) <==> raises(x) || (Since(log, raises, clears) && !clears(x))
  {
    var more := log + [x];
    if raises(x) {
      assert more[|log|] == x && NoneAfter(more, |log|, clears);
    }
    if Since(log, raises, clears) && !clears(x) {
      var i :| 0 <= i < |log| && raises(log[i]) && NoneAfter(log, i, clears);
      assert more[i] == log[i] && NoneAfter(more, i, clears);
    }
    if Since(more, raises, clears) && !raises(x) {
      var i :| 0 <= i < |more| && raises(more[i]) && NoneAfter(more, i, clears);
      assert i < |log| && more[|log|] == x;
      assert forall j :: 0 <= j < |log| ==> more[j] == log[j];
      assert log[i] == more[i] && NoneAfter(log, i, clears);
    }
  }

  predicate Opens(x: Action)
  {
    x.Open? && x.ok
  }

  /** The target that is found is the selected drive, or it is not. */
  predicate Finds(x: Action)
  {
    x.Inspect? && x.found == Some(x.drive)
  }

  predicate Doubts(x: Action)
  {
    x.Inspect? && x.found != Some(x.drive)
  }

  /** The barrier is asked for and succeeds, or is asked for and fails. */
  predicate Raises(x: Action)
  {
    x.PrepareReadback? && x.ok
  }

  predicate Lowers(x: Action)
  {
    x.PrepareReadback? && !x.ok
  }

  ghost predicate TargetOpen(log: seq<Action>)
  {
    Since(log, (x: Action) => Opens(x), (x: Action) => x == Close)
  }

  ghost predicate ImageVetted(log: seq<Action>)
  {
    Since(log, (x: Action) => x == Vet(true), (x: Action) => x == Vet(false))
  }

  ghost predicate Confirmed(log: seq<Action>)
  {
    Since(log, (x: Action) => Finds(x), (x: Action) => Doubts(x) || x.Unmount?)
  }

  ghost predicate BarrierAsked(log: seq<Action>)
  {
    Since(log, (x: Action) => x.PrepareReadback?, (x: Action) => x == Close)
  }

  ghost predicate Unsynced(log: seq<Action>)
  {
    Since(log, (x: Action) => x == Write, (x: Action) => x.Sync?)
  }

  ghost predicate Unejected(log: seq<Action>)
  {
    Since(log, (x: Action) => x.Unmount?, (x: Action) => x.Eject?)
  }

  ghost predicate Unmounted(log: seq<Action>)
  {
    Since(log, (x: Action) => x.Unmount? && x.ok, (x: Action) => (x.Unmount? && !x.ok) || x.Eject?)
  }

  ghost predicate Barriered(log: seq<Action>)
  {
    Since(log, (x: Action) => Raises(x), (x: Action) => x == Write || Opens(x) || Lowers(x))
  }

  /** The rules of the protocol: what may happen after what. */
  ghost predicate Allowed(before: seq<Action>, action: Action)
  {
    match action
    case Vet(_) | Inspect(_, _) => true
    case Unmount(_, _) => ImageVetted(before) && Confirmed(before) && !TargetOpen(before)
    case Open(_, _, _) => Unmounted(before) && Confirmed(before) && !TargetOpen(before)
    case PrepareReadback(_, _) => TargetOpen(before) && !BarrierAsked(before)
    case Readback => TargetOpen(before) && Barriered(before)
    case Write => TargetOpen(before) && !BarrierAsked(before)
    case Sync(_) | Close => TargetOpen(before)
    case Eject(_, _) => !TargetOpen(before) && !Unsynced(before)
  }

  ghost predicate EveryActionAllowed(log: seq<Action>)
  {
    forall k :: 0 <= k < |log| ==> Allowed(log[..k], log[k])
  }

  lemma FactsSnoc(log: seq<Action>, x: Action)
    ensures TargetOpen(log + [x]) <==> Opens(x) || (TargetOpen(log) && x != Close)
    ensures ImageVetted(log + [x]) <==> x == Vet(true) || (ImageVetted(log) && x != Vet(false))
    ensures Confirmed(log + [x]) <==>
      Finds(x) || (Confirmed(log) && !Doubts(x) && !x.Unmount?)
    ensures BarrierAsked(log + [x]) <==> x.PrepareReadback? || (BarrierAsked(log) && x != Close)
    ensures Unsynced(log + [x]) <==> x == Write || (Unsynced(log) && !x.Sync?)
    ensures Unejected(log + [x]) <==> x.Unmount? || (Unejected(log) && !x.Eject?)
    ensures Unmounted(log + [x]) <==> (x.Unmount? && x.ok) || (Unmounted(log) && !(x.Unmount? && !x.ok) && !x.Eject?)
    ensures Barriered(log + [x]) <==>
      Raises(x) || (Barriered(log) && x != Write && !Opens(x) && !Lowers(x))
  {
    hide Since;
    SinceSnoc(log, x, (y: Action) => Opens(y), (y: Action) => y == Close);
    SinceSnoc(log, x, (y: Action) => y == Vet(true), (y: Action) => y == Vet(false));
    SinceSnoc(log, x, (y: Action) => Finds(y), (y: Action) => Doubts(y) || y.Unmount?);
    SinceSnoc(log, x, (y: Action) => y.PrepareReadback?, (y: Action) => y == Close);
    SinceSnoc(log, x, (y: Action) => y == Write, (y: Action) => y.Sync?);
    SinceSnoc(log, x, (y: Action) => y.Unmount?, (y: Action) => y.Eject?);
    SinceSnoc(log, x, (y: Action) => y.Unmount? && y.ok, (y: Action) => (y.Unmount? && !y.ok) || y.Eject?);
    SinceSnoc(log, x, (y: Action) => Raises(y), (y: Action) => y == Write || Opens(y) || Lowers(y));
  }

  lemma AllowedSnoc(before: seq<Action>, x: Action)
    ensures EveryActionAllowed(before + [x]) <==> EveryActionAllowed(before) && Allowed(before, x)
  {
    hide Allowed;
    var log := before + [x];
    assert log[..|before|] == before && log[|before|] == x;
    assert forall k :: 0 <= k < |before| ==> log[..k] == before[..k] && log[k] == before[k];
  }

  ghost predicate SummaryOf(m: Monitor, log: seq<Action>)
  {
    && (m.vetted <==> ImageVetted(log))
    && (m.confirmed <==> Confirmed(log))
    && (m.open <==> TargetOpen(log))
    && (m.asked <==> BarrierAsked(log))
    && (m.dirty <==> Unsynced(log))
    && (m.detached <==> Unejected(log))
    && (m.ready <==> Unmounted(log))
    && (m.barrier <==> Barriered(log))
  }

  lemma SummaryStep(m: Monitor, log: seq<Action>, x: Action)
    requires SummaryOf(m, log)
    ensures SummaryOf(Effect(m, x), log + [x])
  {
    hide ImageVetted, Confirmed, TargetOpen, BarrierAsked, Unsynced, Unejected, Unmounted, Barriered, Since;
    FactsSnoc(log, x);
  }

  lemma OrderMeaning(m: Monitor, log: seq<Action>, x: Action)
    requires SummaryOf(m, log)
    ensures InOrder(m, x) <==> Allowed(log, x)
  {
    hide ImageVetted, Confirmed, TargetOpen, BarrierAsked, Unsynced, Unejected, Unmounted, Barriered;
  }

  lemma SummaryIgnoresSafe(m: Monitor, log: seq<Action>, safe: bool)
    requires SummaryOf(m, log)
    ensures SummaryOf(m.(safe := safe), log)
  {
    hide ImageVetted, Confirmed, TargetOpen, BarrierAsked, Unsynced, Unejected, Unmounted, Barriered;
  }

  /**
   The running summary says exactly what the log says, and `safe` that every action was allowed
   where it happened.
   */
  lemma {:induction false} ScanMeaning(log: seq<Action>)
    ensures SummaryOf(Scan(log), log)
    ensures Scan(log).safe <==> EveryActionAllowed(log)
  {
    hide SummaryOf, EveryActionAllowed, Allowed, Effect, InOrder;
    if log == [] {
      NothingYet();
    } else {
      var before, x := log[..|log| - 1], log[|log| - 1];
      assert log == before + [x];
      ScanMeaning(before);
      SummaryStep(Scan(before), before, x);
      OrderMeaning(Scan(before), before, x);
      SummaryIgnoresSafe(Effect(Scan(before), x), log, Scan(log).safe);
      AllowedSnoc(before, x);
    }
  }

  lemma NothingYet()
    ensures SummaryOf(CALM, []) && EveryActionAllowed([])
  {
  }

  /** Every call that names a drive names this one. */
  predicate NamesOnly(log: seq<Action>, drive: WorkerDrive)
  {
    forall i :: 0 <= i < |log| ==>
      match log[i]
      case Inspect(d, _) => d == drive
      case Unmount(d, _) => d == drive
      case Open(d, _, _) => d == drive
      case PrepareReadback(d, _) => d == drive
      case Eject(d, _) => d == drive
      case _ => true
  }

  /** Every open asks for a target that can, or need not, be read back. */
  predicate WishesOnly(log: seq<Action>, verify: bool)
  {
    forall i :: 0 <= i < |log| && log[i].Open? ==> log[i].verify == verify
  }

  predicate FoundAnother(log: seq<Action>)
  {
    exists i :: 0 <= i < |log| && log[i].Inspect? && log[i].found.Some? && log[i].found.value != log[i].drive
  }

  lemma NamesSnoc(log: seq<Action>, x: Action, drive: WorkerDrive, verify: bool)
    ensures NamesOnly(log + [x], drive) <==> NamesOnly(log, drive) && NamesOnly([x], drive)
    ensures WishesOnly(log + [x], verify) <==> WishesOnly(log, verify) && WishesOnly([x], verify)
    ensures FoundAnother(log + [x]) <==> FoundAnother(log) || FoundAnother([x])
  {
    var more := log + [x];
    assert more[|log|] == x && [x][0] == x;
    assert forall i :: 0 <= i < |log| ==> more[i] == log[i];
  }

  /** What the calls named, and whether another drive was ever found, in terms of the whole log. */
  lemma {:induction false} AimMeaning(log: seq<Action>, drive: WorkerDrive, verify: bool)
    ensures Scan(log).aim == Nothing || Scan(log).aim == Only(drive) <==> NamesOnly(log, drive)
    ensures Scan(log).wish == Nothing || Scan(log).wish == Only(verify) <==> WishesOnly(log, verify)
    ensures Scan(log).mistaken <==> FoundAnother(log)
  {
    hide NamesOnly, WishesOnly, FoundAnother, InOrder;
    if log == [] {
      NothingNamed(drive, verify);
    } else {
      var before, x := log[..|log| - 1], log[|log| - 1];
      assert log == before + [x];
      AimMeaning(before, drive, verify);
      NamesSnoc(before, x, drive, verify);
      AimOfOne(x, drive, verify);
    }
  }

  lemma NothingNamed(drive: WorkerDrive, verify: bool)
    ensures NamesOnly([], drive) && WishesOnly([], verify) && !FoundAnother([])
  {
  }

  lemma AimOfOne(x: Action, drive: WorkerDrive, verify: bool)
    ensures NamesOnly([x], drive) <==> (Targeted(x) ==> x.drive == drive)
    ensures WishesOnly([x], verify) <==> (x.Open? ==> x.verify == verify)
    ensures FoundAnother([x]) <==> Mistakes(x)
  {
    assert [x][0] == x;
  }

  // ---------------------------------------------------------------- runs

  /** However a run ended, every call it made was for the drive of its job, opened as the job wished. */
  lemma CallsNameTheJob(b: State, job: Job)
    requires Bounded(b, job)
    ensures NamesOnly(b.log, job.drive) && WishesOnly(b.log, job.verify)
  {
    hide Scan, NamesOnly, WishesOnly;
    AimMeaning(b.log, job.drive, job.verify);
  }

  /**
   Nothing stood in the way of the run that ended in `b`: no operation gave an error, the sink took
   every event, no cancel marker appeared, only the selected drive was ever found, the image file gave
   the announced image and the medium gave back what was written.
   */
  predicate NothingWrong(sha: seq<byte> -> Digest, job: Job, b: State)
  {
    && b.faults == {} && b.refused == []
    && (job.cancelPath.Some? ==> job.cancelPath.value !in b.files)
    && (forall i :: 0 <= i < |b.log| && b.log[i].Inspect? && b.log[i].found.Some? ==> b.log[i].found.value == b.log[i].drive)
    && |b.source.bytes| <= job.rawSize
    && (b.source.ended ==> |b.source.bytes| == job.rawSize && EqIgnoreAsciiCase(sha(b.source.bytes), job.expectedRawSha256))
    && !b.readback.dry
    && (|b.readback.bytes| == job.rawSize ==> sha(b.readback.bytes) == sha(b.source.bytes))
  }

  /**
   A run of an acceptable job succeeds unless something was wrong; and then it has verified the target
   if the job wished for it and the skip marker did not appear.
   */
  method CleanRunSucceeds(w: World, job: Job)
    returns (result: Result<FlashReport, WorkerError>, ghost stopped: Option<WorkerError>)
    requires Fresh(w.s) && JobAccepted(w.validDrive, job)
    modifies w
    ensures NothingWrong(w.sha, job, w.s) ==>
      && result.Success? && Completed(w.sha, job, result.value, w.s)
      && (result.value.verified ==> job.verify)
      && (job.verify && !Raised(w.s, job.skipVerificationPath) ==> result.value.verified)
    ensures result.Failure? ==> stopped.Some? && !NothingWrong(w.sha, job, w.s)
  {
    hide Scan, Trace, JobAccepted;
    result, stopped := RunAndReport(w, job);
    if result.Failure? {
      AimMeaning(w.s.log, job.drive, job.verify);
      FailureHasCause(w.sha, job, stopped.value, result.error, w.render, w.s);
    }
  }

  lemma FailureHasCause(sha: seq<byte> -> Digest, job: Job, stopped: WorkerError, error: WorkerError, render: Render, b: State)
    requires Told(stopped, error, render, b, job.cancelPath) && Justified(sha, job, stopped, b)
    requires Scan(b.log).mistaken <==> FoundAnother(b.log)
    ensures !NothingWrong(sha, job, b)
  {
    hide Scan, Trace, EqIgnoreAsciiCase;
  }

  lemma LaterClears(log: seq<Action>, i: nat, raises: Action -> bool, clears: Action -> bool)
    requires i < |log| && raises(log[i]) && !Since(log, raises, clears)
    ensures exists j :: i < j < |log| && clears(log[j])
  {
    assert !NoneAfter(log, i, clears);
  }

  /** No write and no newly opened target in between. */
  predicate UndisturbedBetween(log: seq<Action>, b: nat, r: nat)
    requires r <= |log|
  {
    forall j :: b < j < r ==> log[j] != Write && !Opens(log[j])
  }

  /**
   The order of every run: whatever was unmounted is ejected later; at each eject everything written
   before it has been synced and whatever was opened before it has been closed; and every readback
   has a successful barrier before it on the same target with no write in between.
   */
  lemma {:induction false} RunOrder(log: seq<Action>)
    requires Scan(log).safe && !Scan(log).detached
    ensures forall i :: 0 <= i < |log| && log[i].Unmount? ==> exists j :: i < j < |log| && log[j].Eject?
    ensures forall e, i :: 0 <= i < e < |log| && log[e].Eject? && log[i] == Write ==>
      exists j :: i < j < e && log[j].Sync?
    ensures forall e, i :: 0 <= i < e < |log| && log[e].Eject? && Opens(log[i]) ==>
      exists j :: i < j < e && log[j] == Close
    ensures forall r :: 0 <= r < |log| && log[r] == Readback ==>
      exists b :: 0 <= b < r && Raises(log[b]) && UndisturbedBetween(log, b, r)
  {
    ScanMeaning(log);
    forall i | 0 <= i < |log| && log[i].Unmount?
      ensures exists j :: i < j < |log| && log[j].Eject?
    {
      LaterClears(log, i, (y: Action) => y.Unmount?, (y: Action) => y.Eject?);
    }
    forall e, i | 0 <= i < e < |log| && log[e].Eject? && log[i] == Write
      ensures exists j :: i < j < e && log[j].Sync?
    {
      SyncedBefore(log, e, i);
    }
    forall e, i | 0 <= i < e < |log| && log[e].Eject? && Opens(log[i])
      ensures exists j :: i < j < e && log[j] == Close
    {
      ClosedBefore(log, e, i);
    }
    forall r | 0 <= r < |log| && log[r] == Readback
      ensures exists b :: 0 <= b < r && Raises(log[b]) && UndisturbedBetween(log, b, r)
    {
      BarrierBefore(log, r);
    }
  }

  lemma SyncedBefore(log: seq<Action>, e: nat, i: nat)
    requires i < e < |log| && log[e].Eject? && log[i] == Write && EveryActionAllowed(log)
    ensures exists j :: i < j < e && log[j].Sync?
  {
    assert Allowed(log[..e], log[e]);
    LaterClears(log[..e], i, (y: Action) => y == Write, (y: Action) => y.Sync?);
    var j :| i < j < e && log[..e][j].Sync?;
    assert log[j].Sync?;
  }

  lemma ClosedBefore(log: seq<Action>, e: nat, i: nat)
    requires i < e < |log| && log[e].Eject? && Opens(log[i]) && EveryActionAllowed(log)
    ensures exists j :: i < j < e && log[j] == Close
  {
    assert Allowed(log[..e], log[e]);
    LaterClears(log[..e], i, (y: Action) => Opens(y), (y: Action) => y == Close);
    var j :| i < j < e && log[..e][j] == Close;
    assert log[j] == Close;
  }

  lemma BarrierBefore(log: seq<Action>, r: nat)
    requires r < |log| && log[r] == Readback && EveryActionAllowed(log)
    ensures exists b :: 0 <= b < r && Raises(log[b]) && UndisturbedBetween(log, b, r)
  {
    var before := log[..r];
    assert Allowed(before, log[r]) && Barriered(before);
    var clears := (y: Action) => y == Write || Opens(y) || Lowers(y);
    var b :| 0 <= b < |before| && Raises(before[b]) && NoneAfter(before, b, clears);
    forall j | b < j < r
      ensures log[j] != Write && !Opens(log[j])
    {
      assert !clears(before[j]);
    }
    assert Raises(log[b]);
  }

  // ---------------------------------------------------------------- reacting to a cancel

  predicate Transfer(action: Action)
  {
    action.Write? || action.Readback?
  }

  /** How far an action is from the last one before the next checkpoint. */
  function Distance(action: Action): nat
  {
    match action
    case Inspect(_, _) => 3
    case Open(_, _, _) => 2
    case PrepareReadback(_, _) => 1
    case _ => 0
  }

  lemma {:induction false} LateChain(late: seq<Action>, i: nat, j: nat)
    requires Reacted(late) && i <= j < |late|
    ensures Distance(late[j]) + (j - i) <= Distance(late[i])
    ensures i < j ==> late[j].Open? || late[j].Write? || late[j].PrepareReadback? || late[j].Readback?
    decreases j - i
  {
    if i < j {
      LateChain(late, i, j - 1);
      assert Follows(late[j - 1], late[j - 1 + 1]);
    }
  }

  /**
   The bounded reaction to a cancel: of what a run still does after the marker appeared, besides
   bringing itself to an end, there are at most four actions, at most one of them moves data, and a
   check of the image, an unmount or a write is the last.
   */
  lemma BoundedReaction(late: seq<Action>)
    requires Reacted(late)
    ensures |late| <= 4
    ensures forall i, j :: 0 <= i < j < |late| ==> !(Transfer(late[i]) && Transfer(late[j]))
    ensures forall i :: 0 <= i < |late| && (late[i].Vet? || late[i].Unmount?) ==> |late| == 1
    ensures forall i :: 0 <= i < |late| && Transfer(late[i]) ==> i == |late| - 1
  {
    if late != [] {
      LateChain(late, 0, |late| - 1);
    }
    forall i, j | 0 <= i < j < |late|
      ensures Distance(late[i]) > 0 && !late[j].Vet? && !late[j].Unmount?
    {
      LateChain(late, i, j);
    }
  }

  // ---------------------------------------------------------------- the report of a failure

  /** A failed run returns the error that stopped it exactly when the sink did not refuse its report. */
  lemma ErrorKeptExactly(stopped: WorkerError, error: WorkerError, render: Render, b: State, cancelPath: Option<Path>)
    requires Told(stopped, error, render, b, cancelPath)
    ensures var report := FailedEvent(stopped, render);
      && (error == stopped && LastEvent(b, report) && Trace(b.events) == Stopped <==>
            forall i :: 0 <= i < |b.refused| ==> b.refused[i].event != report)
      && (error != stopped ==> b.refused != [] && b.refused[|b.refused| - 1] == Refusal(report, error))
    ensures (forall i :: 0 <= i < |b.refused| ==> b.refused[i].event != FailedEvent(stopped, render)) ==>
      var last := b.events[|b.events| - 1];
      && last.message == Some(render(stopped)) && last.verified == None
      && last.phase == if stopped.kind == RunCancelled then CancelledPhase else FailedPhase
  {
    var report := FailedEvent(stopped, render);
    if LastRefused(b, report) {
      var last := b.refused[|b.refused| - 1];
      assert last == Refusal(report, error);
    }
  }

  /**
   And refusals do hide errors: whenever the run of an acceptable job meets a cancel marker that was
   there first and a sink that takes no report of a failure, as when the disk with the progress file
   is full, the error it returns is the sink's and not the one that stopped it.
   */
  method RefusedReportHidesError(w: World, job: Job)
    returns (result: Result<FlashReport, WorkerError>, ghost stopped: Option<WorkerError>)
    requires Fresh(w.s) && JobAccepted(w.validDrive, job)
    requires Raised(w.s, job.cancelPath)
    requires forall error :: w.refuses(FailedEvent(error, w.render))
    modifies w
    ensures result.Failure? && result.error.origin == Sink
    ensures stopped.Some? && stopped.value.origin != Sink
  {
    hide Scan, Trace;
    result, stopped := RunAndReport(w, job);
  }

  // ---------------------------------------------------------------- digests that do not collide

  predicate NoCollision(sha: seq<byte> -> Digest, a: seq<byte>, b: seq<byte>)
  {
    EqIgnoreAsciiCase(sha(a), sha(b)) ==> a == b
  }

  /**
   Where digests do not collide, a successful run has put exactly the expected image at the start of
   the device, and a verified one has read exactly that image back from there.
   */
  lemma CompletedMeansImage(sha: seq<byte> -> Digest, job: Job, report: FlashReport, b: State, image: seq<byte>)
    requires Completed(sha, job, report, b)
    requires EqIgnoreAsciiCase(sha(image), job.expectedRawSha256)
    requires NoCollision(sha, b.device[..job.rawSize], image) && NoCollision(sha, b.readback.bytes, image)
    ensures |image| == job.rawSize <= |b.device| && b.device[..|image|] == image
    ensures var last := b.events[|b.events| - 1];
      last.phase == CompletedPhase && last.rawSha256 == Some(sha(image)) && last.verified == Some(report.verified)
      && last.bytesProcessed == last.totalBytes == Some(|image|)
    ensures report.verified ==> b.readback.bytes == image && b.readback.offsets == Span(0, |image|)
  {
    hide Scan, Trace;
    var delivered := b.device[..job.rawSize];
    assert Matches(sha, delivered, job);
    assert EqIgnoreAsciiCase(sha(delivered), sha(image));
  }

  // ---------------------------------------------------------------- traces

  function Phases(events: seq<Event>): seq<Phase>
  {
    seq(|events|, i requires 0 <= i < |events| => events[i].phase)
  }

  /** `images` image reports, `writes` write reports and `readbacks` verification reports. */
  datatype Counts = Counts(images: nat, writes: nat, readbacks: nat)

  function Selecting(n: Counts): seq<Phase>
  {
    Repeat(ValidatingImage, n.images)
  }

  function Reopening(n: Counts): seq<Phase>
  {
    Selecting(n) + [ValidatingTarget, UnmountingPhase, ValidatingTarget]
  }

  function WrittenAndRead(n: Counts): seq<Phase>
  {
    Reopening(n) + Repeat(WritingPhase, n.writes) + Repeat(VerifyingPhase, n.readbacks)
  }

  /** The full run: ValidatingImage+ ValidatingTarget Unmounting ValidatingTarget Writing+ Verifying* Syncing Ejecting Completed. */
  function FullRun(n: Counts): seq<Phase>
  {
    WrittenAndRead(n) + [SyncingPhase, EjectingPhase, CompletedPhase]
  }

  /** What a trace that has come to `stage` looks like. */
  function Progress(stage: Stage, n: Counts): seq<Phase>
  {
    match stage
    case Start => []
    case Imaging(_, _) => Selecting(n)
    case Selected => Selecting(n) + [ValidatingTarget]
    case Detaching => Selecting(n) + [ValidatingTarget, UnmountingPhase]
    case Reselected => Reopening(n)
    case Writing(_, _) => WrittenAndRead(n)
    case Verifying(_, _) => WrittenAndRead(n)
    case Flushing(_, _) => WrittenAndRead(n) + [SyncingPhase]
    case Releasing(_, _) => WrittenAndRead(n) + [SyncingPhase, EjectingPhase]
    case _ => FullRun(n)
  }

  predicate CountsFit(stage: Stage, n: Counts)
  {
    && (stage == Start <==> n.images == 0)
    && (stage.Writing? || stage.Verifying? || stage.Flushing? || stage.Releasing? || stage.Done? <==> n.writes > 0)
    && (stage.Verifying? ==> n.readbacks > 0)
    && (stage.Writing? || n.writes == 0 ==> n.readbacks == 0)
  }

  function OneMore(stage: Stage, n: Counts): Counts
  {
    match stage
    case Imaging(_, _) => n.(images := n.images + 1)
    case Writing(_, _) => n.(writes := n.writes + 1)
    case Verifying(_, _) => n.(readbacks := n.readbacks + 1)
    case _ => n
  }

  lemma RepeatMore<T>(item: T, count: nat)
    ensures Repeat(item, count + 1) == Repeat(item, count) + [item]
  {
  }

  lemma CountsStep(stage: Stage, e: Event, n: Counts)
    requires Running(stage) && CountsFit(stage, n)
    requires Running(Follow(stage, e)) || Follow(stage, e).Done?
    ensures CountsFit(Follow(stage, e), OneMore(Follow(stage, e), n))
  {
  }

  lemma PhasesStep(stage: Stage, e: Event, n: Counts)
    requires Running(stage) && CountsFit(stage, n)
    requires Running(Follow(stage, e)) || Follow(stage, e).Done?
    ensures Progress(Follow(stage, e), OneMore(Follow(stage, e), n)) == Progress(stage, n) + [e.phase]
  {
    RepeatMore(ValidatingImage, n.images);
    RepeatMore(WritingPhase, n.writes);
    RepeatMore(VerifyingPhase, n.readbacks);
  }

  lemma OnlyRunningGoesOn(stage: Stage, e: Event)
    requires Running(Follow(stage, e)) || Follow(stage, e).Done?
    ensures Running(stage)
  {
  }

  lemma NothingReported(n: Counts)
    requires n == Counts(0, 0, 0)
    ensures CountsFit(Start, n) && Progress(Start, n) == []
  {
  }

  lemma {:induction false} TraceProgress(events: seq<Event>) returns (n: Counts)
    requires Running(Trace(events)) || Trace(events).Done?
    ensures CountsFit(Trace(events), n) && Phases(events) == Progress(Trace(events), n)
  {
    hide Follow, Progress, CountsFit, OneMore;
    if events == [] {
      n := Counts(0, 0, 0);
      NothingReported(n);
    } else {
      var before, e := events[..|events| - 1], events[|events| - 1];
      OnlyRunningGoesOn(Trace(before), e);
      n := TraceProgress(before);
      CountsStep(Trace(before), e, n);
      PhasesStep(Trace(before), e, n);
      n := OneMore(Trace(events), n);
      assert Phases(events) == Phases(before) + [e.phase];
    }
  }

  /** A prefix of some full run. */
  ghost predicate PartOfARun(phases: seq<Phase>)
  {
    exists n: Counts :: n.images > 0 && n.writes > 0 && phases <= FullRun(n)
  }

  lemma ProgressIsPart(stage: Stage, n: Counts)
    requires CountsFit(stage, n) && Running(stage)
    ensures PartOfARun(Progress(stage, n)) && CompletedPhase !in Progress(stage, n)
  {
    var full := if stage == Start then Counts(1, 1, 0) else if n.writes == 0 then Counts(n.images, 1, 0) else n;
    assert Progress(stage, n) <= FullRun(full);
  }

  /**
   Every trace is a prefix of a full run; a stopped one is a proper prefix and then one report of the
   failure or cancel; and only a full run is done.
   */
  lemma {:induction false} TraceShape(events: seq<Event>)
    requires !Trace(events).Broken?
    ensures Running(Trace(events)) ==> PartOfARun(Phases(events)) && CompletedPhase !in Phases(events)
    ensures Trace(events) == Stopped ==>
      && events != []
      && PartOfARun(Phases(events[..|events| - 1])) && CompletedPhase !in Phases(events[..|events| - 1])
      && events[|events| - 1].phase in {FailedPhase, CancelledPhase}
    ensures Trace(events) == Done ==> exists n: Counts :: n.images > 0 && n.writes > 0 && Phases(events) == FullRun(n)
  {
    hide FullRun, Progress;
    if Running(Trace(events)) {
      var n := TraceProgress(events);
      ProgressIsPart(Trace(events), n);
    } else if Trace(events).Stopped? {
      StoppedFrom(events);
      var before := events[..|events| - 1];
      var n := TraceProgress(before);
      ProgressIsPart(Trace(before), n);
    } else {
      var n := TraceProgress(events);
      assert Phases(events) == FullRun(n) by { DoneIsFull(n); }
    }
  }

  lemma DoneIsFull(n: Counts)
    ensures Progress(Done, n) == FullRun(n)
  {
  }

  lemma {:induction false} StoppedFrom(events: seq<Event>)
    requires Trace(events) == Stopped
    ensures events != [] && Running(Trace(events[..|events| - 1]))
    ensures events[|events| - 1].phase in {FailedPhase, CancelledPhase}
  {
  }

  /**
   Within a stage the reported byte counts rise strictly towards one total, the first image report
   carrying none; and the stages of staging and writing end with a report of the whole total.
   */
  predicate Rises(a: Event, b: Event)
  {
    && (a.phase == b.phase ==>
          && b.bytesProcessed.Some? && b.totalBytes.Some? && b.bytesProcessed.value <= b.totalBytes.value
          && (a.bytesProcessed.Some? ==> a.bytesProcessed.value < b.bytesProcessed.value && a.totalBytes == b.totalBytes)
          && (a.bytesProcessed.None? ==> a.phase == ValidatingImage))
    && ((a.phase == ValidatingImage || a.phase == WritingPhase) && a.phase != b.phase
        && b.phase != FailedPhase && b.phase != CancelledPhase ==>
          a.bytesProcessed.Some? && a.bytesProcessed == a.totalBytes)
  }

  /** The stage of a trace remembers the byte count of the last report. */
  predicate Remembers(stage: Stage, e: Event)
  {
    match stage
    case Imaging(last, total) => e.phase == ValidatingImage && (if last == -1 then e.bytesProcessed == None else e.bytesProcessed == Some(last) && e.totalBytes == Some(total))
    case Writing(written, total) => 0 < written && e.phase == WritingPhase && e.bytesProcessed == Some(written) && e.totalBytes == Some(total)
    case Verifying(written, read) => 0 < read && e.phase == VerifyingPhase && e.bytesProcessed == Some(read) && e.totalBytes == Some(written)
    case Selected | Reselected => e.phase == ValidatingTarget
    case Detaching => e.phase == UnmountingPhase
    case Flushing(_, _) => e.phase == SyncingPhase
    case Releasing(_, _) => e.phase == EjectingPhase
    case Done => e.phase == CompletedPhase
    case _ => true
  }

  lemma {:induction false} BytesRise(events: seq<Event>)
    requires !Trace(events).Broken?
    ensures forall i :: 0 <= i < |events| - 1 ==> Rises(events[i], events[i + 1])
    ensures events != [] ==> Remembers(Trace(events), events[|events| - 1])
  {
    if events != [] {
      var before, e := events[..|events| - 1], events[|events| - 1];
      BytesRise(before);
      if before != [] {
        var last := before[|before| - 1];
        assert Rises(last, e);
        assert forall i :: 0 <= i < |before| ==> events[i] == before[i];
      }
    }
  }

  /** Some report said that all `count` bytes were read back. */
  ghost predicate ReportedReadBack(events: seq<Event>, count: nat)
  {
    exists i :: 0 <= i < |events| && events[i].phase == VerifyingPhase
      && events[i].bytesProcessed == events[i].totalBytes == Some(count)
  }

  lemma ReportsStay(events: seq<Event>, e: Event, count: nat)
    requires ReportedReadBack(events, count)
    ensures ReportedReadBack(events + [e], count)
  {
    var i :| 0 <= i < |events| && events[i].phase == VerifyingPhase
      && events[i].bytesProcessed == events[i].totalBytes == Some(count);
    assert (events + [e])[i] == events[i];
  }

  lemma {:induction false} CompleteWasReported(events: seq<Event>)
    ensures var stage := Trace(events);
      (stage.Flushing? || stage.Releasing?) && stage.complete ==> ReportedReadBack(events, stage.written)
  {
    var stage := Trace(events);
    if (stage.Flushing? || stage.Releasing?) && stage.complete {
      var before, e := events[..|events| - 1], events[|events| - 1];
      assert events == before + [e];
      if stage.Flushing? {
        BytesRise(before);
        assert Remembers(Trace(before), before[|before| - 1]);
      } else {
        CompleteWasReported(before);
      }
      ReportsStay(before, e, stage.written);
    }
  }

  /** A run reports itself as verified only after a report that as many bytes were read back as it reports written. */
  lemma {:induction false} VerifiedWasReported(events: seq<Event>)
    requires Trace(events) == Done
    ensures events != [] && events[|events| - 1].bytesProcessed.Some?
    ensures events[|events| - 1].verified == Some(true) ==>
      ReportedReadBack(events, events[|events| - 1].bytesProcessed.value)
  {
    var before, e := events[..|events| - 1], events[|events| - 1];
    assert events == before + [e];
    CompleteWasReported(before);
    if e.verified == Some(true) {
      ReportsStay(before, e, e.bytesProcessed.value);
    }
  }
}
