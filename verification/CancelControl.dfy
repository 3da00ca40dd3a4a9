/**
 Cancelling and skipping from other threads (`PipelineControl` and `RunGuard` in src/pipeline.rs) as
 interleaved atomic steps of any number of calls and any number of attempted runs.

 A call stores its flag, looks under the lock for published marker paths, and touches the marker it
 found. A run publishes its paths under the lock and then checks the flags. Every lock, touch and
 file operation may also fail.
 */
module CancelControl {
  import opened Common

  type CallId = nat
  type RunId = nat

  datatype Kind = Cancel | Skip

  // ---------------------------------------------------------------- state

  /** `Returned` remembers what the call had found, which is only used in invariants. */
  datatype CallPc = Entered | Stored | Looked(found: Option<RunId>) | Returned(ok: bool, found: Option<RunId>)

  datatype Call = Call(kind: Kind, pc: CallPc)

  datatype Outcome = Succeeded | Cancelled | Failed

  /**
   Where a run is: before the compare-exchange; refused; holding the guard; inside
   `register_markers` about to check or to touch for one kind; registered; in the runner; with its
   result decided; with its directory removed; with its paths withdrawn; and done.
   */
  datatype RunPc =
    | Requested | Refused | Began
    | Checking(kind: Kind) | Touching(kind: Kind)
    | Registered | Launched
    | Decided(outcome: Outcome) | Removed(outcome: Outcome) | Withdrawn(outcome: Outcome) | Ended(outcome: Outcome)

  /** `saw` is what the run's check of each flag read, if it got that far. */
  datatype Run = Run(pc: RunPc, announced: bool, registered: bool, sawCancel: Option<bool>, sawSkip: Option<bool>)
  {
    function Saw(kind: Kind): Option<bool>
    {
      if kind == Cancel then sawCancel else sawSkip
    }

    function Noted(kind: Kind, value: bool): Run
    {
      if kind == Cancel then this.(sawCancel := Some(value)) else this.(sawSkip := Some(value))
    }

    predicate HoldsGuard()
    {
      !pc.Requested? && !pc.Refused? && !pc.Ended?
    }

    predicate Undecided()
    {
      !pc.Decided? && !pc.Removed? && !pc.Withdrawn? && !pc.Ended?
    }

    /** The paths the run announced are still in place. */
    predicate Announces()
    {
      announced && !pc.Withdrawn? && !pc.Ended?
    }
  }

  datatype State = State(
    active: bool,
    flags: set<Kind>,
    published: Option<RunId>,
    directories: set<RunId>,
    files: set<(RunId, Kind)>,
    calls: map<CallId, Call>,
    runs: map<RunId, Run>)
  {
    function SetCall(c: CallId, pc: CallPc): State
      requires c in calls
    {
      this.(calls := calls[c := calls[c].(pc := pc)])
    }

    function SetRun(r: RunId, run: Run): State
    {
      this.(runs := runs[r := run])
    }

    function GoTo(r: RunId, pc: RunPc): State
      requires r in runs
    {
      SetRun(r, runs[r].(pc := pc))
    }
  }

  const INITIAL := State(false, {}, None, {}, {}, map[], map[])

  const NEW_RUN := Run(Requested, false, false, None, None)

  // ---------------------------------------------------------------- steps

  datatype CallMove =
    | Enter(c: CallId, kind: Kind)
    | Store(c: CallId)
    | Look(c: CallId)
    | CallFails(c: CallId, created: bool)
    | CallTouches(c: CallId)

  datatype RunMove =
    | Request(r: RunId)
    | Begin(r: RunId)
    | Abandon(r: RunId, outcome: Outcome, created: bool)
    | Publish(r: RunId)
    | Check(r: RunId)
    | RunTouches(r: RunId)
    | Launch(r: RunId)
    | RunnerTouches(r: RunId)
    | Finish(r: RunId, outcome: Outcome)
    | RemoveDirectory(r: RunId)
    | Withdraw(r: RunId, poisoned: bool)
    | Release(r: RunId)

  /** The next place after the check and touch for one kind. */
  function After(kind: Kind): RunPc
  {
    if kind == Cancel then Checking(Skip) else Registered
  }

  function Arrive(run: Run, pc: RunPc): Run
  {
    run.(pc := pc, registered := pc.Registered?)
  }

  ghost predicate CallAt(s: State, c: CallId, pc: CallPc)
  {
    c in s.calls && s.calls[c].pc == pc
  }

  ghost predicate RunAt(s: State, r: RunId, pc: RunPc)
  {
    r in s.runs && s.runs[r].pc == pc
  }

  ghost predicate CallStep(s: State, t: State, step: CallMove)
  {
    match step
    case Enter(c, kind) => c !in s.calls && t == s.(calls := s.calls[c := Call(kind, Entered)])
    case Store(c) =>
      CallAt(s, c, Entered) && t == s.SetCall(c, Stored).(flags := s.flags + {s.calls[c].kind})
    case Look(c) => CallAt(s, c, Stored) && t == s.SetCall(c, Looked(s.published))
    case CallFails(c, created) =>
      // The lock is poisoned, or touching fails before or after the file exists.
      && c in s.calls
      && (match s.calls[c].pc
          case Stored => !created && t == s.SetCall(c, Returned(false, None))
          case Looked(Some(r)) =>
            && (created ==> r in s.directories)
            && t == s.SetCall(c, Returned(false, Some(r))).(
                 files := if created then s.files + {(r, s.calls[c].kind)} else s.files)
          case _ => false)
    case CallTouches(c) =>
      && c in s.calls
      && (match s.calls[c].pc
          case Looked(None) => t == s.SetCall(c, Returned(true, None))
          case Looked(Some(r)) =>
            && r in s.directories
            && t == s.SetCall(c, Returned(true, Some(r))).(files := s.files + {(r, s.calls[c].kind)})
          case _ => false)
  }

  ghost predicate RunStep(s: State, t: State, step: RunMove)
  {
    match step
    case Request(r) => r !in s.runs && r !in s.directories && t == s.SetRun(r, NEW_RUN)
    case Begin(r) =>
      && RunAt(s, r, Requested)
      && if s.active then t == s.GoTo(r, Refused)
         else t == s.GoTo(r, Began).(active := true, directories := s.directories + {r})
    case Abandon(r, outcome, created) =>
      // Any early return while holding the guard, also a failing publication or touch.
      && r in s.runs && outcome != Succeeded
      && var pc := s.runs[r].pc;
         && (pc.Began? || pc.Touching? || pc.Registered?)
         && (created ==> pc.Touching? && r in s.directories)
         && t == s.GoTo(r, Decided(outcome)).(
              files := if created then s.files + {(r, pc.kind)} else s.files)
    case Publish(r) =>
      && RunAt(s, r, Began)
      && t == s.SetRun(r, s.runs[r].(pc := Checking(Cancel), announced := true)).(published := Some(r))
    case Check(r) =>
      && r in s.runs && s.runs[r].pc.Checking?
      && var kind := s.runs[r].pc.kind;
         var value := kind in s.flags;
         t == s.SetRun(r, Arrive(s.runs[r].Noted(kind, value), if value then Touching(kind) else After(kind)))
    case RunTouches(r) =>
      && r in s.runs && s.runs[r].pc.Touching? && r in s.directories
      && var kind := s.runs[r].pc.kind;
         t == s.SetRun(r, Arrive(s.runs[r], After(kind))).(files := s.files + {(r, kind)})
    case Launch(r) => RunAt(s, r, Registered) && Cancel !in s.flags && t == s.GoTo(r, Launched)
    case RunnerTouches(r) =>
      RunAt(s, r, Launched) && r in s.directories && t == s.(files := s.files + {(r, Cancel)})
    case Finish(r, outcome) =>
      // The check after the runner returned comes before the runner's own result.
      && RunAt(s, r, Launched)
      && t == s.GoTo(r, Decided(if Cancel in s.flags then Cancelled else outcome))
    case RemoveDirectory(r) =>
      && r in s.runs && s.runs[r].pc.Decided?
      && t == s.GoTo(r, Removed(s.runs[r].pc.outcome)).(
           directories := s.directories - {r},
           files := set f | f in s.files && f.0 != r)
    case Withdraw(r, poisoned) =>
      && r in s.runs && s.runs[r].pc.Removed?
      && t == s.GoTo(r, Withdrawn(s.runs[r].pc.outcome)).(published := if poisoned then s.published else None)
    case Release(r) =>
      && r in s.runs && s.runs[r].pc.Withdrawn?
      && t == s.GoTo(r, Ended(s.runs[r].pc.outcome)).(active := false)
  }

  ghost predicate Next(s: State, t: State)
  {
    || (exists move :: CallStep(s, t, move))
    || (exists move :: RunStep(s, t, move))
  }

  ghost predicate Behaviour(states: seq<State>)
  {
    && states != [] && states[0] == INITIAL
    && forall i :: 0 <= i < |states| - 1 ==> Next(states[i], states[i + 1])
  }

  // ---------------------------------------------------------------- safety

  /** A call that has returned Ok is known to every registered run that still has its directory. */
  ghost predicate NoLostRequest(s: State)
  {
    forall c, r ::
      c in s.calls && r in s.runs && s.calls[c].pc.Returned? && s.calls[c].pc.ok
      && s.runs[r].registered && r in s.directories
      ==> (r, s.calls[c].kind) in s.files
  }

  ghost predicate OneGuard(s: State)
  {
    forall q, r :: q in s.runs && r in s.runs && s.runs[q].HoldsGuard() && s.runs[r].HoldsGuard() ==> q == r
  }

  // ---------------------------------------------------------------- invariant

  predicate HasLooked(pc: CallPc)
  {
    pc.Looked? || (pc.Returned? && (pc.ok || pc.found.Some?))
  }

  function Found(pc: CallPc): Option<RunId>
  {
    if pc.Looked? || pc.Returned? then pc.found else None
  }

  ghost predicate Announced(s: State, r: RunId)
  {
    r in s.runs && s.runs[r].announced
  }

  ghost predicate CallInv(s: State, c: CallId)
    requires c in s.calls
  {
    var call := s.calls[c];
    && (!call.pc.Entered? ==> call.kind in s.flags)
    && (forall r :: Found(call.pc) == Some(r) ==> Announced(s, r))
    && (forall r ::
          call.pc == Returned(true, Some(r)) && r in s.directories ==> (r, call.kind) in s.files)
  }

  ghost predicate RunInv(s: State, r: RunId)
    requires r in s.runs
  {
    var run := s.runs[r];
    && (run.HoldsGuard() ==> s.active)
    && (run.Announces() ==> s.published == Some(r))
    && (run.pc in {Requested, Refused, Began} ==> !run.announced)
    && (run.pc == Checking(Cancel) ==> run.sawCancel == None && run.sawSkip == None)
    && (run.pc == Touching(Cancel) ==> run.sawCancel == Some(true) && run.sawSkip == None)
    && (run.pc == Checking(Skip) ==> run.sawCancel.Some? && run.sawSkip == None)
    && (run.pc == Touching(Skip) ==> run.sawCancel.Some? && run.sawSkip == Some(true))
    && (run.pc.Checking? || run.pc.Touching? || run.pc.Registered? || run.pc.Launched? ==> run.announced)
    && (run.sawCancel.Some? || run.sawSkip.Some? ==> run.announced)
    && (run.registered ==> run.sawCancel.Some? && run.sawSkip.Some?)
    && (run.registered ==> run.pc in {Registered, Launched} || !run.Undecided())
    && (run.pc.Removed? || run.pc.Withdrawn? || run.pc.Ended? ==> r !in s.directories)
    && (forall kind :: TouchedInv(s, r, kind))
  }

  /** A flag the run saw has its marker, once the run is past touching it. */
  ghost predicate TouchedInv(s: State, r: RunId, kind: Kind)
    requires r in s.runs
  {
    var run := s.runs[r];
    run.Saw(kind) == Some(true) && r in s.directories
    && (run.registered || run.pc.Checking? || (run.pc.Touching? && run.pc.kind != kind))
    ==> (r, kind) in s.files
  }

  /** If the run missed a flag, every call of that kind looked after the run had published. */
  ghost predicate MissedInv(s: State, r: RunId, c: CallId)
    requires r in s.runs && c in s.calls
  {
    var run, call := s.runs[r], s.calls[c];
    run.Saw(call.kind) == Some(false) && run.Announces() && HasLooked(call.pc) ==> call.pc.found == Some(r)
  }

  ghost predicate Inv(s: State)
  {
    && OneGuard(s)
    && (forall c :: c in s.calls ==> CallInv(s, c))
    && (forall r :: r in s.runs ==> RunInv(s, r))
    && (forall r, c :: r in s.runs && c in s.calls ==> MissedInv(s, r, c))
    && (s.published.Some? ==> Announced(s, s.published.value))
    && (s.active ==> exists r :: r in s.runs && s.runs[r].HoldsGuard())
    && (forall r :: r in s.directories ==> r in s.runs)
  }

  // Each part of the invariant is kept for its own reasons; the lemmas below assume only those.

  lemma CallStepKeepsCall(s: State, t: State, step: CallMove, c: CallId)
    requires CallStep(s, t, step) && c in t.calls
    requires c in s.calls ==> CallInv(s, c)
    requires s.published.Some? ==> Announced(s, s.published.value)
    ensures CallInv(t, c)
  {
    forall r | Found(t.calls[c].pc) == Some(r)
      ensures Announced(t, r)
    {
      assert Announced(s, r);
    }
  }

  lemma CallStepKeepsRun(s: State, t: State, step: CallMove, r: RunId)
    requires CallStep(s, t, step) && r in s.runs && RunInv(s, r)
    ensures r in t.runs && t.runs[r] == s.runs[r] && RunInv(t, r)
  {
    assert s.files <= t.files;
    forall kind
      ensures TouchedInv(t, r, kind)
    {
      assert TouchedInv(s, r, kind);
    }
  }

  lemma CallStepKeepsMissed(s: State, t: State, step: CallMove, r: RunId, c: CallId)
    requires CallStep(s, t, step) && r in s.runs && c in t.calls && RunInv(s, r)
    requires c in s.calls ==> MissedInv(s, r, c)
    ensures r in t.runs && MissedInv(t, r, c)
  {
  }

  lemma CallStepKeepsInv(s: State, t: State, step: CallMove)
    requires Inv(s) && CallStep(s, t, step)
    ensures Inv(t)
  {
    hide CallInv, RunInv, MissedInv, CallStep;
    CallStepFrame(s, t, step);
    forall c | c in t.calls
      ensures CallInv(t, c)
    {
      CallStepKeepsCall(s, t, step, c);
    }
    forall r | r in t.runs
      ensures RunInv(t, r)
    {
      CallStepKeepsRun(s, t, step, r);
    }
    forall r, c | r in t.runs && c in t.calls
      ensures MissedInv(t, r, c)
    {
      CallStepKeepsMissed(s, t, step, r, c);
    }
  }

  lemma CallStepFrame(s: State, t: State, step: CallMove)
    requires CallStep(s, t, step)
    ensures t.runs == s.runs && t.active == s.active && t.published == s.published && t.directories == s.directories
    ensures s.flags <= t.flags && s.files <= t.files
  {
  }

  lemma RunStepKeepsCall(s: State, t: State, step: RunMove, c: CallId)
    requires RunStep(s, t, step) && c in s.calls && CallInv(s, c)
    requires step.r in s.runs ==> RunInv(s, step.r)
    ensures CallInv(t, c)
  {
    forall r | Found(t.calls[c].pc) == Some(r)
      ensures Announced(t, r)
    {
      assert Announced(s, r);
    }
  }

  lemma RunStepKeepsOthers(s: State, t: State, step: RunMove, r: RunId)
    requires RunStep(s, t, step) && r in s.runs && r != step.r && RunInv(s, r)
    requires step.r in s.runs ==> RunInv(s, step.r)
    requires step.r in s.runs && s.runs[step.r].HoldsGuard() ==> !s.runs[r].HoldsGuard()
    ensures RunInv(t, r)
  {
    assert t.runs[r] == s.runs[r];
    forall kind
      ensures TouchedInv(t, r, kind)
    {
      assert TouchedInv(s, r, kind);
    }
  }

  lemma RunStepKeepsItself(s: State, t: State, step: RunMove)
    requires RunStep(s, t, step)
    requires step.r in s.runs ==> RunInv(s, step.r)
    ensures step.r in t.runs && RunInv(t, step.r)
  {
    var r := step.r;
    if r in s.runs {
      forall kind
        ensures TouchedInv(t, r, kind)
      {
        assert TouchedInv(s, r, kind);
      }
    }
  }

  lemma RunStepKeepsMissed(s: State, t: State, step: RunMove, r: RunId, c: CallId)
    requires RunStep(s, t, step) && r in t.runs && c in s.calls && CallInv(s, c)
    requires r in s.runs ==> MissedInv(s, r, c) && RunInv(s, r)
    ensures c in t.calls && MissedInv(t, r, c)
  {
  }

  /** What a step of run `me` leaves alone, and how it moves the guard. */
  ghost predicate RunFrame(s: State, t: State, me: RunId)
  {
    && t.calls == s.calls && t.flags == s.flags
    && t.runs.Keys == s.runs.Keys + {me}
    && (forall r :: r in s.runs && r != me ==> t.runs[r] == s.runs[r])
    && t.directories <= s.directories + {me}
    && (me in s.runs && s.runs[me].announced ==> t.runs[me].announced)
    && (t.published == s.published || t.published == None || (t.published == Some(me) && t.runs[me].announced))
    && GuardMoves(s.active, t.active, me in s.runs && s.runs[me].HoldsGuard(), t.runs[me].HoldsGuard())
  }

  predicate GuardMoves(wasActive: bool, isActive: bool, held: bool, holds: bool)
  {
    && (holds ==> isActive && (!wasActive || held))
    && (held && !holds ==> !isActive)
    && (isActive && !holds ==> wasActive)
  }

  lemma RunStepFrame(s: State, t: State, step: RunMove)
    requires RunStep(s, t, step)
    requires step.r in s.runs ==> RunInv(s, step.r)
    ensures RunFrame(s, t, step.r)
  {
  }

  lemma GuardKept(s: State, t: State, me: RunId)
    requires RunFrame(s, t, me) && OneGuard(s)
    requires s.active ==> exists r :: r in s.runs && s.runs[r].HoldsGuard()
    requires forall r :: r in s.runs && s.runs[r].HoldsGuard() ==> s.active
    ensures OneGuard(t)
    ensures t.active ==> exists r :: r in t.runs && t.runs[r].HoldsGuard()
  {
    if t.active {
      if t.runs[me].HoldsGuard() {
        assert me in t.runs;
      } else {
        var r :| r in s.runs && s.runs[r].HoldsGuard();
        assert t.runs[r].HoldsGuard();
      }
    }
  }

  lemma RegistersKept(s: State, t: State, me: RunId)
    requires RunFrame(s, t, me)
    requires forall r :: r in s.directories ==> r in s.runs
    requires s.published.Some? ==> Announced(s, s.published.value)
    ensures forall r :: r in t.directories ==> r in t.runs
    ensures t.published.Some? ==> Announced(t, t.published.value)
  {
  }

  lemma HoldersAreActive(s: State)
    requires forall r :: r in s.runs ==> RunInv(s, r)
    ensures forall r :: r in s.runs && s.runs[r].HoldsGuard() ==> s.active
  {
    forall r | r in s.runs && s.runs[r].HoldsGuard()
      ensures s.active
    {
      assert RunInv(s, r);
    }
  }

  lemma RunStepKeepsRuns(s: State, t: State, step: RunMove)
    requires Inv(s) && RunStep(s, t, step) && RunFrame(s, t, step.r)
    ensures forall r :: r in t.runs ==> RunInv(t, r)
  {
    var me := step.r;
    hide CallInv, RunInv, MissedInv, RunStep;
    forall r | r in t.runs
      ensures RunInv(t, r)
    {
      if r == me {
        RunStepKeepsItself(s, t, step);
      } else {
        RunStepKeepsOthers(s, t, step, r);
      }
    }
  }

  lemma RunStepKeepsCalls(s: State, t: State, step: RunMove)
    requires Inv(s) && RunStep(s, t, step) && RunFrame(s, t, step.r)
    ensures forall c :: c in t.calls ==> CallInv(t, c)
    ensures forall r, c :: r in t.runs && c in t.calls ==> MissedInv(t, r, c)
  {
    hide CallInv, RunInv, MissedInv, RunStep, OneGuard;
    forall c | c in t.calls
      ensures CallInv(t, c)
    {
      RunStepKeepsCall(s, t, step, c);
    }
    forall r, c | r in t.runs && c in t.calls
      ensures MissedInv(t, r, c)
    {
      RunStepKeepsMissed(s, t, step, r, c);
    }
  }

  lemma RunStepKeepsInv(s: State, t: State, step: RunMove)
    requires Inv(s) && RunStep(s, t, step)
    ensures Inv(t)
  {
    hide CallInv, RunInv, MissedInv, RunStep, RunFrame;
    var me := step.r;
    RunStepFrame(s, t, step);
    RunStepKeepsRuns(s, t, step);
    RunStepKeepsCalls(s, t, step);
    HoldersAreActive(s);
    GuardKept(s, t, me);
    RegistersKept(s, t, me);
  }

  lemma RequestReachesRun(s: State, c: CallId, r: RunId)
    requires c in s.calls && r in s.runs && CallInv(s, c) && RunInv(s, r) && MissedInv(s, r, c)
    requires s.calls[c].pc.Returned? && s.calls[c].pc.ok && s.runs[r].registered && r in s.directories
    ensures (r, s.calls[c].kind) in s.files
  {
    var call, run := s.calls[c], s.runs[r];
    assert TouchedInv(s, r, call.kind);
    assert run.Announces() && HasLooked(call.pc);
    match run.Saw(call.kind) {
      case Some(saw) =>
        if !saw {
          assert call.pc == Returned(true, Some(r));
        }
    }
  }

  lemma InvImpliesSafety(s: State)
    requires Inv(s)
    ensures NoLostRequest(s) && OneGuard(s)
  {
    hide CallInv, RunInv, MissedInv;
    forall c, r | c in s.calls && r in s.runs && s.calls[c].pc.Returned? && s.calls[c].pc.ok
      && s.runs[r].registered && r in s.directories
      ensures (r, s.calls[c].kind) in s.files
    {
      RequestReachesRun(s, c, r);
    }
  }

  lemma NextKeepsInv(s: State, t: State)
    requires Inv(s) && Next(s, t)
    ensures Inv(t)
  {
    hide Inv, CallStep, RunStep;
    if move :| CallStep(s, t, move) {
      CallStepKeepsInv(s, t, move);
    } else {
      var move :| RunStep(s, t, move);
      RunStepKeepsInv(s, t, move);
    }
  }

  lemma {:induction false} BehaviourKeepsInv(states: seq<State>, i: nat)
    requires Behaviour(states) && i < |states|
    ensures Inv(states[i])
  {
    if i > 0 {
      BehaviourKeepsInv(states, i - 1);
      assert Next(states[i - 1], states[i - 1 + 1]);
      NextKeepsInv(states[i - 1], states[i]);
    }
  }

  /** In every interleaving: no cancel or skip is lost, and one guard at a time. */
  lemma NoInterleavingLosesARequest(states: seq<State>, i: nat)
    requires Behaviour(states) && i < |states|
    ensures NoLostRequest(states[i]) && OneGuard(states[i])
  {
    BehaviourKeepsInv(states, i);
    InvImpliesSafety(states[i]);
  }

  // ---------------------------------------------------------------- cancelled runs

  ghost predicate NeverSucceeds(s: State, r: RunId)
  {
    && Cancel in s.flags
    && r in s.runs
    && (s.runs[r].Undecided() || s.runs[r].pc.outcome != Succeeded)
  }

  lemma RunStepKeepsCancelled(s: State, t: State, move: RunMove, r: RunId)
    requires RunStep(s, t, move) && NeverSucceeds(s, r)
    ensures NeverSucceeds(t, r)
  {
    if move.r != r {
      assert t.runs[r] == s.runs[r];
    }
  }

  lemma StepKeepsCancelled(s: State, t: State, r: RunId)
    requires Next(s, t) && NeverSucceeds(s, r)
    ensures NeverSucceeds(t, r)
  {
    hide CallStep, RunStep;
    if move :| CallStep(s, t, move) {
      CallStepFrame(s, t, move);
    } else {
      var move :| RunStep(s, t, move);
      RunStepKeepsCancelled(s, t, move, r);
    }
  }

  /** A cancel stored before a run's result is decided never lets that run succeed. */
  lemma {:induction false} StoredCancelWins(states: seq<State>, i: nat, j: nat, r: RunId)
    requires Behaviour(states) && i <= j < |states|
    requires Cancel in states[i].flags && r in states[i].runs && states[i].runs[r].Undecided()
    ensures NeverSucceeds(states[j], r)
    decreases j - i
  {
    hide Next;
    if j > i {
      StoredCancelWins(states, i, j - 1, r);
      assert Next(states[j - 1], states[j - 1 + 1]);
      StepKeepsCancelled(states[j - 1], states[j], r);
    }
  }

  // ---------------------------------------------------------------- what is not refused

  ghost predicate FoundNothing(s: State, c: CallId)
  {
    CallAt(s, c, Looked(None)) || CallAt(s, c, Returned(true, None))
  }

  /** In every interleaving: a call that found no paths published returns Ok, whatever happens meanwhile. */
  lemma {:induction false} FindingNothingIsOk(states: seq<State>, i: nat, j: nat, c: CallId)
    requires Behaviour(states) && i <= j < |states| && CallAt(states[i], c, Looked(None))
    ensures FoundNothing(states[j], c)
    decreases j - i
  {
    hide Next;
    if j > i {
      FindingNothingIsOk(states, i, j - 1, c);
      assert Next(states[j - 1], states[j - 1 + 1]);
      StepKeepsFoundNothing(states[j - 1], states[j], c);
    }
  }

  lemma StepKeepsFoundNothing(s: State, t: State, c: CallId)
    requires Next(s, t) && FoundNothing(s, c)
    ensures FoundNothing(t, c)
  {
    if move :| CallStep(s, t, move) {
      if move.c != c {
        assert t.calls[c] == s.calls[c];
      }
    } else {
      var move :| RunStep(s, t, move);
      assert t.calls == s.calls;
    }
  }

  /**
   A call that runs by itself, with nothing failing: it can return Ok exactly if no paths are published
   or the directory they are in is still there, and then its flag is up and the marker in place.
   */
  lemma CallAloneExactly(s: State, c: CallId) returns (stored: State, looked: State, returned: State)
    requires CallAt(s, c, Entered)
    ensures CallStep(s, stored, Store(c)) && CallStep(stored, looked, Look(c))
    ensures s.published.None? || s.published.value in s.directories <==> CallStep(looked, returned, CallTouches(c))
    ensures CallStep(looked, returned, CallTouches(c)) ==>
      && CallAt(returned, c, Returned(true, s.published)) && s.calls[c].kind in returned.flags
      && (s.published.Some? ==> (s.published.value, s.calls[c].kind) in returned.files)
  {
    stored := s.SetCall(c, Stored).(flags := s.flags + {s.calls[c].kind});
    looked := stored.SetCall(c, Looked(s.published));
    returned := looked.SetCall(c, Returned(true, s.published));
    if s.published.Some? {
      returned := returned.(files := looked.files + {(s.published.value, s.calls[c].kind)});
    }
  }

  /** The outcome of a run is decided once: nothing later changes it. */
  ghost predicate CameOut(s: State, r: RunId, outcome: Outcome)
  {
    r in s.runs && !s.runs[r].Undecided() && s.runs[r].pc.outcome == outcome
  }

  lemma RunStepKeepsOutcome(s: State, t: State, move: RunMove, r: RunId, outcome: Outcome)
    requires RunStep(s, t, move) && CameOut(s, r, outcome)
    ensures CameOut(t, r, outcome)
  {
    if move.r != r {
      assert t.runs[r] == s.runs[r];
    }
  }

  lemma StepKeepsOutcome(s: State, t: State, r: RunId, outcome: Outcome)
    requires Next(s, t) && CameOut(s, r, outcome)
    ensures CameOut(t, r, outcome)
  {
    hide CallStep, RunStep;
    if move :| CallStep(s, t, move) {
      CallStepFrame(s, t, move);
    } else {
      var move :| RunStep(s, t, move);
      RunStepKeepsOutcome(s, t, move, r, outcome);
    }
  }

  /**
   A run whose runner returned success comes out as a success exactly if no cancel was stored by then,
   and stays what it came out as.
   */
  lemma {:induction false} SuccessExactly(states: seq<State>, i: nat, j: nat, r: RunId)
    requires Behaviour(states) && i < j < |states|
    requires RunStep(states[i], states[i + 1], Finish(r, Succeeded))
    ensures CameOut(states[j], r, if Cancel in states[i].flags then Cancelled else Succeeded)
    decreases j - i
  {
    hide Next;
    if j > i + 1 {
      SuccessExactly(states, i, j - 1, r);
      assert Next(states[j - 1], states[j - 1 + 1]);
      StepKeepsOutcome(states[j - 1], states[j], r, if Cancel in states[i].flags then Cancelled else Succeeded);
    }
  }

  ghost predicate Alone(r: RunId, path: seq<State>)
  {
    forall i :: 0 <= i < |path| - 1 ==> Steps(r, path[i], path[i + 1])
  }

  ghost predicate Steps(r: RunId, s: State, t: State)
  {
    exists move: RunMove :: move.r == r && RunStep(s, t, move)
  }

  lemma AloneOnce(r: RunId, path: seq<State>, t: State, move: RunMove)
    requires path != [] && Alone(r, path) && move.r == r && RunStep(path[|path| - 1], t, move)
    ensures Alone(r, path + [t])
  {
    hide RunStep;
    var more := path + [t];
    assert Steps(r, path[|path| - 1], t);
    forall i | 0 <= i < |more| - 1
      ensures Steps(r, more[i], more[i + 1])
    {
      assert more[i] == path[i];
      assert more[i + 1] == if i == |path| - 1 then t else path[i + 1];
    }
  }

  /** The way to the runner: a run that starts while no other holds the guard and no cancel is stored. */
  lemma RunLaunches(s: State, r: RunId) returns (path: seq<State>)
    requires !s.active && r !in s.runs && r !in s.directories && Cancel !in s.flags
    ensures path != [] && path[0] == s && Alone(r, path)
    ensures var t := path[|path| - 1];
      && RunAt(t, r, Launched) && t.flags == s.flags && t.published == Some(r) && t.active
      && r in t.directories && (Skip in s.flags ==> (r, Skip) in t.files)
  {
    hide Alone;
    var t := s.SetRun(r, NEW_RUN);
    path := [s];
    assert Alone(r, path) by { AloneAtFirst(r, s); }
    AloneOnce(r, path, t, Request(r));
    path := path + [t];
    var u := t.GoTo(r, Began).(active := true, directories := t.directories + {r});
    AloneOnce(r, path, u, Begin(r));
    path, t := path + [u], u;
    u := t.SetRun(r, t.runs[r].(pc := Checking(Cancel), announced := true)).(published := Some(r));
    AloneOnce(r, path, u, Publish(r));
    path, t := path + [u], u;
    u := t.SetRun(r, Arrive(t.runs[r].Noted(Cancel, false), Checking(Skip)));
    AloneOnce(r, path, u, Check(r));
    path, t := path + [u], u;
    if Skip in s.flags {
      u := t.SetRun(r, Arrive(t.runs[r].Noted(Skip, true), Touching(Skip)));
      AloneOnce(r, path, u, Check(r));
      path, t := path + [u], u;
      u := t.SetRun(r, Arrive(t.runs[r], Registered)).(files := t.files + {(r, Skip)});
      AloneOnce(r, path, u, RunTouches(r));
    } else {
      u := t.SetRun(r, Arrive(t.runs[r].Noted(Skip, false), Registered));
      AloneOnce(r, path, u, Check(r));
    }
    path, t := path + [u], u;
    u := t.GoTo(r, Launched);
    AloneOnce(r, path, u, Launch(r));
    path := path + [u];
  }

  lemma AloneAtFirst(r: RunId, s: State)
    ensures Alone(r, [s])
  {
  }

  /** And so it can succeed, and then leaves the control as free as it found it. */
  lemma UncancelledRunCanSucceed(s: State, r: RunId) returns (path: seq<State>)
    requires !s.active && r !in s.runs && r !in s.directories && Cancel !in s.flags
    ensures path != [] && path[0] == s && Alone(r, path)
    ensures var t := path[|path| - 1];
      RunAt(t, r, Ended(Succeeded)) && !t.active && t.published == None && r !in t.directories && t.flags == s.flags
  {
    hide Alone;
    path := RunLaunches(s, r);
    var t := path[|path| - 1];
    var u := t.GoTo(r, Decided(Succeeded));
    AloneOnce(r, path, u, Finish(r, Succeeded));
    path, t := path + [u], u;
    u := t.GoTo(r, Removed(Succeeded)).(
      directories := t.directories - {r}, files := set f | f in t.files && f.0 != r);
    AloneOnce(r, path, u, RemoveDirectory(r));
    path, t := path + [u], u;
    u := t.GoTo(r, Withdrawn(Succeeded)).(published := None);
    AloneOnce(r, path, u, Withdraw(r, false));
    path, t := path + [u], u;
    u := t.GoTo(r, Ended(Succeeded)).(active := false);
    AloneOnce(r, path, u, Release(r));
    path := path + [u];
  }
}
