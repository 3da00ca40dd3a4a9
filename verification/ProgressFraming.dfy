/**
 JSON-lines progress: what the worker writes (src/worker.rs) and how the unprivileged side reads it
 back from a growing file (src/pipeline/linux.rs, src/pipeline/windows.rs).

 `decode` stands for `serde_json::from_slice` followed by `validate_progress`, and is an arbitrary
 function. A chunk is what was appended to the file since the previous drain.
 */
module ProgressFraming {
  import opened Common

  const MAX_PROGRESS_READ: nat := MEBIBYTE
  const MAX_PROGRESS_RECORD: nat := 64 * 1024
  const NEWLINE: byte := 0x0A

  type Bytes = seq<byte>
  type Decoder<E> = Bytes -> Option<E>

  datatype TailError = Io | GrewTooQuickly | RecordTooLarge | InvalidRecord | IncompleteRecord

  // `u8::is_ascii_whitespace`.
  predicate IsWhitespace(b: byte)
  {
    b == 0x20 || b == 0x09 || b == 0x0A || b == 0x0C || b == 0x0D
  }

  predicate Blank(line: Bytes)
  {
    forall i :: 0 <= i < |line| ==> IsWhitespace(line[i])
  }

  // ---------------------------------------------------------------- reference: lines of a stream

  function FirstNewline(s: Bytes): (i: nat)
    requires NEWLINE in s
    ensures i < |s| && s[i] == NEWLINE && NEWLINE !in s[..i]
  {
    if s[0] == NEWLINE then 0
    else
      var i := 1 + FirstNewline(s[1..]);
      assert s[..i] == [s[0]] + s[1..][..i - 1];
      i
  }

  /** The complete lines of `s`, without their newlines. */
  function Lines(s: Bytes): seq<Bytes>
  {
    if NEWLINE !in s then []
    else [s[..FirstNewline(s)]] + Lines(s[FirstNewline(s) + 1..])
  }

  /** What follows the last newline of `s`. */
  function Remainder(s: Bytes): (r: Bytes)
    ensures NEWLINE !in r
    ensures |r| <= |s| && r == s[|s| - |r|..]
    ensures |r| == |s| <==> NEWLINE !in s
  {
    if NEWLINE !in s then s
    else
      var rest := s[FirstNewline(s) + 1..];
      var r := Remainder(rest);
      assert rest[|rest| - |r|..] == s[|s| - |r|..];
      r
  }

  function Concat(chunks: seq<Bytes>): Bytes
  {
    if chunks == [] then [] else Concat(chunks[..|chunks| - 1]) + chunks[|chunks| - 1]
  }

  lemma {:induction false} FirstNewlineOf(a: Bytes, b: Bytes)
    requires NEWLINE !in a
    ensures FirstNewline(a + [NEWLINE] + b) == |a|
  {
    var s := a + [NEWLINE] + b;
    if a != [] {
      assert s[0] == a[0] && s[1..] == a[1..] + [NEWLINE] + b;
      FirstNewlineOf(a[1..], b);
    }
  }

  lemma {:induction false} SplitFirst(a: Bytes, b: Bytes)
    requires NEWLINE !in a
    ensures Lines(a + [NEWLINE] + b) == [a] + Lines(b)
    ensures Remainder(a + [NEWLINE] + b) == Remainder(b)
  {
    var s := a + [NEWLINE] + b;
    FirstNewlineOf(a, b);
    assert s[|a|] == NEWLINE;
    assert s[..|a|] == a && s[|a| + 1..] == b;
  }

  lemma {:induction false} NoLine(a: Bytes)
    requires NEWLINE !in a
    ensures Lines(a) == [] && Remainder(a) == a
  {
  }

  /** Splitting commutes with appending: only the remainder is carried over. */
  lemma {:induction false} SplitAppend(a: Bytes, b: Bytes)
    ensures Lines(a + b) == Lines(a) + Lines(Remainder(a) + b)
    ensures Remainder(a + b) == Remainder(Remainder(a) + b)
    decreases |a|
  {
    hide Lines, Remainder;
    if NEWLINE in a {
      var i := FirstNewline(a);
      var rest := a[i + 1..];
      assert a == a[..i] + [NEWLINE] + rest;
      assert a + b == a[..i] + [NEWLINE] + (rest + b);
      SplitFirst(a[..i], rest);
      SplitFirst(a[..i], rest + b);
      SplitAppend(rest, b);
    } else {
      NoLine(a);
    }
  }

  // ---------------------------------------------------------------- reference: delivering lines

  datatype Delivery<E> = Delivery(events: seq<E>, error: Option<TailError>)

  /** Lines are delivered in order up to the first unacceptable one. */
  function Deliver<E>(lines: seq<Bytes>, decode: Decoder<E>): Delivery<E>
  {
    if lines == [] then Delivery([], None)
    else if Blank(lines[0]) then Deliver(lines[1..], decode)
    else if |lines[0]| > MAX_PROGRESS_RECORD then Delivery([], Some(RecordTooLarge))
    else match decode(lines[0])
      case None => Delivery([], Some(InvalidRecord))
      case Some(event) =>
        var rest := Deliver(lines[1..], decode);
        Delivery([event] + rest.events, rest.error)
  }

  ghost predicate Acceptable<E>(line: Bytes, decode: Decoder<E>)
  {
    Blank(line) || (|line| <= 65_536 && decode(line).Some?)
  }

  lemma {:induction false} DeliverAppend<E>(a: seq<Bytes>, b: seq<Bytes>, decode: Decoder<E>)
    requires Deliver(a, decode).error.None?
    ensures Deliver(a + b, decode) == Delivery(Deliver(a, decode).events + Deliver(b, decode).events, Deliver(b, decode).error)
  {
    if a == [] {
      assert a + b == b;
    } else {
      assert (a + b)[0] == a[0] && (a + b)[1..] == a[1..] + b;
      DeliverAppend(a[1..], b, decode);
    }
  }

  lemma {:induction false} DeliverSucceeds<E>(lines: seq<Bytes>, decode: Decoder<E>)
    ensures Deliver(lines, decode).error.None? <==> forall i :: 0 <= i < |lines| ==> Acceptable(lines[i], decode)
  {
    if lines != [] {
      DeliverSucceeds(lines[1..], decode);
      assert forall i :: 0 <= i < |lines[1..]| ==> lines[1..][i] == lines[i + 1];
      if forall i :: 0 <= i < |lines[1..]| ==> Acceptable(lines[1..][i], decode) {
        assert forall i :: 1 <= i < |lines| ==> lines[i] == lines[1..][i - 1];
      }
    }
  }

  /** One drain of `chunk` after `pending`, with no read error. */
  function Drained<E>(pending: Bytes, chunk: Bytes, decode: Decoder<E>): Delivery<E>
  {
    if |chunk| > MAX_PROGRESS_READ then Delivery([], Some(GrewTooQuickly))
    else
      var delivery := Deliver(Lines(pending + chunk), decode);
      if delivery.error.None? && |Remainder(pending + chunk)| > MAX_PROGRESS_RECORD then
        Delivery(delivery.events, Some(RecordTooLarge))
      else delivery
  }

  function Finished<E>(pending: Bytes, chunk: Bytes, decode: Decoder<E>): Delivery<E>
  {
    var outcome := Drained(pending, chunk, decode);
    if outcome.error.None? && !Blank(Remainder(pending + chunk)) then outcome.(error := Some(IncompleteRecord))
    else outcome
  }

  // ---------------------------------------------------------------- any chunking of any stream

  datatype Session<E> = Session(pending: Bytes, events: seq<E>, error: Option<TailError>)

  /** Drains in order; after a failure the runner never drains again. */
  function DrainAll<E>(chunks: seq<Bytes>, decode: Decoder<E>): Session<E>
  {
    if chunks == [] then Session([], [], None)
    else
      var before := DrainAll(chunks[..|chunks| - 1], decode);
      if before.error.Some? then before
      else
        var chunk := chunks[|chunks| - 1];
        var outcome := Drained(before.pending, chunk, decode);
        Session(Remainder(before.pending + chunk), before.events + outcome.events, outcome.error)
  }

  // ---------------------------------------------------------------- the reader

  class ProgressTail<E> {
    const decode: Decoder<E>
    var pending: Bytes
    var sawEvent: bool
    // How often the file could not be read.
    ghost var faults: nat

    constructor (decode: Decoder<E>)
      ensures this.decode == decode && pending == [] && !sawEvent && faults == 0
    {
      this.decode := decode;
      pending := [];
      sawEvent := false;
      faults := 0;
    }

    /** `events` are the calls of the progress callback, in order; reading the file may fail. */
    method Drain(chunk: Bytes) returns (events: seq<E>, result: Result<Unit, TailError>)
      modifies this
      ensures result == Failure(Io) ==> events == [] && pending == old(pending)
      ensures result != Failure(Io) ==>
        var outcome := Drained(old(pending), chunk, decode);
        && events == outcome.events
        && result == (if outcome.error.Some? then Failure(outcome.error.value) else Success(Unit.Unit))
        && (result.Success? ==> pending == Remainder(old(pending) + chunk))
      ensures sawEvent == (old(sawEvent) || events != [])
      ensures faults == old(faults) + if result == Failure(Io) then 1 else 0
    {
      hide Lines, Remainder, Deliver, Blank, Scanned;
      events := [];
      if * {
        faults := faults + 1;
        return events, Failure(Io);
      }
      if |chunk| > MAX_PROGRESS_READ {
        return events, Failure(GrewTooQuickly);
      }
      ghost var all := pending + chunk;
      pending := pending + chunk;
      ScanStarts(all, decode);
      if |pending| > MAX_PROGRESS_RECORD && NEWLINE !in pending {
        NoNewlineNoLine(all, decode);
        return events, Failure(RecordTooLarge);
      }
      var consumed := 0;
      for index := 0 to |pending|
        invariant pending == all
        invariant consumed <= index
        invariant Scanned(all, consumed, index, events, decode)
        invariant sawEvent == (old(sawEvent) || events != []) && faults == old(faults)
      {
        if pending[index] != NEWLINE {
          LineExtends(all, consumed, index, events, decode);
          continue;
        }
        var line := pending[consumed..index];
        LineCompletes(all, consumed, index, events, decode);
        consumed := index + 1;
        if Blank(line) {
          continue;
        }
        if |line| > MAX_PROGRESS_RECORD {
          return events, Failure(RecordTooLarge);
        }
        match decode(line) {
          case None =>
            return events, Failure(InvalidRecord);
          case Some(event) =>
            sawEvent := true;
            events := events + [event];
        }
      }
      ScanEnds(all, consumed, events, decode);
      pending := pending[consumed..];
      if |pending| > MAX_PROGRESS_RECORD {
        return events, Failure(RecordTooLarge);
      }
      return events, Success(Unit.Unit);
    }

    method Finish(chunk: Bytes) returns (events: seq<E>, result: Result<Unit, TailError>)
      modifies this
      ensures faults == old(faults) + if result == Failure(Io) then 1 else 0
      ensures result == Failure(Io) ==> events == []
      ensures result != Failure(Io) ==>
        var outcome := Finished(old(pending), chunk, decode);
        && events == outcome.events
        && result == (if outcome.error.Some? then Failure(outcome.error.value) else Success(Unit.Unit))
    {
      events, result := Drain(chunk);
      if result.Failure? {
        return;
      }
      if Blank(pending) {
        return events, Success(Unit.Unit);
      } else {
        return events, Failure(IncompleteRecord);
      }
    }
  }

  /** `s[..index]` has been read: `events` were delivered and the current line starts at `consumed`. */
  ghost predicate Scanned<E>(s: Bytes, consumed: nat, index: nat, events: seq<E>, decode: Decoder<E>)
  {
    && consumed <= index <= |s|
    && Remainder(s[..index]) == s[consumed..index]
    && Deliver(Lines(s[..index]), decode) == Delivery(events, None)
  }

  /** A character that is no newline goes to the current line. */
  lemma {:induction false} CharacterExtends(a: Bytes, c: byte)
    requires c != NEWLINE
    ensures Lines(a + [c]) == Lines(a) && Remainder(a + [c]) == Remainder(a) + [c]
  {
    var line := Remainder(a) + [c];
    hide Lines, Remainder;
    NoLine(line);
    SplitAppend(a, [c]);
    assert Lines(a) + [] == Lines(a);
  }

  lemma LineExtends<E>(s: Bytes, consumed: nat, index: nat, events: seq<E>, decode: Decoder<E>)
    requires index < |s| && s[index] != NEWLINE && Scanned(s, consumed, index, events, decode)
    ensures Scanned(s, consumed, index + 1, events, decode)
  {
    hide Lines, Remainder, Deliver;
    CharacterExtends(s[..index], s[index]);
    assert s[..index + 1] == s[..index] + [s[index]];
    assert s[consumed..index] + [s[index]] == s[consumed..index + 1];
  }

  lemma {:induction false} NoNewlineNoLine<E>(s: Bytes, decode: Decoder<E>)
    requires NEWLINE !in s
    ensures Deliver(Lines(s), decode) == Delivery([], None) && Remainder(s) == s
  {
  }

  lemma ScanStarts<E>(s: Bytes, decode: Decoder<E>)
    ensures Scanned(s, 0, 0, [], decode)
  {
    assert s[..0] == [];
  }

  lemma {:induction false} ScanEnds<E>(s: Bytes, consumed: nat, events: seq<E>, decode: Decoder<E>)
    requires Scanned(s, consumed, |s|, events, decode)
    ensures Deliver(Lines(s), decode) == Delivery(events, None) && Remainder(s) == s[consumed..]
  {
    assert s[..|s|] == s;
  }

  lemma {:induction false} OneLine(line: Bytes)
    requires NEWLINE !in line
    ensures Lines(line + [NEWLINE]) == [line] && Remainder(line + [NEWLINE]) == []
  {
    assert line + [NEWLINE] + [] == line + [NEWLINE];
    SplitFirst(line, []);
  }

  lemma {:induction false} NewlineCompletes(a: Bytes)
    ensures Lines(a + [NEWLINE]) == Lines(a) + [Remainder(a)]
    ensures Remainder(a + [NEWLINE]) == []
  {
    var line := Remainder(a);
    OneLine(line);
    hide Lines, Remainder;
    SplitAppend(a, [NEWLINE]);
  }

  /** A completed line is delivered, skipped or refused, and a refusal decides the whole drain. */
  lemma {:induction false} LineCompletes<E>(s: Bytes, consumed: nat, index: nat, events: seq<E>, decode: Decoder<E>)
    requires index < |s| && s[index] == NEWLINE && Scanned(s, consumed, index, events, decode)
    ensures var line := s[consumed..index];
      if Blank(line) then Scanned(s, index + 1, index + 1, events, decode)
      else if |line| > MAX_PROGRESS_RECORD then Deliver(Lines(s), decode) == Delivery(events, Some(RecordTooLarge))
      else if decode(line).None? then Deliver(Lines(s), decode) == Delivery(events, Some(InvalidRecord))
      else Scanned(s, index + 1, index + 1, events + [decode(line).value], decode)
  {
    hide Lines, Remainder, Deliver, Blank;
    var line := s[consumed..index];
    DeliverOne(line, decode);
    if Acceptable(line, decode) {
      LineAccepted(s, consumed, index, events, decode);
    } else {
      LineRejected(s, consumed, index, events, decode);
    }
  }

  lemma LineAccepted<E>(s: Bytes, consumed: nat, index: nat, events: seq<E>, decode: Decoder<E>)
    requires index < |s| && s[index] == NEWLINE && Scanned(s, consumed, index, events, decode)
    requires Deliver([s[consumed..index]], decode).error.None?
    ensures Scanned(s, index + 1, index + 1, events + Deliver([s[consumed..index]], decode).events, decode)
  {
    hide Lines, Remainder, Deliver;
    NewlineCompletes(s[..index]);
    assert s[..index + 1] == s[..index] + [NEWLINE];
    DeliverAppend(Lines(s[..index]), [s[consumed..index]], decode);
  }

  lemma {:induction false} LineRejected<E>(s: Bytes, consumed: nat, index: nat, events: seq<E>, decode: Decoder<E>)
    requires index < |s| && s[index] == NEWLINE && Scanned(s, consumed, index, events, decode)
    requires !Acceptable(s[consumed..index], decode)
    ensures Deliver(Lines(s), decode) == Delivery(events, Deliver([s[consumed..index]], decode).error)
  {
    hide Lines, Remainder, Deliver, Blank;
    var before, line, after := s[..index], s[consumed..index], s[index + 1..];
    assert s == before + [NEWLINE] + after;
    LinesAround(before, after);
    DeliverAppend(Lines(before), [line] + Lines(after), decode);
    DeliverStops(line, Lines(after), decode);
  }

  lemma {:induction false} LinesAround(before: Bytes, after: Bytes)
    ensures Lines(before + [NEWLINE] + after) == Lines(before) + ([Remainder(before)] + Lines(after))
  {
    hide Lines, Remainder;
    NewlineCompletes(before);
    SplitAppend(before + [NEWLINE], after);
    assert [] + after == after;
  }

  lemma DeliverOne<E>(line: Bytes, decode: Decoder<E>)
    ensures Deliver([line], decode) ==
      if Blank(line) then Delivery([], None)
      else if |line| > MAX_PROGRESS_RECORD then Delivery([], Some(RecordTooLarge))
      else if decode(line).None? then Delivery([], Some(InvalidRecord))
      else Delivery([decode(line).value], None)
  {
    assert Deliver([line][1..], decode) == Delivery([], None);
  }

  lemma {:induction false} DeliverStops<E>(line: Bytes, more: seq<Bytes>, decode: Decoder<E>)
    requires !Acceptable(line, decode)
    ensures Deliver([line] + more, decode) == Delivery([], Deliver([line], decode).error)
  {
    assert ([line] + more)[0] == line;
  }

  // ---------------------------------------------------------------- the runner

  /** `OtherMonitor` is any trouble besides the file: launch files that changed, a marker or a stop that failed. */
  datatype RunnerError = Tail(error: TailError) | OtherMonitor | WaitFailed | Failed(status: nat)

  /** What a runner does besides reading the file, each of which may fail or not. */
  class Host {
    // How often something did, and how often the launched files were looked at.
    ghost var faults: nat
    ghost var launchChecks: nat

    method LaunchChanged() returns (yes: bool)
      modifies this
      ensures faults == old(faults) + if yes then 1 else 0
      ensures launchChecks == old(launchChecks) + 1
    {
      yes := Troubled();
      launchChecks := launchChecks + 1;
    }

    /** A marker or a stop failed, or the wait did. */
    method Troubled() returns (yes: bool)
      modifies this`faults
      ensures faults == old(faults) + if yes then 1 else 0
    {
      yes := *;
      if yes {
        faults := faults + 1;
      }
    }
  }

  /**
   How the polling went: how many polls were drained, whether the file was finished, and whether
   anything but the bytes of the file and the exit status stood in the way.
   */
  datatype Watch = Watch(answered: nat, finished: bool, disturbed: bool)

  /** What the polls and the finish handed on. */
  function Received<E>(polls: seq<Bytes>, last: Bytes, watch: Watch, decode: Decoder<E>): seq<E>
    requires watch.answered <= |polls|
  {
    var session := DrainAll(polls[..watch.answered], decode);
    session.events + if watch.finished then Finished(session.pending, last, decode).events else []
  }

  /** What the runner answers when nothing else stands in the way: the file's first fault, then the exit status. */
  function Answer<E>(polls: seq<Bytes>, last: Bytes, status: nat, decode: Decoder<E>): Result<Unit, RunnerError>
  {
    var session := DrainAll(polls, decode);
    var outcome := Finished(session.pending, last, decode);
    if session.error.Some? then Failure(Tail(session.error.value))
    else if outcome.error.Some? then Failure(Tail(outcome.error.value))
    else if status == 0 then Success(Unit.Unit)
    else Failure(Failed(status))
  }

  ghost predicate Monitored<E>(
    polls: seq<Bytes>, last: Bytes, status: nat, decode: Decoder<E>,
    events: seq<E>, result: Result<Unit, RunnerError>, watch: Watch)
  {
    && watch.answered <= |polls|
    && (watch.finished ==> watch.answered == |polls| && DrainAll(polls, decode).error.None?)
    && events == Received(polls, last, watch, decode)
    && (watch.disturbed ==> result.Failure?)
    && (!watch.disturbed ==>
          && result == Answer(polls, last, status, decode)
          && watch.answered == |polls| && watch.finished == DrainAll(polls, decode).error.None?)
  }

  /** The first `poll` polls are over: what was handed on, the error kept so far, and the unread bytes. */
  ghost predicate Polled<E>(
    polls: seq<Bytes>, poll: nat, decode: Decoder<E>,
    events: seq<E>, pending: Bytes, error: Option<RunnerError>, watch: Watch)
    requires poll <= |polls|
  {
    && (if watch.disturbed then watch.answered <= poll && error.Some? else watch.answered == poll)
    && !watch.finished && events == DrainAll(polls[..watch.answered], decode).events
    && (!watch.disturbed ==>
          var session := DrainAll(polls[..poll], decode);
          && error == (if session.error.Some? then Some(Tail(session.error.value)) else None)
          && (error.None? ==> session.pending == pending))
  }

  /**
   A worker runner: drain at each poll until the first error, finish once the worker has exited if
   there was none, and answer with that error or the exit status. Whatever else fails on the way, the
   events handed on are those of some first polls, and then it never answers Ok.
   */
  method MonitorRun<E>(tail: ProgressTail<E>, host: Host, polls: seq<Bytes>, last: Bytes, status: nat)
    returns (events: seq<E>, result: Result<Unit, RunnerError>, ghost watch: Watch)
    requires tail.pending == []
    modifies tail, host
    ensures watch.disturbed ==> tail.faults + host.faults > old(tail.faults + host.faults)
    ensures Monitored(polls, last, status, tail.decode, events, result, watch)
  {
    hide Lines, Remainder, Deliver, Blank, Drained, DrainAll, Finished;
    events, watch := [], Watch(0, false, false);
    var monitorError: Option<RunnerError> := None;
    NothingDrained(polls, tail.decode);
    for poll := 0 to |polls|
      invariant Polled(polls, poll, tail.decode, events, tail.pending, monitorError, watch)
      invariant old(tail.faults) <= tail.faults && old(host.faults) <= host.faults
      invariant watch.disturbed ==> tail.faults + host.faults > old(tail.faults + host.faults)
    {
      events, monitorError, watch := PollOnce(tail, host, polls, poll, events, monitorError, watch);
      var waitFails := host.Troubled();
      if waitFails {
        watch := watch.(disturbed := true);
        return events, Failure(WaitFailed), watch;
      }
    }
    events, result, watch := AfterExit(tail, host, polls, last, status, events, monitorError, watch);
  }

  /** One turn of the loop: the launch files, the drain, the marker and the stop, each only before the first error. */
  method PollOnce<E>(
    tail: ProgressTail<E>, host: Host, polls: seq<Bytes>, poll: nat, before: seq<E>, kept: Option<RunnerError>, ghost watched: Watch)
    returns (events: seq<E>, monitorError: Option<RunnerError>, ghost watch: Watch)
    requires poll < |polls| && Polled(polls, poll, tail.decode, before, tail.pending, kept, watched)
    modifies tail, host
    ensures old(tail.faults) <= tail.faults && old(host.faults) <= host.faults
    ensures watch.disturbed && !watched.disturbed ==> tail.faults + host.faults > old(tail.faults + host.faults)
    ensures host.launchChecks == old(host.launchChecks) + if kept.None? && !old(tail.sawEvent) then 1 else 0
    ensures Polled(polls, poll + 1, tail.decode, events, tail.pending, monitorError, watch)
  {
    hide Lines, Remainder, Deliver, Blank, Drained, DrainAll, Finished;
    events, monitorError, watch := before, kept, watched;
    DrainNext(polls, poll, tail.decode);
    if monitorError.None? && !tail.sawEvent {
      var launchChanged := host.LaunchChanged();
      if launchChanged {
        monitorError := Some(OtherMonitor);
        watch := watch.(disturbed := true);
      }
    }
    if monitorError.None? {
      var more, drained := tail.Drain(polls[poll]);
      events := events + more;
      if drained.Failure? {
        monitorError := Some(Tail(drained.error));
        watch := watch.(disturbed := drained.error == Io);
      }
    }
    if !watch.disturbed {
      watch := watch.(answered := poll + 1);
    }
    var stopFails := host.Troubled();
    if monitorError.None? && stopFails {
      monitorError := Some(OtherMonitor);
      watch := watch.(disturbed := true);
    }
  }

  /** The worker has exited: one finish if there was no error yet, then the wait and the answer. */
  method AfterExit<E>(
    tail: ProgressTail<E>, host: Host, polls: seq<Bytes>, last: Bytes, status: nat,
    before: seq<E>, kept: Option<RunnerError>, ghost watched: Watch)
    returns (events: seq<E>, result: Result<Unit, RunnerError>, ghost watch: Watch)
    requires Polled(polls, |polls|, tail.decode, before, tail.pending, kept, watched)
    modifies tail, host
    ensures watch.disturbed && !watched.disturbed ==> tail.faults + host.faults > old(tail.faults + host.faults)
    ensures old(tail.faults) <= tail.faults && old(host.faults) <= host.faults
    ensures Monitored(polls, last, status, tail.decode, events, result, watch)
  {
    hide Lines, Remainder, Deliver, Blank, Drained, DrainAll, Finished;
    events, watch := before, watched;
    var monitorError := kept;
    assert polls[..|polls|] == polls;
    if monitorError.None? {
      var more, finished := tail.Finish(last);
      events := events + more;
      watch := watch.(finished := finished != Failure(Io), disturbed := finished == Failure(Io));
      if finished.Failure? {
        monitorError := Some(Tail(finished.error));
      }
    }
    var waitFails := host.Troubled();
    if waitFails {
      watch := watch.(disturbed := true);
      return events, Failure(WaitFailed), watch;
    }
    if monitorError.Some? {
      return events, Failure(monitorError.value), watch;
    }
    return events, if status == 0 then Success(Unit.Unit) else Failure(Failed(status)), watch;
  }

  lemma NothingDrained<E>(polls: seq<Bytes>, decode: Decoder<E>)
    ensures DrainAll(polls[..0], decode) == Session([], [], None)
  {
  }

  lemma DrainNext<E>(polls: seq<Bytes>, poll: nat, decode: Decoder<E>)
    requires poll < |polls|
    ensures var before := DrainAll(polls[..poll], decode);
      DrainAll(polls[..poll + 1], decode) ==
        if before.error.Some? then before
        else
          var outcome := Drained(before.pending, polls[poll], decode);
          Session(Remainder(before.pending + polls[poll]), before.events + outcome.events, outcome.error)
  {
    hide Drained, Remainder;
    assert polls[..poll + 1][..poll] == polls[..poll];
  }

  // ---------------------------------------------------------------- theorems about sessions

  /** No chunk is over a mebibyte, and no cut leaves a partial line of over 64 KiB. */
  ghost predicate WithinLimits(chunks: seq<Bytes>)
  {
    chunks != [] ==>
      && WithinLimits(chunks[..|chunks| - 1])
      && |chunks[|chunks| - 1]| <= 1_048_576
      && |Remainder(Concat(chunks))| <= 65_536
  }

  ghost predicate AllAcceptable<E>(lines: seq<Bytes>, decode: Decoder<E>)
  {
    forall i :: 0 <= i < |lines| ==> Acceptable(lines[i], decode)
  }

  lemma AcceptableAppend<E>(a: seq<Bytes>, b: seq<Bytes>, decode: Decoder<E>)
    ensures AllAcceptable(a + b, decode) <==> AllAcceptable(a, decode) && AllAcceptable(b, decode)
  {
    if AllAcceptable(a + b, decode) {
      assert forall i :: 0 <= i < |a| ==> (a + b)[i] == a[i];
      assert forall i :: 0 <= i < |b| ==> (a + b)[|a| + i] == b[i];
    }
  }

  /**
   However a stream is cut: the session succeeds exactly when no chunk is too big, every line of
   the whole stream is acceptable and no cut leaves too long a partial line; and it then delivers
   exactly the decoded lines of the whole stream.
   */
  lemma {:induction false} SessionExact<E>(chunks: seq<Bytes>, decode: Decoder<E>)
    ensures DrainAll(chunks, decode).error.None? <==> WithinLimits(chunks) && AllAcceptable(Lines(Concat(chunks)), decode)
    ensures DrainAll(chunks, decode).error.None? ==>
      && Deliver(Lines(Concat(chunks)), decode) == Delivery(DrainAll(chunks, decode).events, None)
      && DrainAll(chunks, decode).pending == Remainder(Concat(chunks))
  {
    if chunks != [] {
      SessionExact(chunks[..|chunks| - 1], decode);
      SessionStep(Concat(chunks[..|chunks| - 1]), chunks[|chunks| - 1], decode);
    }
  }

  lemma {:induction false} SessionStep<E>(received: Bytes, chunk: Bytes, decode: Decoder<E>)
    ensures AllAcceptable(Lines(received + chunk), decode) ==> AllAcceptable(Lines(received), decode)
    ensures Remainder(received + chunk) == Remainder(Remainder(received) + chunk)
    ensures Deliver(Lines(received), decode).error.None? && |chunk| <= MAX_PROGRESS_READ ==>
      var outcome := Drained(Remainder(received), chunk, decode);
      && (outcome.error.None? <==>
            AllAcceptable(Lines(received + chunk), decode) && |Remainder(received + chunk)| <= MAX_PROGRESS_RECORD)
      && (outcome.error.None? ==>
            Deliver(Lines(received + chunk), decode) == Delivery(Deliver(Lines(received), decode).events + outcome.events, None))
  {
    hide Lines, Remainder, Deliver, Acceptable;
    var more := Lines(Remainder(received) + chunk);
    SplitAppend(received, chunk);
    AcceptableAppend(Lines(received), more, decode);
    DeliverSucceeds(Lines(received), decode);
    DeliverSucceeds(more, decode);
    if Deliver(Lines(received), decode).error.None? {
      DeliverAppend(Lines(received), more, decode);
    }
  }

  /** The two limits, for one record and its newline, and for a record still without one. */
  lemma {:induction false} LimitsExactly<E>(record: Bytes, decode: Decoder<E>)
    requires NEWLINE !in record && decode(record).Some?
    requires exists i :: 0 <= i < |record| && record[i] !in {0x20, 0x09, 0x0A, 0x0C, 0x0D}
    ensures Drained([], record + [NEWLINE], decode) ==
      if |record| >= 1_048_576 then Delivery([], Some(GrewTooQuickly))
      else if |record| > 65_536 then Delivery([], Some(RecordTooLarge))
      else Delivery([decode(record).value], None)
    ensures Drained([], record, decode) ==
      if |record| > 1_048_576 then Delivery([], Some(GrewTooQuickly))
      else if |record| > 65_536 then Delivery([], Some(RecordTooLarge))
      else Delivery([], None)
  {
    hide Drained, Blank, Lines, Remainder, Deliver;
    assert !Blank(record) by {
      BlankExactly(record);
    }
    CompleteRecord(record);
    assert [] + (record + [NEWLINE]) == record + [NEWLINE] && [] + record == record;
    DrainedLines(record + [NEWLINE], [record], [], decode);
    DrainedLines(record, [], record, decode);
    DeliverOne(record, decode);
    NothingDelivered(decode);
  }

  lemma BlankExactly(line: Bytes)
    ensures Blank(line) <==> forall i :: 0 <= i < |line| ==> line[i] in {0x20, 0x09, 0x0A, 0x0C, 0x0D}
  {
    assert forall b: byte :: IsWhitespace(b) <==> b in {0x20, 0x09, 0x0A, 0x0C, 0x0D};
  }

  /** A line of white space is no record, whatever the decoder makes of it. */
  lemma {:induction false} BlankLineSkipped<E>(line: Bytes, decode: Decoder<E>)
    requires |line| < 1_048_576 && forall i :: 0 <= i < |line| ==> line[i] in {0x20, 0x09, 0x0C, 0x0D}
    ensures Drained([], line + [NEWLINE], decode) == Delivery([], None)
  {
    hide Drained, Blank, Lines, Remainder, Deliver;
    BlankExactly(line);
    CompleteRecord(line);
    assert [] + (line + [NEWLINE]) == line + [NEWLINE];
    DrainedLines(line + [NEWLINE], [line], [], decode);
    DeliverOne(line, decode);
  }

  lemma {:induction false} CompleteRecord(record: Bytes)
    requires NEWLINE !in record
    ensures Lines(record + [NEWLINE]) == [record] && Remainder(record + [NEWLINE]) == []
    ensures Lines(record) == [] && Remainder(record) == record
  {
    hide Lines, Remainder;
    SplitFirst(record, []);
    NoLine([]);
    NoLine(record);
    assert record + [NEWLINE] + [] == record + [NEWLINE] && [record] + [] == [record];
  }

  lemma {:induction false} DrainedLines<E>(chunk: Bytes, lines: seq<Bytes>, remainder: Bytes, decode: Decoder<E>)
    requires Lines(chunk) == lines && Remainder(chunk) == remainder
    ensures Drained([], chunk, decode) ==
      if |chunk| > 1_048_576 then Delivery([], Some(GrewTooQuickly))
      else if Deliver(lines, decode).error.None? && |remainder| > 65_536 then
        Delivery(Deliver(lines, decode).events, Some(RecordTooLarge))
      else Deliver(lines, decode)
  {
    hide Lines, Remainder, Deliver;
    assert [] + chunk == chunk;
  }

  lemma NothingDelivered<E>(decode: Decoder<E>)
    ensures Deliver([], decode) == Delivery([], None)
  {
  }

  // ---------------------------------------------------------------- streams the worker writes

  /** `JsonLineProgress::emit`, once per event. */
  function Emitted<E>(events: seq<E>, encode: E -> Bytes): Bytes
  {
    if events == [] then []
    else encode(events[0]) + [NEWLINE] + Emitted(events[1..], encode)
  }

  /** What is assumed of the serializer: one-line records of bounded size that decode to their event. */
  ghost predicate Faithful<E>(events: seq<E>, encode: E -> Bytes, decode: Decoder<E>)
  {
    forall i :: 0 <= i < |events| ==>
      var record := encode(events[i]);
      && NEWLINE !in record && !Blank(record)
      && |record| <= 65_536
      && decode(record) == Some(events[i])
  }

  lemma FaithfulTail<E>(events: seq<E>, encode: E -> Bytes, decode: Decoder<E>)
    requires events != [] && Faithful(events, encode, decode)
    ensures Faithful(events[1..], encode, decode)
  {
    assert forall i :: 0 <= i < |events| - 1 ==> events[1..][i] == events[i + 1];
  }

  lemma {:induction false} DeliverFirst<E>(record: Bytes, event: E, more: seq<Bytes>, decode: Decoder<E>)
    requires !Blank(record) && |record| <= MAX_PROGRESS_RECORD && decode(record) == Some(event)
    ensures Deliver([record] + more, decode) == Delivery([event] + Deliver(more, decode).events, Deliver(more, decode).error)
  {
    assert ([record] + more)[0] == record && ([record] + more)[1..] == more;
  }

  /** `part` holds the records of the first `count` events and then a partial one that is not too long. */
  ghost predicate HoldsFirst<E>(part: Bytes, events: seq<E>, count: nat, decode: Decoder<E>)
  {
    && count <= |events|
    && Deliver(Lines(part), decode) == Delivery(events[..count], None)
    && |Remainder(part)| <= MAX_PROGRESS_RECORD
  }

  lemma {:induction false} HoldsOneMore<E>(record: Bytes, rest: Bytes, events: seq<E>, count: nat, decode: Decoder<E>)
    requires events != [] && NEWLINE !in record && !Blank(record)
    requires |record| <= MAX_PROGRESS_RECORD && decode(record) == Some(events[0])
    requires HoldsFirst(rest, events[1..], count, decode)
    ensures HoldsFirst(record + [NEWLINE] + rest, events, count + 1, decode)
    ensures Remainder(record + [NEWLINE] + rest) == Remainder(rest)
  {
    hide Lines, Remainder, Deliver, Blank;
    SplitFirst(record, rest);
    DeliverFirst(record, events[0], Lines(rest), decode);
    assert [events[0]] + events[1..][..count] == events[..count + 1];
  }

  /** Any prefix of an emitted stream is of that form. */
  lemma {:induction false} EmittedPrefix<E>(events: seq<E>, part: Bytes, encode: E -> Bytes, decode: Decoder<E>)
    returns (count: nat)
    requires Faithful(events, encode, decode)
    requires part <= Emitted(events, encode)
    ensures HoldsFirst(part, events, count, decode)
    ensures part == Emitted(events, encode) ==> count == |events| && Remainder(part) == []
    decreases |events|
  {
    hide Lines, Remainder, Deliver, Blank;
    if events == [] {
      NoNewlineNoLine(part, decode);
      return 0;
    }
    var record, tail := encode(events[0]), Emitted(events[1..], encode);
    if |part| <= |record| {
      assert part == record[..|part|];
      NoNewlineNoLine(part, decode);
      return 0;
    }
    var rest := part[|record| + 1..];
    assert part == record + [NEWLINE] + rest;
    assert rest == tail[..|rest|];
    FaithfulTail(events, encode, decode);
    var more := EmittedPrefix(events[1..], rest, encode, decode);
    HoldsOneMore(record, rest, events, more, decode);
    count := more + 1;
  }

  lemma {:induction false} EmittedWithinLimits<E>(events: seq<E>, chunks: seq<Bytes>, encode: E -> Bytes, decode: Decoder<E>)
    requires Faithful(events, encode, decode)
    requires Concat(chunks) <= Emitted(events, encode)
    requires forall i :: 0 <= i < |chunks| ==> |chunks[i]| <= MAX_PROGRESS_READ
    ensures WithinLimits(chunks)
  {
    hide Remainder, Emitted, Lines, Deliver;
    if chunks != [] {
      EmittedWithinLimits(events, chunks[..|chunks| - 1], encode, decode);
      var _ := EmittedPrefix(events, Concat(chunks), encode, decode);
    }
  }

  /**
   While the worker is still writing, whatever has arrived and however it was cut, no drain fails
   and the events delivered are the first ones emitted, in order and once each.
   */
  lemma FramingSafety<E>(events: seq<E>, chunks: seq<Bytes>, encode: E -> Bytes, decode: Decoder<E>)
    returns (count: nat)
    requires Faithful(events, encode, decode)
    requires Concat(chunks) <= Emitted(events, encode)
    requires forall i :: 0 <= i < |chunks| ==> |chunks[i]| <= MAX_PROGRESS_READ
    ensures count <= |events|
    ensures DrainAll(chunks, decode) == Session(Remainder(Concat(chunks)), events[..count], None)
    ensures Concat(chunks) == Emitted(events, encode) ==> count == |events| && Remainder(Concat(chunks)) == []
  {
    hide Lines, Remainder, Deliver, Emitted, Concat, DrainAll;
    count := EmittedPrefix(events, Concat(chunks), encode, decode);
    EmittedWithinLimits(events, chunks, encode, decode);
    DeliverSucceeds(Lines(Concat(chunks)), decode);
    SessionExact(chunks, decode);
  }

  /** Drains and the final `finish` together deliver exactly what was emitted. */
  lemma {:induction false} FramingRoundTrip<E>(events: seq<E>, chunks: seq<Bytes>, last: Bytes, encode: E -> Bytes, decode: Decoder<E>)
    requires Faithful(events, encode, decode)
    requires Concat(chunks) + last == Emitted(events, encode)
    requires |last| <= MAX_PROGRESS_READ
    requires forall i :: 0 <= i < |chunks| ==> |chunks[i]| <= MAX_PROGRESS_READ
    ensures var session := DrainAll(chunks, decode);
      var outcome := Finished(session.pending, last, decode);
      && session.error.None? && outcome.error.None?
      && session.events + outcome.events == events
  {
    var all := chunks + [last];
    assert all[..|all| - 1] == chunks && all[|all| - 1] == last;
    var count := FramingSafety(events, all, encode, decode);
    assert DrainAll(all, decode).error.None?;
    assert Blank(Remainder(Concat(all)));
    assert events[..|events|] == events;
  }

  // ---------------------------------------------------------------- what a runner hands on

  lemma {:induction false} WithinLimitsBounds(chunks: seq<Bytes>, i: nat)
    requires WithinLimits(chunks) && i < |chunks|
    ensures |chunks[i]| <= MAX_PROGRESS_READ
  {
    if i < |chunks| - 1 {
      WithinLimitsBounds(chunks[..|chunks| - 1], i);
    }
  }

  /** However an emitted stream is cut: only a chunk that is too big stops a session, and what came before is right. */
  lemma {:induction false} SessionOfEmitted<E>(events: seq<E>, chunks: seq<Bytes>, encode: E -> Bytes, decode: Decoder<E>)
    requires Faithful(events, encode, decode)
    requires Concat(chunks) <= Emitted(events, encode)
    ensures DrainAll(chunks, decode).events <= events
    ensures DrainAll(chunks, decode).error in {None, Some(GrewTooQuickly)}
    decreases |chunks|
  {
    hide Lines, Remainder, Deliver, Emitted, Faithful;
    if chunks != [] {
      var init, last := chunks[..|chunks| - 1], chunks[|chunks| - 1];
      SessionOfEmitted(events, init, encode, decode);
      if DrainAll(init, decode).error.None? && |last| <= MAX_PROGRESS_READ {
        SmallChunkDrained(events, init, last, encode, decode);
        assert chunks == init + [last];
      }
    }
  }

  lemma {:induction false} SmallChunkDrained<E>(
    events: seq<E>, init: seq<Bytes>, last: Bytes, encode: E -> Bytes, decode: Decoder<E>)
    requires Faithful(events, encode, decode)
    requires Concat(init + [last]) <= Emitted(events, encode)
    requires DrainAll(init, decode).error.None? && |last| <= MAX_PROGRESS_READ
    ensures DrainAll(init + [last], decode).events <= events
    ensures DrainAll(init + [last], decode).error.None?
  {
    hide Lines, Remainder, Deliver, Emitted, Faithful, DrainAll, WithinLimits;
    SessionExact(init, decode);
    var chunks := init + [last];
    forall i | 0 <= i < |chunks|
      ensures |chunks[i]| <= MAX_PROGRESS_READ
    {
      if i < |init| {
        WithinLimitsBounds(init, i);
      }
    }
    var count := FramingSafety(events, chunks, encode, decode);
  }

  /** Whatever went wrong on the way, a runner hands on a first part of what the worker emitted. */
  lemma {:induction false} ReceivedIsPrefix<E>(
    events: seq<E>, polls: seq<Bytes>, last: Bytes, status: nat, encode: E -> Bytes, decode: Decoder<E>,
    received: seq<E>, result: Result<Unit, RunnerError>, watch: Watch)
    requires Faithful(events, encode, decode)
    requires Concat(polls) + last == Emitted(events, encode)
    requires Monitored(polls, last, status, decode, received, result, watch)
    ensures received <= events
  {
    hide Lines, Remainder, Deliver, Emitted, Drained, Faithful;
    if watch.finished {
      var all := polls + [last];
      assert all[..|all| - 1] == polls && all[|all| - 1] == last && polls[..|polls|] == polls;
      SessionOfEmitted(events, all, encode, decode);
    } else {
      ConcatPrefix(polls, watch.answered);
      SessionOfEmitted(events, polls[..watch.answered], encode, decode);
    }
  }

  lemma {:induction false} ConcatPrefix(chunks: seq<Bytes>, count: nat)
    requires count <= |chunks|
    ensures Concat(chunks[..count]) <= Concat(chunks)
  {
    if count == |chunks| {
      assert chunks[..count] == chunks;
    } else {
      var init := chunks[..|chunks| - 1];
      assert init[..count] == chunks[..count];
      ConcatPrefix(init, count);
    }
  }

  /** And an Ok means that the worker exited with zero and everything it emitted was handed on. */
  lemma {:induction false} OkMeansAll<E>(
    events: seq<E>, polls: seq<Bytes>, last: Bytes, status: nat, encode: E -> Bytes, decode: Decoder<E>,
    received: seq<E>, result: Result<Unit, RunnerError>, watch: Watch)
    requires Faithful(events, encode, decode)
    requires Concat(polls) + last == Emitted(events, encode)
    requires Monitored(polls, last, status, decode, received, result, watch) && result.Success?
    ensures status == 0 && received == events
  {
    hide Lines, Remainder, Deliver, Emitted, Faithful, DrainAll;
    SessionExact(polls, decode);
    forall i | 0 <= i < |polls|
      ensures |polls[i]| <= MAX_PROGRESS_READ
    {
      WithinLimitsBounds(polls, i);
    }
    assert polls[..|polls|] == polls;
    FramingRoundTrip(events, polls, last, encode, decode);
  }

  /** An undisturbed runner of a worker that keeps within the limits answers by the exit status alone. */
  lemma {:induction false} AnswerIsStatus<E>(
    events: seq<E>, polls: seq<Bytes>, last: Bytes, status: nat, encode: E -> Bytes, decode: Decoder<E>)
    requires Faithful(events, encode, decode)
    requires Concat(polls) + last == Emitted(events, encode) && |last| <= MAX_PROGRESS_READ
    requires forall i :: 0 <= i < |polls| ==> |polls[i]| <= MAX_PROGRESS_READ
    ensures Answer(polls, last, status, decode) == if status == 0 then Success(Unit.Unit) else Failure(Failed(status))
  {
    hide DrainAll, Finished, Emitted, Faithful;
    FramingRoundTrip(events, polls, last, encode, decode);
  }
}
