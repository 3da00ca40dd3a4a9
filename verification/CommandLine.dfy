/**
 Windows argument quoting (src/pipeline/windows.rs) against an independent parser for the
 argument rules of `CommandLineToArgvW`.

 Characters are UTF-16 code units, unpaired surrogates included, because the source works on
 `encode_wide` and `from_wide`.
 */
module CommandLine {
  import opened Common

  newtype wide = x: int | 0 <= x < 0x1_0000

  const NUL: wide := 0
  const TAB: wide := 0x09
  const SPACE: wide := 0x20
  const QUOTE: wide := 0x22
  const BACKSLASH: wide := 0x5C

  // ---------------------------------------------------------------- what the quoting writes

  /** The quoted form of `value[..i]` without its opening quote and without the final run. */
  function Body(value: seq<wide>): seq<wide>
  {
    if value == [] then []
    else
      var init, last := value[..|value| - 1], value[|value| - 1];
      if last == BACKSLASH then Body(init)
      else if last == QUOTE then Body(init) + Repeat(BACKSLASH, 2 * TrailingSlashes(init) + 1) + [QUOTE]
      else Body(init) + Repeat(BACKSLASH, TrailingSlashes(init)) + [last]
  }

  /** Length of the run of backslashes that ends `value`. */
  function TrailingSlashes(value: seq<wide>): nat
  {
    if value == [] || value[|value| - 1] != BACKSLASH then 0
    else 1 + TrailingSlashes(value[..|value| - 1])
  }

  function Quoted(value: seq<wide>): seq<wide>
  {
    [QUOTE] + Body(value) + Repeat(BACKSLASH, 2 * TrailingSlashes(value)) + [QUOTE]
  }

  function Joined(arguments: seq<seq<wide>>): seq<wide>
  {
    if arguments == [] then []
    else if |arguments| == 1 then Quoted(arguments[0])
    else Joined(arguments[..|arguments| - 1]) + [SPACE] + Quoted(arguments[|arguments| - 1])
  }

  method QuoteNativeArgument(value: seq<wide>) returns (quoted: seq<wide>)
    ensures quoted == Quoted(value)
  {
    quoted := [QUOTE];
    var backslashes: nat := 0;
    for i := 0 to |value|
      invariant backslashes == TrailingSlashes(value[..i])
      invariant quoted == [QUOTE] + Body(value[..i])
    {
      var character := value[i];
      assert value[..i + 1][..i] == value[..i];
      if character == BACKSLASH {
        backslashes := backslashes + 1;
        continue;
      }
      if character == QUOTE {
        quoted := quoted + Repeat(BACKSLASH, backslashes * 2 + 1);
      } else {
        quoted := quoted + Repeat(BACKSLASH, backslashes);
      }
      quoted := quoted + [character];
      backslashes := 0;
    }
    assert value[..|value|] == value;
    quoted := quoted + Repeat(BACKSLASH, backslashes * 2);
    quoted := quoted + [QUOTE];
  }

  method NativeCommandLine(arguments: seq<seq<wide>>) returns (encoded: seq<wide>)
    ensures encoded == Joined(arguments)
  {
    encoded := [];
    for index := 0 to |arguments|
      invariant encoded == Joined(arguments[..index])
    {
      assert arguments[..index + 1][..index] == arguments[..index];
      if index > 0 {
        encoded := encoded + [SPACE];
      }
      var quoted := QuoteNativeArgument(arguments[index]);
      encoded := encoded + quoted;
    }
    assert arguments[..|arguments|] == arguments;
  }

  // ---------------------------------------------------------------- what the started process reads

  /**
   The parser's state. `slashes` is the run of backslashes not yet known to be literal; `open`
   says that an argument has been started, which matters for an empty quoted argument.
   */
  datatype Reader = Reader(done: seq<seq<wide>>, argument: seq<wide>, open: bool, quoted: bool, slashes: nat)
  {
    function Flush(): seq<wide>
    {
      argument + Repeat(BACKSLASH, slashes)
    }

    function Arguments(): seq<seq<wide>>
    {
      if open then done + [Flush()] else done
    }
  }

  const IDLE := Reader([], [], false, false, 0)

  /**
   The documented rules, character by character: a NUL ends the line; blanks outside quotes
   separate; 2n backslashes and a quote give n backslashes and a delimiter; 2n+1 give n backslashes
   and a literal quote; other backslashes are literal; and a doubled quote inside a quoted part is
   one literal quote. Implementations differ on whether the quoted part goes on after a doubled
   quote, so `pairKeepsQuoting` stands for either reading.
   */
  function Read(s: seq<wide>, r: Reader, pairKeepsQuoting: bool): seq<seq<wide>>
  {
    if s == [] || s[0] == NUL then r.Arguments()
    else if s[0] == BACKSLASH then
      Read(s[1..], r.(open := true, slashes := r.slashes + 1), pairKeepsQuoting)
    else if s[0] == QUOTE then
      var argument := r.argument + Repeat(BACKSLASH, r.slashes / 2);
      if r.slashes % 2 == 1 then
        Read(s[1..], Reader(r.done, argument + [QUOTE], true, r.quoted, 0), pairKeepsQuoting)
      else if r.quoted && |s| > 1 && s[1] == QUOTE then
        Read(s[2..], Reader(r.done, argument + [QUOTE], true, pairKeepsQuoting, 0), pairKeepsQuoting)
      else
        Read(s[1..], Reader(r.done, argument, true, !r.quoted, 0), pairKeepsQuoting)
    else if (s[0] == SPACE || s[0] == TAB) && !r.quoted then
      Read(s[1..], Reader(r.Arguments(), [], false, false, 0), pairKeepsQuoting)
    else
      Read(s[1..], Reader(r.done, r.Flush() + [s[0]], true, r.quoted, 0), pairKeepsQuoting)
  }

  function ParseArguments(line: seq<wide>, pairKeepsQuoting: bool): seq<seq<wide>>
  {
    Read(line, IDLE, pairKeepsQuoting)
  }

  // ---------------------------------------------------------------- reading what was written

  ghost predicate NulFree(value: seq<wide>)
  {
    NUL !in value
  }

  ghost function WithoutTrailingSlashes(value: seq<wide>): (r: seq<wide>)
    ensures r + Repeat(BACKSLASH, TrailingSlashes(value)) == value
  {
    if value == [] || value[|value| - 1] != BACKSLASH then value
    else
      assert value == value[..|value| - 1] + [BACKSLASH];
      WithoutTrailingSlashes(value[..|value| - 1])
  }

  lemma {:induction false} ReadSlashes(count: nat, rest: seq<wide>, r: Reader, pair: bool)
    requires r.open
    ensures Read(Repeat(BACKSLASH, count) + rest, r, pair) == Read(rest, r.(slashes := r.slashes + count), pair)
  {
    if count == 0 {
      assert Repeat(BACKSLASH, 0) + rest == rest;
    } else {
      assert (Repeat(BACKSLASH, count) + rest)[1..] == Repeat(BACKSLASH, count - 1) + rest;
      ReadSlashes(count - 1, rest, r.(slashes := r.slashes + 1), pair);
    }
  }

  /** How many backslashes `quote_native_argument` writes for a run of `t` before `last`. */
  function Written(t: nat, last: wide): nat
  {
    if last == QUOTE then 2 * t + 1 else t
  }

  /** Inside the quotes, a character after its backslashes is literal, and so are `t` of them. */
  lemma {:induction false} ReadLiteral(t: nat, last: wide, rest: seq<wide>, done: seq<seq<wide>>, stem: seq<wide>, pair: bool)
    requires last != NUL && last != BACKSLASH
    ensures Read([last] + rest, Reader(done, stem, true, true, Written(t, last)), pair)
         == Read(rest, Reader(done, stem + Repeat(BACKSLASH, t) + [last], true, true, 0), pair)
  {
    assert ([last] + rest)[1..] == rest;
    assert (2 * t + 1) / 2 == t && (2 * t + 1) % 2 == 1;
  }

  /** Inside the quotes, the body of `value` is read back as `value` up to its final backslashes. */
  lemma {:induction false} ReadBody(value: seq<wide>, rest: seq<wide>, done: seq<seq<wide>>, pair: bool)
    requires NulFree(value)
    ensures Read(Body(value) + rest, Reader(done, [], true, true, 0), pair)
         == Read(rest, Reader(done, WithoutTrailingSlashes(value), true, true, 0), pair)
  {
    hide Read;
    if value == [] {
      assert Body(value) + rest == rest;
    } else {
      var init, last := value[..|value| - 1], value[|value| - 1];
      assert value == init + [last];
      if last == BACKSLASH {
        ReadBody(init, rest, done, pair);
      } else {
        var t, stem := TrailingSlashes(init), WithoutTrailingSlashes(init);
        var tail := Repeat(BACKSLASH, Written(t, last)) + ([last] + rest);
        assert Body(value) + rest == Body(init) + tail;
        ReadBody(init, tail, done, pair);
        ReadSlashes(Written(t, last), [last] + rest, Reader(done, stem, true, true, 0), pair);
        ReadLiteral(t, last, rest, done, stem, pair);
        assert stem + Repeat(BACKSLASH, t) + [last] == value;
      }
    }
  }

  ghost predicate EndsHere(rest: seq<wide>)
  {
    rest != [] ==> rest[0] == SPACE
  }

  lemma {:induction false} ReadOpening(inside: seq<wide>, done: seq<seq<wide>>, pair: bool)
    ensures Read([QUOTE] + inside, Reader(done, [], false, false, 0), pair)
         == Read(inside, Reader(done, [], true, true, 0), pair)
  {
    assert ([QUOTE] + inside)[1..] == inside;
    assert [] + Repeat(BACKSLASH, 0 / 2) == [];
  }

  lemma {:induction false} ReadClosing(argument: seq<wide>, count: nat, rest: seq<wide>, done: seq<seq<wide>>, pair: bool)
    requires EndsHere(rest)
    ensures Read([QUOTE] + rest, Reader(done, argument, true, true, 2 * count), pair)
         == Read(rest, Reader(done, argument + Repeat(BACKSLASH, count), true, false, 0), pair)
  {
    var s := [QUOTE] + rest;
    assert s[1..] == rest;
    assert (2 * count) / 2 == count && (2 * count) % 2 == 0;
    if |s| > 1 {
      assert s[1] == rest[0];
    }
  }

  lemma {:induction false} ReadBlank(tail: seq<wide>, done: seq<seq<wide>>, argument: seq<wide>, pair: bool)
    ensures Read([SPACE] + tail, Reader(done, argument, true, false, 0), pair)
         == Read(tail, Reader(done + [argument], [], false, false, 0), pair)
  {
    assert ([SPACE] + tail)[1..] == tail;
    assert argument + Repeat(BACKSLASH, 0) == argument;
  }

  lemma {:induction false} ReadQuoted(value: seq<wide>, rest: seq<wide>, done: seq<seq<wide>>, pair: bool)
    requires NulFree(value) && EndsHere(rest)
    ensures Read(Quoted(value) + rest, Reader(done, [], false, false, 0), pair)
         == Read(rest, Reader(done, value, true, false, 0), pair)
  {
    var t, stem := TrailingSlashes(value), WithoutTrailingSlashes(value);
    var closing := [QUOTE] + rest;
    var slashes := Repeat(BACKSLASH, 2 * t) + closing;
    calc {
      Read(Quoted(value) + rest, Reader(done, [], false, false, 0), pair);
      { assert Quoted(value) + rest == [QUOTE] + (Body(value) + slashes); }
      Read([QUOTE] + (Body(value) + slashes), Reader(done, [], false, false, 0), pair);
      { ReadOpening(Body(value) + slashes, done, pair); }
      Read(Body(value) + slashes, Reader(done, [], true, true, 0), pair);
      { ReadBody(value, slashes, done, pair); }
      Read(slashes, Reader(done, stem, true, true, 0), pair);
      { ReadSlashes(2 * t, closing, Reader(done, stem, true, true, 0), pair); }
      Read(closing, Reader(done, stem, true, true, 2 * t), pair);
      { ReadClosing(stem, t, rest, done, pair); }
      Read(rest, Reader(done, value, true, false, 0), pair);
    }
  }

  lemma {:induction false} ReadJoined(arguments: seq<seq<wide>>, rest: seq<wide>, pair: bool)
    requires arguments != [] && EndsHere(rest)
    requires forall a :: a in arguments ==> NulFree(a)
    ensures Read(Joined(arguments) + rest, IDLE, pair)
         == Read(rest, Reader(arguments[..|arguments| - 1], arguments[|arguments| - 1], true, false, 0), pair)
    decreases |arguments|, 0
  {
    hide Read, Quoted;
    var init, last := arguments[..|arguments| - 1], arguments[|arguments| - 1];
    if |arguments| > 1 {
      ReadJoinedThen(init, Quoted(last) + rest, pair);
      assert Joined(arguments) + rest == Joined(init) + ([SPACE] + (Quoted(last) + rest));
    } else {
      assert Joined(arguments) == Quoted(last);
    }
    ReadQuoted(last, rest, init, pair);
  }

  /** After a blank, the arguments before it are complete and the rest is read from scratch. */
  lemma {:induction false} ReadJoinedThen(arguments: seq<seq<wide>>, tail: seq<wide>, pair: bool)
    requires arguments != []
    requires forall a :: a in arguments ==> NulFree(a)
    ensures Read(Joined(arguments) + ([SPACE] + tail), IDLE, pair)
         == Read(tail, Reader(arguments, [], false, false, 0), pair)
    decreases |arguments|, 1
  {
    hide Read, Quoted;
    var init, last := arguments[..|arguments| - 1], arguments[|arguments| - 1];
    ReadJoined(arguments, [SPACE] + tail, pair);
    ReadBlank(tail, init, last, pair);
    assert init + [last] == arguments;
  }

  /** Every argument list without NULs survives quoting, whichever way doubled quotes are read. */
  lemma {:induction false} QuotingRoundTrip(arguments: seq<seq<wide>>, pair: bool)
    requires forall a :: a in arguments ==> NulFree(a)
    ensures ParseArguments(Joined(arguments), pair) == arguments
  {
    if arguments != [] {
      ReadJoined(arguments, [], pair);
      assert Joined(arguments) + [] == Joined(arguments);
      var r := Reader(arguments[..|arguments| - 1], arguments[|arguments| - 1], true, false, 0);
      assert r.Flush() == arguments[|arguments| - 1];
    }
  }

  // ---------------------------------------------------------------- the converse

  lemma {:induction false} BodyGrows(value: seq<wide>, j: nat) returns (more: seq<wide>)
    requires j <= |value|
    ensures Body(value) == Body(value[..j]) + more
  {
    if j == |value| {
      assert value[..j] == value;
      more := [];
    } else {
      var init, last := value[..|value| - 1], value[|value| - 1];
      assert init[..j] == value[..j];
      more := BodyGrows(init, j);
      if last != BACKSLASH {
        var t := TrailingSlashes(init);
        more := more + (Repeat(BACKSLASH, if last == QUOTE then 2 * t + 1 else t) + [last]);
      }
    }
  }

  lemma {:induction false} JoinedGrows(arguments: seq<seq<wide>>, k: nat) returns (more: seq<wide>)
    requires k <= |arguments|
    ensures Joined(arguments) == Joined(arguments[..k]) + more
  {
    hide Quoted;
    if k == |arguments| {
      assert arguments[..k] == arguments;
      more := [];
    } else if |arguments| == 1 {
      more := Joined(arguments);
      assert arguments[..k] == [];
    } else {
      var init, last := arguments[..|arguments| - 1], arguments[|arguments| - 1];
      assert init[..k] == arguments[..k];
      more := JoinedGrows(init, k);
      more := more + [SPACE] + Quoted(last);
    }
  }

  lemma {:induction false} ReadToNul(stem: seq<wide>, rest: seq<wide>, done: seq<seq<wide>>, pair: bool)
    requires NulFree(stem)
    ensures Read([QUOTE] + (Body(stem + [NUL]) + rest), Reader(done, [], false, false, 0), pair) == done + [stem]
  {
    var t, bare := TrailingSlashes(stem), WithoutTrailingSlashes(stem);
    var slashes := Repeat(BACKSLASH, t) + ([NUL] + rest);
    assert (stem + [NUL])[..|stem|] == stem;
    calc {
      Read([QUOTE] + (Body(stem + [NUL]) + rest), Reader(done, [], false, false, 0), pair);
      { assert Body(stem + [NUL]) + rest == Body(stem) + slashes; }
      Read([QUOTE] + (Body(stem) + slashes), Reader(done, [], false, false, 0), pair);
      { ReadOpening(Body(stem) + slashes, done, pair); }
      Read(Body(stem) + slashes, Reader(done, [], true, true, 0), pair);
      { ReadBody(stem, slashes, done, pair); }
      Read(slashes, Reader(done, bare, true, true, 0), pair);
      { ReadSlashes(t, [NUL] + rest, Reader(done, bare, true, true, 0), pair); }
      Read([NUL] + rest, Reader(done, bare, true, true, t), pair);
      done + [stem];
    }
  }

  lemma FirstNul(value: seq<wide>) returns (j: nat)
    requires !NulFree(value)
    ensures j < |value| && value[j] == NUL && NulFree(value[..j])
  {
    j := 0;
    while value[j] != NUL
      invariant j < |value| && NulFree(value[..j])
      invariant exists i :: j <= i < |value| && value[i] == NUL
      decreases |value| - j
    {
      assert value[..j + 1] == value[..j] + [value[j]];
      j := j + 1;
    }
  }

  /** An argument with a NUL is cut short there, and reading stops. */
  lemma ReadCutShort(value: seq<wide>, rest: seq<wide>, done: seq<seq<wide>>, pair: bool) returns (cut: seq<wide>)
    requires !NulFree(value)
    ensures |cut| < |value|
    ensures Read(Quoted(value) + rest, Reader(done, [], false, false, 0), pair) == done + [cut]
  {
    var j := FirstNul(value);
    cut := value[..j];
    assert cut + [NUL] == value[..j + 1];
    var more := BodyGrows(value, j + 1);
    var after := more + Repeat(BACKSLASH, 2 * TrailingSlashes(value)) + [QUOTE] + rest;
    var line := [QUOTE] + (Body(cut + [NUL]) + after);
    assert Quoted(value) + rest == line;
    ReadToNul(cut, after, done, pair);
  }

  lemma FirstWithNul(arguments: seq<seq<wide>>) returns (k: nat)
    requires exists a :: a in arguments && !NulFree(a)
    ensures k < |arguments| && !NulFree(arguments[k])
    ensures forall a :: a in arguments[..k] ==> NulFree(a)
  {
    k := 0;
    while NulFree(arguments[k])
      invariant k < |arguments| && forall i :: 0 <= i < k ==> NulFree(arguments[i])
      invariant exists i :: k <= i < |arguments| && !NulFree(arguments[i])
      decreases |arguments| - k
    {
      k := k + 1;
    }
  }

  lemma {:induction false} JoinedSplits(before: seq<seq<wide>>, value: seq<wide>)
    ensures before == [] ==> Joined(before + [value]) == Quoted(value)
    ensures before != [] ==> Joined(before + [value]) == Joined(before) + [SPACE] + Quoted(value)
  {
    assert (before + [value])[..|before|] == before;
  }

  lemma ReadBroken(before: seq<seq<wide>>, value: seq<wide>, more: seq<wide>, pair: bool) returns (cut: seq<wide>)
    requires forall a :: a in before ==> NulFree(a)
    requires !NulFree(value)
    ensures |cut| < |value|
    ensures Read(Joined(before + [value]) + more, IDLE, pair) == before + [cut]
  {
    hide Joined, Quoted, Read;
    var line, tail := Joined(before + [value]) + more, Quoted(value) + more;
    JoinedSplits(before, value);
    cut := ReadCutShort(value, more, before, pair);
    var start := Reader(before, [], false, false, 0);
    if before == [] {
      assert line == tail && start == IDLE;
    } else {
      assert line == Joined(before) + ([SPACE] + tail);
      assert Read(line, IDLE, pair) == Read(tail, start, pair) by {
        ReadJoinedThen(before, tail, pair);
      }
    }
  }

  lemma {:induction false} NulBreaksRoundTrip(arguments: seq<seq<wide>>, pair: bool)
    requires exists a :: a in arguments && !NulFree(a)
    ensures ParseArguments(Joined(arguments), pair) != arguments
  {
    var k := FirstWithNul(arguments);
    var before, value := arguments[..k], arguments[k];
    var more := JoinedGrows(arguments, k + 1);
    assert arguments[..k + 1] == before + [value];
    var cut := ReadBroken(before, value, more, pair);
    assert (before + [cut])[k] == cut;
  }

  /** The round trip holds exactly for the lists a native command line can carry: those without NULs. */
  lemma {:induction false} QuotingRoundTripExactly(arguments: seq<seq<wide>>, pair: bool)
    ensures ParseArguments(Joined(arguments), pair) == arguments <==> forall a :: a in arguments ==> NulFree(a)
  {
    if forall a :: a in arguments ==> NulFree(a) {
      QuotingRoundTrip(arguments, pair);
    } else {
      NulBreaksRoundTrip(arguments, pair);
    }
  }
}
