/**
 Octal escapes in `/proc/self/mountinfo` and `/proc/swaps` (src/worker/linux.rs).

 The octal sum is computed in `u8`. With overflow checks a step outside `u8` panics; without them
 it wraps. Both builds are modelled: `checks` says which.
 */
module Mountinfo {
  import opened Common

  const BACKSLASH: byte := 0x5C
  const ZERO: byte := 0x30
  const SEVEN: byte := 0x37
  const NINE: byte := 0x39

  datatype DecodeError = Truncated | InvalidEscape | ArithmeticPanic

  type Decoded = Result<seq<byte>, DecodeError>

  /** One `u8` operation whose exact result is `exact`. */
  function Narrow(exact: int, checks: bool): (r: Option<int>)
    ensures r.Some? ==> 0 <= r.value < 0x100
  {
    if 0 <= exact < 0x100 then Some(exact)
    else if checks then None
    else Some(exact % 0x100)
  }

  predicate IsOctal(b: byte)
  {
    ZERO <= b <= SEVEN
  }

  /** `(e0 - '0') * 64 + (e1 - '0') * 8 + e2 - '0'`, one `u8` operation after the other. */
  function OctalSum(e0: byte, e1: byte, e2: byte, checks: bool): Option<byte>
    requires IsOctal(e0) && IsOctal(e1) && IsOctal(e2)
  {
    match Narrowed((e0 - ZERO) as int, (e1 - ZERO) as int, e2 as int, checks)
    case None => None
    case Some(octal) => Some(octal as byte)
  }

  function Narrowed(high: int, middle: int, last: int, checks: bool): (r: Option<int>)
    ensures r.Some? ==> 0 <= r.value < 0x100
  {
    match Narrow(high * 64, checks)
    case None => None
    case Some(first) =>
      match Narrow(middle * 8, checks)
      case None => None
      case Some(second) =>
        match Narrow(first + second, checks)
        case None => None
        case Some(partial) => NarrowedDigit(partial, last, checks)
  }

  /** The last digit: its character is added before `'0'` is taken away. */
  function NarrowedDigit(partial: int, last: int, checks: bool): (r: Option<int>)
    ensures r.Some? ==> 0 <= r.value < 0x100
  {
    match Narrow(partial + last, checks)
    case None => None
    case Some(sum) => Narrow(sum - ZERO as int, checks)
  }

  function OctalValue(e0: byte, e1: byte, e2: byte): nat
    requires IsOctal(e0) && IsOctal(e1) && IsOctal(e2)
  {
    (e0 - ZERO) as nat * 64 + (e1 - ZERO) as nat * 8 + (e2 - ZERO) as nat
  }

  /** The sum stays inside `u8` at every step exactly up to 207; wrapping gives the value modulo 256. */
  lemma OctalSumExact(e0: byte, e1: byte, e2: byte)
    requires IsOctal(e0) && IsOctal(e1) && IsOctal(e2)
    ensures var value := OctalValue(e0, e1, e2);
      && OctalSum(e0, e1, e2, true) == (if value <= 207 then Some(value as byte) else None)
      && OctalSum(e0, e1, e2, false) == Some((value % 0x100) as byte)
  {
    NarrowedExact((e0 - ZERO) as nat, (e1 - ZERO) as nat, (e2 - ZERO) as nat);
  }

  lemma NarrowedExact(a: nat, b: nat, c: nat)
    requires a <= 7 && b <= 7 && c <= 7
    ensures var value := a * 64 + b * 8 + c;
      && Narrowed(a, b, c + 0x30, true) == (if value <= 207 then Some(value) else None)
      && Narrowed(a, b, c + 0x30, false) == Some(value % 0x100)
  {
    if a <= 3 {
      NarrowedLow(a, b, c);
    } else {
      NarrowedHigh(a - 4, b, c);
    }
  }

  lemma LastDigit(partial: nat, c: nat)
    requires partial + c <= 0xFF && c <= 7
    ensures NarrowedDigit(partial, c + 0x30, true) == if partial + c <= 207 then Some(partial + c) else None
    ensures NarrowedDigit(partial, c + 0x30, false) == Some(partial + c)
  {
    var sum := partial + (c + 0x30);
    if sum < 0x100 {
      assert Narrow(sum, true) == Some(sum) == Narrow(sum, false);
    } else {
      assert Narrow(sum, true) == None && Narrow(sum, false) == Some(sum - 0x100);
    }
  }

  lemma NarrowedLow(a: nat, b: nat, c: nat)
    requires a <= 3 && b <= 7 && c <= 7
    ensures var value := a * 64 + b * 8 + c;
      && value % 0x100 == value
      && Narrowed(a, b, c + 0x30, true) == (if value <= 207 then Some(value) else None)
      && Narrowed(a, b, c + 0x30, false) == Some(value)
  {
    hide NarrowedDigit;
    LastDigit(a * 64 + b * 8, c);
  }

  /** The first product already leaves `u8`, and wrapping keeps what the two lower bits of the digit give. */
  lemma NarrowedHigh(kept: nat, b: nat, c: nat)
    requires kept <= 3 && b <= 7 && c <= 7
    ensures var value := (kept + 4) * 64 + b * 8 + c;
      && value > 207 && value % 0x100 == kept * 64 + b * 8 + c
      && Narrowed(kept + 4, b, c + 0x30, true) == None
      && Narrowed(kept + 4, b, c + 0x30, false) == Some(kept * 64 + b * 8 + c)
  {
    hide Narrowed;
    FirstProductWraps(kept, b, c);
    NarrowedLow(kept, b, c);
  }

  lemma FirstProductWraps(kept: nat, b: nat, c: nat)
    requires kept <= 3 && b <= 7 && c <= 7
    ensures Narrowed(kept + 4, b, c + 0x30, true) == None
    ensures Narrowed(kept + 4, b, c + 0x30, false) == Narrowed(kept, b, c + 0x30, false)
  {
    hide NarrowedDigit;
    assert Narrow((kept + 4) * 64, true) == None;
    assert Narrow((kept + 4) * 64, false) == Some(kept * 64) == Narrow(kept * 64, false);
  }

  // ---------------------------------------------------------------- reference

  /** The decoding of `value` from its front. */
  function Decode(value: seq<byte>, checks: bool): Decoded
  {
    if value == [] then Success([])
    else if value[0] != BACKSLASH then Prepend([value[0]], Decode(value[1..], checks))
    else if |value| < 4 then Failure(Truncated)
    else if !(IsOctal(value[1]) && IsOctal(value[2]) && IsOctal(value[3])) then Failure(InvalidEscape)
    else
      match OctalSum(value[1], value[2], value[3], checks)
      case None => Failure(ArithmeticPanic)
      case Some(octal) => Prepend([octal], Decode(value[4..], checks))
  }

  function Prepend(prefix: seq<byte>, rest: Decoded): Decoded
  {
    if rest.Failure? then rest else Success(prefix + rest.value)
  }

  lemma PrependTwice(a: seq<byte>, b: seq<byte>, rest: Decoded)
    ensures Prepend([], rest) == rest
    ensures Prepend(a, Prepend(b, rest)) == Prepend(a + b, rest)
  {
    if rest.Success? {
      assert [] + rest.value == rest.value;
      assert a + (b + rest.value) == (a + b) + rest.value;
    }
  }

  predicate OctalTriple(value: seq<byte>, index: nat)
    requires index + 4 <= |value|
  {
    IsOctal(value[index + 1]) && IsOctal(value[index + 2]) && IsOctal(value[index + 3])
  }

  /** `Decode` at a position of the field, in terms of the field itself. */
  lemma {:induction false} DecodeAt(value: seq<byte>, index: nat, checks: bool)
    requires index < |value|
    ensures value[index] != BACKSLASH ==>
      Decode(value[index..], checks) == Prepend([value[index]], Decode(value[index + 1..], checks))
    ensures value[index] == BACKSLASH ==>
      Decode(value[index..], checks) ==
        if index + 4 > |value| then Failure(Truncated)
        else if !OctalTriple(value, index) then Failure(InvalidEscape)
        else
          match OctalSum(value[index + 1], value[index + 2], value[index + 3], checks)
          case None => Failure(ArithmeticPanic)
          case Some(octal) => Prepend([octal], Decode(value[index + 4..], checks))
  {
    hide OctalSum, Prepend;
    var rest := value[index..];
    assert rest[1..] == value[index + 1..];
    if index + 4 <= |value| {
      assert rest[4..] == value[index + 4..];
    }
  }

  method DecodeMountinfoField(value: seq<byte>, checks: bool) returns (result: Decoded)
    ensures result == Decode(value, checks)
  {
    hide Decode, OctalSum, Prepend;
    var decoded := [];
    var index := 0;
    assert value[0..] == value;
    PrependTwice([], [], Decode(value, checks));
    while index < |value|
      invariant index <= |value|
      invariant Decode(value, checks) == Prepend(decoded, Decode(value[index..], checks))
    {
      DecodeAt(value, index, checks);
      if value[index] == BACKSLASH {
        if index + 4 > |value| {
          PrependFailure(decoded, Truncated);
          return Failure(Truncated);
        }
        var escape := value[index + 1..index + 4];
        var digits := forall i :: 0 <= i < |escape| ==> ZERO <= escape[i] <= NINE;
        var aboveSeven := exists i :: 0 <= i < |escape| && escape[i] > SEVEN;
        assert escape == [value[index + 1], value[index + 2], value[index + 3]];
        assert digits && !aboveSeven <==> OctalTriple(value, index) by {
          AllDigitsOctal(escape[0], escape[1], escape[2]);
        }
        if !digits || aboveSeven {
          PrependFailure(decoded, InvalidEscape);
          return Failure(InvalidEscape);
        }
        var octal := OctalSum(escape[0], escape[1], escape[2], checks);
        if octal.None? {
          PrependFailure(decoded, ArithmeticPanic);
          return Failure(ArithmeticPanic);
        }
        PrependTwice(decoded, [octal.value], Decode(value[index + 4..], checks));
        decoded := decoded + [octal.value];
        index := index + 4;
      } else {
        PrependTwice(decoded, [value[index]], Decode(value[index + 1..], checks));
        decoded := decoded + [value[index]];
        index := index + 1;
      }
    }
    assert value[index..] == [];
    DecodeEnd(decoded, checks);
    result := Success(decoded);
  }

  lemma AllDigitsOctal(e0: byte, e1: byte, e2: byte)
    ensures var escape := [e0, e1, e2];
      && (forall i :: 0 <= i < |escape| ==> ZERO <= escape[i] <= NINE)
      && !(exists i :: 0 <= i < |escape| && escape[i] > SEVEN)
      <==> IsOctal(e0) && IsOctal(e1) && IsOctal(e2)
  {
    var escape := [e0, e1, e2];
    assert escape[0] == e0 && escape[1] == e1 && escape[2] == e2;
  }

  lemma {:induction false} DecodeEnd(decoded: seq<byte>, checks: bool)
    ensures Prepend(decoded, Decode([], checks)) == Success(decoded)
  {
    assert decoded + [] == decoded;
  }

  lemma PrependFailure(decoded: seq<byte>, error: DecodeError)
    ensures Prepend(decoded, Failure(error)) == Failure(error)
  {
  }

  // ---------------------------------------------------------------- escaping

  /** Three octal digits, as the kernel writes them. */
  function Escape(b: byte): (e: seq<byte>)
    ensures |e| == 4 && e[0] == BACKSLASH
    ensures IsOctal(e[1]) && IsOctal(e[2]) && IsOctal(e[3]) && OctalValue(e[1], e[2], e[3]) == b as nat
  {
    [BACKSLASH, ZERO + b / 64, ZERO + b / 8 % 8, ZERO + b % 8]
  }

  function EscapeField(text: seq<byte>, escaped: byte -> bool): seq<byte>
  {
    if text == [] then []
    else (if escaped(text[0]) then Escape(text[0]) else [text[0]]) + EscapeField(text[1..], escaped)
  }

  // Space, tab, newline and backslash.
  predicate KernelEscapes(b: byte)
  {
    b == 0x20 || b == 0x09 || b == 0x0A || b == BACKSLASH
  }

  /**
   Decoding undoes escaping for every choice of escaped bytes that includes the backslash. With
   overflow checks it does so exactly when no escaped byte is above 207 (`Decodable`).
   */
  lemma {:induction false} EscapeRoundTrip(text: seq<byte>, escaped: byte -> bool, checks: bool)
    requires escaped(BACKSLASH)
    ensures Decode(EscapeField(text, escaped), checks) == Success(text) <==> Decodable(text, escaped, checks)
  {
    if text != [] {
      var first, rest := text[0], EscapeField(text[1..], escaped);
      EscapeRoundTrip(text[1..], escaped, checks);
      assert text == [first] + text[1..];
      assert Decodable(text, escaped, checks) <==>
        (checks && escaped(first) ==> first <= 207) && Decodable(text[1..], escaped, checks) by {
        assert forall i :: 1 <= i < |text| ==> text[i] == text[1..][i - 1];
      }
      DecodeFirst(first, rest, escaped(first), checks);
      PrependInjective([first], Decode(rest, checks), text[1..]);
    }
  }

  ghost predicate Decodable(text: seq<byte>, escaped: byte -> bool, checks: bool)
  {
    checks ==> forall i :: 0 <= i < |text| && escaped(text[i]) ==> text[i] <= 207
  }

  lemma {:induction false} DecodeFirst(first: byte, rest: seq<byte>, escaped: bool, checks: bool)
    requires first == BACKSLASH ==> escaped
    ensures Decode((if escaped then Escape(first) else [first]) + rest, checks)
      == if checks && escaped && first > 207 then Failure(ArithmeticPanic) else Prepend([first], Decode(rest, checks))
  {
    hide Decode, Prepend, OctalSum, Escape;
    if escaped {
      DecodeEscaped(first, rest, checks);
    } else {
      var value := [first] + rest;
      DecodeAt(value, 0, checks);
      assert value[0..] == value && value[1..] == rest;
    }
  }

  lemma {:induction false} DecodeEscaped(first: byte, rest: seq<byte>, checks: bool)
    ensures Decode(Escape(first) + rest, checks)
      == if checks && first > 207 then Failure(ArithmeticPanic) else Prepend([first], Decode(rest, checks))
  {
    hide Decode, Prepend, OctalSum, Escape;
    var e := Escape(first);
    var value := e + rest;
    assert value[0..] == value && value[4..] == rest;
    assert value[0] == e[0] && value[1] == e[1] && value[2] == e[2] && value[3] == e[3];
    DecodeAt(value, 0, checks);
    OctalSumExact(e[1], e[2], e[3]);
  }

  lemma PrependInjective(prefix: seq<byte>, rest: Decoded, text: seq<byte>)
    ensures Prepend(prefix, rest) == Success(prefix + text) <==> rest == Success(text)
  {
    if rest.Success? && prefix + rest.value == prefix + text {
      assert rest.value == (prefix + rest.value)[|prefix|..];
      assert text == (prefix + text)[|prefix|..];
    }
  }

  /** In particular the kernel's escapes are always undone, in every build. */
  lemma {:induction false} KernelEscapeRoundTrip(text: seq<byte>, checks: bool)
    ensures Decode(EscapeField(text, KernelEscapes), checks) == Success(text)
  {
    EscapeRoundTrip(text, KernelEscapes, checks);
  }

  // ---------------------------------------------------------------- the language of fields

  /** A piece of a field: a byte as it stands, or a backslash and three digits. */
  datatype Token = Plain(b: byte) | Octal(e0: byte, e1: byte, e2: byte)

  /** The pieces that decode: plain bytes other than the backslash, and octal digits whose value fits. */
  predicate Decodes(t: Token, checks: bool)
  {
    match t
    case Plain(b) => b != BACKSLASH
    case Octal(e0, e1, e2) => IsOctal(e0) && IsOctal(e1) && IsOctal(e2) && (checks ==> OctalValue(e0, e1, e2) <= 207)
  }

  function Spelled(t: Token): seq<byte>
  {
    match t
    case Plain(b) => [b]
    case Octal(e0, e1, e2) => [BACKSLASH, e0, e1, e2]
  }

  function Meaning(t: Token, checks: bool): byte
    requires Decodes(t, checks)
  {
    match t
    case Plain(b) => b
    case Octal(e0, e1, e2) => (OctalValue(e0, e1, e2) % 0x100) as byte
  }

  predicate AllDecode(tokens: seq<Token>, checks: bool)
  {
    forall i :: 0 <= i < |tokens| ==> Decodes(tokens[i], checks)
  }

  function Written(tokens: seq<Token>): seq<byte>
  {
    if tokens == [] then [] else Spelled(tokens[0]) + Written(tokens[1..])
  }

  function Meant(tokens: seq<Token>, checks: bool): seq<byte>
    requires AllDecode(tokens, checks)
  {
    if tokens == [] then [] else [Meaning(tokens[0], checks)] + Meant(tokens[1..], checks)
  }

  lemma {:induction false} DecodeToken(t: Token, rest: seq<byte>, checks: bool)
    requires Decodes(t, checks)
    ensures Decode(Spelled(t) + rest, checks) == Prepend([Meaning(t, checks)], Decode(rest, checks))
  {
    hide Decode, Prepend, OctalSum, OctalValue;
    var value := Spelled(t) + rest;
    assert value[0..] == value;
    match t
    case Plain(b) =>
      DecodeAt(value, 0, checks);
      assert value[1..] == rest;
    case Octal(e0, e1, e2) =>
      DecodeAt(value, 0, checks);
      assert value[1] == e0 && value[2] == e1 && value[3] == e2 && value[4..] == rest;
      OctalSumExact(e0, e1, e2);
  }

  /** Every row of decodable pieces decodes to what they mean. */
  lemma {:induction false} WrittenDecodes(tokens: seq<Token>, checks: bool)
    requires AllDecode(tokens, checks)
    ensures Decode(Written(tokens), checks) == Success(Meant(tokens, checks))
  {
    hide Spelled, Meaning;
    if tokens != [] {
      WrittenDecodes(tokens[1..], checks);
      DecodeToken(tokens[0], Written(tokens[1..]), checks);
    }
  }

  /** What a backslash that starts no decodable escape is an error for. */
  predicate Stuck(rest: seq<byte>, error: DecodeError)
  {
    && rest != [] && rest[0] == BACKSLASH
    && match error
       case Truncated => |rest| < 4
       case InvalidEscape => |rest| >= 4 && !(IsOctal(rest[1]) && IsOctal(rest[2]) && IsOctal(rest[3]))
       case ArithmeticPanic =>
         |rest| >= 4 && IsOctal(rest[1]) && IsOctal(rest[2]) && IsOctal(rest[3]) && OctalValue(rest[1], rest[2], rest[3]) > 207
  }

  /** A backslash that starts no decodable escape stops the decoding with its own error. */
  lemma {:induction false} StuckStops(rest: seq<byte>, checks: bool)
    requires rest != [] && rest[0] == BACKSLASH
    requires |rest| >= 4 ==> !Decodes(Octal(rest[1], rest[2], rest[3]), checks)
    ensures Decode(rest, checks).Failure? && Stuck(rest, Decode(rest, checks).error)
    ensures Decode(rest, checks) == Failure(ArithmeticPanic) ==> checks
  {
    hide Decode, Prepend, OctalSum, OctalValue;
    DecodeAt(rest, 0, checks);
    assert rest[0..] == rest;
    if |rest| >= 4 && OctalTriple(rest, 0) {
      OctalSumExact(rest[1], rest[2], rest[3]);
    }
  }

  /**
   A field decodes exactly if it is a row of decodable pieces. Any other field is such a row and then
   a backslash that is an error: too close to the end, without three octal digits or, in a build with
   overflow checks only, above 207.
   */
  lemma {:induction false} DecodeExactly(value: seq<byte>, checks: bool) returns (tokens: seq<Token>, rest: seq<byte>)
    ensures value == Written(tokens) + rest && AllDecode(tokens, checks)
    ensures rest == [] <==> Decode(value, checks).Success?
    ensures rest != [] ==>
      Stuck(rest, Decode(value, checks).error) && (Decode(value, checks) == Failure(ArithmeticPanic) ==> checks)
    decreases |value|
  {
    hide Decode, Decodes, Spelled, Meaning, Stuck;
    if value == [] {
      tokens, rest := [], [];
      DecodeEnd([], checks);
      assert Decode(value, checks).Success? by { WrittenDecodes([], checks); }
    } else {
      var first := FirstToken(value, checks);
      if first.None? {
        tokens, rest := [], value;
      } else {
        var width := |Spelled(first.value)|;
        var more;
        more, rest := DecodeExactly(value[width..], checks);
        tokens := [first.value] + more;
        assert tokens[1..] == more;
        DecodeToken(first.value, value[width..], checks);
        assert value == Spelled(first.value) + value[width..];
      }
    }
  }

  /** The piece a field starts with, if it starts with one that decodes. */
  lemma {:induction false} FirstToken(value: seq<byte>, checks: bool) returns (first: Option<Token>)
    requires value != []
    ensures first.Some? ==> Decodes(first.value, checks) && Spelled(first.value) != [] && Spelled(first.value) <= value
    ensures first.None? ==>
      && Decode(value, checks).Failure? && Stuck(value, Decode(value, checks).error)
      && (Decode(value, checks) == Failure(ArithmeticPanic) ==> checks)
  {
    hide Decode, Stuck;
    if value[0] != BACKSLASH {
      first := Some(Plain(value[0]));
    } else if |value| >= 4 && Decodes(Octal(value[1], value[2], value[3]), checks) {
      first := Some(Octal(value[1], value[2], value[3]));
    } else {
      first := None;
      StuckStops(value, checks);
    }
  }

  /** An escape the kernel never writes: 208 stops a checked build, and 256 silently becomes 0. */
  lemma EscapesAboveRange()
    ensures Decode([BACKSLASH, 0x33, 0x32, 0x30], true) == Failure(ArithmeticPanic)
    ensures Decode([BACKSLASH, 0x34, 0x30, 0x30], false) == Success([0])
  {
    OctalSumExact(0x33, 0x32, 0x30);
    OctalSumExact(0x34, 0x30, 0x30);
    var high := [BACKSLASH, 0x34, 0x30, 0x30];
    assert high[4..] == [] && [0] + [] == [0];
    assert Decode(high, false) == Prepend([0], Decode(high[4..], false));
  }
}
