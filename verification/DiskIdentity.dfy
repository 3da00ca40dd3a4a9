/**
 Windows disk identity: how discovery (src/drives.rs) names a disk and how the worker
 (src/worker.rs, src/worker/windows.rs) parses and re-validates that name.

 Text is UTF-8 bytes. `sha` stands for SHA-256 and `trim` for `str::trim`; both are arbitrary
 functions with the stated hypotheses.
 */
module DiskIdentity {
  import opened Common
  import opened SectorGeometry

  type Text = seq<byte>
  type Hash = seq<byte> -> seq<byte>

  const AT: byte := 0x40
  const DIGIT_ZERO: byte := 0x30
  const LETTER_A: byte := 0x61

  function Ascii(s: string): (t: Text)
    requires forall i :: 0 <= i < |s| ==> s[i] < 128 as char
    ensures |t| == |s|
  {
    seq(|s|, i requires 0 <= i < |s| => s[i] as int as byte)
  }

  const PHYSICAL_DRIVE_PREFIX: Text := Ascii("\\\\.\\PHYSICALDRIVE")
  const STABLE_ID_VERSION: Text := Ascii("windows-disk-v2")
  const USB: Text := Ascii("USB")
  const SD: Text := Ascii("SD")
  const MMC: Text := Ascii("MMC")
  const OTHER: Text := Ascii("OTHER")
  const TRUE: Text := Ascii("true")
  const FALSE: Text := Ascii("false")

  datatype DiskSnapshot = DiskSnapshot(
    number: nat, path: Text, uniqueId: Text, serialNumber: Text,
    size: nat, logicalSectorSize: nat, physicalSectorSize: nat,
    isBoot: bool, isSystem: bool, isOffline: bool, isReadOnly: bool,
    busType: Text, supportsRemovableMedia: bool)

  datatype DiskRecord = DiskRecord(friendlyName: Text, disk: DiskSnapshot)

  datatype WorkerDrive = WorkerDrive(id: Text, device: Text, capacity: nat)

  datatype SelectedDisk = SelectedDisk(number: nat, device: Text, fingerprint: Text)

  datatype IdentityError = UnsafeTarget | TargetChanged | TargetMissing | Platform

  // ---------------------------------------------------------------- decimal and hexadecimal text

  predicate IsDigit(b: byte)
  {
    DIGIT_ZERO <= b <= DIGIT_ZERO + 9
  }

  predicate IsHexDigit(b: byte)
  {
    IsDigit(b) || LETTER_A <= b <= LETTER_A + 5 || 0x41 <= b <= 0x46
  }

  function Lower(b: byte): byte
  {
    if 0x41 <= b <= 0x5A then b + 0x20 else b
  }

  function LowerText(t: Text): (r: Text)
    ensures |r| == |t| && forall i :: 0 <= i < |t| ==> r[i] == Lower(t[i])
  {
    seq(|t|, i requires 0 <= i < |t| => Lower(t[i]))
  }

  function Upper(b: byte): byte
  {
    if 0x61 <= b <= 0x7A then b - 0x20 else b
  }

  function UpperText(t: Text): (r: Text)
    ensures |r| == |t| && forall i :: 0 <= i < |t| ==> r[i] == Upper(t[i])
  {
    seq(|t|, i requires 0 <= i < |t| => Upper(t[i]))
  }

  /** The 26 letters, and nothing else, have another case. */
  lemma CaseOfLetters(b: byte, letter: byte)
    requires letter < 26
    ensures Upper(LETTER_A + letter) == 0x41 + letter && Lower(0x41 + letter) == LETTER_A + letter
    ensures Upper(b) != b ==> Lower(Upper(b)) == b && b > 0x60
    ensures Lower(b) != b ==> Upper(Lower(b)) == b && b < 0x5B
  {
  }

  /** `to_string` of an unsigned integer. */
  function Decimal(n: nat): (t: Text)
    ensures t != [] && forall i :: 0 <= i < |t| ==> IsDigit(t[i])
    ensures n > 0 ==> t[0] != DIGIT_ZERO
  {
    if n < 10 then [DIGIT_ZERO + n as byte]
    else Decimal(n / 10) + [DIGIT_ZERO + (n % 10) as byte]
  }

  /** The number a non-empty run of digits denotes; leading zeros are allowed. */
  function DigitsValue(t: Text): nat
    requires forall i :: 0 <= i < |t| ==> IsDigit(t[i])
  {
    if t == [] then 0
    else
      assert IsDigit(t[|t| - 1]);
      DigitsValue(t[..|t| - 1]) * 10 + (t[|t| - 1] - DIGIT_ZERO) as nat
  }

  lemma {:induction false} DecimalValue(n: nat)
    ensures DigitsValue(Decimal(n)) == n
  {
    var t := Decimal(n);
    if n >= 10 {
      DecimalValue(n / 10);
      assert t[..|t| - 1] == Decimal(n / 10);
    } else {
      assert t[..0] == [];
    }
  }

  /** It is the only run of digits that denotes the number without leading zeros. */
  lemma {:induction false} DecimalOnly(t: Text)
    requires t != [] && forall i :: 0 <= i < |t| ==> IsDigit(t[i])
    requires t[0] != DIGIT_ZERO || |t| == 1
    ensures t == Decimal(DigitsValue(t))
  {
    var n := DigitsValue(t);
    var init, last := t[..|t| - 1], t[|t| - 1];
    assert IsDigit(last);
    if |t| == 1 {
      assert init == [] && DigitsValue(init) == 0;
    } else {
      DecimalOnly(init);
      DigitsPositive(init);
      assert n / 10 == DigitsValue(init) && n % 10 == (last - DIGIT_ZERO) as nat;
      assert t == init + [last];
    }
  }

  lemma {:induction false} DigitsPositive(t: Text)
    requires t != [] && forall i :: 0 <= i < |t| ==> IsDigit(t[i])
    requires t[0] != DIGIT_ZERO
    ensures DigitsValue(t) > 0
  {
    if |t| > 1 {
      DigitsPositive(t[..|t| - 1]);
    }
    assert IsDigit(t[0]) && IsDigit(t[|t| - 1]);
  }

  lemma {:induction false} DecimalInjective(m: nat, n: nat)
    requires Decimal(m) == Decimal(n)
    ensures m == n
  {
    DecimalValue(m);
    DecimalValue(n);
  }

  function HexDigit(nibble: byte): (d: byte)
    requires nibble < 16
    ensures IsHexDigit(d) && Lower(d) == d && d != AT
  {
    if nibble < 10 then DIGIT_ZERO + nibble else LETTER_A + (nibble - 10)
  }

  /** In either case a digit stands for one of the sixteen nibbles, and nothing else is one. */
  lemma HexDigitExactly(b: byte)
    ensures IsHexDigit(b) <==> exists nibble: byte :: nibble < 16 && HexDigit(nibble) == Lower(b)
  {
    if IsHexDigit(b) {
      var nibble := if IsDigit(b) then b - DIGIT_ZERO else Lower(b) - LETTER_A + 10;
      assert HexDigit(nibble) == Lower(b);
    }
  }

  /** `hex::encode`. */
  function HexEncode(bytes: seq<byte>): (t: Text)
    ensures |t| == 2 * |bytes|
    ensures forall i :: 0 <= i < |t| ==> IsHexDigit(t[i]) && Lower(t[i]) == t[i] && t[i] != AT
  {
    if bytes == [] then []
    else [HexDigit(bytes[0] / 16), HexDigit(bytes[0] % 16)] + HexEncode(bytes[1..])
  }

  /** What a hexadecimal digit stands for, in either case. */
  function NibbleOf(d: byte): (nibble: byte)
    requires IsHexDigit(d)
    ensures nibble < 16
  {
    if IsDigit(d) then d - DIGIT_ZERO else Lower(d) - LETTER_A + 10
  }

  /** The bytes that pairs of digits stand for, the high half first. */
  function HexDecode(t: Text): seq<byte>
    requires |t| % 2 == 0 && forall i :: 0 <= i < |t| ==> IsHexDigit(t[i])
  {
    if t == [] then [] else [NibbleOf(t[0]) * 16 + NibbleOf(t[1])] + HexDecode(t[2..])
  }

  lemma {:induction false} HexRoundTrip(bytes: seq<byte>)
    ensures HexDecode(HexEncode(bytes)) == bytes
  {
    if bytes != [] {
      var t := HexEncode(bytes);
      assert t[2..] == HexEncode(bytes[1..]);
      HexRoundTrip(bytes[1..]);
      assert bytes[0] == bytes[0] / 16 * 16 + bytes[0] % 16;
      assert bytes == [bytes[0]] + bytes[1..];
    }
  }

  /** And every run of pairs of lower-case digits is the text of the bytes it stands for. */
  lemma {:induction false} HexOnly(t: Text)
    requires |t| % 2 == 0 && forall i :: 0 <= i < |t| ==> IsHexDigit(t[i]) && Lower(t[i]) == t[i]
    ensures |HexDecode(t)| == |t| / 2 && HexEncode(HexDecode(t)) == t
  {
    if t != [] {
      HexOnly(t[2..]);
      HexPair(t[0], t[1]);
      var bytes := HexDecode(t);
      assert bytes[0] == NibbleOf(t[0]) * 16 + NibbleOf(t[1]) && bytes[1..] == HexDecode(t[2..]);
      assert t == [t[0], t[1]] + t[2..];
    }
  }

  lemma HexPair(high: byte, low: byte)
    requires IsHexDigit(high) && Lower(high) == high && IsHexDigit(low) && Lower(low) == low
    ensures var b := NibbleOf(high) * 16 + NibbleOf(low);
      HexDigit(b / 16) == high && HexDigit(b % 16) == low
  {
    var h, l := NibbleOf(high), NibbleOf(low);
    assert (h * 16 + l) / 16 == h && (h * 16 + l) % 16 == l;
  }

  lemma {:induction false} HexInjective(a: seq<byte>, b: seq<byte>)
    requires HexEncode(a) == HexEncode(b)
    ensures a == b
  {
    HexRoundTrip(a);
    HexRoundTrip(b);
  }

  // ---------------------------------------------------------------- the fingerprint preimage

  /** `to_le_bytes` on `count` bytes. */
  function LittleEndian(n: nat, count: nat): (t: Text)
    ensures |t| == count
  {
    if count == 0 then []
    else [(n % 0x100) as byte] + LittleEndian(n / 0x100, count - 1)
  }

  function Power256(count: nat): (p: nat)
    ensures p > 0
  {
    if count == 0 then 1 else 0x100 * Power256(count - 1)
  }

  /** The number that bytes stand for, the lowest first. */
  function FromLittleEndian(t: Text): nat
  {
    if t == [] then 0 else t[0] as nat + 0x100 * FromLittleEndian(t[1..])
  }

  lemma {:induction false} LittleEndianRoundTrip(n: nat, count: nat)
    requires n < Power256(count)
    ensures FromLittleEndian(LittleEndian(n, count)) == n
  {
    if count > 0 {
      assert LittleEndian(n, count)[1..] == LittleEndian(n / 0x100, count - 1);
      LittleEndianRoundTrip(n / 0x100, count - 1);
    }
  }

  lemma {:induction false} LittleEndianInjective(m: nat, n: nat, count: nat)
    requires m < Power256(count) && n < Power256(count)
    requires LittleEndian(m, count) == LittleEndian(n, count)
    ensures m == n
  {
    LittleEndianRoundTrip(m, count);
    LittleEndianRoundTrip(n, count);
  }

  lemma EightBytesSuffice()
    ensures Power256(8) == U64_LIMIT
  {
    assert Power256(4) == U32_LIMIT by {
      assert Power256(2) == 0x1_0000;
    }
    assert Power256(6) == 0x1_0000 * U32_LIMIT;
  }

  /** Each field with its length in front. */
  function Framed(fields: seq<Text>): Text
  {
    if fields == [] then []
    else Framed(fields[..|fields| - 1]) + Frame(fields[|fields| - 1])
  }

  function Frame(field: Text): Text
  {
    LittleEndian(|field|, 8) + field
  }

  /** The same from the front, for peeling fields off. */
  lemma {:induction false} FramedFront(fields: seq<Text>)
    requires fields != []
    ensures Framed(fields) == Frame(fields[0]) + Framed(fields[1..])
  {
    var init, last := fields[..|fields| - 1], fields[|fields| - 1];
    if |fields| == 1 {
      assert fields[1..] == [] && init == [];
    } else {
      FramedFront(init);
      assert fields[1..][..|fields| - 2] == init[1..];
      assert Framed(fields[1..]) == Framed(init[1..]) + Frame(last);
    }
  }

  lemma {:induction false} FramedInjective(a: seq<Text>, b: seq<Text>)
    requires forall i :: 0 <= i < |a| ==> |a[i]| < U64_LIMIT
    requires forall i :: 0 <= i < |b| ==> |b[i]| < U64_LIMIT
    requires Framed(a) == Framed(b)
    ensures a == b
  {
    if a != [] {
      FramedFront(a);
    }
    if b != [] {
      FramedFront(b);
    }
    if a != [] && b != [] {
      var all := Framed(a);
      var n := |a[0]|;
      assert all[..8] == LittleEndian(n, 8) && all[..8] == LittleEndian(|b[0]|, 8);
      EightBytesSuffice();
      LittleEndianInjective(n, |b[0]|, 8);
      assert all[8..8 + n] == a[0] && all[8..8 + n] == b[0];
      assert all[8 + n..] == Framed(a[1..]) && all[8 + n..] == Framed(b[1..]);
      FramedInjective(a[1..], b[1..]);
      assert a == [a[0]] + a[1..] && b == [b[0]] + b[1..];
    }
  }

  function Truth(b: bool): Text
  {
    if b then TRUE else FALSE
  }

  function Fields(d: DiskSnapshot): (f: seq<Text>)
    ensures |f| == 10
  {
    [STABLE_ID_VERSION, Decimal(d.number), Decimal(d.size), Decimal(d.logicalSectorSize),
     Decimal(d.physicalSectorSize), d.busType, d.path, d.uniqueId, d.serialNumber,
     Truth(d.supportsRemovableMedia)]
  }

  function Preimage(d: DiskSnapshot): Text
  {
    Framed(Fields(d))
  }

  function Fingerprint(d: DiskSnapshot, sha: Hash): Text
  {
    HexEncode(sha(Preimage(d)))
  }

  /** Everything the fingerprint is meant to bind. */
  predicate SameIdentity(d: DiskSnapshot, e: DiskSnapshot)
  {
    && d.number == e.number && d.size == e.size
    && d.logicalSectorSize == e.logicalSectorSize && d.physicalSectorSize == e.physicalSectorSize
    && d.busType == e.busType && d.path == e.path
    && d.uniqueId == e.uniqueId && d.serialNumber == e.serialNumber
    && d.supportsRemovableMedia == e.supportsRemovableMedia
  }

  /** Lengths fit the eight-byte prefix, as the source's conversion to `u64` checks. */
  predicate Encodable(d: DiskSnapshot)
  {
    forall i :: 0 <= i < 10 ==> |Fields(d)[i]| < U64_LIMIT
  }

  lemma PreimageInjective(d: DiskSnapshot, e: DiskSnapshot)
    requires Encodable(d) && Encodable(e)
    ensures Preimage(d) == Preimage(e) <==> SameIdentity(d, e)
  {
    if Preimage(d) == Preimage(e) {
      var f, g := Fields(d), Fields(e);
      FramedInjective(f, g);
      DecimalInjective(d.number, e.number) by { assert f[1] == g[1]; }
      DecimalInjective(d.size, e.size) by { assert f[2] == g[2]; }
      DecimalInjective(d.logicalSectorSize, e.logicalSectorSize) by { assert f[3] == g[3]; }
      DecimalInjective(d.physicalSectorSize, e.physicalSectorSize) by { assert f[4] == g[4]; }
      assert f[5] == g[5] && f[6] == g[6] && f[7] == g[7] && f[8] == g[8];
      assert |Truth(true)| != |Truth(false)|;
      assert f[9] == g[9];
    }
  }

  /** The digest loop, as both discovery and the worker run it over the ten fields. */
  method HashFields(d: DiskSnapshot, sha: Hash) returns (fingerprint: Text)
    ensures fingerprint == Fingerprint(d, sha)
  {
    var fields := Fields(d);
    var digested: Text := [];
    for i := 0 to |fields|
      invariant digested == Framed(fields[..i])
    {
      assert fields[..i + 1][..i] == fields[..i];
      digested := digested + LittleEndian(|fields[i]|, 8);
      digested := digested + fields[i];
    }
    assert fields[..|fields|] == fields;
    fingerprint := HexEncode(sha(digested));
  }

  // ---------------------------------------------------------------- parsing a selected drive

  function RSplitOnce(t: Text, separator: byte): Option<(Text, Text)>
  {
    if t == [] then None
    else
      var init, last := t[..|t| - 1], t[|t| - 1];
      if last == separator then Some((init, []))
      else
        match RSplitOnce(init, separator)
        case None => None
        case Some((front, back)) => Some((front, back + [last]))
  }

  lemma {:induction false} RSplitJoined(front: Text, back: Text, separator: byte)
    requires separator !in back
    ensures RSplitOnce(front + [separator] + back, separator) == Some((front, back))
  {
    var t := front + [separator] + back;
    if back == [] {
      assert t[..|t| - 1] == front;
    } else {
      var init := back[..|back| - 1];
      assert t[..|t| - 1] == front + [separator] + init;
      RSplitJoined(front, init, separator);
      assert init + [back[|back| - 1]] == back;
    }
  }

  lemma {:induction false} RSplitRejoins(t: Text, separator: byte)
    ensures RSplitOnce(t, separator).Some? ==>
      var (front, back) := RSplitOnce(t, separator).value;
      t == front + [separator] + back && separator !in back
  {
    if t != [] {
      RSplitRejoins(t[..|t| - 1], separator);
      assert t == t[..|t| - 1] + [t[|t| - 1]];
    }
  }

  function StripPrefix(t: Text, prefix: Text): Option<Text>
  {
    if prefix <= t then Some(t[|prefix|..]) else None
  }

  predicate AllDigits(t: Text)
  {
    forall i :: 0 <= i < |t| ==> IsDigit(t[i])
  }

  predicate AllHexDigits(t: Text)
  {
    forall i :: 0 <= i < |t| ==> IsHexDigit(t[i])
  }

  /** `str::parse::<u32>` on digits. */
  function ParseU32(t: Text): Option<nat>
    requires AllDigits(t)
  {
    if t != [] && DigitsValue(t) < U32_LIMIT then Some(DigitsValue(t)) else None
  }

  function DeviceOf(number: nat): Text
  {
    PHYSICAL_DRIVE_PREFIX + Decimal(number)
  }

  /** `SelectedDisk::parse`. */
  function ParseSelected(selected: WorkerDrive): Result<SelectedDisk, IdentityError>
  {
    match RSplitOnce(selected.id, AT)
    case None => Failure(UnsafeTarget)
    case Some((device, fingerprint)) =>
      match StripPrefix(device, PHYSICAL_DRIVE_PREFIX)
      case None => Failure(UnsafeTarget)
      case Some(suffix) =>
        if suffix == [] || !AllDigits(suffix) || |fingerprint| != 64 || !AllHexDigits(fingerprint)
          || selected.device != device || selected.capacity == 0
        then Failure(UnsafeTarget)
        else
          match ParseU32(suffix)
          case None => Failure(UnsafeTarget)
          case Some(number) =>
            if DeviceOf(number) != device then Failure(UnsafeTarget)
            else Success(SelectedDisk(number, DeviceOf(number), LowerText(fingerprint)))
  }

  lemma ParsedDevice(selected: WorkerDrive)
    ensures ParseSelected(selected).Success? ==>
      ParseSelected(selected).value.device == selected.device == DeviceOf(ParseSelected(selected).value.number)
  {
  }

  /** `valid_worker_drive` on Windows, the unelevated check of the same name. */
  predicate ValidWorkerDrive(drive: WorkerDrive)
  {
    match RSplitOnce(drive.id, AT)
    case None => false
    case Some((device, fingerprint)) =>
      match StripPrefix(device, PHYSICAL_DRIVE_PREFIX)
      case None => false
      case Some(number) =>
        && number != []
        && AllDigits(number)
        && (var value := ParseU32(number); value.Some? && device == DeviceOf(value.value))
        && |fingerprint| == 64
        && AllHexDigits(fingerprint)
        && drive.device == device
        && drive.capacity > 0
  }

  // ---------------------------------------------------------------- safety checks

  predicate CardTarget(d: DiskSnapshot)
  {
    if d.busType == SD || d.busType == MMC then true
    else if d.busType == USB then d.supportsRemovableMedia
    else false
  }

  /** Discovery's check. */
  predicate SafeRemovable(d: DiskSnapshot)
  {
    && !d.isBoot && !d.isSystem && !d.isOffline && !d.isReadOnly
    && d.size > 0
    && ValidSectorGeometry(d.size, d.logicalSectorSize, d.physicalSectorSize)
    && d.path != []
    && (d.uniqueId != [] || d.serialNumber != [])
    && CardTarget(d)
  }

  /**
   What a card target is, said of the record's fields: none of the four status flags, a size of whole
   sectors of an accepted size, a path and an identifier, and an SD or MMC bus or a USB disk that
   supports removable media.
   */
  ghost predicate RemovableCard(d: DiskSnapshot)
  {
    && !d.isBoot && !d.isSystem && !d.isOffline && !d.isReadOnly
    && d.size > 0
    && d.logicalSectorSize in {512, 1024, 2048, 4096, 8192, 16384, 32768, 65536}
    && d.physicalSectorSize in {512, 1024, 2048, 4096, 8192, 16384, 32768, 65536}
    && d.logicalSectorSize <= d.physicalSectorSize && d.size % d.logicalSectorSize == 0
    && |d.path| > 0
    && (|d.uniqueId| > 0 || |d.serialNumber| > 0)
    && (d.busType == Ascii("SD") || d.busType == Ascii("MMC") || (d.busType == Ascii("USB") && d.supportsRemovableMedia))
  }

  /** Discovery's check and the worker's, which are written apart, both accept exactly the card targets. */
  lemma SafeExactly(d: DiskSnapshot, selected: WorkerDrive, identity: SelectedDisk)
    ensures SafeRemovable(d) <==> RemovableCard(d)
    ensures ValidateCommonSafety(selected, identity, d).Success? ==> d.number == identity.number && d.size == selected.capacity
    ensures d.number == identity.number && d.size == selected.capacity && d.size > 0 ==>
      (ValidateCommonSafety(selected, identity, d).Success? <==> RemovableCard(d))
  {
    hide ValidSectorGeometry;
    GeometryExactly(d.size, d.logicalSectorSize, d.physicalSectorSize);
  }

  /** The worker's check. */
  function ValidateCommonSafety(selected: WorkerDrive, identity: SelectedDisk, d: DiskSnapshot): Result<Unit, IdentityError>
  {
    if d.number != identity.number then Failure(UnsafeTarget)
    else if d.size != selected.capacity then Failure(UnsafeTarget)
    else if
      || d.isBoot || d.isSystem || d.isOffline || d.isReadOnly
      || !CardTarget(d)
      || !ValidSectorGeometry(d.size, d.logicalSectorSize, d.physicalSectorSize)
      || d.path == []
      || (d.uniqueId == [] && d.serialNumber == [])
    then Failure(UnsafeTarget)
    else Success(Unit.Unit)
  }

  function WorkerFingerprint(d: DiskSnapshot, sha: Hash): Result<Text, IdentityError>
  {
    if d.path == [] || (d.uniqueId == [] && d.serialNumber == []) || d.size == 0
      || !ValidSectorGeometry(d.size, d.logicalSectorSize, d.physicalSectorSize)
    then Failure(UnsafeTarget)
    else Success(Fingerprint(d, sha))
  }

  function ValidateSnapshot(selected: WorkerDrive, identity: SelectedDisk, d: DiskSnapshot, expectedOffline: Option<bool>, sha: Hash)
    : Result<Unit, IdentityError>
  {
    var common := ValidateCommonSafety(selected, identity, d);
    if common.Failure? then common
    else if expectedOffline.Some? && d.isOffline != expectedOffline.value then Failure(TargetChanged)
    else
      match WorkerFingerprint(d, sha)
      case Failure(error) => Failure(error)
      case Success(fingerprint) =>
        if fingerprint != identity.fingerprint then Failure(TargetChanged)
        else
          var current := WorkerDrive(identity.device + [AT] + fingerprint, identity.device, d.size);
          if selected == current then Success(Unit.Unit) else Failure(TargetChanged)
  }

  /** `validate_target` on the record found for the parsed number. */
  function ValidateTarget(selected: WorkerDrive, records: seq<DiskRecord>, sha: Hash): Result<DiskSnapshot, IdentityError>
  {
    match ParseSelected(selected)
    case Failure(error) => Failure(error)
    case Success(identity) =>
      match QueryDisk(records, identity.number)
      case Failure(error) => Failure(error)
      case Success(d) =>
        match ValidateSnapshot(selected, identity, d, Some(false), sha)
        case Failure(error) => Failure(error)
        case Success(_) => Success(d)
  }

  function Matching(records: seq<DiskRecord>, number: nat): seq<DiskRecord>
  {
    if records == [] then []
    else (if records[0].disk.number == number then [records[0]] else []) + Matching(records[1..], number)
  }

  /** Exactly one record may have the number. */
  function QueryDisk(records: seq<DiskRecord>, number: nat): Result<DiskSnapshot, IdentityError>
  {
    var matches := Matching(records, number);
    if |matches| == 1 then Success(matches[0].disk)
    else if matches == [] then Failure(TargetMissing)
    else Failure(Platform)
  }

  // ---------------------------------------------------------------- discovery

  function OfferOf(d: DiskSnapshot, sha: Hash): WorkerDrive
  {
    WorkerDrive(DeviceOf(d.number) + [AT] + Fingerprint(d, sha), DeviceOf(d.number), d.size)
  }

  /** A record as the native query leaves it: cleaned text, known bus names, 32-bit numbers. */
  ghost predicate Native(d: DiskSnapshot, trim: Text -> Text)
  {
    && trim(d.path) == d.path && trim(d.uniqueId) == d.uniqueId && trim(d.serialNumber) == d.serialNumber
    && trim(d.busType) == d.busType
    && (d.busType == USB || d.busType == SD || d.busType == MMC || d.busType == OTHER)
    && d.number < U32_LIMIT
  }

  function Normalized(d: DiskSnapshot, trim: Text -> Text): DiskSnapshot
  {
    d.(path := trim(d.path), uniqueId := trim(d.uniqueId), serialNumber := trim(d.serialNumber), busType := UpperText(trim(d.busType)))
  }

  lemma NativeIsNormalized(d: DiskSnapshot, trim: Text -> Text)
    requires Native(d, trim)
    ensures Normalized(d, trim) == d
  {
    assert UpperText(USB) == USB && UpperText(SD) == SD && UpperText(MMC) == MMC && UpperText(OTHER) == OTHER;
  }

  class WindowsDisk {
    var friendlyName: Text
    var disk: DiskSnapshot

    constructor (record: DiskRecord)
      ensures friendlyName == record.friendlyName && disk == record.disk
    {
      friendlyName := record.friendlyName;
      disk := record.disk;
    }

    /** Changes nothing that discovery or the worker look at in a native record. */
    method Normalize(trim: Text -> Text)
      modifies this
      ensures disk == Normalized(old(disk), trim)
      ensures Native(old(disk), trim) ==> disk == old(disk)
      ensures friendlyName == trim(old(friendlyName))
    {
      ghost var before := disk;
      friendlyName := trim(friendlyName);
      disk := disk.(path := trim(disk.path));
      disk := disk.(uniqueId := trim(disk.uniqueId));
      disk := disk.(serialNumber := trim(disk.serialNumber));
      disk := disk.(busType := UpperText(trim(disk.busType)));
      if Native(before, trim) {
        NativeIsNormalized(before, trim);
      }
    }
  }

  function Offers(records: seq<DiskRecord>, trim: Text -> Text, sha: Hash): seq<WorkerDrive>
  {
    if records == [] then []
    else
      var last := Normalized(records[|records| - 1].disk, trim);
      Offers(records[..|records| - 1], trim, sha) + if SafeRemovable(last) then [OfferOf(last, sha)] else []
  }

  /** A drive that names a card target among the records, as normalized. */
  ghost predicate Names(d: DiskSnapshot, trim: Text -> Text, sha: Hash, drive: WorkerDrive)
  {
    RemovableCard(Normalized(d, trim)) && drive == OfferOf(Normalized(d, trim), sha)
  }

  /** The card targets, each normalized and under its stable name, in query order. */
  method RemovableDrives(records: seq<DiskRecord>, trim: Text -> Text, sha: Hash) returns (drives: seq<WorkerDrive>)
    ensures drives == Offers(records, trim, sha)
    ensures forall drive :: drive in drives <==>
      exists i :: 0 <= i < |records| && Names(records[i].disk, trim, sha, drive)
  {
    hide SafeRemovable, RemovableCard;
    drives := [];
    for i := 0 to |records|
      invariant drives == Offers(records[..i], trim, sha)
    {
      assert records[..i + 1][..i] == records[..i];
      var disk := new WindowsDisk(records[i]);
      disk.Normalize(trim);
      if !SafeRemovable(disk.disk) {
        continue;
      }
      var fingerprint := HashFields(disk.disk, sha);
      var device := PHYSICAL_DRIVE_PREFIX + Decimal(disk.disk.number);
      drives := drives + [WorkerDrive(device + [AT] + fingerprint, device, disk.disk.size)];
    }
    assert records[..|records|] == records;
    forall drive
      ensures drive in drives <==> exists i :: 0 <= i < |records| && Names(records[i].disk, trim, sha, drive)
    {
      OffersExactly(records, trim, sha, drive);
    }
  }

  /** What is offered is exactly what names a card target. */
  lemma {:induction false} OffersExactly(records: seq<DiskRecord>, trim: Text -> Text, sha: Hash, drive: WorkerDrive)
    ensures drive in Offers(records, trim, sha) <==>
      exists i :: 0 <= i < |records| && Names(records[i].disk, trim, sha, drive)
  {
    hide SafeRemovable, RemovableCard, OfferOf;
    if records != [] {
      var init, last := records[..|records| - 1], records[|records| - 1];
      OffersExactly(init, trim, sha, drive);
      SafeExactly(Normalized(last.disk, trim), drive, SelectedDisk(0, [], []));
      assert forall i :: 0 <= i < |init| ==> init[i] == records[i];
      assert records[|records| - 1] == last;
    }
  }

  /** Of native records, whose text is normalized already, the offers name exactly the card targets. */
  lemma {:induction false} OffersAreSafeDisks(records: seq<DiskRecord>, trim: Text -> Text, sha: Hash, drive: WorkerDrive)
    requires forall i :: 0 <= i < |records| ==> Native(records[i].disk, trim)
    ensures drive in Offers(records, trim, sha) <==>
      exists i :: 0 <= i < |records| && RemovableCard(records[i].disk) && drive == OfferOf(records[i].disk, sha)
  {
    hide OfferOf, RemovableCard, Native;
    OffersExactly(records, trim, sha, drive);
    forall i | 0 <= i < |records|
      ensures Names(records[i].disk, trim, sha, drive) <==>
        RemovableCard(records[i].disk) && drive == OfferOf(records[i].disk, sha)
    {
      NativeIsNormalized(records[i].disk, trim);
    }
  }

  /**
   No boot, system, offline, read-only or fixed disk is ever offered: whatever is offered names a
   native record with none of the four flags, on a card bus or a USB disk with removable media.
   */
  lemma {:induction false} NoFixedDiskOffered(records: seq<DiskRecord>, trim: Text -> Text, sha: Hash, drive: WorkerDrive)
    requires forall i :: 0 <= i < |records| ==> Native(records[i].disk, trim)
    ensures drive in Offers(records, trim, sha) ==>
      exists i :: 0 <= i < |records| && drive == OfferOf(records[i].disk, sha) && CardRecord(records[i].disk)
  {
    hide OfferOf, Native;
    OffersAreSafeDisks(records, trim, sha, drive);
    if drive in Offers(records, trim, sha) {
      var i :| 0 <= i < |records| && RemovableCard(records[i].disk) && drive == OfferOf(records[i].disk, sha);
      assert CardRecord(records[i].disk);
    }
  }

  /** And none is ever accepted, whatever the selection says. */
  lemma {:induction false} NoFixedDiskAccepted(records: seq<DiskRecord>, sha: Hash, drive: WorkerDrive)
    ensures ValidateTarget(drive, records, sha).Success? ==>
      exists i :: 0 <= i < |records| && ValidateTarget(drive, records, sha).value == records[i].disk && CardRecord(records[i].disk)
  {
    hide ValidateSnapshot, ParseSelected;
    if ValidateTarget(drive, records, sha).Success? {
      var identity, found := ParseSelected(drive).value, ValidateTarget(drive, records, sha).value;
      AcceptedIsCard(drive, identity, found, sha);
      MatchingListed(records, identity.number);
      assert Matching(records, identity.number)[0] in records;
    }
  }

  predicate CardRecord(d: DiskSnapshot)
  {
    && !d.isBoot && !d.isSystem && !d.isOffline && !d.isReadOnly
    && (d.busType == Ascii("SD") || d.busType == Ascii("MMC") || (d.busType == Ascii("USB") && d.supportsRemovableMedia))
  }

  lemma AcceptedIsCard(selected: WorkerDrive, identity: SelectedDisk, d: DiskSnapshot, sha: Hash)
    requires ValidateSnapshot(selected, identity, d, Some(false), sha).Success?
    ensures RemovableCard(d)
  {
    hide ValidateCommonSafety, RemovableCard, ValidSectorGeometry;
    SafeExactly(d, selected, identity);
  }

  lemma {:induction false} MatchingListed(records: seq<DiskRecord>, number: nat)
    ensures forall m :: m in Matching(records, number) ==> m in records
  {
    if records != [] {
      MatchingListed(records[1..], number);
    }
  }

  // ---------------------------------------------------------------- discovery and worker agree

  /** The unelevated validity check and the elevated parser accept the same drives. */
  lemma ParseAgreesWithValidity(drive: WorkerDrive)
    ensures ParseSelected(drive).Success? <==> ValidWorkerDrive(drive)
  {
  }

  /** The drives the parser accepts: a canonical device name, 64 hexadecimal digits, a capacity. */
  ghost predicate Canonical(drive: WorkerDrive, number: nat, fingerprint: Text)
  {
    && number < U32_LIMIT
    && |fingerprint| == 64 && AllHexDigits(fingerprint)
    && drive.id == DeviceOf(number) + [AT] + fingerprint
    && drive.device == DeviceOf(number)
    && drive.capacity > 0
  }

  lemma ParseAcceptsCanonical(drive: WorkerDrive, number: nat, fingerprint: Text)
    requires Canonical(drive, number, fingerprint)
    ensures ParseSelected(drive) == Success(SelectedDisk(number, drive.device, LowerText(fingerprint)))
  {
    RSplitJoined(DeviceOf(number), fingerprint, AT);
    assert DeviceOf(number)[|PHYSICAL_DRIVE_PREFIX|..] == Decimal(number);
    DecimalValue(number);
  }

  lemma ParseAcceptsOnlyCanonical(drive: WorkerDrive) returns (fingerprint: Text)
    requires ParseSelected(drive).Success?
    ensures Canonical(drive, ParseSelected(drive).value.number, fingerprint)
    ensures ParseSelected(drive).value.fingerprint == LowerText(fingerprint)
  {
    RSplitRejoins(drive.id, AT);
    fingerprint := RSplitOnce(drive.id, AT).value.1;
  }

  lemma ParseOffer(d: DiskSnapshot, sha: Hash)
    requires d.number < U32_LIMIT && d.size > 0 && |sha(Preimage(d))| == 32
    ensures ParseSelected(OfferOf(d, sha)) == Success(SelectedDisk(d.number, DeviceOf(d.number), Fingerprint(d, sha)))
  {
    var fingerprint := Fingerprint(d, sha);
    ParseAcceptsCanonical(OfferOf(d, sha), d.number, fingerprint);
    assert LowerText(fingerprint) == fingerprint;
  }

  /**
   The worker accepts a snapshot for a selected drive exactly when the disk is a card target and the
   selection is letter for letter what discovery would call it.
   */
  lemma ValidationExact(selected: WorkerDrive, d: DiskSnapshot, sha: Hash)
    requires d.number < U32_LIMIT && |sha(Preimage(d))| == 32
    ensures RemovableCard(d) && selected == OfferOf(d, sha) <==>
      && ParseSelected(selected).Success?
      && ValidateSnapshot(selected, ParseSelected(selected).value, d, Some(false), sha).Success?
  {
    hide ValidSectorGeometry, Preimage, RemovableCard;
    if ParseSelected(selected).Success? {
      SafeExactly(d, selected, ParseSelected(selected).value);
    } else {
      SafeExactly(d, selected, SelectedDisk(0, [], []));
    }
    if SafeRemovable(d) && selected == OfferOf(d, sha) {
      ParseOffer(d, sha);
    } else if ParseSelected(selected).Success?
      && ValidateSnapshot(selected, ParseSelected(selected).value, d, Some(false), sha).Success? {
      RSplitRejoins(selected.id, AT);
    }
  }

  lemma {:induction false} MatchingOne(records: seq<DiskRecord>, i: nat)
    requires i < |records|
    requires forall j :: 0 <= j < |records| && j != i ==> records[j].disk.number != records[i].disk.number
    ensures Matching(records, records[i].disk.number) == [records[i]]
  {
    var number := records[i].disk.number;
    if i == 0 {
      MatchingNone(records[1..], number);
    } else {
      assert records[1..][i - 1] == records[i];
      MatchingOne(records[1..], i - 1);
    }
  }

  lemma {:induction false} MatchingNone(records: seq<DiskRecord>, number: nat)
    requires forall j :: 0 <= j < |records| ==> records[j].disk.number != number
    ensures Matching(records, number) == []
  {
    if records != [] {
      MatchingNone(records[1..], number);
    }
  }

  lemma {:induction false} MatchingTwice(records: seq<DiskRecord>, i: nat, j: nat)
    requires i < j < |records| && records[i].disk.number == records[j].disk.number
    ensures |Matching(records, records[i].disk.number)| >= 2
  {
    var number := records[i].disk.number;
    if i == 0 {
      MatchingOnce(records[1..], j - 1);
    } else {
      assert records[1..][i - 1] == records[i] && records[1..][j - 1] == records[j];
      MatchingTwice(records[1..], i - 1, j - 1);
    }
  }

  lemma {:induction false} MatchingOnce(records: seq<DiskRecord>, i: nat)
    requires i < |records|
    ensures |Matching(records, records[i].disk.number)| >= 1
  {
    if i > 0 {
      assert records[1..][i - 1] == records[i];
      MatchingOnce(records[1..], i - 1);
    }
  }

  ghost predicate UniqueAt(records: seq<DiskRecord>, number: nat, i: nat)
  {
    && i < |records| && records[i].disk.number == number
    && forall j :: 0 <= j < |records| && j != i ==> records[j].disk.number != number
  }

  /** A record is found exactly if one and only one has the number, and it is missing exactly if none has. */
  lemma {:induction false} QueryDiskExactly(records: seq<DiskRecord>, number: nat)
    ensures QueryDisk(records, number).Success? <==> exists i: nat :: UniqueAt(records, number, i)
    ensures forall i: nat :: UniqueAt(records, number, i) ==> QueryDisk(records, number) == Success(records[i].disk)
    ensures QueryDisk(records, number) == Failure(TargetMissing) <==>
      forall i :: 0 <= i < |records| ==> records[i].disk.number != number
  {
    if i :| 0 <= i < |records| && records[i].disk.number == number {
      MatchingOnce(records, i);
      if j :| 0 <= j < |records| && j != i && records[j].disk.number == number {
        MatchingTwice(records, if i < j then i else j, if i < j then j else i);
      } else {
        assert UniqueAt(records, number, i);
        MatchingOne(records, i);
      }
    } else {
      MatchingNone(records, number);
    }
  }

  /** An offered disk that has not changed and whose number is still unique passes the worker. */
  lemma OfferedDiskValidates(records: seq<DiskRecord>, i: nat, sha: Hash)
    requires i < |records| && RemovableCard(records[i].disk)
    requires records[i].disk.number < U32_LIMIT && |sha(Preimage(records[i].disk))| == 32
    requires forall j :: 0 <= j < |records| && j != i ==> records[j].disk.number != records[i].disk.number
    ensures ValidateTarget(OfferOf(records[i].disk, sha), records, sha) == Success(records[i].disk)
  {
    var d := records[i].disk;
    ParseOffer(d, sha);
    ValidationExact(OfferOf(d, sha), d, sha);
    MatchingOne(records, i);
  }

  /**
   Conversely, if SHA-256 does not collide on the two preimages, the disk the worker accepts for an
   offered name is the disk that was offered.
   */
  lemma AcceptedDiskWasOffered(offered: DiskSnapshot, found: DiskSnapshot, records: seq<DiskRecord>, sha: Hash)
    requires Encodable(offered) && Encodable(found)
    requires found.number < U32_LIMIT && |sha(Preimage(found))| == 32
    requires sha(Preimage(offered)) == sha(Preimage(found)) ==> Preimage(offered) == Preimage(found)
    ensures ValidateTarget(OfferOf(offered, sha), records, sha) == Success(found) ==>
      RemovableCard(found) && SameIdentity(offered, found)
  {
    var name := OfferOf(offered, sha);
    if ValidateTarget(name, records, sha) == Success(found) {
      ValidationExact(name, found, sha);
      assert name == OfferOf(found, sha);
      RSplitJoined(DeviceOf(offered.number), Fingerprint(offered, sha), AT);
      RSplitJoined(DeviceOf(found.number), Fingerprint(found, sha), AT);
      HexInjective(sha(Preimage(offered)), sha(Preimage(found)));
      PreimageInjective(offered, found);
    }
  }
}
