/**
 Cache-bypassing readback (`UnbufferedVerifier` in src/worker/windows.rs, `DirectVerifier` in
 src/worker/linux.rs): reads of any length at any position, served by sector-aligned transfers that
 the device may cut short.
 */
module SectorVerifier {
  import opened Common
  import opened SectorGeometry

  const VERIFICATION_BUFFER_SIZE: nat := MEBIBYTE
  const KERNEL_SECTOR_SIZE: nat := 512
  const DIRECT_ALIGNMENT: nat := 4096

  datatype VerifierError =
    | UnsupportedGeometry
    | UnalignedRequest
    | IncompleteSector
    | OutsideDisk
    | DeviceSeek
    | DeviceRead

  datatype SeekFrom = Start(position: nat) | Current(offset: int) | End(offset: int)

  /** One transfer: where it started, how much was asked for and how much the device gave. */
  datatype Transfer = Transfer(start: nat, length: nat, count: nat)

  // ---------------------------------------------------------------- sector arithmetic

  predicate Aligned(n: int, sector: nat)
  {
    sector > 0 && n % sector == 0
  }

  function AlignDown(position: nat, sector: nat): nat
    requires sector > 0
  {
    position - position % sector
  }

  function DivCeil(n: nat, d: nat): nat
    requires d > 0
  {
    if n % d == 0 then n / d else n / d + 1
  }

  function RoundUp(n: nat, sector: nat): nat
    requires sector > 0
  {
    DivCeil(n, sector) * sector
  }

  lemma MinBounds(a: int, b: int)
    ensures Min(a, b) <= a && Min(a, b) <= b && (Min(a, b) == a || Min(a, b) == b)
  {
  }

  lemma QuotientParts(n: int, d: nat)
    requires d > 0
    ensures n == d * (n / d) + n % d && 0 <= n % d < d
  {
  }

  lemma AlignedMeansMultiple(n: nat, sector: nat)
    requires Aligned(n, sector)
    ensures n == sector * (n / sector)
  {
    QuotientParts(n, sector);
  }

  lemma MultipleIsAligned(n: int, sector: nat, factor: int)
    requires sector > 0 && n == sector * factor
    ensures Aligned(n, sector)
  {
    DivisionIsUnique(n, sector, factor, 0);
  }

  lemma Cancel(a: int, x: int, y: int)
    requires a > 0 && a * x < a * y
    ensures x < y
  {
    assert a * (x - y) < 0;
    ScaleBounds(a, x - y);
  }

  /** Rounding up gives a multiple, large enough, and below any larger multiple. */
  lemma RoundedUp(n: nat, sector: nat, limit: nat)
    requires n <= limit && Aligned(limit, sector)
    ensures n <= RoundUp(n, sector) <= limit
    ensures Aligned(RoundUp(n, sector), sector)
  {
    var c: int, q: int, most: int := DivCeil(n, sector), n / sector, limit / sector;
    QuotientParts(n, sector);
    AlignedMeansMultiple(limit, sector);
    MultipleIsAligned(c * sector, sector, c);
    Below(n, sector, c, q, most);
  }

  lemma Below(n: nat, sector: nat, c: int, q: int, most: int)
    requires 0 <= n - sector * q < sector
    requires c == (if n == sector * q then q else q + 1)
    requires n <= sector * most
    ensures n <= c * sector <= sector * most
  {
    assert c * sector == sector * c;
    assert sector * (q + 1) == sector * q + sector && sector * (q - 1) == sector * q - sector;
    Cancel(sector, c - 1, most);
    assert sector * (most - c) == sector * most - sector * c;
    ScaleBounds(sector, most - c);
  }

  lemma AlignedDown(position: nat, sector: nat)
    requires sector > 0
    ensures Aligned(AlignDown(position, sector), sector)
    ensures position - sector < AlignDown(position, sector) <= position
  {
    QuotientParts(position, sector);
    MultipleIsAligned(AlignDown(position, sector), sector, position / sector);
  }

  lemma ZeroIsAligned(sector: nat)
    requires sector > 0
    ensures Aligned(0, sector)
  {
  }

  lemma AlignedSum(a: nat, b: nat, sector: nat)
    requires Aligned(a, sector) && Aligned(b, sector)
    ensures Aligned(a + b, sector) && Aligned(a - b, sector)
  {
    AlignedMeansMultiple(a, sector);
    AlignedMeansMultiple(b, sector);
    var x, y := a / sector, b / sector;
    assert a + b == sector * (x + y) && a - b == sector * (x - y);
    MultipleIsAligned(a + b, sector, x + y);
    MultipleIsAligned(a - b, sector, x - y);
  }

  lemma WholeSectorsPassPrefix(count: nat, prefix: nat, sector: nat)
    requires prefix < sector && count > 0 && Aligned(count, sector)
    ensures count > prefix
  {
    QuotientParts(count, sector);
    if count < sector {
      DivisionIsUnique(count, sector, 0, count);
    }
  }

  lemma SliceOfSlice(s: seq<byte>, start: nat, count: nat, prefix: nat, length: nat)
    requires start + count <= |s| && prefix + length <= count
    ensures s[start..start + count][prefix..prefix + length] == s[start + prefix..start + prefix + length]
  {
    var whole, wanted := s[start..start + count], s[start + prefix..start + prefix + length];
    var part := whole[prefix..prefix + length];
    assert |part| == |wanted|;
    forall i | 0 <= i < |part|
      ensures part[i] == wanted[i]
    {
      assert part[i] == whole[prefix + i] == s[start + prefix + i];
    }
  }

  // ---------------------------------------------------------------- the verifier

  class Verifier {
    const media: seq<byte>
    const capacity: nat
    const transferSize: nat
    // The Windows verifier also checks the end of each transfer; the Linux one does not.
    const checksEnd: bool
    const buffer: array<byte>
    var position: nat
    ghost var transfers: seq<Transfer>
    // How often the device failed.
    ghost var faults: nat

    ghost predicate Valid()
      reads this
    {
      && transferSize > 0
      && Aligned(MEBIBYTE, transferSize)
      && Aligned(capacity, transferSize)
      && capacity < U64_LIMIT
      && VERIFICATION_BUFFER_SIZE + transferSize <= buffer.Length < U32_LIMIT
      && position <= capacity
      && forall i :: 0 <= i < |transfers| ==> Contained(transfers[i])
    }

    /** Aligned at both ends, inside the disk and inside the buffer. */
    ghost predicate Contained(t: Transfer)
      reads this
    {
      && Aligned(t.start, transferSize) && Aligned(t.length, transferSize)
      && t.start + t.length <= capacity
      && t.count <= t.length <= buffer.Length
    }

    constructor Unchecked(media: seq<byte>, capacity: nat, transferSize: nat, slack: nat, checksEnd: bool)
      ensures this.media == media && this.capacity == capacity && this.transferSize == transferSize
      ensures this.checksEnd == checksEnd && position == 0 && transfers == [] && faults == 0
      ensures fresh(buffer) && buffer.Length == VERIFICATION_BUFFER_SIZE + slack
    {
      this.media, this.capacity, this.transferSize := media, capacity, transferSize;
      this.checksEnd := checksEnd;
      buffer := new byte[VERIFICATION_BUFFER_SIZE + slack];
      position := 0;
      transfers, faults := [], 0;
    }

    /** The device: fails, or gives any leading part of what was asked for. */
    method DeviceTransfer(start: nat, length: nat) returns (result: Result<nat, VerifierError>)
      requires length <= buffer.Length
      modifies buffer, this`transfers, this`faults
      ensures result.Failure? ==> result.error == DeviceSeek || result.error == DeviceRead
      ensures result.Failure? ==> transfers == old(transfers)
      ensures faults == old(faults) + if result.Failure? then 1 else 0
      ensures result.Success? ==>
        && result.value <= length
        && start + result.value <= |media|
        && buffer[..result.value] == media[start..start + result.value]
        && transfers == old(transfers) + [Transfer(start, length, result.value)]
    {
      var seekFails: bool, readFails: bool, count: nat := *, *, *;
      if seekFails {
        faults := faults + 1;
        return Failure(DeviceSeek);
      }
      if readFails || start > |media| {
        faults := faults + 1;
        return Failure(DeviceRead);
      }
      if count > length || count > |media| - start {
        count := 0;
      }
      for i := 0 to count
        invariant buffer[..i] == media[start..start + i]
        invariant transfers == old(transfers) && faults == old(faults)
      {
        buffer[i] := media[start + i];
      }
      transfers := transfers + [Transfer(start, length, count)];
      return Success(count);
    }

    /**
     A plain byte stream, whatever the device does: `read` delivers exactly the next bytes of the
     disk; it delivers none only at the end, for an empty request, or when the device gave none;
     and it fails only when the device fails or splits a sector.
     */
    method Read(output: array<byte>) returns (result: Result<nat, VerifierError>)
      requires Valid() && output != buffer
      modifies this`position, this`transfers, this`faults, output, buffer
      ensures Valid()
      ensures result.Success? ==>
        var n := result.value;
        && n <= output.Length
        && position == old(position) + n
        && (n > 0 ==> position <= |media| && output[..n] == media[old(position)..position])
        && output[n..] == old(output[n..])
      ensures result.Failure? ==> position == old(position) && output[..] == old(output[..])
      ensures output.Length == 0 || old(position) == capacity ==>
        result == Success(0) && transfers == old(transfers) && faults == old(faults)
      ensures output.Length > 0 && old(position) < capacity ==>
        || (transfers == old(transfers) && faults == old(faults) + 1 && result in {Failure(DeviceSeek), Failure(DeviceRead)})
        || (faults == old(faults)
            && (exists t :: transfers == old(transfers) + [t] && Answers(t, result)
                  && HandsOn(t, old(position), Min(Min(output.Length, VERIFICATION_BUFFER_SIZE), capacity - old(position)), result)))
    {
      if output.Length == 0 || position >= capacity {
        assert output[0..] == output[..];
        return Success(0);
      }
      hide Min, Aligned, AlignDown, RoundUp;
      MinBounds(output.Length, VERIFICATION_BUFFER_SIZE);
      var requested := Min(output.Length, VERIFICATION_BUFFER_SIZE);
      MinBounds(capacity - position, requested);
      var available := Min(capacity - position, requested);
      AlignedDown(position, transferSize);
      var alignedStart := AlignDown(position, transferSize);
      var prefix := position - alignedStart;
      var needed := prefix + available;
      AlignedRequest(alignedStart, needed);
      var alignedLength := RoundUp(needed, transferSize);
      if alignedLength > buffer.Length || (checksEnd && alignedStart + alignedLength > capacity) {
        return Failure(UnalignedRequest);
      }
      result := Serve(output, alignedStart, alignedLength, prefix, available);
    }

    /** The second half of `read`: one transfer, and what it lets the caller have. */
    method Serve(output: array<byte>, alignedStart: nat, alignedLength: nat, prefix: nat, available: nat)
      returns (result: Result<nat, VerifierError>)
      requires Valid() && output != buffer
      requires Contained(Transfer(alignedStart, alignedLength, 0))
      requires prefix < transferSize && alignedStart + prefix == position
      requires 0 < available <= output.Length && prefix + available <= alignedLength
      modifies this`position, this`transfers, this`faults, output, buffer
      ensures Valid()
      ensures result.Success? ==>
        var n := result.value;
        && n <= available
        && position == old(position) + n
        && (n > 0 ==> position <= |media| && output[..n] == media[old(position)..position])
        && output[n..] == old(output[n..])
      ensures result.Failure? ==> position == old(position) && output[..] == old(output[..])
      ensures
        || (transfers == old(transfers) && faults == old(faults) + 1 && result in {Failure(DeviceSeek), Failure(DeviceRead)})
        || (faults == old(faults)
            && (exists t ::
                  transfers == old(transfers) + [t] && Answers(t, result) && HandsOn(t, old(position), available, result)))
    {
      hide Min, Aligned, AlignDown, RoundUp;
      var transfer := DeviceTransfer(alignedStart, alignedLength);
      if transfer.Failure? {
        return transfer;
      }
      var count := transfer.value;
      ghost var t := Transfer(alignedStart, alignedLength, count);
      assert transfers == old(transfers) + [t] && Contained(t);
      ZeroIsAligned(transferSize);
      if count == 0 {
        assert output[0..] == output[..];
        return Success(0);
      }
      if Aligned(count, transferSize) {
        WholeSectorsPassPrefix(count, prefix, transferSize);
      }
      if !Aligned(count, transferSize) || count <= prefix {
        return Failure(IncompleteSector);
      }
      MinBounds(available, count - prefix);
      var copied := Min(available, count - prefix);
      ghost var given := buffer[..count];
      assert buffer[prefix..prefix + copied] == given[prefix..prefix + copied] by {
        SliceOfSlice(buffer[..], 0, count, prefix, copied);
        assert buffer[..][0..count] == given && buffer[..][prefix..prefix + copied] == buffer[prefix..prefix + copied];
      }
      SliceOfSlice(media, alignedStart, count, prefix, copied);
      CopyOut(output, prefix, copied);
      position := position + copied;
      return Success(copied);
    }

    method CopyOut(output: array<byte>, prefix: nat, copied: nat)
      requires output != buffer && copied <= output.Length && prefix + copied <= buffer.Length
      modifies output
      ensures output[..copied] == buffer[prefix..prefix + copied]
      ensures output[copied..] == old(output[copied..])
    {
      for i := 0 to copied
        invariant output[..i] == buffer[prefix..prefix + i]
        invariant output[i..] == old(output[i..])
      {
        output[i] := buffer[prefix + i];
      }
    }

    /** What a transfer lets `read` answer. */
    ghost predicate Answers(t: Transfer, result: Result<nat, VerifierError>)
      reads this
    {
      && (result == Success(0) <==> t.count == 0)
      && (result.Failure? <==> !Aligned(t.count, transferSize))
      && (result.Failure? ==> result.error == IncompleteSector)
    }

    /** Of a transfer that brought anything, the caller gets all it wanted that lies past its position. */
    ghost predicate HandsOn(t: Transfer, from: nat, wanted: nat, result: Result<nat, VerifierError>)
    {
      result.Success? && t.count > 0 ==> result.value == Min(wanted, t.start + t.count - from) && result.value > 0
    }

    lemma AlignedRequest(alignedStart: nat, needed: nat)
      requires Valid() && Aligned(alignedStart, transferSize)
      requires 0 < needed < VERIFICATION_BUFFER_SIZE + transferSize && alignedStart + needed <= capacity
      ensures var length := RoundUp(needed, transferSize);
        && needed <= length <= buffer.Length
        && Aligned(length, transferSize)
        && alignedStart + length <= capacity
    {
      hide Aligned, RoundUp;
      AlignedSum(capacity, alignedStart, transferSize);
      RoundedUp(needed, transferSize, capacity - alignedStart);
      MultipleIsAligned(transferSize, transferSize, 1);
      AlignedSum(VERIFICATION_BUFFER_SIZE, transferSize, transferSize);
      RoundedUp(needed, transferSize, VERIFICATION_BUFFER_SIZE + transferSize);
    }

    method Seek(target: SeekFrom) returns (result: Result<nat, VerifierError>)
      requires Valid()
      modifies this`position
      ensures Valid()
      ensures var next := match target
          case Start(p) => p
          case Current(offset) => old(position) + offset
          case End(offset) => capacity + offset;
        if 0 <= next <= capacity then result == Success(next) && position == next
        else result == Failure(OutsideDisk) && position == old(position)
    {
      var next: int;
      match target {
        case Start(p) => next := p;
        case Current(offset) => next := position + offset;
        case End(offset) => next := capacity + offset;
      }
      if next < 0 || next > capacity {
        return Failure(OutsideDisk);
      }
      position := next;
      return Success(position);
    }
  }

  method NewUnbufferedVerifier(media: seq<byte>, capacity: nat, logical: nat, physical: nat)
    returns (result: Result<Verifier, VerifierError>)
    requires capacity < U64_LIMIT
    ensures result.Success? <==> ValidSectorGeometry(capacity, logical, physical)
    ensures result.Failure? ==> result.error == UnsupportedGeometry
    ensures result.Success? ==>
      var v := result.value;
      && fresh(v) && fresh(v.buffer) && v.Valid() && v.media == media && v.capacity == capacity && v.position == 0
      && v.transferSize == logical && v.checksEnd && v.buffer.Length == MEBIBYTE + physical
  {
    if !ValidSectorGeometry(capacity, logical, physical) {
      return Failure(UnsupportedGeometry);
    }
    MebibyteIsPower();
    PowersDivide(logical, MEBIBYTE);
    var v := new Verifier.Unchecked(media, capacity, logical, physical, true);
    return Success(v);
  }

  method NewDirectVerifier(media: seq<byte>, capacity: nat) returns (result: Result<Verifier, VerifierError>)
    requires capacity < U64_LIMIT
    ensures result.Success? <==> capacity > 0 && capacity % KERNEL_SECTOR_SIZE == 0
    ensures result.Failure? ==> result.error == UnsupportedGeometry
    ensures result.Success? ==>
      var v := result.value;
      && fresh(v) && fresh(v.buffer) && v.Valid() && v.media == media && v.capacity == capacity && v.position == 0
      && v.transferSize == 512 && !v.checksEnd && v.buffer.Length == MEBIBYTE + 4096
  {
    if capacity == 0 || capacity % KERNEL_SECTOR_SIZE != 0 {
      return Failure(UnsupportedGeometry);
    }
    var v := new Verifier.Unchecked(media, capacity, KERNEL_SECTOR_SIZE, DIRECT_ALIGNMENT, false);
    return Success(v);
  }

  /** The device gave nothing, or part of a sector. */
  predicate Short(t: Transfer, sector: nat)
  {
    t.count == 0 || (sector > 0 && t.count % sector != 0)
  }

  datatype ReadbackError = Device(error: VerifierError) | Ended

  /**
   The readback loop of src/flash.rs over this verifier: it collects exactly the first `written`
   bytes of the disk, however the transfers were cut; and it fails only if the device failed, gave
   nothing or split a sector.
   */
  method ReadBack(v: Verifier, written: nat) returns (result: Result<seq<byte>, ReadbackError>)
    requires v.Valid() && written <= v.capacity
    modifies v`position, v`transfers, v`faults, v.buffer
    ensures v.Valid()
    ensures result.Success? ==> written <= |v.media| && result.value == v.media[..written]
    ensures old(v.transfers) <= v.transfers && old(v.faults) <= v.faults
    ensures result.Failure? ==>
      && (result.error.Ended? || result.error.error in {DeviceSeek, DeviceRead, IncompleteSector})
      && (v.faults > old(v.faults)
          || exists i :: |old(v.transfers)| <= i < |v.transfers| && Short(v.transfers[i], v.transferSize))
  {
    var rewound := v.Seek(Start(0));
    assert rewound.Success?;
    var hashed: seq<byte> := [];
    var read := 0;
    while read < written
      invariant v.Valid() && v.position == read <= written
      invariant read <= |v.media| && hashed == v.media[..read]
      invariant old(v.transfers) <= v.transfers && old(v.faults) <= v.faults
    {
      var limit := Min(written - read, MEBIBYTE);
      var window := new byte[limit];
      ghost var before := v.transfers;
      var got := v.Read(window);
      assert v.transfers != before ==> v.transfers == before + [v.transfers[|before|]];
      if got.Failure? {
        return Failure(Device(got.error));
      }
      var count := got.value;
      if count == 0 {
        return Failure(Ended);
      }
      assert v.media[..read] + v.media[read..read + count] == v.media[..read + count];
      hashed := hashed + window[..count];
      read := read + count;
    }
    return Success(hashed);
  }
}
