/**
 Publishing files all or nothing: `download_from_reader` with `PartialDownload` (src/download.rs) and
 `prepare_gzip` (src/flash.rs).
 */
module Download {
  import opened Common

  type Bytes = seq<byte>
  type Digest = string

  const BUFFER_SIZE: nat := MEBIBYTE

  /** A path whose last component may not be a file name, as in `images/..`. */
  datatype FilePath = FilePath(directory: string, fileName: Option<string>)

  datatype DownloadError =
    | InvalidDestination | DestinationExists | PartialExists | Io
    | SizeMismatch(expected: nat, actual: nat) | SizeOverflow | ChecksumMismatch | Cancelled

  datatype DownloadReport = DownloadReport(destination: FilePath, bytesDownloaded: nat, sha256: Digest)

  function PartialPath(destination: FilePath): (r: Result<FilePath, DownloadError>)
    ensures destination.fileName.Some? <==> r.Success?
    ensures r.Success? ==> r.value != destination
  {
    match destination.fileName
    case None => Failure(InvalidDestination)
    case Some(name) => Success(FilePath(destination.directory, Some(name + ".part")))
  }

  /**
   The file system as this process sees it in its own private directory, with the cancel flag. Every
   operation may fail; `removeFailed` remembers whether removing an existing file ever did, `durable`
   which files were synced after their last write, `late` how many reads of the source and writes
   started while the cancel flag was up, and `faults` how many operations, other than removals, failed.
   */
  class Files {
    var entries: map<FilePath, Bytes>
    var cancelled: bool
    ghost var removeFailed: bool
    ghost var durable: set<FilePath>
    ghost var late: nat
    ghost var faults: nat

    /** Only time has passed: the cancel flag may have been raised. */
    twostate predicate Idle()
      reads this
    {
      entries == old(entries) && (old(cancelled) ==> cancelled) && removeFailed == old(removeFailed)
      && durable == old(durable) && late == old(late)
    }

    twostate predicate Changed(path: FilePath)
      reads this
    {
      && entries - {path} == old(entries) - {path}
      && (old(cancelled) ==> cancelled) && removeFailed == old(removeFailed)
    }

    /** One more read or write, late if the flag was up when it started. */
    twostate predicate Counted()
      reads this
    {
      if late == old(late) then !old(cancelled) else late == old(late) + 1 && cancelled
    }

    twostate predicate Faulted(failed: bool)
      reads this
    {
      faults == old(faults) + if failed then 1 else 0
    }

    method Elapse()
      modifies this`cancelled
      ensures Idle()
    {
      var raised: bool := *;
      cancelled := cancelled || raised;
    }

    method CheckCancelled() returns (result: Result<Unit, DownloadError>)
      modifies this
      ensures Idle() && Faulted(false)
      ensures result.Failure? ==> result.error == Cancelled && cancelled
      ensures old(cancelled) ==> result.Failure?
    {
      Elapse();
      return if cancelled then Failure(Cancelled) else Success(Unit.Unit);
    }

    method Exists(path: FilePath) returns (result: Result<bool, DownloadError>)
      modifies this
      ensures Faulted(result.Failure?)
      ensures Idle()
      ensures result.Success? ==> result.value == (path in entries)
      ensures result.Failure? ==> result.error == Io
    {
      Elapse();
      var fails: bool := *;
      if fails {
        faults := faults + 1;
        return Failure(Io);
      }
      return Success(path in entries);
    }

    /** Creates an empty file that must not exist yet. */
    method CreateNew(path: FilePath) returns (result: Result<Unit, DownloadError>)
      modifies this
      ensures Faulted(result.Failure?)
      ensures late == old(late)
      ensures result.Success? ==>
        && path !in old(entries) && entries == old(entries)[path := []]
        && (old(cancelled) ==> cancelled) && removeFailed == old(removeFailed)
      ensures result.Failure? ==> Idle() && result.error == Io
    {
      Elapse();
      var fails: bool := *;
      if fails || path in entries {
        faults := faults + 1;
        return Failure(Io);
      }
      entries := entries[path := []];
      durable := durable - {path};
      return Success(Unit.Unit);
    }

    /** Creates a file, or empties the one that is there. */
    method CreateOrTruncate(path: FilePath) returns (result: Result<Unit, DownloadError>)
      modifies this
      ensures Faulted(result.Failure?)
      ensures Changed(path) && late == old(late)
      ensures result.Success? ==> path in entries && entries[path] == []
      ensures result.Failure? ==> entries == old(entries) && result.error == Io
    {
      Elapse();
      var fails: bool := *;
      if fails {
        faults := faults + 1;
        return Failure(Io);
      }
      entries := entries[path := []];
      durable := durable - {path};
      return Success(Unit.Unit);
    }

    /** Appends everything, or fails having appended any part. */
    method WriteAll(path: FilePath, bytes: Bytes) returns (result: Result<Unit, DownloadError>)
      requires path in entries
      modifies this
      ensures Faulted(result.Failure?)
      ensures Changed(path) && path in entries && Counted()
      ensures result.Success? ==> entries[path] == old(entries[path]) + bytes
      ensures result.Failure? ==> result.error == Io
    {
      Elapse();
      if cancelled {
        late := late + 1;
      }
      var fails: bool, part: nat := *, *;
      durable := durable - {path};
      if fails {
        if part <= |bytes| {
          entries := entries[path := entries[path] + bytes[..part]];
        }
        faults := faults + 1;
        return Failure(Io);
      }
      entries := entries[path := entries[path] + bytes];
      return Success(Unit.Unit);
    }

    method SyncAll(path: FilePath) returns (result: Result<Unit, DownloadError>)
      modifies this
      ensures Faulted(result.Failure?)
      ensures entries == old(entries) && (old(cancelled) ==> cancelled) && removeFailed == old(removeFailed)
      ensures late == old(late)
      ensures result.Success? ==> durable == old(durable) + {path}
      ensures result.Failure? ==> durable == old(durable) && result.error == Io
    {
      Elapse();
      var fails: bool := *;
      if fails {
        faults := faults + 1;
        return Failure(Io);
      }
      durable := durable + {path};
      return Success(Unit.Unit);
    }

    /** Opening a file for reading. */
    method OpenExisting() returns (result: Result<Unit, DownloadError>)
      modifies this
      ensures Faulted(result.Failure?)
      ensures Idle()
      ensures result.Failure? ==> result.error == Io
    {
      Elapse();
      var fails: bool := *;
      if fails {
        faults := faults + 1;
        return Failure(Io);
      }
      return Success(Unit.Unit);
    }

    /**
     A buffered write: of what was buffered and what comes in, some reaches the file and `kept` stays
     buffered.
     */
    method WriteBuffered(path: FilePath, buffered: Bytes, bytes: Bytes)
      returns (result: Result<Unit, DownloadError>, kept: Bytes)
      requires path in entries
      modifies this
      ensures Faulted(result.Failure?)
      ensures Changed(path) && path in entries && Counted()
      ensures result.Success? ==> entries[path] + kept == old(entries[path]) + buffered + bytes
      ensures result.Failure? ==> result.error == Io
    {
      var all := buffered + bytes;
      var any: int := *;
      var part := if 0 <= any <= |all| then any else 0;
      kept := all[part..];
      result := WriteAll(path, all[..part]);
      assert all == all[..part] + kept;
      assert old(entries[path]) + buffered + bytes == old(entries[path]) + all;
    }

    /** Writes what is still buffered. */
    method FlushBuffered(path: FilePath, buffered: Bytes) returns (result: Result<Unit, DownloadError>)
      requires path in entries
      modifies this
      ensures Faulted(result.Failure?)
      ensures Changed(path) && path in entries && Counted()
      ensures result.Success? ==> entries[path] == old(entries[path]) + buffered
      ensures result.Failure? ==> result.error == Io
    {
      result := WriteAll(path, buffered);
    }

    method Rename(source: FilePath, destination: FilePath) returns (result: Result<Unit, DownloadError>)
      requires source in entries && source != destination
      modifies this
      ensures Faulted(result.Failure?)
      ensures (old(cancelled) ==> cancelled) && removeFailed == old(removeFailed) && late == old(late)
      ensures result.Success? ==> entries == (old(entries) - {source})[destination := old(entries[source])]
      ensures result.Success? && source in old(durable) ==> destination in durable
      ensures result.Failure? ==> entries == old(entries) && result.error == Io
    {
      Elapse();
      var fails: bool := *;
      if fails {
        faults := faults + 1;
        return Failure(Io);
      }
      entries := (entries - {source})[destination := entries[source]];
      durable := if source in durable then durable - {source} + {destination} else durable - {destination};
      return Success(Unit.Unit);
    }

    /** `let _ = remove_file(path)`: a failure is only ever logged. */
    method Remove(path: FilePath)
      modifies this
      ensures old(cancelled) ==> cancelled
      ensures old(removeFailed) ==> removeFailed
      ensures entries == old(entries) - {path} || (removeFailed && entries == old(entries))
      ensures durable == old(durable) && late == old(late) && Faulted(false)
    {
      Elapse();
      var fails: bool := *;
      if fails && path in entries {
        removeFailed := true;
        return;
      }
      entries := entries - {path};
    }

    /** The remote body, or the decompressor: any bytes, at most `limit` of them. */
    method ReadSource(limit: nat) returns (result: Result<Bytes, DownloadError>)
      modifies this
      ensures Faulted(result.Failure?)
      ensures entries == old(entries) && (old(cancelled) ==> cancelled) && removeFailed == old(removeFailed)
      ensures durable == old(durable) && Counted()
      ensures result.Success? ==> |result.value| <= limit
      ensures result.Failure? ==> result.error == Io
    {
      Elapse();
      if cancelled {
        late := late + 1;
      }
      Elapse();
      var fails: bool, bytes: Bytes := *, *;
      if fails || |bytes| > limit {
        faults := faults + 1;
        return Failure(Io);
      }
      return Success(bytes);
    }
  }

  method EnsureDestinationAvailable(files: Files, destination: FilePath) returns (result: Result<Unit, DownloadError>)
    modifies files
    ensures files.Idle()
    ensures result.Success? ==> destination.fileName.Some? && destination !in files.entries
    ensures result.Failure? ==> result.error in {InvalidDestination, DestinationExists, Io}
    ensures destination.fileName.None? <==> result == Failure(InvalidDestination)
    ensures result == Failure(DestinationExists) ==> destination in files.entries
    ensures files.Faulted(result == Failure(Io))
  {
    if destination.fileName.None? {
      return Failure(InvalidDestination);
    }
    var present := files.Exists(destination);
    if present.Failure? {
      return Failure(present.error);
    }
    return if present.value then Failure(DestinationExists) else Success(Unit.Unit);
  }

  // ---------------------------------------------------------------- the partial file

  /** When the destination itself is the reason. */
  predicate Blocked(error: DownloadError, destination: FilePath, entries: map<FilePath, Bytes>)
  {
    match error
    case InvalidDestination => destination.fileName.None?
    case DestinationExists => destination in entries
    case _ => true
  }

  class PartialDownload {
    const path: FilePath
    var published: bool

    constructor (path: FilePath)
      ensures this.path == path && !published
    {
      this.path, published := path, false;
    }

    /** `Drop`: an unpublished partial file is removed. */
    method Drop(files: Files)
      modifies files
      ensures old(files.cancelled) ==> files.cancelled
      ensures old(files.removeFailed) ==> files.removeFailed
      ensures published ==> files.entries == old(files.entries)
      ensures files.durable == old(files.durable) && files.late == old(files.late) && files.Faulted(false)
      ensures !published ==>
        files.entries == old(files.entries) - {path} || (files.removeFailed && files.entries == old(files.entries))
    {
      if !published {
        files.Remove(path);
      } else {
        files.Elapse();
      }
    }

    /** Consumes the partial file: moved to its destination, or gone. */
    method Publish(files: Files, destination: FilePath) returns (result: Result<Unit, DownloadError>)
      requires !published && path in files.entries && path != destination
      modifies this, files
      ensures old(files.cancelled) ==> files.cancelled
      ensures old(files.removeFailed) ==> files.removeFailed
      ensures files.late == old(files.late) && files.Faulted(result == Failure(Io))
      ensures result.Failure? ==> Blocked(result.error, destination, old(files.entries))
      ensures result.Success? ==>
        && published && destination !in old(files.entries) && destination in files.durable
        && files.entries == (old(files.entries) - {path})[destination := old(files.entries[path])]
      ensures result.Failure? ==>
        && !published && result.error in {InvalidDestination, DestinationExists, Io}
        && (files.entries == old(files.entries) - {path} || (files.removeFailed && files.entries == old(files.entries)))
    {
      result := MoveInPlace(files, destination);
      Drop(files);
    }

    method MoveInPlace(files: Files, destination: FilePath) returns (result: Result<Unit, DownloadError>)
      requires !published && path in files.entries && path != destination
      modifies this, files
      ensures old(files.cancelled) ==> files.cancelled
      ensures files.removeFailed == old(files.removeFailed) && files.late == old(files.late)
      ensures files.Faulted(result == Failure(Io))
      ensures result.Failure? ==> Blocked(result.error, destination, old(files.entries))
      ensures published == result.Success?
      ensures result.Success? ==>
        && destination !in old(files.entries) && destination in files.durable
        && files.entries == (old(files.entries) - {path})[destination := old(files.entries[path])]
      ensures result.Failure? ==>
        files.entries == old(files.entries) && result.error in {InvalidDestination, DestinationExists, Io}
    {
      var synced := files.SyncAll(path);
      if synced.Failure? {
        return Failure(synced.error);
      }
      var available := EnsureDestinationAvailable(files, destination);
      if available.Failure? {
        return Failure(available.error);
      }
      var renamed := files.Rename(path, destination);
      if renamed.Failure? {
        return Failure(renamed.error);
      }
      published := true;
      return Success(Unit.Unit);
    }
  }

  method CreatePartial(files: Files, path: FilePath) returns (result: Result<PartialDownload, DownloadError>)
    modifies files
    ensures result.Success? ==>
      && fresh(result.value) && result.value.path == path && !result.value.published
      && path !in old(files.entries) && files.entries == old(files.entries)[path := []]
    ensures result.Failure? ==> files.entries == old(files.entries)
    ensures (old(files.cancelled) ==> files.cancelled) && files.removeFailed == old(files.removeFailed)
    ensures files.late == old(files.late) && files.Faulted(result == Failure(Io))
    ensures result.Failure? ==> result.error in {PartialExists, Io}
    ensures result == Failure(PartialExists) ==> path in old(files.entries)
  {
    var present := files.Exists(path);
    if present.Failure? {
      return Failure(present.error);
    }
    if present.value {
      return Failure(PartialExists);
    }
    var created := files.CreateNew(path);
    if created.Failure? {
      return Failure(created.error);
    }
    var partial := new PartialDownload(path);
    return Success(partial);
  }

  // ---------------------------------------------------------------- download_from_reader

  /** What was announced about a file, as far as anything was. */
  predicate AsAnnounced(sha: Bytes -> Digest, bytes: Bytes, expectedDigest: Option<Digest>, expectedSize: Option<nat>)
  {
    && (expectedSize.Some? ==> |bytes| == expectedSize.value)
    && (expectedDigest.Some? ==> sha(bytes) == expectedDigest.value)
  }

  predicate Ascending(reported: seq<nat>)
  {
    forall i :: 0 <= i < |reported| - 1 ==> reported[i] < reported[i + 1]
  }

  /** Each verdict on the received bytes is true of them. */
  predicate Justified(
    error: DownloadError, sha: Bytes -> Digest, given: Given, expectedDigest: Option<Digest>, expectedSize: Option<nat>)
  {
    match error
    case SizeMismatch(expected, actual) =>
      && expectedSize == Some(expected) && actual == |given.bytes|
      && (actual > expected || (given.ended && actual < expected))
    case SizeOverflow => |given.bytes| >= U64_LIMIT
    case ChecksumMismatch => given.ended && expectedDigest.Some? && sha(given.bytes) != expectedDigest.value
    case _ => true
  }

  /** Streams the source into the partial file and checks it against what was announced. */
  method Receive(
    files: Files, path: FilePath, sha: Bytes -> Digest, expectedDigest: Option<Digest>, expectedSize: Option<nat>)
    returns (result: Result<DownloadReport, DownloadError>, ghost given: Given, reported: seq<nat>)
    requires path in files.entries && files.entries[path] == []
    modifies files
    ensures files.Changed(path) && path in files.entries
    ensures Ascending(reported) && reported != [] && reported[0] == 0
    ensures result.Success? ==>
      && given == Given(files.entries[path], true) && AsAnnounced(sha, given.bytes, expectedDigest, expectedSize)
      && result.value.bytesDownloaded == |given.bytes| == reported[|reported| - 1] && result.value.sha256 == sha(given.bytes)
      && result.value.destination == path
    ensures result.Failure? ==> Justified(result.error, sha, given, expectedDigest, expectedSize)
    ensures result == Failure(Cancelled) ==> files.cancelled
    ensures files.late <= old(files.late) + 1
    ensures files.Faulted(result == Failure(Io))
    ensures result.Failure? ==> !result.error.InvalidDestination? && !result.error.DestinationExists? && !result.error.PartialExists?
    ensures old(files.cancelled) ==> result == Failure(Cancelled) && files.late == old(files.late)
  {
    given := NOTHING_GIVEN;
    reported := [0];
    var downloaded: nat := 0;
    var hashed: Bytes := [];
    while true
      invariant files.Changed(path) && path in files.entries
      invariant files.entries[path] == hashed && given == Given(hashed, false) && |hashed| == downloaded < U64_LIMIT
      invariant expectedSize.Some? ==> downloaded <= expectedSize.value
      invariant files.late == old(files.late) || (files.late == old(files.late) + 1 && files.cancelled)
      invariant old(files.cancelled) ==> files.late == old(files.late)
      invariant files.faults == old(files.faults)
      invariant Ascending(reported) && reported != [] && reported[0] == 0 && reported[|reported| - 1] == downloaded
      decreases U64_LIMIT - downloaded
    {
      var checked := files.CheckCancelled();
      if checked.Failure? {
        return Failure(checked.error), given, reported;
      }
      var chunk := files.ReadSource(BUFFER_SIZE);
      if chunk.Failure? {
        return Failure(chunk.error), given, reported;
      }
      if chunk.value == [] {
        given := Given(hashed, true);
        break;
      }
      checked := files.CheckCancelled();
      if checked.Failure? {
        return Failure(checked.error), given, reported;
      }
      given := Given(given.bytes + chunk.value, false);
      var next := downloaded + |chunk.value|;
      if next >= U64_LIMIT {
        return Failure(SizeOverflow), given, reported;
      }
      if expectedSize.Some? && next > expectedSize.value {
        return Failure(SizeMismatch(expectedSize.value, next)), given, reported;
      }
      var wrote := files.WriteAll(path, chunk.value);
      if wrote.Failure? {
        return Failure(wrote.error), given, reported;
      }
      hashed := hashed + chunk.value;
      downloaded := next;
      reported := reported + [downloaded];
    }
    if expectedSize.Some? && downloaded != expectedSize.value {
      return Failure(SizeMismatch(expectedSize.value, downloaded)), given, reported;
    }
    var digest := sha(hashed);
    if expectedDigest.Some? && expectedDigest.value != digest {
      return Failure(ChecksumMismatch), given, reported;
    }
    return Success(DownloadReport(path, downloaded, digest)), given, reported;
  }

  /** Only what the run itself created may be left, and only if removing it failed. */
  ghost predicate NothingNew(before: map<FilePath, Bytes>, after: map<FilePath, Bytes>, path: FilePath, removeFailed: bool)
  {
    after == before || (removeFailed && path !in before && after - {path} == before)
  }

  /** The destination has a file name, and neither it nor its partial file is there. */
  ghost predicate Clear(destination: FilePath, entries: map<FilePath, Bytes>)
  {
    && destination.fileName.Some? && destination !in entries
    && FilePath(destination.directory, Some(destination.fileName.value + ".part")) !in entries
  }

  /** What came so far can be what was announced, and is it if it has come to its end. */
  ghost predicate GoodStream(sha: Bytes -> Digest, given: Given, expectedDigest: Option<Digest>, expectedSize: Option<nat>)
  {
    && |given.bytes| < U64_LIMIT
    && (expectedSize.Some? ==> |given.bytes| <= expectedSize.value)
    && (given.ended && expectedSize.Some? ==> |given.bytes| == expectedSize.value)
    && (given.ended && expectedDigest.Some? ==> sha(given.bytes) == expectedDigest.value)
  }

  /**
   All or nothing: a success leaves exactly the streamed bytes, as announced, under the destination
   and nothing else; a failure leaves everything as it was, someone else's partial file included,
   unless the run's own partial file could not be removed. And it succeeds unless the destination or
   the stream is at fault, an operation failed or the download was cancelled.
   */
  method DownloadFromReader(
    files: Files, destination: FilePath, sha: Bytes -> Digest, expectedDigest: Option<Digest>, expectedSize: Option<nat>)
    returns (result: Result<DownloadReport, DownloadError>, ghost given: Given, reported: seq<nat>)
    requires !files.removeFailed
    modifies files
    ensures result.Success? ==>
      && destination !in old(files.entries) && files.entries == old(files.entries)[destination := given.bytes]
      && destination in files.durable
      && AsAnnounced(sha, given.bytes, expectedDigest, expectedSize)
      && result.value == DownloadReport(destination, |given.bytes|, sha(given.bytes))
      && reported != [] && reported[|reported| - 1] == |given.bytes| && given.ended
    ensures result.Failure? ==>
      && (destination.fileName.None? || destination in old(files.entries) ==> files.entries == old(files.entries))
      && (PartialPath(destination).Success? ==>
            NothingNew(old(files.entries), files.entries, PartialPath(destination).value, files.removeFailed))
      && Justified(result.error, sha, given, expectedDigest, expectedSize)
    ensures result == Failure(Cancelled) ==> files.cancelled
    ensures old(files.cancelled) ==> result == Failure(Cancelled) && files.entries == old(files.entries)
    ensures files.late <= old(files.late) + 1
    ensures Ascending(reported)
    ensures
      (&& Clear(destination, old(files.entries)) && GoodStream(sha, given, expectedDigest, expectedSize)
       && files.faults == old(files.faults) && !files.cancelled)
      ==> result.Success?
    ensures files.Faulted(result == Failure(Io))
    ensures result.Failure? ==> Blocked(result.error, destination, old(files.entries))
    ensures result == Failure(PartialExists) ==>
      PartialPath(destination).Success? && PartialPath(destination).value in old(files.entries)
  {
    given, reported := NOTHING_GIVEN, [];
    var checked := files.CheckCancelled();
    if checked.Failure? {
      return Failure(checked.error), given, reported;
    }
    var available := EnsureDestinationAvailable(files, destination);
    if available.Failure? {
      return Failure(available.error), given, reported;
    }
    // The destination has a file name by now, so its partial path exists.
    var path := PartialPath(destination).value;
    result, given, reported := ReceiveAndPublish(files, destination, path, sha, expectedDigest, expectedSize);
  }

  method ReceiveAndPublish(
    files: Files, destination: FilePath, path: FilePath, sha: Bytes -> Digest, expectedDigest: Option<Digest>, expectedSize: Option<nat>)
    returns (result: Result<DownloadReport, DownloadError>, ghost given: Given, reported: seq<nat>)
    requires path != destination && !files.removeFailed
    modifies files
    ensures result.Success? ==>
      && destination !in old(files.entries) && files.entries == old(files.entries)[destination := given.bytes]
      && destination in files.durable
      && AsAnnounced(sha, given.bytes, expectedDigest, expectedSize)
      && result.value == DownloadReport(destination, |given.bytes|, sha(given.bytes))
      && reported != [] && reported[|reported| - 1] == |given.bytes| && given.ended
    ensures result.Failure? ==>
      && NothingNew(old(files.entries), files.entries, path, files.removeFailed)
      && Justified(result.error, sha, given, expectedDigest, expectedSize)
    ensures result == Failure(Cancelled) ==> files.cancelled
    ensures files.late <= old(files.late) + 1
    ensures Ascending(reported)
    ensures files.Faulted(result == Failure(Io))
    ensures result.Failure? ==> Blocked(result.error, destination, old(files.entries))
    ensures result == Failure(PartialExists) ==> path in old(files.entries)
  {
    hide AsAnnounced;
    given, reported := NOTHING_GIVEN, [];
    var partial := CreatePartial(files, path);
    if partial.Failure? {
      return Failure(partial.error), given, reported;
    }
    assert files.entries - {path} == old(files.entries);
    result, given, reported := Receive(files, path, sha, expectedDigest, expectedSize);
    if result.Failure? {
      partial.value.Drop(files);
      return;
    }
    var published := partial.value.Publish(files, destination);
    if published.Failure? {
      return Failure(published.error), given, reported;
    }
    return Success(result.value.(destination := destination)), given, reported;
  }

  // ---------------------------------------------------------------- prepare_gzip

  datatype PreparationError = PreparationIo | RawSize | PreparationCancelled | Verification

  datatype PreparedImage = PreparedImage(bytes: nat, rawSha256: Digest)

  predicate RawAsExpected(sha: Bytes -> Digest, raw: Bytes, expectedSize: Option<nat>, expectedDigest: Option<Digest>)
  {
    && (expectedSize.Some? ==> |raw| == expectedSize.value)
    && (expectedDigest.Some? ==> EqIgnoreAsciiCase(sha(raw), expectedDigest.value))
  }

  /** Each verdict on the decompressed bytes is true of them. */
  predicate RawJustified(
    error: PreparationError, sha: Bytes -> Digest, given: Given, expectedSize: Option<nat>, expectedDigest: Option<Digest>)
  {
    match error
    case RawSize =>
      || |given.bytes| >= U64_LIMIT
      || (expectedSize.Some? && (|given.bytes| > expectedSize.value || (given.ended && |given.bytes| < expectedSize.value)))
    case Verification =>
      given.ended && expectedDigest.Some? && !EqIgnoreAsciiCase(sha(given.bytes), expectedDigest.value)
    case _ => true
  }

  /** The closure of `prepare_gzip`: decompress into the raw file and check it. */
  method Decompress(
    files: Files, rawPath: FilePath, sha: Bytes -> Digest, expectedSize: Option<nat>, expectedDigest: Option<Digest>)
    returns (result: Result<PreparedImage, PreparationError>, ghost given: Given)
    modifies files
    ensures files.Changed(rawPath)
    ensures result.Success? ==>
      && rawPath in files.entries && given == Given(files.entries[rawPath], true)
      && RawAsExpected(sha, given.bytes, expectedSize, expectedDigest)
      && result.value == PreparedImage(|given.bytes|, sha(given.bytes))
    ensures result.Failure? ==> RawJustified(result.error, sha, given, expectedSize, expectedDigest)
    ensures files.Faulted(result == Failure(PreparationIo))
    ensures result == Failure(PreparationCancelled) ==> files.cancelled
    ensures files.late <= old(files.late) + 2
  {
    hide EqIgnoreAsciiCase;
    given := NOTHING_GIVEN;
    var archive := files.OpenExisting();
    if archive.Failure? {
      return Failure(PreparationIo), given;
    }
    var created := files.CreateOrTruncate(rawPath);
    if created.Failure? {
      return Failure(PreparationIo), given;
    }
    var written: nat := 0;
    var hashed: Bytes := [];
    var buffered: Bytes := [];
    while true
      invariant files.Changed(rawPath) && rawPath in files.entries
      invariant files.entries[rawPath] + buffered == hashed && given == Given(hashed, false) && |hashed| == written < U64_LIMIT
      invariant files.faults == old(files.faults)
      invariant expectedSize.Some? ==> written <= expectedSize.value
      invariant files.late == old(files.late) || (files.late <= old(files.late) + 2 && files.cancelled)
      decreases U64_LIMIT - written
    {
      var checked := files.CheckCancelled();
      if checked.Failure? {
        return Failure(PreparationCancelled), given;
      }
      var chunk := files.ReadSource(BUFFER_SIZE);
      if chunk.Failure? {
        return Failure(PreparationIo), given;
      }
      if chunk.value == [] {
        given := Given(hashed, true);
        break;
      }
      given := Given(given.bytes + chunk.value, false);
      written := written + |chunk.value|;
      if written >= U64_LIMIT || (expectedSize.Some? && written > expectedSize.value) {
        return Failure(RawSize), given;
      }
      var wrote: Result<Unit, DownloadError>;
      wrote, buffered := files.WriteBuffered(rawPath, buffered, chunk.value);
      if wrote.Failure? {
        return Failure(PreparationIo), given;
      }
      hashed := hashed + chunk.value;
    }
    var flushed := files.FlushBuffered(rawPath, buffered);
    if flushed.Failure? {
      return Failure(PreparationIo), given;
    }
    if expectedSize.Some? && written != expectedSize.value {
      return Failure(RawSize), given;
    }
    if expectedDigest.Some? && !EqIgnoreAsciiCase(sha(hashed), expectedDigest.value) {
      return Failure(Verification), given;
    }
    return Success(PreparedImage(written, sha(hashed))), given;
  }

  /**
   A raw file remains exactly when preparation succeeded, and then holds the expected image. After a
   failure the path is empty, even if a file was there before, unless it could not be removed. And it
   succeeds unless the decompressed bytes are at fault, an operation failed or it was cancelled.
   */
  method PrepareGzip(
    files: Files, rawPath: FilePath, sha: Bytes -> Digest, expectedSize: Option<nat>, expectedDigest: Option<Digest>)
    returns (result: Result<PreparedImage, PreparationError>, ghost given: Given)
    requires !files.removeFailed
    modifies files
    ensures files.entries - {rawPath} == old(files.entries) - {rawPath}
    ensures result.Success? ==>
      && rawPath in files.entries && given == Given(files.entries[rawPath], true)
      && RawAsExpected(sha, given.bytes, expectedSize, expectedDigest)
      && result.value == PreparedImage(|given.bytes|, sha(given.bytes))
    ensures result.Failure? && !files.removeFailed ==> rawPath !in files.entries
    ensures result.Failure? ==> RawJustified(result.error, sha, given, expectedSize, expectedDigest)
    ensures files.Faulted(result == Failure(PreparationIo))
    ensures
      (&& |given.bytes| < U64_LIMIT && (expectedSize.Some? ==> |given.bytes| <= expectedSize.value)
       && (given.ended ==> RawAsExpected(sha, given.bytes, expectedSize, expectedDigest))
       && files.faults == old(files.faults) && !files.cancelled)
      ==> result.Success?
    ensures result == Failure(PreparationCancelled) ==> files.cancelled
    ensures files.late <= old(files.late) + 2
  {
    result, given := Decompress(files, rawPath, sha, expectedSize, expectedDigest);
    if result.Failure? {
      files.Remove(rawPath);
    }
  }
}
