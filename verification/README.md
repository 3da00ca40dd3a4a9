# A model of the card writer's isolated worker and the code around it

The program writes an operating system image to an SD card. An unprivileged process downloads and
prepares the image, writes a job file and starts an isolated worker; the worker stages the image
privately, re-validates the target, unmounts it, writes it, reads it back, syncs, closes and ejects
it, and reports its progress as JSON lines in a file that the unprivileged process follows. Two marker
files carry a cancel and a "skip verification" request to the worker.

The modules follow the source files:

- `WorkerWorld`, `FlashEngine`, `WorkerRun`, `WorkerTheorems` (src/worker.rs, src/flash.rs): the
  worker's run against a `World` that stands for the platform, the target, the progress sink, the
  marker files and the image file. Every answer the world gives is arbitrary within what the operation
  promises, and time passes in every operation, so markers may appear between any two steps. The world
  keeps a log of target actions with the drives they named, a trace of emitted events, the marker files
  by path, the errors its operations gave, what the image file gave and the bytes on the medium.
  Functions in the source with many early exits are cut into methods at those exits.
- `SectorGeometry`, `SectorVerifier` (src/worker/windows.rs, src/worker/linux.rs): the reader that turns
  arbitrary reads into aligned transfers. One class serves both platforms; they differ in sector size,
  buffer slack and one check, which are its constants.
- `WindowsHandles`, `WindowsRun` (src/worker/windows.rs): the Windows platform's fields and the kernel
  handles behind them, and the platform under every sequence of calls the worker can make.
- `CancelControl` (src/pipeline.rs): cancel and skip calls from any number of threads interleaved
  with any number of runs, as atomic steps.
- `PipelineOutcome` (src/pipeline.rs): what the unprivileged side concludes from the worker's events.
- `ProgressFraming` (src/worker.rs, src/pipeline/linux.rs, src/pipeline/windows.rs): writing and
  following the JSON-lines file.
- `CommandLine` (src/pipeline/windows.rs): argument quoting against a reader of the documented
  `CommandLineToArgvW` rules.
- `DiskIdentity` (src/drives.rs, src/worker.rs, src/worker/windows.rs): how discovery names a Windows
  disk and how the worker parses and checks that name.
- `HolderGraph`, `Mountinfo` (src/worker/linux.rs): the device graph check and the mount table's escapes.
- `Download` (src/download.rs, src/flash.rs): publishing files all or nothing.

SHA-256 is an arbitrary function from bytes to digests, accumulated as the bytes hashed so far; where
equal digests are to mean equal bytes, that is a hypothesis on the bytes concerned. The JSON serializer
is a pair of functions with a stated hypothesis (`ProgressFraming.Faithful`), and `str::trim` an
arbitrary function. Unsigned widths are written out where the source checks or casts them.

Five results say that the code falls short of what one might expect of it, and exactly when:

- Quoting round-trips exactly for argument lists without NUL (`CommandLine.QuotingRoundTripExactly`);
  Windows arguments cannot contain one.
- The octal sum of a mount table escape leaves `u8` exactly above 207 (`Mountinfo.OctalSumExact`): a
  build with overflow checks panics there and another one wraps. The kernel writes no such escape.
- A failed run returns the error that stopped it exactly when the sink takes its report
  (`WorkerTheorems.ErrorKeptExactly`); otherwise it returns the sink's error in its place, as in
  `WorkerTheorems.RefusedReportHidesError`.
- The pipeline does not repeat what a failed worker reported. A failed run makes the worker process
  exit with a failure status, every runner answers that with its own error, and that error comes
  before the terminal event. So while the pipeline's own cancel flag is down it gives the worker's
  verdict exactly when the run succeeded, and while the flag is up exactly when the run stopped for a
  cancel (`PipelineOutcome.PipelineVerdictExactly`); the branches for a failed worker and for a missing
  terminal event are never reached (`PipelineOutcome.PipelineSafeThroughFile`). A run whose text is
  lost is `PipelineOutcome.FailedRunLosesItsVerdict`.
- On Windows the cleanup after a write needs the pin on the disk, and the swap to the reader gives the
  pin up before it opens the reader. If that fails, no later eject of the run succeeds; with the pin
  in place it fails only for a failing operation or another disk
  (`WindowsHandles.WindowsPlatform.PrepareVerification`, `WindowsHandles.WindowsPlatform.Eject`).

## Model

| member | source | states |
|---|---|---|
| WorkerRun.RunAndReport | src/worker.rs:906-920 | for every platform, sink and marker behaviour: a success has the expected image on the device, the final sync and eject succeeded, no event was refused and nothing but the end of the run started after a cancel; every end leaves the target closed, synced and ejected, the bytes past the image as they were, and no call made for any drive but the job's; a failed run always tries to report the error that stopped it, returns that error if the sink takes the report as the last event, and otherwise the sink's error for exactly that report; the error that stops an acceptable job is one an operation gave or a true verdict |
| WorkerRun.RunJob | src/worker.rs:922-969 | the same for the run without its report; a rejected job or a cancel marker that was there first leaves the target untouched; the returned error is that of the operation under way when the trace stopped, never of a cleanup sync or eject, and it is a sink's error exactly when one event was refused, and then the one given for it |
| WorkerRun.UnmountAndRun | src/worker.rs:953-968 | from the unmount on, every failure attempts an eject and still returns what failed first: neither an eject that cleans up before the eject stage nor a second eject at that stage can be the returned error |
| WorkerRun.RunAfterUnmount | src/worker.rs:1022-1122 | a success ends with a successful sync, close and eject in that order; every other exit leaves the target closed and synced; a cancel marker present on entry means nothing is opened |
| WorkerRun.Reconfirm | src/worker.rs:1033-1039 | the target is found to be the selected one once more after the unmount, and a cancel marker that was there stops the run first |
| WorkerRun.SelectTarget | src/worker.rs:932-951 | before the unmount nothing happens to the target; only an image of the announced size and digest that the platform vetted, and a target found to be the selected one, get through, and only if neither the last check nor any before it started after a cancel marker |
| WorkerRun.StageAndVet | src/worker.rs:943-944 | the private copy is the announced image and the platform vetted it; otherwise the error is one an operation gave or the image file is truly wrong |
| WorkerRun.Confirm | src/worker.rs:949 | passes only if the job's own drive was asked for and found; a changed target is reported only if another drive was found |
| WorkerRun.StageRawImage | src/worker.rs:971-1020 | whatever the changing source file gives is accepted only with the announced size and digest, and rejected as an image only if it gave too much or ended as another one; with a cancel marker already there nothing is staged |
| WorkerRun.CopyChunk | src/worker.rs:985-1010 | one turn of the staging loop: never stages more than the announced size, and reports strictly rising counts |
| WorkerRun.ValidateJob | src/worker.rs:1124-1181 | rejected as a job exactly when schema, drive, digest or size is unacceptable; otherwise only an unusable image file can fail it |
| WorkerRun.Checkpoint | src/worker.rs:933-934 | passes only if the cancel marker was absent; a cancel is reported only when the marker exists |
| WorkerRun.FlashTarget | src/worker.rs:1041-1116 | the job's drive is opened, with the job's wish for verification, and no other; whatever the engine and the signals did, the target ends closed and synced and only the image's range has changed |
| WorkerRun.WriteAndSettle | src/worker.rs:1042-1108 | a reported success means the image is on the medium, and `verified` that after the barrier the image's range was read in order from its first byte to its last and had the same digest; after a cancel marker at most one more write or read starts, after a skip marker at most one more read |
| WorkerRun.Settle | src/worker.rs:1069-1108 | the precedence of callback error, marker error, cancel and engine result; a success only if no cancel marker was there, and an image mismatch only when size or digest differ |
| WorkerRun.SyncAndDrop | src/worker.rs:1070-1071 | exactly a sync and then a close, which leave the medium alone |
| WorkerRun.CloseTarget | src/worker.rs:1110-1116 | the target is synced before it is closed and closed whether or not the sync succeeds |
| WorkerRun.EjectAndComplete | src/worker.rs:1118-1121 | a success is a successful eject of a closed and synced target followed by the completed event with the report |
| FlashEngine.WriteRawWithPrepare | src/flash.rs:194-293 | only the image's own range can change; a success has the whole image on the device; `verified` implies that verification was wanted and that the whole range, read in order after the barrier, has the digest written; a success that is not verified implies that it was not wanted or was skipped by the marker; a failure is one an operation gave or true: too small only for an image larger than the target, unverified only after an empty read or a full readback with another digest, cancelled only with a raised flag |
| FlashEngine.WriteLoop | src/flash.rs:223-241 | a success means every staged byte is on the device in its place and the digest is of exactly those bytes; at most one write starts after the cancel marker appears |
| FlashEngine.WriteAndReport | src/flash.rs:229-236 | one chunk of at most one mebibyte lands exactly behind the previous ones, and a cancel marker it missed raises the flag before the next |
| FlashEngine.Verify | src/flash.rs:242-286 | the readback starts only after a successful barrier and at the first byte; true implies verification was wanted and everything was read back in order with the digest written; false implies it was not wanted or skipped, and when it was not wanted or already skipped nothing happens |
| FlashEngine.ReadbackLoop | src/flash.rs:255-283 | a success means the first `written` bytes of the target were read in order, once each, with the digest written and no write since the barrier; a raised flag stops it before the next read, and at most one read starts after either marker appears |
| FlashEngine.ReadAndReport | src/flash.rs:266-278 | one readback of at least one byte that goes on exactly where the last one ended; an empty read is a verification failure; a marker it missed has raised its flag afterwards |
| FlashEngine.WorkerSignals.Refresh | src/worker.rs:1409-1417 | flags only rise, only because of the files their own paths name, and files that were there first are never missed by a successful refresh |
| FlashEngine.WorkerSignals.IsCancelled | src/worker.rs:1404-1407 | true whenever the cancel marker was there first |
| FlashEngine.FlashCallback.OnProgress | src/worker.rs:1052-1065 | keeps the first error and does nothing after it; every error it keeps has raised the cancel flag |
| WorkerTheorems.ScanMeaning | src/worker.rs:874-920 | the running summary of a log says exactly what the log says (image vetted, target confirmed, open, unsynced, unejected, unmounted, behind a barrier), and `safe` that every action was allowed where it happened: in particular no unmount without a vetted image and a confirmed target, and no open without a second confirmation |
| WorkerTheorems.RunOrder | src/worker.rs:953-1121 | whatever was unmounted is ejected later; before each eject every write was synced and every open target closed; each readback has a successful barrier on the same target before it and no write in between |
| WorkerTheorems.AimMeaning | src/worker.rs:949-1119 | the summary says exactly whether every call of a log named one drive, opened it with one wish, and whether another drive was ever found |
| WorkerTheorems.CallsNameTheJob | src/worker.rs:949-1119 | however a run ended, each inspection, unmount, open, barrier and eject it made was for its job's drive, opened with its job's wish for verification |
| WorkerTheorems.CleanRunSucceeds | src/worker.rs:906-1122 | every run of an acceptable job succeeds in which no operation failed, no event was refused, no cancel marker appeared, only the selected drive was found, the image file gave the announced image and the medium gave back what was written; and it is verified if that was wished for and not skipped |
| WorkerTheorems.BoundedReaction | src/worker.rs:933-1108 | of what a run still does after a cancel marker appeared, besides syncing, closing and ejecting, there are at most four actions, at most one write or read among them and last, and an image check or an unmount only alone: so no unmount follows a target check that started after the marker |
| WorkerTheorems.ErrorKeptExactly | src/worker.rs:915-919 | a failed run returns the error that stopped it, reported as the last event, if and only if the sink did not refuse that report; a different error is the sink's for that report; the report carries the error's text and is a cancel exactly for a cancel |
| WorkerTheorems.RefusedReportHidesError | src/worker.rs:915-919 | every run of an acceptable job that meets a cancel marker that was there first and a sink that takes no failure report returns the sink's error, although it stopped for another one |
| WorkerTheorems.CompletedMeansImage | src/worker.rs:906-1122 | where digests do not collide, a success has exactly the expected image at the start of the device and a verified one has read exactly it back; the completed event carries its size and digest |
| WorkerTheorems.TraceShape | src/worker.rs:906-1122 | every trace is a prefix of ValidatingImage+ ValidatingTarget Unmounting ValidatingTarget Writing+ Verifying* Syncing Ejecting Completed; a stopped one is a proper prefix and one failure or cancel |
| WorkerTheorems.BytesRise | src/worker.rs:1275-1290 | byte counts rise strictly within each stage of a trace, towards one total, which staging and writing reach before the run goes on |
| WorkerTheorems.VerifiedWasReported | src/worker.rs:906-1122 | a run calls itself verified only after it reported that as many bytes were read back as it reports written |
| WorkerTheorems.TraceProgress | src/worker.rs:1275-1290 | the stage of a trace determines its phases up to how often the three byte-counting ones occur |
| PipelineOutcome.ConcludeRun | src/pipeline.rs:351-382 | a cancel wins over the runner's error, and that over the last terminal event |
| PipelineOutcome.PipelineAgreesWithWorker | src/pipeline.rs:351-389 | what the terminal events say: whatever part of them arrived they report a success only if the worker succeeded, with the same `verified`, and when all arrived they report it exactly then |
| PipelineOutcome.PipelineSafeThroughFile | src/pipeline.rs:351-389 | whatever went wrong while following the worker: what was delivered is a first part of its events, a reported success is the worker's with its `verified`, and a failed worker is a cancel or a runner error, never a failed-worker or missing-event error |
| PipelineOutcome.PipelineVerdictExactly | src/pipeline.rs:361-381 | followed without disturbance, the pipeline repeats the worker's verdict exactly if the run succeeded while its cancel flag is down, and exactly if the run stopped for a cancel while the flag is up; any other failed run becomes its exit status |
| PipelineOutcome.FailedRunLosesItsVerdict | src/main.rs:204-250 | a run that reports the text of its error (the image file changed after the first check) and of which the pipeline gives the exit status alone |
| PipelineOutcome.FollowWorker | src/pipeline.rs:351-382 | the pipeline's answer is the one the theorems speak of, over what the runner delivered and answered |
| PipelineOutcome.RunWorker | src/worker.rs:906-920 | whatever run the worker makes is one that the theorems about the pipeline speak of |
| PipelineOutcome.BuiltJobAccepted | src/pipeline.rs:392-415 | the job built for a disk that discovery offers is one the worker accepts exactly if the image is not empty and fits the disk |
| PipelineOutcome.DigestTextExactly | src/worker.rs:1355-1357 | the digests a job may announce are exactly the texts of 32 bytes, in either case |
| PipelineOutcome.PipelineDelivers | src/pipeline.rs:315-415 | end to end: a reported success has the prepared image on the medium; `verified` means it was wanted and exactly the image was read back from there in order after the barrier, otherwise it was not wanted or the skip file that the control was given was touched; and nothing but the end of the run started after the control's cancel file was |
| PipelineOutcome.PipelineReacts | src/pipeline.rs:325-415 | whatever becomes of the worker: it names no drive but the chosen one; at most four actions and one transfer start after the file that the control touches to cancel, and at most one read after the one it touches to skip; and it stops for a cancel only if the former was touched |
| PipelineOutcome.PrefixRuns | src/worker.rs:906-1122 | a proper part of a trace has no terminal event in it yet |
| SectorVerifier.Verifier.Read | src/worker/windows.rs:287-336 | a plain byte stream: delivers exactly the next bytes of the disk, all that were asked for and that the transfer brought past the position, at least one unless the request is empty, the disk ends or the device gave none; fails only when the device fails or splits a sector, so a misaligned request is unreachable |
| SectorVerifier.Verifier.Serve | src/worker/windows.rs:320-335 | one aligned transfer inside buffer and disk, of which exactly the wanted part past the position is handed on, as far as the transfer reached |
| SectorVerifier.Verifier.Seek | src/worker/windows.rs:338-353 | moves exactly to positions from zero to the capacity and rejects all others unchanged |
| SectorVerifier.ReadBack | src/flash.rs:254-283 | the readback loop over this reader collects exactly the first bytes of the disk, however the transfers were cut; it fails only if the device failed, gave nothing or split a sector |
| SectorVerifier.NewUnbufferedVerifier | src/worker/windows.rs:257-285 | constructed exactly for valid sector geometry, with transfers of logical sectors and room for a physical one, and then every later request fits |
| SectorVerifier.NewDirectVerifier | src/worker/linux.rs:360-378 | constructed exactly for a non-empty disk of whole 512-byte sectors, with transfers of those, and then every later request fits |
| SectorVerifier.RoundedUp | src/worker/windows.rs:304-307 | rounding up to a sector gives the next multiple and stays under any multiple that bounds the request |
| SectorVerifier.AlignedDown | src/worker/windows.rs:298-300 | rounding down gives a multiple less than one sector below |
| SectorGeometry.PowersDivide | src/worker/windows.rs:749-755 | of two powers of two the smaller divides the larger, which makes the buffer a whole number of sectors |
| SectorGeometry.GeometryExactly | src/worker/windows.rs:749-755 | the accepted sector sizes are the eight from 512 to 65536, the physical one not below the logical one, and the disk holds whole logical sectors |
| WindowsRun.ReplayWorker | src/worker/windows.rs:412-604 | over every log of calls a run of the worker can leave, with whatever answers the platform gives: no exclusive open meets a handle of this process, no device is named that the log does not name, every write and readback has its handle on the device pinned before the dismount, at most one writer is handed out, and a successful eject leaves no handle |
| WindowsRun.ReplayAction | src/worker/windows.rs:412-604 | one call of such a log keeps platform and target in step with it, names no device but the call's own, and departs from the log only where the platform's own answer does |
| WindowsRun.ReplayOnTarget | src/worker/windows.rs:147-245 | a write always has the writer and a readback the cache-bypassing reader of the pinned device |
| WindowsRun.CleanRun | src/worker/windows.rs:412-604 | the calls of a run all succeed, verified or not, if no operation fails and every answer is about the selected disk |
| WindowsHandles.WindowsPlatform.RollbackUnmount | src/worker/windows.rs:369-391 | never succeeds once a write may have started or when the disk is not again recorded as it was before the dismount, and a success restores exactly the default state; otherwise it fails only for a failing operation or another disk |
| WindowsHandles.WindowsPlatform.ReleaseEverything | src/worker/windows.rs:373-375 | no handle and no lock is left |
| WindowsHandles.WindowsPlatform.RecordIsStill | src/worker/windows.rs:380-385 | a success found the disk's latest record equal to the one pinned before the dismount |
| WindowsHandles.WindowsPlatform.PinnedIsSelected | src/worker/windows.rs:694-708 | what an unmount pins is exactly a card target of the selected name and capacity, seen through a handle on a device with the same number, size, sectors and bus and with an identifier |
| WindowsHandles.WindowsPlatform.Unmount | src/worker/windows.rs:412-487 | a success dismounted once, and took the record and dismounted the volumes while a shared handle on the pinned device was open; it leaves one exclusive handle that was opened with the volume locks held and identified as the pinned disk, which was vouched for before; a failure leaves the state it found or a dismounted disk without handles; it names no device but the selected one, and while nothing is unmounted yet it fails only for a failing operation or another disk |
| WindowsHandles.WindowsPlatform.DismountUnderPin | src/worker/windows.rs:445-461 | the pin is closed only after the volumes were dismounted; a failure leaves the default state and no handle |
| WindowsHandles.WindowsPlatform.TakePrepared | src/worker/windows.rs:494-508 | takes the prepared handle only once it was identified as the pinned disk again, and closes it otherwise |
| WindowsHandles.WindowsPlatform.OpenTarget | src/worker/windows.rs:489-520 | hands out the only writer of a successful unmount, identified as the pinned disk once more and pinned by a second handle on the same file object, with the volumes still locked |
| WindowsHandles.WindowsPlatform.SyncIdentified | src/worker/windows.rs:527-542 | the writer is flushed only after it was identified as the pinned disk once more |
| WindowsHandles.WindowsPlatform.PrepareVerification | src/worker/windows.rs:522-556 | data is synced and every write handle closed before the exclusive reader is opened; writer and reader were both identified as the pinned disk, whose geometry fits the aligned reader; a failure that closed the writer has given up the pin |
| WindowsHandles.WindowsPlatform.Eject | src/worker/windows.rs:558-603 | before a write it rolls back to the default state; after one a success found the pin and the volume locks in place, identified the disk through the pin, held it exclusively under the locks, identified and synced it, and keeps no handle; after a write it never succeeds without the pin, and with it fails only for a failing operation or another disk |
| WindowsHandles.WindowsPlatform.DropCheckedPin | src/worker/windows.rs:568-581 | gives up the pin only after reading the expected identity through it, and leaves every handle accounted for either way |
| WindowsHandles.WindowsPlatform.CleanUpAfterWrite | src/worker/windows.rs:567-602 | after a write a success found the pin and the volume locks in place, and with the locks still held opened the disk exclusively, identified and synced it; it leaves no handle and no lock; a failure still keeps every handle accounted for |
| WindowsHandles.WindowsPlatform.ProveExclusive | src/worker/windows.rs:589-594 | a success opened the disk exclusively, found it to be the expected one, synced it and closed it again, under whatever volume locks were held |
| WindowsHandles.WindowsTarget.BeginVerification | src/worker/windows.rs:154-175 | swaps the writer for an exclusive reader that was identified as the same disk, without ever holding both, and only for sector geometry the aligned reader accepts |
| CancelControl.NoInterleavingLosesARequest | src/pipeline.rs:170-272 | in every interleaving, a cancel or skip call that returned Ok has its marker in every registered run that still has its directory, and at most one run holds the guard |
| CancelControl.StoredCancelWins | src/pipeline.rs:361-364 | a cancel stored before a run's result is decided never lets that run succeed |
| CancelControl.SuccessExactly | src/pipeline.rs:360-390 | in every interleaving, a run whose runner returned success comes out as a success exactly if no cancel was stored by then, and stays what it came out as |
| CancelControl.FindingNothingIsOk | src/pipeline.rs:172-188 | in every interleaving, a call that found no run published returns Ok |
| CancelControl.CallAloneExactly | src/pipeline.rs:172-188 | an undisturbed call can return Ok exactly if nothing is published or the published directory is still there, and then its flag is up and its marker in place |
| CancelControl.UncancelledRunCanSucceed | src/pipeline.rs:199-272 | a run that starts while no other holds the guard and no cancel is stored can get to its runner, succeed, and leave the control as free as it found it |
| CancelControl.CallStepKeepsInv | src/pipeline.rs:172-188 | every step of a cancel or skip call keeps the invariant |
| CancelControl.RunStepKeepsInv | src/pipeline.rs:199-272 | every step of a run, refused, failing or succeeding, keeps the invariant |
| ProgressFraming.FramingRoundTrip | src/pipeline/linux.rs:461-523 | however the emitted stream is cut, drains and the finish deliver exactly the emitted events in order and once each |
| ProgressFraming.FramingSafety | src/pipeline/linux.rs:461-508 | while the worker is still writing, no drain fails and what was delivered is a prefix of what was emitted |
| ProgressFraming.SessionExact | src/pipeline/windows.rs:295-355 | for any stream at all: a session succeeds exactly when every chunk, line and partial line is acceptable, and then delivers the decoded lines of the whole stream |
| ProgressFraming.LimitsExactly | src/pipeline/linux.rs:461-508 | a record is delivered up to 65,536 bytes and a poll taken up to 1,048,576, complete or not, and one byte more is that limit's own error |
| ProgressFraming.BlankLineSkipped | src/pipeline/linux.rs:485-489 | a line of white space is no record, whatever the decoder makes of it |
| ProgressFraming.ProgressTail.Drain | src/pipeline/linux.rs:461-508 | one drain delivers the complete lines and keeps the rest, or stops at the first unacceptable line |
| ProgressFraming.ProgressTail.Finish | src/pipeline/linux.rs:510-522 | a drain after which nothing but white space may be left |
| ProgressFraming.MonitorRun | src/pipeline/linux.rs:71-140 | drains until the first error, finishes once after the exit if there was none, and answers with the file's first fault, then with the exit status; only if something else failed on the way (reading the file, the launch files, a marker, stopping or waiting) can it answer otherwise, and then it never answers Ok and has delivered what some first polls gave |
| ProgressFraming.PollOnce | src/pipeline/linux.rs:72-107 | one turn of the loop looks at the launched files only before the first event and error, drains only before the first error and keeps that error, so that what was handed on stays what some first polls gave |
| ProgressFraming.AfterExit | src/pipeline/linux.rs:120-137 | finishes the file once if there was no error yet and answers with the first error, then with the exit status |
| ProgressFraming.ReceivedIsPrefix | src/pipeline/linux.rs:71-140 | whatever went wrong, a runner hands on a first part of what the worker emitted, in order and once each |
| ProgressFraming.OkMeansAll | src/pipeline/linux.rs:124-136 | an Ok means that the worker exited with zero and everything it emitted was handed on |
| ProgressFraming.SplitAppend | src/pipeline/linux.rs:472-501 | cutting a stream into lines commutes with receiving it in pieces |
| ProgressFraming.EmittedPrefix | src/worker.rs:276-285 | any prefix of the emitted stream holds the records of some first events and then part of the next |
| CommandLine.QuotingRoundTripExactly | src/pipeline/windows.rs:248-280 | parsing the command line gives back exactly the arguments, under both readings of a doubled quote, if and only if no argument holds a NUL |
| CommandLine.QuotingRoundTrip | src/pipeline/windows.rs:248-280 | every NUL-free argument list survives, empty arguments, quotes and backslash runs included |
| CommandLine.ReadBody | src/pipeline/windows.rs:260-280 | reading an argument's quoted body gives the argument back and leaves its final backslashes pending |
| CommandLine.QuoteNativeArgument | src/pipeline/windows.rs:260-280 | the loop computes the quoted form that the round trip is proved of |
| CommandLine.NativeCommandLine | src/pipeline/windows.rs:248-257 | the loop joins the quoted forms with single spaces |
| DiskIdentity.ValidationExact | src/worker/windows.rs:667-747 | the worker accepts a snapshot for a selection exactly when it is a card target and the selection is the very name discovery would give it |
| DiskIdentity.OfferedDiskValidates | src/worker/windows.rs:396-410 | an offered disk that has not changed and whose number is unique passes the worker |
| DiskIdentity.AcceptedDiskWasOffered | src/worker/windows.rs:667-747 | if the digest does not collide on the two preimages, the accepted disk is safe and is the offered one |
| DiskIdentity.PreimageInjective | src/worker/windows.rs:53-88 | equal fingerprint preimages mean equal number, size, geometry, bus, path, identifiers and removable flag, and conversely |
| DiskIdentity.HashFields | src/drives.rs:433-457 | the digest loop hashes exactly that preimage, in discovery and worker alike |
| DiskIdentity.LittleEndianRoundTrip | src/drives.rs:453 | the length prefix stands for the length, lowest byte first |
| DiskIdentity.HexRoundTrip | src/drives.rs:456 | the fingerprint text stands for the digest, two digits a byte and the high half first |
| DiskIdentity.DecimalOnly | src/worker/windows.rs:125-128 | a disk number has one text, the one without leading zeros |
| DiskIdentity.ParseAgreesWithValidity | src/worker.rs:1334-1353 | the parser accepts exactly the drives the job check accepts |
| DiskIdentity.ParseAcceptsCanonical | src/worker/windows.rs:107-135 | every canonical name parses to its own number, device and fingerprint |
| DiskIdentity.ParseAcceptsOnlyCanonical | src/worker/windows.rs:107-135 | and nothing else parses |
| DiskIdentity.RemovableDrives | src/drives.rs:460-487 | lists the disks that are card targets once normalized, exactly those, under their stable names and in query order |
| DiskIdentity.SafeExactly | src/drives.rs:412-431 | the check of discovery and the worker's own both accept exactly: no boot, system, offline or read-only flag, a size of whole sectors of an accepted size, a path and an identifier, and an SD or MMC bus or USB with removable media |
| DiskIdentity.NoFixedDiskOffered | src/drives.rs:410-432 | no boot, system, offline, read-only or fixed disk is ever offered |
| DiskIdentity.NoFixedDiskAccepted | src/worker/windows.rs:723-747 | and none is ever accepted, whatever the selection says |
| DiskIdentity.QueryDiskExactly | src/worker/windows.rs:606-614 | a record is found exactly if one and only one has the number, and missing exactly if none has |
| DiskIdentity.OffersAreSafeDisks | src/drives.rs:460-487 | of records as the native query gives them, the offers name exactly the card targets |
| DiskIdentity.WindowsDisk.Normalize | src/drives.rs:402-408 | changes nothing in a record as the native query produces it |
| DiskIdentity.FramedInjective | src/drives.rs:441-455 | length-prefixed fields can be told apart |
| HolderGraph.ValidateRelatedDevices | src/worker/linux.rs:479-485 | accepts exactly when the graph is readable, everything reachable that is mounted is at or below `/media`, `/mnt` or `/run/media`, and every active swap source can be inspected and lies elsewhere |
| HolderGraph.CollectRelatedDeviceNumbers | src/worker/linux.rs:544-588 | ends on every finite graph, cyclic ones included, with exactly the reachable devices, and fails exactly when something it must read is unreadable |
| HolderGraph.RejectProtectedMounts | src/worker/linux.rs:590-600 | succeeds exactly when every mount of these devices is at or below `/media`, `/mnt` or `/run/media` |
| HolderGraph.ProtectedExactly | src/worker/linux.rs:675-684 | a mount is protected exactly if its first component is neither `media` nor `mnt` and its first two are not `run` and `media`; so the root and `/run` are, and a card's automatic mounts are not |
| HolderGraph.RejectRelatedSwap | src/worker/linux.rs:602-627 | succeeds exactly when every swap source can be inspected and lies on another device |
| HolderGraph.ClosedContainsPath | src/worker/linux.rs:544-588 | a set that contains the roots and is closed under holders contains every reachable device |
| Mountinfo.EscapeRoundTrip | src/worker/linux.rs:686-709 | decoding undoes escaping, for every choice of escaped bytes, exactly when no escaped byte is above 207 in a build with overflow checks |
| Mountinfo.KernelEscapeRoundTrip | src/worker/linux.rs:686-709 | the kernel's escapes of space, tab, newline and backslash are always undone |
| Mountinfo.OctalSumExact | src/worker/linux.rs:700 | every step of the octal sum stays in `u8` exactly up to 207; wrapping gives the value modulo 256 |
| Mountinfo.DecodeMountinfoField | src/worker/linux.rs:686-709 | the index loop computes the decoding that the round trip is proved of, errors included |
| Mountinfo.DecodeExactly | src/worker/linux.rs:686-709 | a field decodes exactly if it is a row of plain bytes and octal escapes; any other one fails for its first backslash that starts none: truncated, invalid, or above the range in a checked build |
| Mountinfo.WrittenDecodes | src/worker/linux.rs:686-709 | every such row decodes to what its pieces mean |
| Mountinfo.EscapesAboveRange | src/worker/linux.rs:700 | two concrete escapes above the range: one panics in a checked build, one wraps to zero |
| Download.DownloadFromReader | src/download.rs:199-272 | a success leaves exactly the streamed bytes, as announced and synced, under a destination that was free; a failure leaves every file as it was, unless the own partial file could not be removed; every error is true of the destination, of the bytes received or of an operation that failed, so nothing else stops a download |
| Download.ReceiveAndPublish | src/download.rs:215-272 | the own partial file is gone on every exit, moved or removed |
| Download.Receive | src/download.rs:216-264 | only the partial file changes, it holds the bytes received, the reported counts rise strictly, and once the cancel flag is up at most one read or write still starts |
| Download.PartialDownload.Publish | src/download.rs:308-316 | the partial file is synced and then moved to a free destination, or removed |
| Download.PartialDownload.Drop | src/download.rs:319-333 | an unpublished partial file is removed and a published one left alone |
| Download.CreatePartial | src/download.rs:289-302 | never takes over a partial file that is already there |
| Download.PrepareGzip | src/flash.rs:64-122 | a raw file remains exactly on success and is then the announced image; a failure leaves none, not even one that was there before; nothing else changes; it fails only for wrong bytes, a failed operation or a cancel |
| Download.Decompress | src/flash.rs:75-116 | each size or digest verdict is true of the decompressed bytes; once the cancel flag is up at most two more reads or writes start |

## Left out

- src/app.rs: screens, labels, licence grouping and progress text.
- FFI, UDisks2 calls, descriptor passing and code signing: their results are arbitrary answers of the world or the kernel.
- HTTP, redirects, TLS, URL parsing and the catalog: what a body delivers is arbitrary bytes.
- Session file ownership, mode and inode checks, argument gates and process spawning: each is one failing or succeeding step.
- SHA-256, gzip, JSON, UTF-8 and `str::trim`: arbitrary functions, with the hypotheses stated at the lemmas.
- The macOS copies of the tail reader and the macOS worker's retry loop: they add no behaviour of their own.
- Text splitting of the mount table and of the swap list: the graph check starts from their parsed entries.
- verify_open_file_sha256 and flash_gzip in src/flash.rs: the worker's run does not call them.
- The rest of `run_pipeline`: creating the session directory and the files in it, launching the runner, and mapping preparation errors.
- WorkerRun.RunAndReport: a run is taken not to be killed, the marker files are never removed while a worker runs, and an emit that fails is taken to have written no event.
- WorkerRun.RunJob: a run is taken not to be killed. The Linux and macOS runners stop a worker that has emitted no event yet (a cancel, changed launch files or a broken file before the first event); such a run ends wherever it was, and what is said of the end of a run does not apply to it.
- ProgressFraming.MonitorRun: its exit status is a parameter; that it is zero exactly when the run returned a report is `PipelineOutcome.ExitOf`, from the result type of the program's entry point.
- CancelControl.NoInterleavingLosesARequest: atomic steps interleave in one order seen by all threads; weaker memory orders are not modelled.
- WindowsRun.ReplayWorker: what a write or readback transfers belongs to the worker's `World`; a handle stays on its device while open; the size, geometry and bus a query reports may change.
- Download.DownloadFromReader: no other process changes the private directory during the download, so the gap between the last check and the rename is not exercised.
