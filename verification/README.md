# koffr, modelled and proved

koffr is a database backup agent. Its promise is that nothing is called a backup until it was
written whole, the dump behind it exited zero, and it was checked. This project models the code
that keeps that promise and proves what it comes to: over every run, every failure of a port,
every moment a process may be killed, and every interleaving with other processes.

Verify it with `dafny verify dfyconfig.toml`. A file is a module:

| file | what it models |
|---|---|
| `service.dfy` (`Jobs`) | the seven-step job: `Service.Run` and all it calls, over a `World` of ports that may fail |
| `protocol.dfy` (`Protocol`) | the effects of one job as a trace, which traces are legal, what all of them keep |
| `history.dfy` (`History`) | any number of jobs, interleaved and killed anywhere, on shared destinations |
| `streaming.dfy` (`Streaming`) | stream mode: a packing goroutine, a synchronous pipe, a store, two channels |
| `pipeline.dfy`, `dump.dfy`, `structure.dfy` | one pass of compression and encryption; the dump stream; the bounded observers |
| `staging.dfy` (`Staging`) | stage, stream or refuse, in 64-bit arithmetic |
| `lock.dfy`, `locksteps.dfy` | locks between processes, call by call and then system call by system call |
| `stagingfile.dfy` (`StagingFiles`) | buffers named after their process, and the purge of those it left |
| `filesystem.dfy` (`Filesystems`) | publication by rename, with a crash between any two system calls, over directories nobody flushes |
| `migrate.dfy` (`Migrations`) | the schema ledger, with any number of processes opening it |
| `catalog.dfy`, `lister.dfy` | the index and its query; the listing that merges it with the destinations |
| `roots.dfy` (`Roots`) | where a path leads under a root, and which databases find their archives there |
| `paths.dfy`, `manifest.dfy` | printers and parsers of archive names, timestamps and manifests |
| `resolve.dfy` (`Resolve`) | the choice of a tool and the reading of versions |
| `clock.dfy`, `text.dfy`, `ordering.dfy` | civil dates, decimal text, sorting |

The trace of a job is ghost: each port method of `Jobs.World` writes what it did on it, and can
only be called when `Protocol.Allowed` permits it. `Jobs.Service.Run` therefore makes legal traces
only, and every theorem of `Protocol` and `History` is about all legal traces and all their
prefixes, a prefix being what a killed job leaves. Ports choose their results freely (`:= *`), except
that each class of the outside world has a `healthy` constant: where it holds, no call to that world
fails. Contracts say what holds always, and what a healthy world adds to that: an operation that fails
there has a reason of its own, which the contract names.
An archive is `Seal(codec, raw)` for an uninterpreted streaming compressor, encryptor and hash;
nothing assumes the hash to be injective.

## What the code does that its comments or documentation do not say

- `EstimateStored` is described as a quarter of the database (`N-12`); the code divides by 8. The
  model divides by 8.
- The verdict on a MySQL dump is meant to be about its end; the code accepts the marker anywhere in
  the last 4096 bytes. `Structure.TheVerdictIsOfTheEndIff` says for any stream when the verdict is that
  of its last line, and `Structure.ACutRowPasses` gives dumps, cut inside a row that quotes the marker,
  that it takes for finished.
- `needed` multiplies in int64. Above `MaxInt64 / 3` the product wraps, and a disk with nothing
  free "has room": `Staging.TheMarginOverflowsExactlyThere`, `Staging.AnEmptyDiskHasRoom`;
  `Staging.RoomIsJudgedRightIff` is the exact range of free space that is misjudged.
- Locks are exclusive when each call of `Acquire` and `Release` is one step. Between system calls
  they are not, and neither an atomic creation nor forbidding exits during an `Acquire` is enough:
  two processes that take over one abandoned lock together break it. `LockSteps` proves that three
  conditions suffice, and gives a run against each one that is dropped.
- The migration guard compares a version with a count. A binary accepts the state it made itself
  if and only if its migrations are numbered without a gap; with 1 and 3 it does not
  (`Migrations.AGapIsTakenForANewerBinary`).
- `identify` cuts a file name at the first dot, while `safeSegment` keeps dots. The round trip of
  an archive name fails exactly for a dot in the database, or a dot or an underscore in the id.
- A manifest gives back the start of its backup exactly, to the second, if and only if the zone it
  was written in is offset by whole minutes. A backup that never finished comes back as one that
  finished when it started.
- `Wrote` is documented as saying whether an archive landed. `Jobs.Service.Run` says for every way to
  stop what lies on the destinations, and that `Wrote` is right about it exactly unless the run was
  refused midway, or a stream was published before its dump died or its store reported an error.
  `Jobs.AnArchiveMayBeOnSomeDestinations` and `Jobs.AnArchiveOfADeadDumpMayBePublished` are such runs.
- Not every failed run says so in the journal. `Jobs.Service.Run` proves that the last line is a
  failure exactly unless the run stopped at a refused lock, a failed purge, a watcher that could not
  be made, a buffer that could not be opened, a failed rewind, or a stream to no destination;
  `Jobs.ABufferMayFailSilently` is such a run.
- With a limit and a destination, the catalogue cuts before it looks at the destination.
  `CatalogIndex.TheLatestMayBeElsewhere` is a catalogue where it then lists nothing of what is there.
  `CatalogIndex.LimitedDestinationsAreExact` says for any limit when its answer is still the first
  part of the whole one, and `Listing.LimitedListingsAreExact` says it for the merged listing.
- `List` looks under the identifier of a database as the operator wrote it, while its archives lie
  under the cleaned one. `Roots.ArchivesAreFoundIff` is the exact condition for any identifier, with
  slashes and dots; for one that is a single name it is that cleaning changes nothing
  (`Roots.NamesAreFoundIffSegments`), so the archives of `my db` are not found
  (`Roots.MyDatabaseIsNotFound`) and a listing of it shows them as absent (`Listing.PresentIffReached`).
- A write that succeeded may still be lost: nothing flushes the directory the rename changed, which
  `Filesystems.Filesystem.Write` states of every new file. `Filesystems.WhatSurvivesACrash` says
  exactly when a file cannot be lost.
- For the same reason a manifest may survive a loss of power without its archive
  (`Filesystems.AMarkerMayOutliveItsArchive`); `Filesystems.MarkersSurviveIff` says exactly when not.

## Model

| member | source | states |
|---|---|---|
| Jobs.Service.Run | internal/domain/backup/service.go:333-427 | At every return, whatever port failed: the lock is released, the dump closed, the buffer gone, the effects form a legal trace, and which steps are done, what every line of the journal is and what lies on the destinations follow from where the run stopped. The last line is a failure if and only if the failure is not one of six silent ones; steps done and good lines differ only for a dump that died and a watcher that could not be made. With no error, all steps are done and told (the manifest only if one is wired), the verdict is sound, and each destination holds the archive of all bytes read from a process that exited zero, with the reported sizes and hashes, and the manifest beside it. `Wrote` holds if and only if the write was told and the archive is not empty; for such archives it says whether anything landed if and only if the failure is not one that leaves something. Where no port fails a run fails only for a reason that is named: no room where staging is imposed, no destination, no recipient, no verifier, a process that exited non-zero, a verification that refutes; and a stream to no destination never is one to several |
| Jobs.AboutLeft | internal/domain/backup/service.go:620-722 | What a run that stopped before the line of the write leaves: whole archives of this job on its own destinations, and any at all only after a refusal midway, a failed rewind, or a stream published before its dump died or its store failed; always some when a destination other than the first refused |
| Jobs.AnArchiveOfADeadDumpMayBePublished | internal/domain/backup/service.go:677-712 | One destination, streamed to: a legal, finished job whose process died leaves the whole archive there, and no good line of the write |
| Jobs.ABufferMayFailSilently | internal/domain/backup/service.go:620-627 | A legal, finished job stopped by its buffer, whose journal ends with a good line |
| Jobs.FailuresAreTold | internal/domain/backup/service.go:346-427 | For each way to stop: whether the journal tells it, and that the done steps number the good lines, one fewer for a dump that died, one more without a watcher |
| Jobs.WritesAreTold | internal/domain/backup/service.go:393-412 | A failed run told the write if and only if it stopped at the verification or later |
| Jobs.AnArchiveMayBeOnSomeDestinations | internal/domain/backup/service.go:248-256 | Two destinations, the second refuses: a legal, finished job with the archive whole on the first, no good line of the write, and so a `Wrote` that is false |
| Jobs.Service.RunLocked | internal/domain/backup/service.go:346-386 | Between lock and release: every end is one of those the failures define, with no dump open and no buffer left |
| Jobs.Service.RunResolved | internal/domain/backup/service.go:380-399 | From a resolved tool to success or to one of the defined ends, with nothing claimed as written unless it is everywhere |
| Jobs.Service.Check | internal/domain/backup/service.go:396-427 | What is written becomes a backup only through verification and deposit; whatever fails, the archive stays where it landed |
| Jobs.Service.Plan | internal/domain/backup/service.go:302-330 | A dry run changes nothing in the world, names the path a run would use, never answers `auto`, never says it wrote, and has done as many steps as its failure says |
| Jobs.Service.DumpAndWrite | internal/domain/backup/service.go:574-606 | Success in either mode ends in the same state of the world: dump closed with status zero, whole archive on every destination, four journal lines; failure leaves no dump open and no buffer |
| Jobs.Service.Stage | internal/domain/backup/service.go:620-667 | However staging ends, its buffer is gone and the dump closed |
| Jobs.Service.StageInBuffer | internal/domain/backup/service.go:632-667 | The dump is closed before a destination is spoken to; a dump that died is never sent |
| Jobs.Service.SendStaged | internal/domain/backup/service.go:653-662 | Every destination gets the same sealed bytes, in order, until one refuses |
| Jobs.Service.Stream | internal/domain/backup/service.go:670-722 | Only for one destination; success means the store published all that was emitted and the process exited zero |
| Jobs.Service.DumpDied | internal/domain/backup/service.go:725-734 | An exit status takes the dump step back and adds its failed line; nothing else of the job changes |
| Jobs.Service.VerifyArchive | internal/domain/backup/service.go:437-487 | Success needs a watcher, its verdict on exactly the bytes dumped, and bytes re-read from the first destination, at the path of the archive and after it lay everywhere, that hash to the stored checksum; any failure leaves five steps done and the failed line of the verification |
| Jobs.Service.Examine | internal/domain/backup/service.go:452-470 | The verdict is that of the watcher on exactly the bytes dumped, and of what the first destination returns for the path of the archive |
| Jobs.Service.CompareChecksum | internal/domain/backup/service.go:458-470 | Reads back the path of the archive from the first destination if there is one, and compares its hash with the one announced |
| Jobs.Service.DepositManifest | internal/domain/backup/service.go:511-538 | A manifest is deposited last, describes this job's bytes, claims both checks, and its step is done only when every destination has it |
| Jobs.Service.RenderedDescribes | internal/cli/backup.go:447-515 | A manifest rendered from a sound result claims both checks and carries the sizes and hashes of the bytes read and stored |
| Jobs.Service.Render | internal/cli/backup.go:447-486 | A manifest dates its backup by the start of the request, gives its duration to the millisecond and its verification by its end, and names the engine declared, the server, the tool, the format, the pipeline, the mode and the recipients of the run |
| Jobs.Service.DecideStaging | internal/domain/backup/service.go:542-571 | For any expected size that is the last archive's or an eighth of the database: refused if and only if there is no room for it and half as much again and the dump is a directory, the destinations are several or a verification without egress is wanted; staged if and only if there is room and one of these holds or streaming was not asked for; streamed only if none of them holds; never `auto` |
| Jobs.Service.SuccessIsHeld | internal/domain/backup/service.go:393-427 | After a success, what each destination really holds at the two paths is the sealed archive and the manifest |
| Jobs.Result.Mark | internal/domain/backup/service.go:783-792 | Exactly the wanted steps become done, in place; the others keep what they were |
| Jobs.Result.Unmark | internal/domain/backup/service.go:797-803 | Exactly the one step is taken back, in place |
| Jobs.World.SendPacking | internal/domain/backup/service.go:677-701 | The port as the streaming protocol delivers it: published whole on success, nothing if the packing failed, and whatever lands is the whole |
| Jobs.LegalStoresFollow | internal/domain/backup/service.go:653-699 | After any legal trace, or any prefix of one, the destinations hold what the job landed, at its two paths |
| Protocol.KilledAnywhere | internal/domain/backup/service.go:333-427 | A job killed at any moment has done something a job may do |
| Protocol.LegalTracesKeepInv | internal/domain/backup/service.go:574-722 | In every legal trace what is archived is the sealed output, and a verdict is about all of a dump that was read to its end |
| Protocol.CommitmentIsStable | internal/domain/backup/service.go:511-538 | What a manifest means is never undone by what its job does next |
| Protocol.JournalsReadAsTheSteps | internal/domain/backup/service.go:574-734 | In every legal trace the journal's good lines are a prefix of the steps; at most one line failed, it is the last, and names the next step or, once the process turned out to have died, the dump taken back |
| Protocol.GoodLinesAreTrue | internal/domain/backup/service.go:346-538 | In every legal trace a good line is true: compression and encryption mean packed from a process that exited zero; the write, archived on every destination; the verification, a sound verdict on that output and a re-read of the first destination with the hash of what was sealed; the manifest, deposited everywhere |
| Protocol.StartedDumpsAreClosedOnce | internal/domain/backup/service.go:620-708 | In a job that is over, a started dump was closed exactly once |
| Protocol.StagedArchivesAreSentLast | internal/domain/backup/service.go:633-662 | In stage mode every write of a store comes after the close of a dump that did not die |
| Protocol.SuccessIsLegal | internal/domain/backup/service.go:333-427 | The rules of a trace leave room for success: any dump can be a legal job that ends with all seven lines and a deposited manifest |
| History.AManifestIsACommitMarker | internal/domain/backup/service.go:393-427 | In every state any set of jobs may leave, sequential or concurrent, each killed anywhere: a manifest on a destination stands for a whole archive beside it and on all other destinations of its job, of the whole output of a process that exited zero, found sound, and re-read from the first destination at its path, once it lay on all, under the hash the manifest gives |
| History.ManifestsDoAppear | internal/domain/backup/service.go:511-538 | And such manifests exist: for any dump of any job there is a history that holds one |
| History.BackupsAreKept | internal/domain/backup/service.go:511-538 | What a job deposited stays at its path, whatever other jobs do |
| History.WhatIsStoredStays | internal/domain/backup/service.go:653-699 | No job overwrites an archive or manifest of another |
| History.JobsKeepApart | internal/domain/backup/path.go:28-50 | Neither path of a job is ever a path of another |
| History.RunsMakeHistories | internal/domain/backup/service.go:333-427 | Runs stopped at arbitrary points, interleaved arbitrarily, are histories |
| Streaming.StreamingEnds | internal/domain/backup/service.go:677-699 | No schedule outlasts a measure of the script, and until both results are received someone can move without the store failing: both channel receives complete |
| Streaming.StreamingDelivers | internal/domain/backup/service.go:677-699 | For every dump, failure and interleaving: a store that succeeds published and `Pack` succeeded; a failed `Pack` publishes nothing; whatever is published is exactly the bytes `Pack` emitted; and a store that never fails after publishing published if and only if it succeeded |
| Streaming.SuccessIsReachable | internal/domain/backup/service.go:677-699 | Every script has a schedule that publishes all of it: the safety is not that of a machine that never succeeds |
| Pipelines.Run | internal/pipeline/pipeline.go:52-97 | A result is reported only if the dump was read to its end and the sink holds its compressed, encrypted whole; it gives their sizes and hashes; the watcher saw every byte read; with no recipient nothing is read or written; with one, and nothing broken at either end, there is a result |
| Pipelines.Copy | internal/pipeline/pipeline.go:66-77 | Success means end of file, and compressor, raw checksum and watcher have all taken what the dump delivered |
| Pipelines.Counter.Write | internal/pipeline/pipeline.go:118-122 | Count and digest are of everything written so far |
| Dumps.DumpStream.Close | internal/engine/dump.go:318-342 | The exit status is an error exactly when the stream was read to its end, on the first close only |
| Dumps.DumpStream.Read | internal/engine/dump.go:306-313 | A stream is drained exactly once an end of file was seen |
| Dumps.Tail.Write | internal/engine/dump.go:355-376 | After any writes it holds exactly the end, or the head, of their concatenation within the bound, and takes every byte |
| Dumps.LastOfLast | internal/engine/dump.go:355-376 | Cutting to a bound before appending loses nothing of the bounded end |
| Dumps.FirstOfFirst | internal/engine/dump.go:355-376 | The head mode fills only the room that is left, and still holds the bounded head of the concatenation |
| Structure.EndMarkerWatcher.Conclude | internal/engine/structure.go:78-91 | Sound if and only if the last 4096 bytes of the whole stream quote the marker; empty if and only if nothing was written |
| Structure.EndMarkerWatcher.Write | internal/engine/structure.go:65-74 | The window is the end of everything written, and no write is refused |
| Structure.EndMarkerWatcher.Kept | internal/engine/structure.go:76 | What is held is bounded, whatever was written |
| Structure.WindowHoldsTheEnd | internal/engine/structure.go:65-74 | Sliding a window write by write leaves the end of the concatenation |
| Structure.ChunksDoNotMatter | internal/engine/structure.go:65-91 | Two ways of cutting one stream leave the same window |
| Structure.AQuotedMarkerPasses | internal/engine/structure.go:34-91 | A stream cut after a quoted marker is taken for complete, as long as fewer bytes than the window follow |
| Structure.AWindowSpeaksOfItsLastLineIff | internal/engine/structure.go:78-101 | For any window, with newlines or without: it holds the marker just if its last line begins with it, if and only if that is so or no line of the window holds one |
| Structure.TheVerdictIsOfTheEndIff | internal/engine/structure.go:34-101 | For any stream, the verdict is whether its own last line begins with the marker, if and only if that line fits the window and begins with it or neither it nor an earlier line of the window holds one, or it does not fit and its rest holds the marker just if its beginning is it |
| Structure.ACutRowPasses | internal/engine/structure.go:78-91 | Every dump cut inside a row that quotes the marker within the window is found sound and is not finished |
| Structure.DumpsFinishWithTheMarker | internal/engine/structure.go:34-36 | A dump whose last line begins with the marker is finished, whatever comes before it and however the line goes on |
| Text.TrimmingKeepsTheCore | internal/engine/structure.go:97-101 | Trimming takes the white space around a text away and nothing else |
| Staging.StagingIsDecided | internal/domain/backup/staging.go:87-127 | Below the overflow: refused if and only if staging is imposed without room; staged if and only if there is room and it is imposed or streaming was not asked for; forced if and only if imposed; never `auto` |
| Staging.ReasonsAreTrue | internal/domain/backup/staging.go:87-141 | The cause of an imposed staging or a refusal is the first that applies, and the free and needed bytes of a reason are those that decided |
| Staging.StreamsHaveOneDestination | internal/domain/backup/staging.go:87-141 | A stream has at most one destination, so the count check of `stream` can only find none |
| Staging.MoreRoomNeverHurts | internal/domain/backup/staging.go:87-127 | Monotone in free space: a decision stays one, a staged run stays staged |
| Staging.TheMarginOverflowsExactlyThere | internal/domain/backup/staging.go:146-148 | The margin is one and a half times the size if and only if the size is at most a third of the largest int64 |
| Staging.AnEmptyDiskHasRoom | internal/domain/backup/staging.go:146-148 | One byte above that bound, an imposed staging is accepted with no byte free |
| Staging.RoomIsJudgedRightIff | internal/domain/backup/staging.go:87-148 | For all 64-bit sizes: room is judged right if and only if the product does not wrap, or there is room, or so little is free that even the wrapped product exceeds it |
| Staging.EstimatesAreMeasurable | internal/domain/backup/staging.go:158-168 | An estimate is the last archive if there was one, else an eighth of the database, rounded down, and never overflows the margin |
| Locks.StateDirectory.Acquire | internal/domain/backup/lock.go:66-94 | In at most two attempts: where the file system does not fail, takes the lock if and only if there is no file, or an unreadable one, or one whose process is not running; refuses only for a holder that is running; never changes a held one |
| Locks.StateDirectory.ClearIfAbandoned | internal/domain/backup/lock.go:99-129 | Removes a lock only if its holder is gone or unreadable, and names the holder it refuses for |
| Locks.Lock.Release | internal/domain/backup/lock.go:154-166 | Removes this lock's file and nothing else; a second release does nothing |
| Locks.AtMostOneHolder | internal/domain/backup/lock.go:44-166 | In every run from any disk, with processes starting, dying anywhere and pids used again: at most one live process holds a lock |
| Locks.NobodyTouchesAHeldLock | internal/domain/backup/lock.go:99-129 | No step of another process removes or replaces the file of a live holder |
| Locks.OnlyTheRunningRefuse | internal/domain/backup/lock.go:99-145 | No attempt is refused over a file that is missing, cut in half, or of a process that is gone |
| Locks.TheDeadDoNotBlock | internal/domain/backup/lock.go:99-145 | Once a holder has died no attempt at its lock is refused |
| Locks.TheRunningBlock | internal/domain/backup/lock.go:99-117 | And while the process its file names runs none succeeds, or changes a file |
| Locks.DatabasesHaveTheirOwnLocks | internal/domain/backup/lock.go:44-50 | Two databases share a lock if and only if their cleaned names are equal |
| LockSteps.OnlyForeignRemovalsBreak | internal/domain/backup/lock.go:66-129 | Between system calls, any of which may fail, exclusion can only be lost by a takeover or a withdrawal that removes the lock of a live owner |
| LockSteps.ForeignRemovalsBreak | internal/domain/backup/lock.go:66-129 | And two calls of the process that did it are always enough to lose it |
| LockSteps.RunsWithoutForeignRemovals | internal/domain/backup/lock.go:66-166 | Every run without such a removal is exclusive throughout |
| LockSteps.OrderlyRunsAreExclusive | internal/domain/backup/lock.go:66-166 | With creation and writing in one step, no exit inside another's `Acquire`, and abandoned locks taken over one process at a time, every run is exclusive between any two system calls |
| LockSteps.WritingApartBreaksIt | internal/domain/backup/lock.go:66-77 | Without the first condition a run, even one where no call fails, ends with two holders |
| LockSteps.ExitingInsideBreaksIt | internal/domain/backup/lock.go:99-129 | Without the second condition a run ends with two holders |
| LockSteps.TakingOverTogetherBreaksIt | internal/domain/backup/lock.go:99-129 | Without the third condition a run ends with two holders |
| StagingFiles.BuffersNameTheirOwner | internal/domain/backup/staging_file.go:29-56 | For every job string, a buffer's name reads back to its pid if and only if the pid is that of a process |
| StagingFiles.OwnersAreRead | internal/domain/backup/staging_file.go:35-56 | Of all names, exactly those with the frame and a number above zero between it and a dash have an owner, that number |
| StagingFiles.StagingDirectory.PurgeStaging | internal/domain/backup/staging_file.go:61-85 | Success removes exactly the buffers of processes that are gone; a failure has removed only such buffers |
| StagingFiles.PurgesSpareTheRunning | internal/domain/backup/staging_file.go:61-85 | A buffer survives a purge if and only if its process runs |
| StagingFiles.PurgesSpareStrangers | internal/domain/backup/staging_file.go:35-56 | A file koffr did not name is never removed |
| Filesystems.Filesystem.Write | internal/store/filesystem.go:31-68 | At every moment the target is its old contents or the whole new stream, flushed, and old while the stream has not ended; nothing else changes; only directories on the way to the target are made; success publishes all of it, though some crash can still undo a new name; failure leaves the files as they were but for a temporary one whose removal was refused |
| Filesystems.CrashesLeaveWholeArchives | internal/store/filesystem.go:49-65 | A loss of power at any moment of a write, which may also undo any change of a name since it began, leaves every path as it was or, at the target, whole |
| Filesystems.WhatSurvivesACrash | internal/store/filesystem.go:54-65 | A file survives every crash if and only if it lay there, whole and flushed, at every moment a crash may go back to: the rename alone does not make a success durable |
| Filesystems.MarkersSurviveIff | internal/store/filesystem.go:54-65 | After any loss of power a marker is found only with its whole archive, if and only if no moment a crash may go back to has the marker or all of them have the archive, whole and flushed |
| Filesystems.AMarkerMayOutliveItsArchive | internal/store/filesystem.go:54-65 | Two flushed files published one after the other, of which a crash leaves the second alone |
| Filesystems.APublicationMayBeLost | internal/store/filesystem.go:54-65 | What was not at a path at some moment a crash may go back to may be gone again |
| Filesystems.UnflushedArchivesAreCut | internal/store/filesystem.go:54-60 | Without the flush a published file may be cut at any byte |
| Filesystems.Filesystem.List | internal/store/filesystem.go:82-125 | Lists each file at or below what the prefix leads to that does not end in `.partial`, once, with its size and time, ascending by path, and no other |
| Filesystems.ListingsAreChronological | internal/store/filesystem.go:80-122 | In a listing, the archives of one database stand in the order of the seconds they were started in |
| Filesystems.ArchivesAreNotPartial | internal/store/filesystem.go:93-95 | No archive a pipeline names, and no manifest beside one, is ever passed over as temporary |
| Filesystems.PartialsEndSo | internal/store/filesystem.go:93-95 | Temporary are exactly the names that end in `.partial` |
| Filesystems.DirectoriesComeBeforeSlashes | internal/store/filesystem.go:34-36 | The directories made for a file are what comes before the slashes of its path |
| Filesystems.ListingsAgree | internal/store/filesystem.go:80-125 | Two listings of one disk are equal, however it was walked |
| Filesystems.ListingsShowWholeArchives | internal/store/filesystem.go:31-125 | A listing after a crash inside a write shows only whole files |
| Filesystems.Filesystem.Delete | internal/store/filesystem.go:129-136 | Removes one path; deleting what is gone changes nothing |
| Migrations.Database.Migrate | internal/state/migrate.go:57-89 | Every committed state is one more migration, in order, with its ledger row; success has them all; a ledger ahead is refused untouched; where the database does not fail nothing else happens |
| Migrations.Database.Apply | internal/state/migrate.go:91-114 | A migration and its row are committed together or not at all |
| Migrations.MigrationsAreAPrefix | internal/state/migrate.go:57-114 | With any number of processes and binaries opening, failing and dying at any step, the migrations applied are the first ones, each once, and none is undone |
| Migrations.OpensAreComplete | internal/state/migrate.go:57-89 | An open that got through has its whole list applied; a binary behind the ledger never starts |
| Migrations.OwnStateIsAcceptedIffNumbered | internal/state/migrate.go:49-80 | A binary accepts the state it made if and only if its versions are 1, 2, 3 and so on |
| Migrations.AGapIsTakenForANewerBinary | internal/state/migrate.go:49-80 | Two migrations numbered 1 and 3: their own binary refuses the state they made |
| Listing.Lister.List | internal/domain/catalog/lister.go:82-126 | The loops over map and order compute the merge of the catalogue's answer with the archives of the chosen destinations; an unknown destination is an error and the only cause of that error |
| Listing.Lister.Chosen | internal/domain/catalog/lister.go:130-148 | All destinations, or the one asked for, or a refusal exactly when nobody declared it |
| Listing.Lister.Merge | internal/domain/catalog/lister.go:93-123 | One line for each identifier, the catalogue's own where it has one, present exactly if found |
| Listing.Lister.Sorted | internal/domain/catalog/lister.go:190-215 | Filter, stable sort and limit of those lines, each in its place in the definition of a merge |
| Listing.MergeIsExact | internal/domain/catalog/lister.go:82-215 | Where manifests agree with names and without a limit: strictly most recent first, and exactly one line for each identifier indexed or found, of the database asked for |
| Listing.ListingIsTheUnion | internal/domain/catalog/lister.go:70-126 | From the tables and the directories themselves: all that is recorded or held is listed once; catalogued if and only if recorded, present if and only if held; with a database asked for, only its lines, among them every file whose manifest, or else whose name, says it is of it |
| Listing.FlagsAreTrue | internal/domain/catalog/lister.go:55-68 | The flags of a line say what they mean, and a line without a catalogue entry is never verified |
| Listing.StrangersAreDescribed | internal/domain/catalog/lister.go:154-186 | The line of a file without an entry is where it was found, says what its manifest or else its name says, and never that it was checked |
| Listing.TheOrderOfADestinationIsNotSeen | internal/domain/catalog/lister.go:101-123 | With one file for each identifier, any permutation of a destination's listing gives the same result |
| Listing.PushdownIsExact | internal/domain/catalog/lister.go:88-122 | Asking the catalogue for no more than the limit keeps the listing if and only if no archive it was not asked for says it came before the last line |
| Listing.LimitedListingsAreFirstParts | internal/domain/catalog/lister.go:82-215 | Without a destination, and where times agree, a listing limited to k is the first k of the whole one: lines, order and flags |
| Listing.LimitedListingsAreExact | internal/domain/catalog/lister.go:82-215 | For any filter: a listing limited to k is the first k of the whole one if and only if nothing the catalogue left out is among those k, and no archive of such an entry says it came before the last of them |
| Listing.PresentIffReached | internal/domain/catalog/lister.go:101-225 | In a listing of one database from a local disk, its archive is shown as present if and only if the identifier, read as a path, leads to the directory of its cleaned form or above it |
| Roots.ArchivesAreFoundIff | internal/store/filesystem.go:84-169 | The archives of a database lie under the prefix they are looked for with if and only if that prefix, with its slashes and dots resolved under any root, leads to the directory of the cleaned identifier or above it |
| Roots.NamesAreFoundIffSegments | internal/domain/backup/path.go:41-50 | For an identifier that is one name: if and only if cleaning leaves it as it is |
| Roots.PrefixesBeginPathsIffSegments | internal/domain/catalog/lister.go:217-225 | The same for the text of prefix and path, for identifiers without a slash |
| Roots.MyDatabaseIsNotFound | internal/domain/catalog/lister.go:217-225 | Under every root, the archives of a database called `my db` are not where its listing looks |
| Roots.DotsLeadBack | internal/store/filesystem.go:163-166 | Empty parts and single dots of a path lead nowhere, two dots lead back |
| Roots.ArchivesAreBelow | internal/domain/backup/path.go:28-36 | An archive lies under its cleaned database, four digits of its year and two of its month, by its own name |
| Roots.NoDatabaseIsEveryDatabase | internal/domain/catalog/lister.go:217-225 | With no database named, every archive lies under the prefix, under any root |
| Listing.OwnArchivesAgree | internal/domain/catalog/lister.go:154-186 | What a job writes meets those conditions: by name or by manifest, its archive gives the id, database and start its row has |
| CatalogIndex.Catalog.Backups | internal/state/catalog.go:185-246 | The answer is the specified query on the tables, or an error of the database |
| CatalogIndex.Catalog.WithLocations | internal/state/catalog.go:248-310 | Compacting a listing into the slice it is read from gives what a fresh copy would have |
| CatalogIndex.Catalog.RecordBackup | internal/state/catalog.go:68-158 | An archive, its job and all its copies, or nothing; where the database does not fail, accepted if and only if the identifier is new, the database known, no destination named twice, no size negative and every time one the schema can hold; every reference stays resolved |
| CatalogIndex.JobsAreUpdated | internal/state/catalog.go:85-112 | A job recorded again keeps its database, start and creation; it failed if and only if its archive did; its duration is there if and only if it finished no earlier than it started |
| CatalogIndex.Catalog.SetVerification | internal/state/catalog.go:160-182 | Writes the outcome, its time and the time of update in that row, and changes nothing else; where the database does not fail, an error if and only if the identifier is unknown or the schema refuses the outcome or its time |
| CatalogIndex.VerificationsAreListed | internal/state/catalog.go:160-246 | From then on an unlimited query lists that archive with the outcome and its time to the second, and everything else, in the same order, as before |
| CatalogIndex.QueriesListEverything | internal/state/catalog.go:185-246 | Every matching row once, most recent first by the time its text stands for |
| CatalogIndex.QueriesNameOnce | internal/state/catalog.go:185-310 | Whatever the filter, no archive is named twice |
| CatalogIndex.LocationsAreCopies | internal/state/catalog.go:248-296 | The locations of an archive are exactly its recorded copies, or those on the destination asked for |
| CatalogIndex.DestinationsAreListed | internal/state/catalog.go:296-310 | Without a limit, a query for a destination lists a matching archive if and only if it has a copy there |
| CatalogIndex.LimitsAreFirstParts | internal/state/catalog.go:201-207 | Without a destination a limited query is the first part of the unlimited one |
| CatalogIndex.LimitedDestinationsAreExact | internal/state/catalog.go:201-304 | For any limit, a query for a destination is the first part of the unlimited one if and only if the limit cuts nothing, lets through only rows with a copy there, or cuts only rows without one |
| CatalogIndex.TheLatestMayBeElsewhere | internal/state/catalog.go:201-304 | Two archives, the later elsewhere: one is asked for on a destination that has one, and none is listed |
| CatalogIndex.StampsSortByTime | internal/state/catalog.go:25-39 | The textual order of stored timestamps is the order of time, and equal text is equal time |
| CatalogIndex.RecordedIsListed | internal/state/catalog.go:68-240 | Every field comes back from its row, every time to the second |
| CatalogIndex.RecordedCopiesAreListed | internal/state/catalog.go:128-141 | A copy comes back from its row with its place and size, and its time to the second |
| CatalogIndex.RowsAreDated | internal/state/catalog.go:111-141 | What is recorded is created and updated at the start of its backup |
| CatalogIndex.LocationsAreSorted | internal/state/catalog.go:255-267 | The locations of an archive are listed by destination, each once |
| Manifests.ManifestRoundTrip | internal/domain/catalog/manifest.go:81-141 | An entry comes back from its manifest with all its fields, start and verification to the second, duration to the millisecond, and never better verified |
| Manifests.ManifestNeverVerifiesMore | internal/domain/catalog/manifest.go:90-141 | In any zone; and the start comes back if and only if the offset is whole minutes |
| Manifests.TimestampIsExact | internal/domain/catalog/manifest.go:81-127 | RFC 3339 printing and reading lose nothing but the fraction if and only if the offset has no seconds |
| Manifests.UnreadableStartsAreZero | internal/domain/catalog/manifest.go:124-127 | A start that cannot be read leaves start and end at the zero time |
| Manifests.FractionsAreRead | internal/domain/catalog/manifest.go:124-127 | A fraction of a second, of any length, is read to the nanosecond, whatever zone follows it |
| Paths.ArchiveNameRoundTrip | internal/domain/catalog/lister.go:238-274 | For every fixed database and id and every four-digit year, the name gives back database, id and second if and only if the database has no dot and the id no dot or underscore |
| Paths.IdentifyReads | internal/domain/catalog/lister.go:238-274 | A path says what it is if and only if its base name is a database, a stamp and an id joined as archives are and is no manifest's, and then it says just these, with the zero time for a stamp that is none |
| Paths.AnExtensionMayBringItsDot | internal/domain/backup/path.go:32-36 | An extension with its dot gives the same path as without |
| Paths.YearsKeepTheirSign | internal/domain/backup/path.go:28-36 | A year before zero is written with its sign in name and directory, and its digits are those of the year |
| Paths.ManifestsAreNoArchives | internal/domain/catalog/lister.go:238-244 | No manifest is ever taken for an archive, whatever its path |
| Paths.PathsSortByTime | internal/domain/backup/path.go:28-36 | A start in an earlier second gives a smaller path, whatever the ids and extensions |
| Paths.JobsHaveTheirOwnPaths | internal/domain/backup/path.go:28-36 | Equal paths mean equal ids, whatever the databases, times and extensions |
| Paths.SafeSegmentStaysInPlace | internal/domain/backup/path.go:41-50 | For every input: not empty, no separator, no `..`, and every letter, digit and underscore kept in order |
| Paths.SafeSegmentIsIdempotent | internal/domain/backup/path.go:41-50 | Cleaning twice is cleaning once; a name is kept if and only if it is already a segment |
| Paths.UnsafeRunsBecomeOneDash | internal/domain/backup/path.go:17-42 | Every run of unsafe characters, however long, is written as one dash |
| Paths.TwoDotsBecomeOneDash | internal/domain/backup/path.go:43 | Two dots are written as one dash, the first pair first |
| Paths.EdgesAreTrimmed | internal/domain/backup/path.go:43 | Dashes and dots are taken from both ends, and nothing else |
| Paths.SpacesBecomeOneDash | internal/domain/backup/path.go:41-50 | `my  db` is kept under `my-db` |
| Paths.ClimbingIsCutOff | internal/domain/backup/path.go:41-50 | `../etc/` is kept under `etc` |
| Paths.DotsBecomeADash | internal/domain/backup/path.go:41-50 | `a..b` is kept under `a-b`, and `..` under `unnamed` |
| Paths.PipelinesKeepExtensions | internal/domain/backup/path.go:68-80 | No pipeline makes an extension that would be taken for a manifest's or break the name |
| Paths.ArchiveExtension | internal/domain/backup/path.go:68-80 | The loop adds the extension of each known step, in order, to that of the dump |
| Paths.KnownStepsHaveExtensions | internal/domain/backup/path.go:55-74 | `zst` is that of compression and `age` that of encryption, with or without parameters, and no other step has one |
| Paths.AnArchiveIsOpenedFromItsEnd | internal/domain/backup/path.go:60-80 | Compressed and then encrypted, an archive is named `.zst.age` |
| Resolve.Choose | internal/domain/resolve/matrix.go:64-87 | An error if and only if every candidate of that family and tool is older than the server, by major for PostgreSQL and by release otherwise; else one that is not, of the least version and then provenance |
| Resolve.TheChoiceIsTheSame | internal/domain/resolve/matrix.go:64-116 | Version and provenance of the choice do not depend on the order of the candidates, nor on those that do not fit |
| Resolve.NeverAnOlderTool | internal/domain/resolve/matrix.go:26-41 | Never another family, never an older major, and for MySQL and MariaDB never an older release |
| Resolve.ProvenanceBreaksTies | internal/domain/resolve/matrix.go:75-102 | Nothing that fits has an older major; among the same version the host comes first, then what koffr manages, then a container |
| Resolve.ParseVersion | internal/domain/resolve/model.go:61-81 | The loop gives each of the first three numbers its field and stops at the first that is none |
| Resolve.VersionRoundTrip | internal/domain/resolve/model.go:38-81 | A printed version is read back from whatever surrounds it, if no digit comes before and nothing that continues it after |
| Clock.LaterReadsLater | internal/domain/backup/path.go:28-36 | A later second reads as a later civil date and time, over all years |
| Clock.MonthsBegin | internal/domain/backup/path.go:28-36 | Where the months of common and of leap years begin |
| Clock.SomeMoments | internal/domain/backup/path.go:28-36 | The zero time, the first second of Unix time and a leap day fall where they do |

## Left out

- Jobs.Service.Run: the ports are free to answer anything; foreign calls (sub-processes, Docker, SQL drivers, networks) are not part of this model, nor is cancellation of a context, which is one more failure.
- Jobs.Service.Run: wall-clock time; a duration is any number.
- Jobs.World.Release: the removal of the lock and of the buffer is an effect of the job even when the file system refuses it, since the code ignores that error; `Locks.Lock.Release` and `Locks.IsAcquire` model the refusal.
- Jobs.World.SendPacking: the two parties are one step here; that every interleaving of them comes to what this step promises is what `Streaming` proves, with the same predicate `Streaming.Delivers`. How many bytes a store had read when it failed is not kept.
- Jobs.World.Conclude: the verdict of a watcher is free; `Structure` models the one for MySQL and MariaDB, and the one that runs `pg_restore` is a foreign call.
- Jobs.Service.EntryOf: the rest of what `Render` puts in a manifest (recipients, server version) is carried but not related to the configuration.
- History.AManifestIsACommitMarker: jobs are killed at any moment, but the machine does not lose power; what that adds is `Filesystems.MarkersSurviveIff`.
- History.AManifestIsACommitMarker: destinations are changed by writes of stores only; retention, an operator's hand and a rotting disk are outside.
- Pipelines.Run: zstd, age and SHA-256 are uninterpreted; assumed are only that they let out a growing stream, and that a compressor lets out nothing before it is given something.
- Dumps.DumpStream.Close: what the process said, and its cancellation, are not in the error.
- Filesystems.Filesystem.Write: the root of a destination is an absolute path without dots, and files are known by the path from there; permissions, and what a rename onto a directory does, are faults.
- Filesystems.Filesystem.List: a prefix that climbs above the root also lists what is beside it; the model holds only files under the root.
- Locks.StateDirectory.Acquire: a lock file is its holder or something unreadable, not JSON text; the time it was acquired is left out.
- StagingFiles.StagingDirectory.PurgeStaging: `state.Open` also empties the directory, whoever owns the files; the purge property is about `purgeStaging` only.
- Migrations.Database.Apply: the SQL of a migration is its number and name.
- Listing.Lister.List: a destination lists and reads the same thing throughout one call; a manifest is a value or cannot be read.
- CatalogIndex.Catalog.RecordDatabase: a database is its identifier; the snapshot of its configuration is left out.
- CatalogIndex.Catalog.Backups: rows with equal keys in the order of copies are sorted by backup, which the query leaves open.
- CatalogIndex.Catalog.SetVerification: verification after the fact may record a lower level over a higher one; no claim is made that the level only rises.
- Manifests.ManifestRoundTrip: a manifest is a value, not JSON text; what the parser of timestamps accepts beyond section 5.6 of RFC 3339 is left out.
- Resolve.Choose: among candidates of the same version and provenance the code does not say which comes first; the model takes the first found.
- Resolve.VersionRoundTrip: white space is that of ASCII.
- Text, Ordering, Clock: the helpers of printing and sorting have no rows of their own.
- Identifiers of jobs, the discovery of tools, `Diagnose`, recipients, configuration, commands and logging.
