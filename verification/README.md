# Verification model of ELBE's core algorithms

ELBE builds Debian root filesystems and disk images for embedded devices and
updates the devices in the field. This project models the parts of it that hold
an algorithm or a protocol, in Dafny, and proves what they are for. Check it with
`dafny verify dfyconfig.toml`.

| file | models |
|---|---|
| `Fstab.dfy`, `Relocation.dfy` | `do_hdimg`: the target tree is taken apart, one directory per mountpoint, and put together again around the creation of the images |
| `Layout.dfy` | `do_image_hd`: sector allocation of primary, extended and logical partitions and the image that the `dd` calls write |
| `ElbeDb.dfy`, `BusyLock.dfy` | the project status as a lock: request threads, one FIFO queue and one worker, interleaved over atomic database transactions |
| `Verdicts.dfy` | the status that a build leaves behind, told by the steps of its run |
| `Shutdown.dfy` | what `stop` waits for, in every interleaving |
| `WaitBusy.dfy`, `Base85.dfy` | a project's message queue, the two reads behind every poll, and the loop of `wait_busy` on the client's side |
| `Updates.dfy`, `Rollback.dfy` | which packages an update ships, what applying a package list does, the directories that updates are kept in, and exactly when every snapshot can be applied again |
| `Realpath.dfy` | the worklist of `Filesystem.realpath` against a recursive resolver |
| `Licence.dfy`, `LicenceMeaning.dfy`, `LicenceGrouping.dfy`, `PackageLicence.dfy` | translation of Debian licence texts to SPDX expressions, a reader that gives such an expression its truth value, exactly when the translation keeps the meaning, and the licence text of a package |
| `Variants.dfy`, `Sections.dfy` | choosing variants of a source document and merging sections, on a tree of elements linked in both directions |
| `MakeDisk.dfy` | the partition-table disk image of the test helpers, with sparse writing |
| `Volumes.dfy` | next-fit splitting of a repository over volumes |
| `LineBuffer.dfy` | cutting command output into lines |
| `Deps.dfy` | dependency closure |
| `Strings.dfy`, `Lists.dfy`, `Bytes.dfy` | `split` and `join` at one character, and what the others share |

Code that changes state is a class or a method with loops, tied by its `ensures`
to a function of the old state; the properties are then lemmas about that function.
Arrays are used where the source fills a byte buffer in place; dictionaries and
lists are `map` and `seq` fields that the methods reassign.

## What turned out not to hold

The models keep the code as it is. Where an expected property fails, a lemma gives
the failing input or the exact condition:

- `do_hdimg`: the directories are created outside the `try` block. A mountpoint with
  a file on its way makes `mkdir -p` raise and leaves exactly the mountpoints behind it
  in the visiting order taken out (`Relocation.Workspace.DoHdimg`). The target then
  still has all its files exactly if those had nothing in them
  (`Relocation.FailureKeepsFiles`); `Relocation.FilesAreLeftOutside` is a target that
  loses a file.
- `mountdepth` is 0 for every path with a trailing slash (`Fstab.TrailingSlashHasDepthZero`). It is
  the number of names in a path exactly if the path does not end in a slash, or is
  nothing but slashes (`Fstab.DepthIsRightExactly`).
- The busy lock is kept by every step except exactly two: `reset_project` on a busy
  project, and an upload that is finished on a busy project without having been
  started (`BusyLock.LockIsKept`). It is kept throughout a run exactly if neither
  occurs (`BusyLock.RunsKeepLock`). One `reset_project` during a build ends the worker
  thread, so that no job is ever started again (`BusyLock.ResetEndsWorker`).
- `AsyncWorker.stop` joins the queue: it returns exactly if the worker stops with
  nothing behind the sentinel. A job behind it is never marked done
  (`Shutdown.JoinReturnsExactly`, `Shutdown.StopCanReturn`), and a request between its
  `set_busy` and its `put` gets there (`Shutdown.StopCanHang`).
- A failing `UpdatePbuilderJob` ends as `build_done`, and `CreatePbuilderJob` does not
  look at logged errors (`BusyLock.ReleaseWritesDeservedStatus`).
- `wait_busy` counts every poll as a retry, so that a socket error is only survived
  among the first polls (`WaitBusy.WaitBusy`). A message that is logged between the two
  reads of a poll can stay in the queue (`WaitBusy.LastMessagesCanBeMissed`). A client that
  has left has all messages exactly if none that is not empty is still queued, was
  pushed out of the queue, read by another client or lost (`WaitBusy.DeliversExactly`).
- A snapshot whose versions are not all in some repository cannot always be applied
  again: every snapshot can be, after every history of updates that keep the others,
  exactly if all versions are still there (`Rollback.RetrievableIsRestorable`). An update
  breaks this exactly if it downgrades to a version that no other repository has, or
  reuses the directory of an earlier update that had the only copy of a version still
  listed and does not ship it again (`Rollback.UpdateKeepsRetrievable`). Examples are
  `Rollback.DowngradeIsMissed`, `Rollback.ReusedDirectoryIsMissed` and, for a failed
  download of a base package, `Rollback.FailedDownloadIsMissed`.
- `realpath` does not end for a root link `a` to `../a` (`Realpath.ClimbingLinkDiverges`).
  It takes the link `x` to `.` in `x/x` for a cycle, and also the second `a` of `a/../a`
  at the end of an ordinary chain `a` to `b` to `c` to `/d`, although both paths resolve
  (`Realpath.HarmlessLinkIsTakenForCircular`, `Realpath.RankedChainIsTakenForCircular`).
  Two conditions on the tree exclude this (`Realpath.DownwardLinksResolve`,
  `Realpath.ChainlessLinksResolve`).
- A mapping to `a OR b` without parentheses is misread when the licence is joined to
  another one by `and` (`LicenceGrouping.UnguardedOrIsMisread`,
  `LicenceGrouping.MappingToOrIsMisread`): for texts without repeated licences, meaning
  is kept exactly if no licence of a clause of several is translated to
  such a text (`LicenceGrouping.MeaningIsKeptExactly`). A
  licence with more than one ` with ` loses all its exceptions (`Licence.ExceptionIsKept`).
- Sparse writing over old data leaves that data where a block is all zero
  (`MakeDisk.SparseIsDense`).
- A variant that excludes the root element is an error, as the root has no parent
  (`Variants.Document.SelectVariants`).

## Model

| member | source | states |
|---|---|---|
| Fstab.MountDepth | elbepack/fstab.py:61-69 | the loop counts how often the path can be split; `Depth` is related to components below |
| Fstab.DepthIsRightExactly | elbepack/fstab.py:61-69 | the depth is the number of non-empty components exactly if the path does not end in a slash or is only slashes |
| Fstab.DepthIsComponentCount | elbepack/fstab.py:61-69 | on a normalised mountpoint the depth is the number of its components, so a strict prefix is strictly shallower |
| Fstab.CompsInjective | elbepack/fstab.py:51-59 | equal components exactly for equal normalised mountpoints |
| Fstab.TrailingSlashHasDepthZero | elbepack/fstab.py:65-68 | any trailing slash gives depth 0 |
| Fstab.SortByDepthSorts | elbepack/fstab.py:71-74 | `depthlist` is ascending in depth and a permutation |
| Fstab.MountpointDict.Register | elbepack/fstab.py:51-59 | equal ids exactly for equal mountpoints, no earlier id changes |
| Fstab.SortIsStable | elbepack/fstab.py:71-74 | mountpoints of the same depth stay in the order of their registration |
| Relocation.Register | elbepack/hdimg.py:497-515 | the list visited holds each registered mountpoint once, shallowest first; its id is the number of its first registration |
| Relocation.DirsDoNotBlock | elbepack/hdimg.py:529 | creating directories of other mountpoints never decides whether `mkdir -p` fails |
| Relocation.HomeIsDeepest | elbepack/hdimg.py:527-534 | a path's home is the longest mountpoint above it whose next component is no dot-name, or the target if there is none |
| Relocation.HomeWithShallower | elbepack/hdimg.py:527-534 | a mountpoint not deeper than the others only takes what had no home |
| Relocation.FreeMove | elbepack/hdimg.py:531-534 | a `mv x/*` that meets no existing name moves exactly the paths below non-dot children |
| Relocation.MkdirStep | elbepack/hdimg.py:529 | in a half-emptied target `mkdir -p` fails exactly when it would in the original tree, and adds the same directories |
| Relocation.MoveOutStep | elbepack/hdimg.py:530-534 | one move out meets no existing name and leaves every path in the directory of its home |
| Relocation.MoveBackStep | elbepack/hdimg.py:561-566 | one move back meets no existing name, empties the directory and gives the target exactly the paths of that home |
| Relocation.Shallowest | elbepack/hdimg.py:515-561 | the visiting order: a mountpoint is never deeper than, or equal to, one behind it |
| Relocation.WithDirsMeaning | elbepack/hdimg.py:529 | the tree with the mountpoint directories: what was there, and directories above and at the mountpoints |
| Relocation.OwnerIsHome | elbepack/hdimg.py:527-534 | the home of a path is the longest mountpoint above it whose next component does not begin with a dot |
| Relocation.SpreadIsInOwnPlaces | elbepack/hdimg.py:525-534 | after the first loop every path is in the directory of its owner or, without one, in the target, and nothing else is anywhere |
| Relocation.Workspace.MakeImages | elbepack/hdimg.py:536-557 | images are made from the trees as they are at that moment |
| Relocation.Workspace.MakeDir | elbepack/hdimg.py:529 | adds the missing directories, or fails if a file is on the way |
| Relocation.Workspace.MoveOut | elbepack/hdimg.py:531-534 | one `mv`, child by child, counting collisions with existing names |
| Relocation.Workspace.MoveBack | elbepack/hdimg.py:563-566 | the same in the other direction |
| Relocation.Workspace.TakeOut | elbepack/hdimg.py:527-534 | one round of the first loop keeps every path in the directory of its home |
| Relocation.Workspace.TakeApart | elbepack/hdimg.py:525-534 | between the phases every path is in the directory of its home and nothing else is anywhere; no collision; it fails exactly for a mountpoint blocked by a file, and then exactly the ones behind it are taken out |
| Relocation.Workspace.PutBack | elbepack/hdimg.py:559-566 | restores exactly the original tree, empties every directory, no collision |
| Relocation.Workspace.DoHdimg | elbepack/hdimg.py:488-566 | for every tree and all mountpoints: images are made exactly once, from trees with every path in the directory of its owner and nothing else anywhere; afterwards the target is as it was plus the mountpoint directories and one empty directory per mountpoint is left, even when image creation raises, without any collision; it fails early exactly for a mountpoint blocked by a file, and then the mountpoints behind it are taken out |
| Relocation.FailureKeepsFiles | elbepack/hdimg.py:527-536 | after a failure the target has all its files exactly if the mountpoints taken out had nothing in them but dot-entries |
| Relocation.FilesAreLeftOutside | elbepack/hdimg.py:527-536 | a target and mountpoints for which a file stays outside |
| Layout.LogicalsAreRight | elbepack/hdimg.py:371-391 | logical partitions start 2048 sectors behind their predecessor, have the size asked for and end inside the extended partition |
| Layout.LayoutIsRight | elbepack/hdimg.py:265-273 | every accepted list: contiguous from the first sector, sizes as asked, `remain` up to the end (35 sectors earlier on GPT), clear of the GPT backup structures; each entry in order |
| Layout.LogicalsAcceptedExactly | elbepack/hdimg.py:371-391 | logical partitions are refused exactly if there is no right place for them |
| Layout.AcceptedExactly | elbepack/hdimg.py:265-289 | a list is refused exactly if there is no right layout for it, and there is never more than one |
| Layout.PlacedApart | elbepack/hdimg.py:419-449 | no two partitions with contents overlap |
| Layout.WriteSlotsMeaning | elbepack/hdimg.py:328-329 | each source survives all later writes and nothing else changes |
| Layout.ImageHoldsItsSources | elbepack/hdimg.py:394-449 | in the finished image each partition begins with its own source's bytes, all other bytes are zero |
| Layout.DiskImage.Dd | elbepack/hdimg.py:360-361 | one `dd` with `seek` in sectors and `conv=notrunc` |
| Layout.DiskImage.CreateLogicalPartitions | elbepack/hdimg.py:364-391 | the loop allocates `PlaceLogicals` and writes each source, or fails like it |
| Layout.DiskImage.DoImageHd | elbepack/hdimg.py:394-449 | the loop allocates `PlaceAll` and writes each source, or fails like it |
| ElbeDb.ElbeDB.Serve | elbepack/db.py:121-339 | the transactions one after the other, for any number of them, with what was refused |
| ElbeDb.BusyIsExclusive | elbepack/db.py:198-339 | a project becomes busy only by `set_busy`, stops being busy only by `reset_busy` or `reset_project`; `set_xml`, `del_project` and `set_busy` of a busy project are refused and change nothing; other projects are untouched |
| ElbeDb.BusyHasTaker | elbepack/db.py:292-308 | over every sequence: a busy project was taken by one transaction, since which nobody freed it and all else asked of it was refused |
| ElbeDb.TakersAlternate | elbepack/db.py:292-339 | between two transactions that take a project one frees it |
| ElbeDb.ResultsComeFromOwners | elbepack/db.py:321-339 | `has_changes`, `build_done` and `build_failed` first appear by a `reset_busy` that gave the project back |
| ElbeDb.NewStatus | elbepack/db.py:121-339 | what a transaction that is not refused makes of its project; after a new XML file a built project has changes, any other one needs a build |
| BusyLock.RequestsAreAccepted | elbepack/asyncworker.py:34-39 | a build request or an upload gets the project exactly if it is registered and not busy |
| BusyLock.UploadLeavesChanges | elbepack/daemons/soap/esoap.py:135-142 | a finished upload leaves the project with changes |
| BusyLock.LockIsKept | elbepack/db.py:292-339 | one holder per busy project and none else: kept by a step exactly if it is not one of the two unguarded ones |
| BusyLock.RunsKeepLock | elbepack/db.py:292-339 | the lock is kept at every moment of a run exactly if all its steps are guarded |
| BusyLock.ResetEndsWorker | elbepack/db.py:223-236 | from the start, a reset during a build of any kind kills the worker for ever |
| BusyLock.HoldersAfterLock | elbepack/asyncworker.py:34-39 | of several requests that passed the pre-check only one takes the lock |
| BusyLock.HoldersAfterUpload | elbepack/daemons/soap/esoap.py:122-147 | an upload holds the lock between its first and its last part |
| BusyLock.HolderIsBusy | elbepack/db.py:198-221 | a project with an outstanding job or upload is registered and busy, so it cannot be deleted |
| BusyLock.QueueOfNext | elbepack/asyncworker.py:290-308 | jobs are started in the order of their put; unfinished puts are the queued items and the running job |
| BusyLock.LevelsOfNext | elbepack/log.py:34-47 | a queued job's project has no log level noted before it starts |
| BusyLock.WorkerOfNext | elbepack/asyncworker.py:41-57 | the decided status agrees with what was raised and logged; no `update_project_files` or `reset_busy` kills the worker |
| BusyLock.InvIsKept | elbepack/asyncworker.py:24-57 | every step of every thread keeps the whole invariant |
| BusyLock.RunsKeepInv | elbepack/asyncworker.py:298-308 | safety over all interleavings of any length |
| BusyLock.ReleaseWritesDeservedStatus | elbepack/asyncworker.py:41-57 | `build_done` exactly without exception and without ERROR record since the start, with the two exceptions by job kind |
| Verdicts.VerdictOfRun | elbepack/asyncworker.py:41-57 | from the moment a job is taken from the queue, over every run: its `reset_busy` writes `build_failed` exactly if the build raised or, for the kinds that look at it, a level of 40 or more was logged before its end |
| Verdicts.BuildRuns | elbepack/log.py:39-62 | what a running build has raised and logged is what the steps of the run say |
| BusyLock.OutstandingHolds | elbepack/db.py:292-308 | an outstanding job is the only holder of its project, which is busy |
| BusyLock.OnlyReleaseEndsJob | elbepack/db.py:321-339 | a job stays outstanding until its own `reset_busy` |
| BusyLock.FinishedOnlyAfterRelease | elbepack/asyncworker.py:41-57 | the project of an accepted job is free again only behind the `reset_busy` of that very job, until which the job is outstanding at every moment |
| Shutdown.WorkerCanMove | elbepack/asyncworker.py:298-308 | a worker that has not met the sentinel always has a step that moves it on, whether the build raises or not |
| Shutdown.StepIsNearer | elbepack/asyncworker.py:290-308 | no step of any thread lengthens the worker's way to the sentinel or changes which jobs it starts before |
| Shutdown.JobRuns | elbepack/asyncworker.py:298-308 | whatever is interleaved, a job that was started reaches its `task_done` after at most four further steps of the worker |
| Shutdown.StopDrainsQueue | elbepack/asyncworker.py:290-308 | in every interleaving: the worker stops after a bounded number of its steps, and then exactly the jobs in front of the sentinel were started, in order |
| Shutdown.StaysStopped | elbepack/asyncworker.py:298-304 | a stopped worker stays stopped, and nothing leaves the queue any more |
| Shutdown.JoinReturnsExactly | elbepack/asyncworker.py:290-293 | in every interleaving: `join` returns exactly if the worker stops and finds nothing behind the sentinel |
| Shutdown.StopCanReturn | elbepack/asyncworker.py:290-293 | from every state with the sentinel queued, some run lets `join` return exactly if nothing stands behind the sentinel |
| Shutdown.StopCanHang | elbepack/asyncworker.py:290-296 | a reachable state from which no run lets `join` return |
| Base85.DecodeEncode | elbepack/soapclient.py:146 | every message comes back from its encoding, the length of which is given |
| Base85.NeverElevenLong | elbepack/daemons/soap/esoap.py:255-259 | no encoding has the length of the sentinel, and only the empty message has an empty one |
| WaitBusy.WaitBusy | elbepack/soapclient.py:121-146 | leaves the loop at the first sentinel, fault, bad text or unretried socket error, and yields the decoded non-empty messages before it in order |
| WaitBusy.AnswerIsUnderstood | elbepack/daemons/soap/esoap.py:255-259 | the client takes an answer for the sentinel exactly if the message was empty and the project not busy, else it gets the very message |
| WaitBusy.AccountingIsKept | elbepack/log.py:34-69 | every step keeps the account of the bounded queue: logged is taken plus queued, in order |
| WaitBusy.MessagesAreAccounted | elbepack/projectmanager.py:187-189 | over every run with other pollers and broken connections: the client yields exactly the non-empty messages it read whose answer arrived, in order |
| WaitBusy.LeavesAtSomePoll | elbepack/soapclient.py:121-146 | the loop is left at one poll |
| WaitBusy.LeavesOnlyBehindRelease | elbepack/soapclient.py:121-146 | a client with an accepted job leaves its loop only at a poll answered behind the `reset_busy` of that very job |
| WaitBusy.Wait | elbepack/soapclient.py:121-146 | the client's result over a whole run |
| WaitBusy.AllYieldedExactly | elbepack/log.py:34-69 | the client has all non-empty messages logged, in order, exactly if none is queued, pending, pushed out, read by others or lost |
| WaitBusy.DeliversExactly | elbepack/soapclient.py:121-146 | the same for a client that has left its loop, over every run |
| WaitBusy.PushedOutExactly | elbepack/log.py:34-36 | a message is pushed out exactly when another one is logged while 1024 are queued, and it is the oldest |
| WaitBusy.FewMessagesFit | elbepack/log.py:34-36 | with at most 1024 messages none is pushed out |
| WaitBusy.LastMessagesCanBeMissed | elbepack/projectmanager.py:187-189 | a run in which a message of the build stays in the queue |
| Updates.IndexOfList | elbepack/updatepkg.py:52-66 | a dictionary filled from a list is that list, if names are distinct |
| Updates.GenUpdatePkg | elbepack/updatepkg.py:49-96 | ships exactly the new and the upgraded packages (with debug also the unchanged ones) |
| Updates.MarkPackage | elbepack/updated.py:302-313 | last obtainable version of the list's entries, purge without entry, untouched if nothing is obtainable |
| Updates.ApplyUpdate | elbepack/updated.py:295-318 | the packages after marking the whole cache, whatever its order |
| Updates.MarkedIsLastObtainable | elbepack/updated.py:247-255 | with distinct names: the listed version if it can be obtained, else none |
| Updates.MarkedExactly | elbepack/updated.py:302-313 | the mark is for the last entry of the name that can be obtained, whether names are distinct or not |
| Updates.ApplyReaches | elbepack/updated.py:258-318 | if all versions are obtainable the device ends with exactly the list |
| Updates.DiffThenApply | elbepack/updatepkg.py:62-96 | diff, then apply: exactly the new list, except that exactly the downgraded packages keep their old version |
| Updates.ShippedExactly | elbepack/updatepkg.py:62-96 | what is shipped, told from the two lists |
| Updates.NothingIsShippedInVain | elbepack/updatepkg.py:62-96 | without debug, every deb that is shipped is needed to reach the new list |
| Rollback.FnameReplace | elbepack/updated.py:216-226 | the name with every other character replaced, of the same length |
| Rollback.WhatIsAllowed | elbepack/updated.py:216-220 | the characters that are kept |
| Rollback.KeyOfPlain | elbepack/updated.py:465-466 | the directory of an update with a plain name and version |
| Rollback.LookupAfterStore | elbepack/updated.py:464-479 | a stored update is found under its own directory name, all others as before; a name like that of the base version hides it |
| Rollback.AvailableAfterStore | elbepack/updated.py:229-244 | after an update the versions of its repository and of all but the replaced one are available |
| Rollback.UpdateKeepsRetrievable | elbepack/updated.py:439-542 | all snapshots stay in the repositories exactly if the downgrades are in another one and what only a replaced repository had is shipped again |
| Rollback.HistoryStaysRetrievable | elbepack/updated.py:439-542 | the same over every history |
| Rollback.AnySnapshotCanBeApplied | elbepack/updated.py:124-138 | after any history, applying any snapshot leaves exactly its packages |
| Rollback.UpdateInstallsItsList | elbepack/updated.py:439-542 | after any history, an accepted update leaves exactly its list |
| Rollback.MissingIsMissed | elbepack/updated.py:124-138 | for a listed version that no repository has, an update after which its snapshot does not bring the package back |
| Rollback.RetrievableIsRestorable | elbepack/updated.py:124-138 | after every history every snapshot restores exactly its packages, exactly if every version of every snapshot is in some repository |
| Rollback.BaseRepo | elbepack/finetuning.py:388-406 | the base repository has the installed packages whose download did not fail |
| Rollback.BaseImageIsRestorable | elbepack/finetuning.py:388-415 | a newly built device can restore its snapshots after every history exactly if no download failed |
| Rollback.FailedDownloadIsMissed | elbepack/finetuning.py:388-401 | a base image, an update and the way back after which a package is missing |
| Rollback.DowngradeIsMissed | elbepack/updated.py:247-255 | an update that downgrades, installs nothing and cannot be restored |
| Rollback.ReusedDirectoryIsMissed | elbepack/updated.py:464-479 | three updates, the third in the directory of the first, after which the second cannot be restored |
| Rollback.OnlyDowngradesAreRejected | elbepack/updated.py:375-400 | an update below the present version changes nothing if downgrades are not allowed; every other one is stored and becomes the present version |
| Rollback.VersionNeverFalls | elbepack/updated.py:375-400 | over every history of updates the version never falls, unless downgrades are allowed |
| Rollback.SnapshotGoesBack | elbepack/updated.py:124-138 | a snapshot may go back in any case |
| Rollback.UpdateService.Apply | elbepack/updated.py:258-326 | packages and recorded version after an update |
| Rollback.UpdateService.RejectDowngrade | elbepack/updated.py:375-400 | rejects versions before the current one, or before the base if none is recorded, unless allowed |
| Rollback.UpdateService.ActionSelect | elbepack/updated.py:439-542 | a rejected update changes nothing; another replaces what is in its directory and is applied |
| Rollback.UpdateService.ApplySnapshot | elbepack/updated.py:124-138 | applies the list found under a name, changes nothing for another name |
| Realpath.Step | elbepack/filesystem.py:202-238 | the first element is never removed, the circular branch is remembered |
| Realpath.StepInv | elbepack/filesystem.py:202-238 | no empty, `.` or `..` component is appended |
| Realpath.RealPath | elbepack/filesystem.py:197-240 | the loop, for as many passes as wanted, keeps the root first and the result plain |
| Realpath.LoopIsSound | elbepack/filesystem.py:197-240 | what the loop ends with, without circular branch, is what the resolver gives |
| Realpath.LoopIsComplete | elbepack/filesystem.py:197-240 | what the resolver gives the loop reaches, unless it takes the circular branch |
| Realpath.RealpathIsResolve | elbepack/filesystem.py:197-240 | both directions from the start: the loop ends at `r` without circular branch exactly when the path resolves to `r` and that branch is never taken |
| Realpath.ResultHasNoLinks | elbepack/filesystem.py:217-223 | no prefix of such a result is a symlink |
| Realpath.RankedLinksTerminate | elbepack/filesystem.py:202-238 | with ranked links the loop ends for every input, bounded by a measure of the stack |
| Realpath.StepDecreases | elbepack/filesystem.py:202-238 | every pass lowers that measure |
| Realpath.SiblingLinksTerminate | elbepack/filesystem.py:202-238 | with finitely many links that stay in their directories, cyclic or not, the loop ends for every path |
| Realpath.SiblingChainEnds | elbepack/filesystem.py:225-228 | there, a name is replaced by the end of its chain of links, and on a cycle by the link at which the cycle was entered |
| Realpath.LoopEndsAtItsEntry | elbepack/filesystem.py:189-195 | two links to each other end where they were begun |
| Realpath.ClimbingLinkDiverges | elbepack/filesystem.py:209-215 | a root link to `../` and its own name is followed for ever |
| Realpath.HarmlessLinkIsTakenForCircular | elbepack/filesystem.py:225-228 | the circular branch also stops at a harmless link |
| Realpath.RankedChainIsTakenForCircular | elbepack/filesystem.py:209-228 | and at the second pass over an ordinary ranked chain of links, although the path resolves |
| Realpath.DownwardLinksResolve | elbepack/filesystem.py:197-240 | for ranked relative links without `..` and a path without `..` the loop always ends, where the resolver does |
| Realpath.ChainlessLinksResolve | elbepack/filesystem.py:197-240 | for ranked links of which none begins with another link, the same for every path |
| Licence.JoinSplitFrom | elbepack/commands/parselicence.py:105-114 | splitting at an operator loses nothing |
| Licence.SplitExactly | elbepack/commands/parselicence.py:105-114 | splitting loses nothing and leaves no operator inside a part |
| Licence.MapOneIsFlat | elbepack/commands/parselicence.py:74-83 | a package's own mapping comes before the global one, both before the identifiers |
| Licence.SameTableSameText | elbepack/commands/parselicence.py:74-114 | only the table that these come to decides a translation and its errors |
| Licence.RenderExactly | elbepack/commands/parselicence.py:85-103 | the characters of a rendering: as the table says, marked as unknown, or with its exception |
| Licence.Mapper.MapOneWithException | elbepack/commands/parselicence.py:85-103 | the translation of one licence and the error it appends |
| Licence.Mapper.MapAnds | elbepack/commands/parselicence.py:108-111 | one clause, with its errors in order |
| Licence.Mapper.MapLicenseString | elbepack/commands/parselicence.py:105-114 | the whole text; the errors appended are the licences without mapping, in order |
| Licence.MarkedIsUnknown | elbepack/commands/parselicence.py:91-98 | a licence is rendered `UNKNOWN_MAPPING` exactly when an error is appended for it |
| Licence.ExceptionIsKept | elbepack/commands/parselicence.py:91-103 | the exception is kept exactly when the licence names one; more are all dropped |
| Licence.LicenseString | elbepack/commands/parselicence.py:147-158 | `NOASSERTION`, or the entries, with parentheses around those that contain ` OR ` |
| Licence.EntryExactly | elbepack/commands/parselicence.py:152-156 | parentheses are put exactly around the entries with ` OR ` in them |
| LicenceMeaning.TopOfJoin | elbepack/commands/parselicence.py:111-113 | an operator between closed expressions puts their parts in a row |
| LicenceMeaning.ClauseMeaning | elbepack/commands/parselicence.py:108-111 | a translated clause holds exactly when the translations of all its licences do |
| LicenceMeaning.TranslationKeepsMeaning | elbepack/commands/parselicence.py:105-114 | under every valuation the translation holds exactly when in some clause all translated licences do |
| LicenceMeaning.RenderIsClosed | elbepack/commands/parselicence.py:85-103 | a plain licence is rendered without `OR` outside parentheses, known or unknown, if the mapping's values are |
| LicenceMeaning.PlainTextKeepsMeaning | elbepack/commands/parselicence.py:105-114 | the same as a condition on the text and the mapping only |
| LicenceMeaning.OperatorFreeIsOneLicence | elbepack/commands/parselicence.py:85-103 | a rendering without operators is read as one licence |
| LicenceGrouping.SomeLeaf | elbepack/commands/parselicence.py:105-114 | an expression that holds has one of its licences, however deep in parentheses |
| LicenceGrouping.AllLeaves | elbepack/commands/parselicence.py:105-114 | with all its licences an expression holds |
| LicenceGrouping.UnitsOfJoin | elbepack/commands/parselicence.py:111 | joining by `AND` adds no licence |
| LicenceGrouping.LooseAlternative | elbepack/commands/parselicence.py:108-111 | if a licence of a clause of several brings an `OR` along, one alternative of the output says nothing about one of them |
| LicenceGrouping.UnsafeClauseIsMisread | elbepack/commands/parselicence.py:105-114 | the valuation under which the output of an unsafe clause holds and the text does not |
| LicenceGrouping.MeaningIsKeptExactly | elbepack/commands/parselicence.py:105-114 | for texts without repeated licences: same truth value under every valuation exactly if no licence of a clause of several is translated to a text with an `OR` outside parentheses |
| LicenceGrouping.UnguardedOrIsMisread | elbepack/commands/parselicence.py:105-114 | a clause of two licences, the first translated to `a OR b`, is misread exactly if `a` holds and the second does not |
| LicenceGrouping.MappingToOrIsMisread | elbepack/commands/parselicence.py:105-114 | a mapping, a text and a valuation for which this happens |
| PackageLicence.TranslationIsWellFormed | elbepack/commands/parselicence.py:105-114 | the translation of a plain text has balanced parentheses and no `OR` at its ends |
| PackageLicence.MapLic | elbepack/commands/parselicence.py:116-128 | the translations of all texts of a package without override, in order |
| PackageLicence.PackageLicenceMeansItsTexts | elbepack/commands/parselicence.py:116-158 | the licence text of a package holds exactly if every one of its Debian texts does |
| LicenceMeaning.WrappedMeansSame | elbepack/commands/parselicence.py:153-154 | parentheses around an expression keep its meaning and close it |
| LicenceMeaning.LicenseStringIsConjunction | elbepack/commands/parselicence.py:147-158 | the licence text of a package holds exactly when all its entries do |
| Variants.Document.RemoveFromParent | elbepack/xmlpreprocess.py:373 | takes one element out of its parent's list, fails without parent |
| Variants.Document.MarkUnwanted | elbepack/xmlpreprocess.py:354-370 | first pass: drops the attributes of wanted elements, lists the others in document order |
| Variants.Document.SelectVariants | elbepack/xmlpreprocess.py:354-373 | mark, then detach, equals the document without the unwanted elements; it fails exactly if the root is unwanted |
| Variants.SelectedChains | elbepack/xmlpreprocess.py:354-373 | an element stays exactly when it and every element above it have no variants or one that is active |
| Variants.NoVariantIsLeft | elbepack/xmlpreprocess.py:351-370 | no element of the result has a variant attribute |
| Variants.SelectingTwice | elbepack/xmlpreprocess.py:354-373 | a second pass changes nothing |
| Variants.SelectingMore | elbepack/xmlpreprocess.py:354-373 | with more active variants nothing is lost |
| Variants.FilterOutAppend | elbepack/xmlpreprocess.py:372-373 | the children that stay keep their order |
| Variants.WithoutIsWellFormed | elbepack/xmlpreprocess.py:372-373 | links in both directions stay consistent |
| Sections.Append | elbepack/xmlpreprocess.py:391-392 | appending an element takes it from its old parent |
| Sections.MergeSection | elbepack/xmlpreprocess.py:390-393 | one section: all its children appended in order, then removed |
| Sections.MergeSections | elbepack/xmlpreprocess.py:390-393 | the loop over the sections of one path equals the merged document, links consistent |
| Sections.MergePaths | elbepack/xmlpreprocess.py:380-393 | the loop over all paths, each searched in what the earlier merges left: every path has at most one section, only merged sections are lost, links consistent |
| Sections.MergePathsAreOrdered | elbepack/xmlpreprocess.py:33-37 | the five paths of the source meet what `MergePaths` asks of its list |
| Sections.OneStaysOne | elbepack/xmlpreprocess.py:380-393 | merging for one path never gives a path that is no longer a second section |
| Sections.MergedAllIsRight | elbepack/xmlpreprocess.py:380-393 | the result of all merges, for every list of paths that does not get shorter |
| Sections.MergePathsAreUnrelated | elbepack/xmlpreprocess.py:33-37 | none of the five paths looks into or like an earlier one |
| Sections.EverySectionInTheEnd | elbepack/xmlpreprocess.py:380-393 | after all merges the section left of each path has exactly the children of all sections found for it, in document order |
| Sections.SearchIsPossible | elbepack/xmlpreprocess.py:381 | every document has the search result that is asked for |
| Sections.MergedMatches | elbepack/xmlpreprocess.py:380-393 | exactly the later sections stop matching the path |
| Sections.NothingIsLost | elbepack/xmlpreprocess.py:388-393 | merging takes nothing out of the document but the later sections |
| Sections.OneSectionIsLeft | elbepack/xmlpreprocess.py:375-393 | afterwards the first section is the only match, with the children of all in document order |
| MakeDisk.DiskFile.Write | elbepack/tests/test_helpers.py:38 | a write at the position, filling a gap with zeros |
| MakeDisk.DiskFile.WriteSparse | elbepack/tests/test_helpers.py:32-38 | writes exactly the blocks that are not all zero |
| MakeDisk.SparseBytes | elbepack/tests/test_helpers.py:32-38 | each byte after sparse writing |
| MakeDisk.SparseIsDense | elbepack/tests/test_helpers.py:32-38 | equal to dense writing exactly when skipped bytes fall on zeros |
| MakeDisk.SkippedExactly | elbepack/tests/test_helpers.py:32-38 | a byte is skipped exactly if its block of 4096 is zero |
| MakeDisk.FitsExactly | elbepack/tests/test_helpers.py:58-62 | the image is refused exactly if a start or a size needs more than 32 bits |
| MakeDisk.SparseAppends | elbepack/tests/test_helpers.py:32-38 | behind the end of the file it always is |
| MakeDisk.RoundedUp | elbepack/tests/test_helpers.py:44-45 | rounding adds 1 to 512 bytes and gives whole sectors |
| MakeDisk.PartBytes | elbepack/tests/test_helpers.py:55-62 | one table entry, refused if a sector number needs more than 32 bits |
| MakeDisk.BuildHeader | elbepack/tests/test_helpers.py:52-70 | the header filled in place is signature and table entries at their offsets, zero elsewhere |
| MakeDisk.WriteParts | elbepack/tests/test_helpers.py:76-79 | the file, extended to the position, gains each part and its padding |
| MakeDisk.WriteDisk | elbepack/tests/test_helpers.py:48-81 | the whole file, or the error, before anything is created |
| MakeDisk.PartsReadBack | elbepack/tests/test_helpers.py:48-81 | decoding entry `i` gives an extent behind the previous one that reads back part `i` and 1 to 512 zeros; the last one ends the file |
| MakeDisk.RestOfTable | elbepack/tests/test_helpers.py:52-70 | unused entries are empty, the signature is in place |
| MakeDisk.ImageLength | elbepack/tests/test_helpers.py:72-81 | the file is as long as the data offset plus the rounded sizes |
| Volumes.Repo.IncludeDeb | elbepack/repomanager.py:178-183 | next-fit placement |
| Volumes.Repo.IncludeDsc | elbepack/repomanager.py:278-285 | the same; the second check fires exactly if not even an empty volume is within the limit |
| Volumes.Repo.BuildIso | elbepack/repomanager.py:328-344 | one image for every volume, in order |
| Volumes.OneVolumeWithoutLimit | elbepack/repomanager.py:97-107 | without limit there is one volume |
| Volumes.OrderIsKept | elbepack/repomanager.py:178-183 | all packages in the order of inclusion, each in one place |
| Volumes.LimitIsKept | elbepack/repomanager.py:178-183 | no volume exceeds the limit exactly when every package fits an empty one |
| Volumes.NeighboursOverflow | elbepack/repomanager.py:178-183 | two consecutive volumes hold more than fits into one |
| Volumes.VolumeCountIsBounded | elbepack/repomanager.py:178-183 | half of the volumes, filled completely, would not hold everything |
| LineBuffer.AsyncLogging.TakeChunk | elbepack/log.py:214-238 | the inner loop: complete lines, their message and the rest |
| LineBuffer.AsyncLogging.Run | elbepack/log.py:206-243 | messages hold the lines of the whole stream however it is cut; the final block is the stream without its last newline |
| LineBuffer.SplitResume | elbepack/log.py:219-238 | cutting can be resumed with the rest |
| LineBuffer.LinesAndTail | elbepack/log.py:222-238 | lines and rest are the only newline-free texts that give the stream back |
| Deps.GetAllDeps | elbepack/aptpkgutils.py:70-86 | ends on every graph; each package once, exactly those reached through cached packages; when it raises |
| Deps.GetDepsElements | elbepack/aptpkgutils.py:64-67 | all alternatives of all dependencies are looked at |
| Deps.Expand | elbepack/aptpkgutils.py:74-84 | one round of the worklist keeps what is found sound and what is open covered |

## Left out

- Relocation.Workspace.DoHdimg: mountpoints are normalised absolute paths, no parent of one is a symlink and the `filesystems/<id>` directories start empty or missing; for others the code gives no guarantee.
- Relocation.Workspace.MoveOut: trees are values from paths to entries, so link counts, owners and the moves of a partly failing `mv` other than name collisions are not captured.
- Relocation.Workspace.DoHdimg: creation of images is one step that reads the trees and may raise; the later `mtd` images and binary blobs are not modelled.
- Layout.DiskImage.DoImageHd: parted is taken to honour an exact geometry and to refuse an empty one or one that leaves the device, the GPT usable area or the extended partition; its other refusals (number of primaries, names) only mean failing more often.
- Layout.ImageHoldsItsSources: sources are no larger than their partition; boot code, `disk.commit` and binary blobs, which overwrite parts of the image on purpose, are not modelled.
- Layout.LayoutIsRight: sizes come as bytes; parsing of size suffixes is left out.
- BusyLock.RunsKeepInv: two unguarded operations, `reset_project` on a busy project and finishing an upload nobody started, are excluded step by step (`Disciplined`); `LockIsKept` and `RunsKeepLock` show that exactly they break the lock.
- WaitBusy.Wait: messages are their UTF-8 bytes and texts the digits of their characters; that every message is delivered is not claimed, as the queue is bounded and read before the status; the read of the final status behind the loop is left out.
- Shutdown.StopDrainsQueue: that the worker is scheduled again and that a build ends is not modelled; the bound counts the worker's own steps without logging.
- ElbeDb.ElbeDB.Serve: project files, directories and the database session are not modelled, only the registration and the status.
- Updates.DiffThenApply: versions are numbers in the order of Debian versions with equal strings for equal versions, and `depcache.commit` is taken to do what every mark says; dependencies between packages are not modelled.
- Rollback.UpdateKeepsRetrievable: updates are generated against a snapshot the device knows, and their package names are distinct; configuration and file commands of updates are left out.
- Rollback.UpdateInstallsItsList: says nothing of an update whose directory is named like the base version, since `apply_snapshot` cannot find it.
- Realpath.RealPath: the number of passes is a parameter, because the loop need not end; the tree does not change meanwhile.
- Realpath.DownwardLinksResolve: a condition on the tree that is enough, not one that is also necessary; whether the circular branch is taken depends on the whole history of the stack.
- Licence.Mapper.MapLicenseString: a text is the sequence of its words between single spaces, one package is mapped at a time, and mapping values are texts; overrides and reading of the mapping file are left out.
- LicenceGrouping.MeaningIsKeptExactly: that an unsafe clause is misread needs texts in which no licence occurs twice, as `a OR a` joined to `a` is harmless; keeping the meaning of safe clauses does not.
- LicenceMeaning.LicenseStringIsConjunction: entries have balanced parentheses and no `OR` as first or last word; the reader gives a value to ill-formed expressions too, but none of the other results depends on it.
- Variants.Document.SelectVariants: the traversal is taken to visit every element of the document once, the root first; text between elements is not modelled.
- Sections.MergePaths: each path expression is taken to find exactly the matching elements in document order; the other preprocessing steps are left out.
- MakeDisk.WriteDisk: a file is its bytes; the operating system's holes are not modelled.
- Volumes.LimitIsKept: sizes are exact and every volume has the same overhead; removing and retrying packages is left out, and volume numbers stay within the volumes there are.
- LineBuffer.AsyncLogging.Run: characters instead of UTF-8 bytes, and messages before ANSI sequences are stripped.
- Network services, sessions, apt, reprepro, libvirt, debootstrap, loop devices, signing, schema validation, templates and command-line handling: no algorithm of their own.
