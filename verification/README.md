# Control-plane verification

A Dafny model of the sandbox control plane: the daemon that creates, wakes, stops, snapshots and
purges sandboxes (`sandboxd`) and the supervisor inside each sandbox that runs coding tasks
(`runtimed`). The project states what its stateful parts keep over every interleaving, every
history, every crash point or every input, and proves it.

Check everything with `dafny verify dfyconfig.toml`, or with the stricter flags
`dafny verify --resource-limit 2000000 --warn-contradictory-assumptions *.dfy`.

## How it is modelled

Code that changes things step by step is a class or a method whose contract gives the whole new
state as a function of the old one. Where goroutines interleave, the critical sections of the code
are the steps of a state machine on values; a run is any sequence of steps, a step that is not
enabled does nothing, and a theorem quantifies over all step sequences. Where the machine can crash,
an operation is the sequence of states it puts the disk through. Outside calls (Docker, SQL failures,
zstd, fsck, mount, clocks, sockets) are inputs that may take any value.

| file | what it models |
|---|---|
| `Protocol.dfy`, `TaskLog.dfy` | a coding task's event log, its run, one active task per sandbox |
| `TaskStream.dfy` | one writer and any number of stream readers, resuming readers, replay |
| `Opencode.dfy` | the agent-output parser against a declarative result |
| `WakeProtocol.dfy`, `WakeHandler.dfy`, `IdLock.dfy` | wake coalescing and the per-id lock |
| `Timestamps.dfy`, `Retention.dfy`, `SnapshotDisk.dfy`, `SnapshotManager.dfy`, `Sweep.dfy` | snapshots: take, restore, prune, crash, boot sweep |
| `Rows.dfy`, `StoreWriter.dfy`, `Purge.dfy` | the tables, the single-writer loop, ownership, purging |
| `TaskWatch.dfy` | how a task's result becomes durable |
| `Reaping.dfy`, `Inflight.dfy`, `Idle.dfy`, `Pressure.dfy`, `Admit.dfy` | reapers and wake admission |
| `Reconcile.dfy` | the boot reconciler |
| `DevServer.dfy` | restart delays and the dev-server supervisor |
| `Paths.dfy`, `Preview.dfy` | lexical path checks; preview host names |

## Where the code does less than its text says

Each of these is proved, with the exact condition under which the promise does hold.

* Followers of a coalesced wake are promised the leader's outcome. They answer success after five
  exits on which the leader itself fails (`WakeProtocol.FollowerAgreesIff`,
  `WakeHandler.FollowerAgreesOnIff`, `WakeProtocol.FollowerMayContradictLeader`).
* A crash while a restore is decompressing leaves a partial live image, and the boot sweep then
  removes the only good copy (`SnapshotDisk.SweepKeepsOriginalIff`,
  `SnapshotDisk.SweepMayLoseOriginal`).
* The live image of an id that contains the mark of a backup is taken for one, and swept
  (`Sweep.LiveIsBakIff`, `Sweep.LiveImageMayBeDebris`).
* A stray file that sorts after every timestamp is what pruning keeps unconditionally
  (`Retention.LatestSurvivesIff`, `Retention.StrayNameLosesLatest`).
* A log finalised after a crash ends in an event with id 0, so resuming by id is exact only if that
  log was empty (`TaskStream.RecoveryKeepsIdsIff`).
* A reader that starts beyond the terminal event waits for ever (`TaskStream.TerminatesIff`).
* `?since=` overrides Last-Event-ID, and a browser's event source connects again with its first URL:
  such a client receives events again (`TaskStream.ExactlyOnceIff`, `TaskStream.ResentQueryRepeats`).
* The create guard and the insert are two steps, and another user's create and delete can come
  between them (`Rows.GuardedCreateCanRace`, `Rows.InsertKeepsAgreementIff`).
* A submit whose operation enters the queue after the writer has gone is answered only by its own
  context (`StoreWriter.ExitLeavesNothing`).
* A store call whose caller's context ends may report a failure although its operation was, or will
  be, carried out (`Rows.SubmitFailureChangesNothingIff`, `StoreWriter.CallIsSubmitted`,
  `StoreWriter.LeaverMayBeApplied`). So a failed purge leaves the rows to be found again except in
  that case, and a failed purge request may have purged one sandbox it neither counts nor audits, or
  leave nothing to retry (`Purge.FailedPurgeKeepsRowsIff`, `Purge.FailedRequestMayLeaveNothing`);
  and a wake answered as failed may have marked its row running (`WakeHandler.Handler.Serve`,
  `WakeHandler.FailedWakeMayBeRunning`).
* The listings that purge, reapers and reconciler work from end without an error where reading the
  rows breaks off. So a purge request may report, and audit, that it is done with bindings left (`Purge.Server.PurgeScope`,
  `Purge.NothingOwnedIff`, `Purge.BrokenListingReportsDone`), an idle tick may leave due rows
  (`Idle.TickStopsExactly`), an emergency tick may spare the heaviest sandbox
  (`Pressure.WholeListingsDecide`, `Pressure.CutListingSparesHeaviest`) and the reconciler may leave
  rows creating (`Reconcile.Converges`).
* A delete whose affected-rows count cannot be read reports failure after deleting
  (`Rows.FailureChangesNothingIff`).
* `Claim`'s comment says an empty project leaves the column as it was; the code stores NULL
  (`Rows.ClaimKeepsColumnsIff`, `Rows.ClaimForgetsProject`).
* The pressure reaper's comment says it applies the idle reaper's skip rules; it does not look for a
  running task (`Pressure.IdleRulesAreStricterIff`, `Pressure.PressureMayInterruptTask`).
* A tool event's de-duplication key is shared by another part and status once one of the two
  contains `|` (`Opencode.ToolKeyIsSharedIff`, `Opencode.StatusesClashIff`,
  `Opencode.ToolKeyCanCollide`).
* The catch-all finds a sandbox by a browser's host only if its id has no lower-case letter
  (`Preview.CatchAllRecoversIff`, `Preview.LowerCaseIdIsNotFound`). Forward-auth does not fold the
  case, so it finds one only if its id has no upper-case letter, and no id with a letter suits both
  (`Preview.ForwardAuthRecoversIff`, `Preview.BothRecoverIff`, `Preview.UpperCaseIdIsNotFound`).

## Model

| member | source | states |
|---|---|---|
| `TaskLog.Task.Emit` | control-plane/cmd/runtimed/task.go:71-84 | appends one event whose id is its index, to memory and, while it is open, to the file; closes exactly the current channel and installs a fresh one |
| `TaskLog.Task.SetPhase` | control-plane/cmd/runtimed/task.go:86-91 | records the phase and emits it |
| `TaskLog.Task.EventsSince` | control-plane/cmd/runtimed/task.go:95-103 | the events from the cursor on, none for a cursor beyond the end, and the channel the next event closes |
| `TaskLog.Task.Finish` | control-plane/cmd/runtimed/task.go:113-130 | terminal event, then done flag, result and closed file, with a broadcast after each |
| `TaskLog.RunTask` | control-plane/cmd/runtimed/task.go:178-272 | every path appends exactly its progress events and one terminal event carrying the classified result, in memory and in the file alike, and ends done |
| `TaskLog.RunEndsOnce` | control-plane/cmd/runtimed/task.go:178-272 | whatever a run meets, its terminal event is there once and last |
| `TaskLog.SucceededIff` | control-plane/cmd/runtimed/task.go:215-240 | succeeded exactly if the agent was known, finished in time, was not cancelled and reported no error; the build check is skipped exactly for cancelled runs |
| `TaskLog.Concludes` | control-plane/cmd/runtimed/task.go:192-262 | the result of each path: status, reason, message, files, agent message, build and preview |
| `TaskLog.Emits` | control-plane/cmd/runtimed/task.go:178-250 | the progress events of each path |
| `TaskLog.App.StartTask` | control-plane/cmd/runtimed/task.go:142-159 | refused exactly for an unknown agent, then while the current task is unfinished, then if the new task's directory or log cannot be made, and then without effect; otherwise a fresh task with its first event; all tasks but the current one stay done, and every started task has a known agent |
| `TaskLog.App.RunCurrent` | control-plane/cmd/runtimed/task.go:157-202 | after a run every task ever started is done; for a task that was started here the path for an unknown agent is not taken |
| `TaskStream.RunInv` | control-plane/cmd/runtimed/task.go:71-130 | the log and reader invariant holds after any interleaving of emits, finish and stream readers |
| `TaskStream.DeliversSlice` | control-plane/cmd/runtimed/task.go:372-394 | in every interleaving each reader has delivered exactly the events from its start to its cursor, in order; ids are indices; the terminal event is last |
| `TaskStream.NoLostWakeup` | control-plane/cmd/runtimed/task.go:81-103 | a reader that cannot move waits on the current channel with everything delivered, and the next event releases it |
| `TaskStream.SealedLogIsFixed` | control-plane/cmd/runtimed/task.go:113-130 | after the finish the log is fixed and a reader moves only by its own steps or its cancellation |
| `TaskStream.TerminatesIff` | control-plane/cmd/runtimed/task.go:372-394 | once the log is sealed an uncancelled reader reaches the terminal event exactly if it started at or before its index |
| `TaskStream.InterleavedRun` | control-plane/cmd/runtimed/task.go:178-272 | in any interleaving of the sections of one run with its readers, cut off anywhere, the log holds what the run has appended so far, and from the terminal event on the writer carries the run's result |
| `TaskStream.ExactlyOnce` | control-plane/internal/api/v1_tasks.go:164-198 | a client that is cut off any number of times and resumes by Last-Event-ID, or with an override equal to the number of events received, from the live task or from the finished task's file, receives a prefix of the log, each event once; the whole log if its last connection ended with the terminal event |
| `TaskStream.ExactlyOnceIff` | control-plane/internal/api/v1_tasks.go:164-198 | whatever `?since=` each session carries, the client receives a prefix of the log, each event once and in order, exactly if every session of which anything arrived had no override or the number of events received as its override; with the terminal event that is the whole log |
| `TaskStream.ResentQueryRepeats` | control-plane/internal/api/v1_tasks.go:172-176 | a client that reconnects with its first URL and receives an event twice |
| `TaskStream.Replay` | control-plane/cmd/runtimed/task.go:331-370 | replaying events.jsonl from a line yields exactly the lines from there on |
| `TaskStream.ReplayEqualsLive` | control-plane/cmd/runtimed/task.go:331-394 | a live reader that saw the terminal event delivered exactly what a replay from its start delivers |
| `TaskStream.RecoveryKeepsIdsIff` | control-plane/cmd/runtimed/task.go:399-432 | a recovered log keeps ids equal to indices, and resumption exact, exactly if the interrupted log was empty |
| `Opencode.ParseOpencodeStream` | control-plane/cmd/runtimed/opencode.go:92-170 | the loop over maps and accumulators returns what is read off the raw lines one by one, by kind: the first error line's text, whether a text and a tool line occurred, the sums over the step lines, and the last texts of the parts in order of first appearance; it emits each error and text and the first tool line of each part and status, in stream order; and that is the summary of the lines' meanings |
| `Opencode.SummarizeAppend` | control-plane/cmd/runtimed/opencode.go:92-170 | the result on two stretches of a stream is the merge of the results on each |
| `Opencode.MergeIsAssociative` | control-plane/cmd/runtimed/opencode.go:92-170 | that merge is associative |
| `Opencode.MergeUnit` | control-plane/cmd/runtimed/opencode.go:92-170 | and the empty stream's result is its unit |
| `Opencode.LastTextIsLast` | control-plane/cmd/runtimed/opencode.go:125-131 | the text kept for a part is the one of its last non-empty text line |
| `Opencode.FirstFailureIsFirst` | control-plane/cmd/runtimed/opencode.go:106-123 | the error kept is the first error line's |
| `Opencode.DistinctOnce` | control-plane/cmd/runtimed/opencode.go:133-148 | de-duplication keeps every key that occurs, exactly once |
| `Opencode.ToolKeyIsInjective` | control-plane/cmd/runtimed/opencode.go:133-148 | without a separator in the statuses two tool lines share a key exactly if they agree on part and status |
| `Opencode.ToolKeyIsSharedIff` | control-plane/cmd/runtimed/opencode.go:133-148 | some other part and status have the same key exactly if the part id or the status contains the separator |
| `Opencode.StatusesClashIff` | control-plane/cmd/runtimed/opencode.go:133-148 | two statuses can be confused by some part ids exactly if one is the end of the other after a separator |
| `Opencode.ToolKeyCanCollide` | control-plane/cmd/runtimed/opencode.go:133-148 | two lines with one key |
| `Opencode.SawIff` | control-plane/cmd/runtimed/opencode.go:106-148 | the flags say whether the stream held a line of kind text with a text, or otherwise of a named tool, and the error is empty exactly if it held no line of kind error |
| `Opencode.ErrorTextIs` | control-plane/cmd/runtimed/opencode.go:110-119 | an error's text is its message, else its name, else a constant |
| `Opencode.MeaningIs` | control-plane/cmd/runtimed/opencode.go:104-161 | which lines are errors, texts, tool calls and step ends, and what each carries |
| `Opencode.AgentErrorIs` | control-plane/cmd/runtimed/opencode.go:258-279 | in order of authority: nothing after the context has ended, then the first error line, the exit, and the absence of any text or tool line, each with its message |
| `Opencode.SucceededMeansOutput` | control-plane/cmd/runtimed/opencode.go:258-279 | a task is reported succeeded exactly if its agent was known, had a live context, exited cleanly, printed no line of kind error and printed a text or tool line; parsing never emits a terminal event |
| `WakeProtocol.RunInv` | control-plane/internal/wake/handler.go:162-201 | the invariant of leaders, followers, locks and in-flight records holds after any interleaving |
| `WakeProtocol.OneLeaderPerId` | control-plane/internal/wake/handler.go:166-189 | in every interleaving at most one leader per id is between registering and its deferred delete, and the in-flight entry is its own |
| `WakeProtocol.InflightHasLeader` | control-plane/internal/wake/handler.go:180-189 | an in-flight entry is there only while such a leader exists |
| `WakeProtocol.ClosedAtMostOnce` | control-plane/internal/wake/handler.go:184-189 | no done channel is closed twice |
| `WakeProtocol.FollowerLearnsExit` | control-plane/internal/wake/handler.go:167-179 | an answered follower's leader has returned and closed the channel once; the follower failed exactly if that exit was one of the seven that store an error |
| `WakeProtocol.ClosedWakeIsFixed` | control-plane/internal/wake/handler.go:184-189 | from the close on a wake's record, its error included, never changes: the error is written by the leader and before the close only |
| `WakeProtocol.FollowerAgreesIff` | control-plane/internal/wake/handler.go:162-279 | a follower reports what its leader reported exactly if the leader did not leave as not found, error row, creating, auth denied or admission denied |
| `WakeProtocol.FollowerMayContradictLeader` | control-plane/internal/wake/handler.go:271-279 | a run in which a leader is refused admission and its follower answers success |
| `WakeProtocol.MutualExclusion` | control-plane/internal/idlock/idlock.go:20-53 | in every interleaving the critical sections of one id never overlap, whether wake, snapshot, restore, prune, delete, purge, image capture or push, and a thread inside one holds its id's mutex |
| `WakeProtocol.SectionsAreEntered` | control-plane/internal/idlock/idlock.go:20-53 | in every run a locker's list is the ids whose sections it has entered, in order and each holding the mutex, followed by those still ahead; so a finished locker has been inside all of them, a leader that has returned inside its own exactly once, and a follower in none |
| `WakeProtocol.MutexIsFixed` | control-plane/internal/idlock/idlock.go:31-41 | an id that has a mutex keeps it for good |
| `WakeProtocol.Progress` | control-plane/internal/wake/handler.go:166-201 | while a thread is unfinished some thread can move |
| `WakeProtocol.EveryRunCompletes` | control-plane/internal/wake/handler.go:166-201 | runs are bounded, and where no thread can move every request is answered and every lock holder has been inside all its sections and finished: no deadlock and no stranded follower |
| `WakeHandler.Handler.Join` | control-plane/internal/wake/handler.go:166-182 | leads exactly if nobody is in flight for the id, and then registers a fresh record |
| `WakeHandler.Handler.Leave` | control-plane/internal/wake/handler.go:184-189 | removes the entry and closes the record |
| `WakeHandler.Handler.Body` | control-plane/internal/wake/handler.go:203-377 | takes each of its fourteen exits exactly on its condition on row, gate, admission and calls; starts a container exactly on the exits past admission; changes only its own row, to running, exactly if it woke or its failed mark was carried out after it left; so after a failed mark the row is still stopped exactly if the mark was not carried out; stores an error on exactly the listed exits |
| `WakeHandler.StartsIff` | control-plane/internal/wake/handler.go:257-289 | a container is started exactly for a stopped row that the gate lets through and admission admits |
| `WakeHandler.FollowerAgreesOnIff` | control-plane/internal/wake/handler.go:162-279 | on what the leader saw, a follower reports what its leader reported exactly if the row could not be read, was running, or was stopped with the wake past the gate and not denied admission |
| `WakeHandler.Handler.Serve` | control-plane/internal/wake/handler.go:157-377 | a request that leads does the same and leaves nothing in flight and a closed record with the error its followers read |
| `WakeHandler.MarkIsSubmitted` | control-plane/internal/store/writer.go:355-370 | what the leader is told of the mark, and what the row then says, are what the store call makes of a stopped row |
| `WakeHandler.FailedWakeMayBeRunning` | control-plane/internal/wake/handler.go:369-377 | a wake answered as failed, to its followers too, whose sandbox is up and whose row says running |
| `IdLock.Registry.Get` | control-plane/internal/idlock/idlock.go:31-41 | filling the registry changes no held lock and no other id's mutex |
| `IdLock.Registry.TryLock` | control-plane/internal/idlock/idlock.go:43-53 | takes the lock of this id and no other, exactly if it was free |
| `IdLock.Registry.Unlock` | control-plane/internal/idlock/idlock.go:47-47 | looks the id up again and releases the very mutex that was locked |
| `IdLock.LockUnlock` | control-plane/internal/idlock/idlock.go:43-47 | locking one id while another is held succeeds, and unlocking it restores what was held |
| `Timestamps.ParseFormat` | control-plane/internal/snapshot/snapshot.go:32-35 | a printed time is read back |
| `Timestamps.FormatParse` | control-plane/internal/snapshot/snapshot.go:32-35 | a readable name is the print of the time it names |
| `Timestamps.ValidDates` | control-plane/internal/snapshot/snapshot.go:32-35 | which dates there are, by month lengths and the leap rule |
| `Timestamps.InstantCounts` | control-plane/internal/snapshot/snapshot.go:32-35 | instants count seconds along the calendar, one for each, from the start of year 0 |
| `Timestamps.StringOrderIsTimeOrder` | control-plane/internal/snapshot/snapshot.go:32-35 | string order on the fixed-width layout is the order of the instants, leap years and month lengths included |
| `Timestamps.NamesSortInTime` | control-plane/internal/snapshot/snapshot.go:103-130 | so sorting names sorts them in time |
| `Retention.List` | control-plane/internal/snapshot/snapshot.go:103-130 | exactly the entries with the snapshot suffix, strictly newest first |
| `Retention.PruneProperties` | control-plane/internal/snapshot/prune.go:22-61 | pruning leaves exactly the greatest name, the names that are no time and the times at or after the cutoff; it never empties a non-empty set, and repeating it changes nothing |
| `Retention.KeptIsLatest` | control-plane/internal/snapshot/prune.go:38-44 | with well-formed names the one always kept is the latest in time |
| `Retention.LatestSurvivesIff` | control-plane/internal/snapshot/prune.go:44-58 | the latest well-formed snapshot survives exactly if it is inside the window or no stray name sorts after it |
| `Retention.StrayNameLosesLatest` | control-plane/internal/snapshot/prune.go:44-58 | for every time, a directory in which the snapshot of that time is pruned and a stray file kept |
| `SnapshotDisk.OriginalNeverLost` | control-plane/internal/snapshot/restore.go:60-113 | at every state of a restore but the last of a successful one, the original bytes are live or aside |
| `SnapshotDisk.AbortRestoresDisk` | control-plane/internal/snapshot/restore.go:38-77 | a refused restore leaves the disk as it found it, and so does an aborted one whose rollback calls work and whose backup name was free |
| `SnapshotDisk.AbortKeepsImageIff` | control-plane/internal/snapshot/restore.go:69-77 | which rollback calls the live image depends on, exactly |
| `SnapshotDisk.RestoredIsSnapshot` | control-plane/internal/snapshot/restore.go:79-113 | a successful restore leaves exactly the decompressed snapshot live and every snapshot as it was |
| `SnapshotDisk.RestoredIff` | control-plane/internal/snapshot/restore.go:32-113 | a restore succeeds exactly if the snapshot is whole, the row allows it and no call it depends on fails |
| `SnapshotDisk.RestoreAnswers` | control-plane/internal/snapshot/restore.go:32-113 | each refusal and each aborted stage exactly on its condition |
| `SnapshotDisk.TakenIff` | control-plane/internal/snapshot/take.go:34-119 | a take succeeds exactly if there is an image, its row is neither running nor unreadable and every call it depends on works; no image, a running and an unreadable row each have their own answer |
| `SnapshotDisk.TakeLeaves` | control-plane/internal/snapshot/take.go:34-119 | a take changes nothing at any moment exactly if it may not begin; otherwise it leaves one more snapshot with the live bytes exactly if it reached its rename, its sidecar exactly if that was written too, and a half-written file exactly if it could neither name nor remove it |
| `SnapshotDisk.CrashBeforeDecompress` | control-plane/internal/snapshot/snapshotter.go:120-140 | a crash before decompression starts, followed by the boot sweep, keeps the original |
| `SnapshotDisk.SweepKeepsOriginalIff` | control-plane/internal/snapshot/snapshotter.go:120-140 | by crash point: the sweep keeps the original exactly if the crash came before decompression, or the decompressor's output so far or result is nothing or the same bytes, or that was removed again, or the original moved back |
| `SnapshotDisk.SweepMayLoseOriginal` | control-plane/internal/snapshot/snapshotter.go:120-140 | a disk and a restore, cut off in decompression and swept, whose original is gone |
| `SnapshotDisk.PruneExact` | control-plane/internal/snapshot/prune.go:22-61 | the deletion loop removes exactly the expired snapshots that are not the newest, and their sidecars, as far as each can be removed; what is left keeps its bytes, and cut off anywhere the loop only forgets |
| `SnapshotDisk.SnapshotsAreWhole` | control-plane/internal/snapshot/take.go:80-101 | over any history of takes, restores, prunes, writes and sweeps, each cut off anywhere, a file with a finished snapshot's name is never half-written |
| `SnapshotDisk.SnapshotOrigin` | control-plane/internal/snapshot/take.go:80-101 | over any such history a snapshot that is there holds the bytes live at the last take of its name that reached its rename, whatever happened to that take afterwards, or those it had from the start |
| `SnapshotDisk.RestoresLastTake` | control-plane/internal/snapshot/take.go:80-101 | so over any such history a restore that succeeds makes exactly those bytes live |
| `SnapshotManager.Manager.Abort` | control-plane/internal/snapshot/restore.go:69-77 | the rollback closure, through each of its states |
| `SnapshotManager.Manager.Restore` | control-plane/internal/snapshot/restore.go:32-126 | passes through exactly the states, and returns the outcome, that the theorems above are about |
| `SnapshotManager.Manager.Install` | control-plane/internal/snapshot/restore.go:79-113 | decompress, check, mount, and keep or roll back, with every intermediate state |
| `SnapshotManager.Manager.TakeLocked` | control-plane/internal/snapshot/take.go:34-119 | write aside, sync, rename, sidecar, with every intermediate state and the outcome |
| `SnapshotManager.Manager.DeleteExpired` | control-plane/internal/snapshot/prune.go:44-58 | the deletion loop, each of whose removals may fail, ends in the state the theorem above is about |
| `SnapshotManager.Manager.PruneLocked` | control-plane/internal/snapshot/prune.go:22-61 | keeps exactly the newest, the unexpired and what cannot be removed, with their bytes, and touches nothing else; nothing at all if the directory cannot be read |
| `SnapshotManager.Manager.Take` | control-plane/internal/snapshot/take.go:27-137 | after a take and its retention the new snapshot holds the live bytes unless it is itself expired; the names are the survivors and what cannot be removed; no other snapshot's bytes change |
| `Sweep.BakNameOwner` | control-plane/internal/snapshot/snapshotter.go:123-129 | the name a restore gives its backup is read back to its sandbox, for an id without a dot |
| `Sweep.LiveIsBakIff` | control-plane/internal/snapshot/snapshotter.go:123-129 | the live image of an id is taken for a backup exactly if the id contains the mark of one |
| `Sweep.LiveImageMayBeDebris` | control-plane/internal/snapshot/snapshotter.go:123-133 | such an id, and a directory in which its live image is swept |
| `Sweep.OwnersLiveIsNoBak` | control-plane/internal/snapshot/snapshotter.go:128-133 | the live image that decides a backup's fate is never taken for a backup |
| `Sweep.OnlyCopyStays` | control-plane/internal/snapshot/snapshotter.go:95-140 | neither a live image nor a backup without one is swept |
| `Sweep.VerdictIsStable` | control-plane/internal/snapshot/snapshotter.go:120-140 | sweeping some files does not change the verdict on another, so the order does not matter |
| `Sweep.Workspaces.SweepBaks` | control-plane/internal/snapshot/snapshotter.go:120-140 | removes and counts exactly the removable backups whose live image is there |
| `Sweep.Workspaces.SweepTmps` | control-plane/internal/snapshot/snapshotter.go:100-119 | removes and counts exactly the removable half-written snapshots |
| `Paths.CleanIsIdempotent` | control-plane/internal/api/v1_files_write.go:76-76 | lexical cleaning is idempotent |
| `Paths.CleanIs` | control-plane/internal/api/v1_files_write.go:76-76 | what cleaning computes, with no stack: of the raw segments those names last, in order, after which no stretch of the path has more `..` than names, preceded in a relative path by as many `..` as some prefix climbs at most |
| `Paths.ClimbIff` | control-plane/internal/api/v1_files_write.go:76-83 | that number is the greatest by which any prefix of the path has more `..` than names |
| `Paths.NameAndUpCancel` | control-plane/internal/api/v1_files_write.go:76-76 | anywhere in a path a name and the `..` after it cancel, and nothing else changes |
| `Paths.NormClimbs` | control-plane/internal/api/v1_files_write.go:76-83 | a cleaned path starts with `..` exactly if some prefix of the raw one climbs above its start |
| `Paths.SafeJoinStaysInside` | control-plane/internal/api/v1_files.go:36-42 | for a clean root other than "/", every string is joined to the root followed by what lasts of its segments, names only; the rejecting branch is unreachable |
| `Paths.SafeJoinAcceptsIff` | control-plane/internal/api/v1_files.go:36-42 | the rejecting branch acts exactly for the root "/" and a path of which some name lasts |
| `Paths.ResolveExact` | control-plane/internal/api/v1_files_write.go:61-103 | each refusal exactly on its condition on the raw path, and acceptance exactly of a well-formed path that does not climb and of which a name lasts, the first of them not reserved; it resolves to the mount followed by the lasting names; the slash check after cleaning and the final prefix check never reject |
| `Paths.AcceptedStaysInside` | control-plane/internal/api/v1_files_write.go:61-103 | an accepted path is strictly below the mount by its lasting names, below no reserved one, and never climbed |
| `Paths.ReservedIsFirst` | control-plane/internal/api/v1_files_write.go:90-96 | the reserved test holds exactly if the first segment is a reserved name |
| `Paths.TraversalIff` | control-plane/internal/api/v1_files_write.go:76-83 | a path is rejected as traversal exactly if it is otherwise well-formed and climbs |
| `Rows.Tables.Create` | control-plane/internal/store/writer.go:67-124 | row, ports and owner appear together or not at all, wherever a statement fails; conflict exactly for an existing row; an existing owner binding is kept |
| `Rows.Tables.Claim` | control-plane/internal/store/writer.go:131-176 | row and owner change user together or not at all; a missing owner is created, its creation time otherwise kept |
| `Rows.Tables.PurgeSandbox` | control-plane/internal/store/writer.go:183-198 | row and owner go together or not at all |
| `Rows.Tables.Delete` | control-plane/internal/store/writer.go:434-449 | removes the row, keeps the owner, reports a missing one |
| `Rows.Tables.Update` | control-plane/internal/store/writer.go:286-408 | the row after each of the single-statement updates, and nothing else |
| `Rows.Tables.CreateTask` | control-plane/internal/store/tasks.go:27-38 | a new running task row; refused for an existing id |
| `Rows.Tables.FinishTask` | control-plane/internal/store/tasks.go:41-49 | the status and result of that task row and no other |
| `Rows.OkIff` | control-plane/internal/store/writer.go:67-449 | each operation succeeds, and refuses, exactly on its condition on the rows and the statement that fails |
| `Rows.CreatedRow` | control-plane/internal/store/writer.go:67-124 | a created row has the requested status, ports in order, policy and owner, the requested visibility or "public" where none was, and nothing of a container; the owner is bound unless the id is already |
| `Rows.ClaimedRow` | control-plane/internal/store/writer.go:131-176 | after a claim row and binding name the user, project and workspace, the binding keeps its age and the row everything else |
| `Rows.RemovedRow` | control-plane/internal/store/writer.go:183-198 | a purge removes row and binding, a delete the row alone, and nobody else's |
| `Rows.UpdateStores` | control-plane/internal/store/writer.go:286-408 | the values each single-statement update stores |
| `Rows.TaskStores` | control-plane/internal/store/tasks.go:27-49 | the rows the two task statements write |
| `Rows.UpdateTouchesOnly` | control-plane/internal/store/writer.go:286-408 | a single-statement update touches one row, of that row neither identity nor configuration, and every other column only where the statement names it; a bump never moves activity back, a wake may |
| `Rows.ActivityMovesForward` | control-plane/internal/store/writer.go:321-334 | over any history without a wake, removal or re-creation of the row its last activity only moves forward |
| `Rows.TaskRowsPersist` | control-plane/internal/store/tasks.go:26-49 | over any history a task row is never removed and keeps its sandbox; it changes only to what a finish naming it says |
| `Rows.ClaimKeepsColumnsIff` | control-plane/internal/store/writer.go:126-176 | a successful claim of an owned id leaves the owner's project, or workspace, as it was exactly if it already equals what the claim stores, NULL for an empty one |
| `Rows.ClaimForgetsProject` | control-plane/internal/store/writer.go:126-176 | a claim with an empty project after which a bound project is NULL |
| `Rows.FailureChangesNothingIff` | control-plane/internal/store/writer.go:67-198 | of the closure the writer runs: one that does not return Ok leaves every table as it was, except exactly a delete whose affected-rows count cannot be read |
| `Rows.SubmitFailureChangesNothingIff` | control-plane/internal/store/writer.go:43-56 | of the call a caller makes: one that does not return Ok leaves the tables as they were exactly if its operation was not carried out, or failed at a statement, was refused, or had nothing to change |
| `Rows.Tables.Submit` | control-plane/internal/store/writer.go:43-56 | the outcome and the tables for a caller that stays, or leaves on its context with the operation carried out or not |
| `Rows.OwnerLostOnlyByPurge` | control-plane/internal/store/writer.go:178-198 | over any history a binding disappears only by a successful purge of its id |
| `Rows.UserChangesOnlyByClaim` | control-plane/internal/store/writer.go:126-176 | over any history without such a purge the binding survives with its creation time, and its user is the original one or one a successful claim named |
| `Rows.OwnersAlwaysAgree` | control-plane/internal/api/handlers.go:416-464 | with guard and insert as one step, every sandbox row has a durable owner with the same user after any history of creates, claims, deletes, purges and marks |
| `Rows.RequestCreatesIff` | control-plane/internal/api/handlers.go:416-464 | a request for an id without a row gets one exactly if the id is not bound to another user, its ports are distinct and no statement fails; row and binding then name the user it acts for |
| `Rows.InsertKeepsAgreementIff` | control-plane/internal/store/writer.go:109-121 | an insert by itself keeps that agreement exactly if it does not happen or finds no other user's binding |
| `Rows.GuardedCreateCanRace` | control-plane/internal/api/handlers.go:426-458 | a history between guard and insert after which the two users differ |
| `StoreWriter.RunInv` | control-plane/internal/store/writer.go:20-56 | the queue, outcome, application and exit invariant holds after any interleaving of submitters, writer, cancellation and close |
| `StoreWriter.AppliedOnceInOrder` | control-plane/internal/store/writer.go:20-40 | in every interleaving the applied operations are a prefix of the order of entry, none twice, and the database is their fold |
| `StoreWriter.ReturnedMeansApplied` | control-plane/internal/store/writer.go:43-56 | a submit that returned an outcome had its operation applied exactly once, with that outcome |
| `StoreWriter.CallIsSubmitted` | control-plane/internal/store/writer.go:43-56 | in every interleaving a call that is over is such a store call: one that returned stayed, one that left had none or all of its operation's effect |
| `StoreWriter.LeaverMayBeApplied` | control-plane/internal/store/writer.go:50-55 | an interleaving in which a purge's caller leaves and its rows are gone |
| `StoreWriter.WriterNeverBlocks` | control-plane/internal/store/writer.go:24-36 | the done channel is empty whenever the writer sends, so it waits only for work on an open store |
| `StoreWriter.LeavingIsInvisible` | control-plane/internal/store/writer.go:50-55 | a submitter that leaves on its context commutes with every step of everybody else |
| `StoreWriter.ExitLeavesNothing` | control-plane/internal/store/writer.go:27-37 | once the writer is gone exactly the operations that had entered by then are applied, and a waiting submitter can collect its outcome exactly if its operation had |
| `StoreWriter.NothingAfterExit` | control-plane/internal/store/writer.go:20-37 | nothing is applied after the exit |
| `StoreWriter.CloseDrains` | control-plane/internal/store/store.go:110-115 | from any closed state the writer reaches its exit by steps of its own alone, boundedly many, with everything that had entered applied |
| `StoreWriter.Loop.Drain` | control-plane/internal/store/writer.go:28-37 | serves what is queued, in order, until nothing is |
| `StoreWriter.Loop.WriteLoop` | control-plane/internal/store/writer.go:20-40 | the loop's whole life applies each call once, in order, and answers each with its own outcome |
| `Purge.Server.TearDown` | control-plane/internal/api/external_purge.go:38-79 | succeeds exactly without a fault on its way, then nothing of the sandbox is on the host and the bytes reported are those its directories held; no other sandbox is touched |
| `Purge.UsageIs` | control-plane/internal/api/external_purge.go:60-79 | the bytes a purge reports: those of the workspace directory and, where there are any, of the snapshots |
| `Purge.Server.PurgeOne` | control-plane/internal/api/external_purge.go:26-87 | succeeds exactly without a fault and with a caller that stays; all of the sandbox is gone, or its rows are still there, gone being exactly success or a caller that left while a deletion was carried out; the reported user is the binding's before the purge |
| `Purge.Server.PurgeListed` | control-plane/internal/api/external_purge.go:152-186 | of a listing that may have been cut short, counts purges up to the first that fails; exactly a prefix of it is purged, the counted ones and one more exactly if the failing one left too late; freed bytes and audit entries account for exactly the counted ones, the summary is written only at the end |
| `Purge.Server.PurgeScope` | control-plane/internal/api/external_purge.go:142-191 | a request without a value or a readable listing changes nothing; otherwise exactly the purged part of the listing no longer matches; so one that finishes leaves no matching binding exactly if its listing was whole, and one that fails leaves some, except exactly if it failed at the last of a whole listing by leaving too late |
| `Purge.RestIsListed` | control-plane/internal/api/external_purge.go:154-163 | the part of its list a request did not purge still matches, and is all that does exactly if the list was whole, whatever was reported |
| `Purge.OwnedShrinks` | control-plane/internal/store/store.go:427-447 | a request takes exactly the purged part of its listing out of what matches |
| `Purge.NothingOwnedIff` | control-plane/internal/store/store.go:427-447 | nothing matches any more exactly if the listing was whole and all of it was purged |
| `Purge.RetriesFinish` | control-plane/internal/api/external_purge.go:139-163 | however many requests fail and however short their listings were, once one has purged the whole of a whole listing no binding matches and nothing is left of any sandbox that matched at first |
| `Purge.FailedPurgeKeepsRowsIff` | control-plane/internal/api/external_purge.go:81-86 | a purge reported as failed has left its sandbox's rows exactly if it did not give up waiting for a deletion that was carried out |
| `Purge.FailedRequestMayLeaveNothing` | control-plane/internal/api/external_purge.go:154-163 | a request that is reported as failed with its only sandbox purged, nothing audited and nothing left to list |
| `Purge.BrokenListingReportsDone` | control-plane/internal/store/store.go:427-447 | a request whose listing broke off before its only binding, reported and audited as finished with the sandbox untouched |
| `TaskWatch.ReportedIff` | control-plane/internal/runtime/client.go:133-149 | the decoded result is the one in the first terminal frame |
| `TaskWatch.DecodeResult` | control-plane/internal/api/taskwatch.go:64-74 | the decoding loop with the watcher's callback returns it |
| `TaskWatch.WatcherGetsResultIff` | control-plane/internal/api/taskwatch.go:64-81 | in every interleaving a watcher reading from the start has the task's result exactly if it reached the terminal event |
| `TaskWatch.Server.WatchTask` | control-plane/internal/api/taskwatch.go:38-88 | three tries, then the reported result or the matching failure is written; nothing is written only if the deadline passes between two tries |
| `TaskWatch.WatcherSays` | control-plane/internal/api/taskwatch.go:38-88 | silent exactly if the deadline passes between two tries; unreachable after three refusals; else the reported result, or that there was none |
| `TaskWatch.Server.ReconcileTasks` | control-plane/internal/api/taskwatch.go:110-137 | each listed row gets its result file, a watcher or a failure, in that order of preference; no other row changes |
| `TaskWatch.PassSettles` | control-plane/internal/api/taskwatch.go:110-137 | after the pass a listed task shows its result file where there is one, else is left running with a running sandbox, else has failed as interrupted |
| `TaskWatch.RunningIffWatched` | control-plane/internal/api/taskwatch.go:99-137 | after that pass, writes succeeding and result files terminal, the rows still running are exactly those with a watcher, each with a running sandbox row |
| `TaskWatch.AtMostOneFinish` | control-plane/internal/api/taskwatch.go:90-137 | however a process boots, serves and its watchers interleave, it issues at most one `FinishTask` per row and none while a watcher remains |
| `TaskWatch.EveryTaskIsSettled` | control-plane/internal/api/taskwatch.go:90-137 | and if no watcher's deadline passes, each task found running is at any moment exactly one of still to be looked at, watched, or finished, once: none is lost |
| `TaskWatch.ResultIsDurable` | control-plane/internal/api/v1_tasks.go:132-160 | from end to end: in any interleaving of a run's sections with its readers, a watcher that reached the terminal event and wrote it makes the result that run concludes with the one a caller is shown, whatever the store does later to other rows |
| `Inflight.InflightExec.Enter` | control-plane/internal/activity/inflight_exec.go:39-44 | counts one more; the map holds the non-zero counters and nothing else |
| `Inflight.InflightExec.Exit` | control-plane/internal/activity/inflight_exec.go:48-58 | counts one less, not below zero, and drops a zero entry |
| `Inflight.InflightExec.Active` | control-plane/internal/activity/inflight_exec.go:61-65 | whether the counter is above zero |
| `Inflight.CountIsBalanceIff` | control-plane/internal/activity/inflight_exec.go:38-65 | over any history the counter is enters minus exits exactly if no prefix has more exits than enters |
| `Inflight.CountIsRunning` | control-plane/internal/api/handlers.go:796-804 | however exec requests overlap, each entering once and exiting when it returns, the counter is the number of the sandbox's requests still running |
| `Reaping.StopSandbox` | control-plane/internal/reaper/idle.go:136-158 | stop, clear the address, mark: only this row changes, as far as each call works |
| `Reaping.AfterStopIs` | control-plane/internal/reaper/idle.go:136-158 | unless the container does not stop, the row is stopped at that time and its address gone, each as far as its write is carried out, and nothing else changes |
| `Idle.RecheckIsRedundant` | control-plane/internal/reaper/idle.go:121-125 | no row the query returns can be after the cutoff, wherever the cutoff falls in its second |
| `Idle.Reaper.Skips` | control-plane/internal/reaper/idle.go:90-125 | on a row the query returned, the skip rules pass exactly the due rows |
| `Idle.Reaper.Tick` | control-plane/internal/reaper/idle.go:81-161 | a tick stops exactly the due rows its query listed, as far as Docker and the store let it, and leaves every other row as it was; it does nothing if the query fails |
| `Idle.TickStopsExactly` | control-plane/internal/reaper/idle.go:81-161 | with those calls working, exactly the listed running, not always-on rows idle since before the cutoff second, without exec call, unexpired keepalive or running task, are stopped with the tick's time; a due row left running was active no earlier than any listed one, and is left only by a listing that broke off |
| `Idle.TickIsIdempotent` | control-plane/internal/reaper/idle.go:81-161 | after a tick with a whole listing a second one at the same moment changes nothing |
| `Pressure.RefusedIff` | control-plane/internal/reaper/pressure.go:84-99 | after any history of readings wakes are refused exactly if the latest reading outside the two-point band was below it, or there was none and they were refused before |
| `Pressure.AvailableIs` | control-plane/internal/reaper/meminfo.go:19-26 | the available share times the total is a hundred times what is available; all is available where there is no total |
| `Pressure.Reaper.Tick` | control-plane/internal/reaper/pressure.go:73-120 | a tick updates the flag and goes for at most one sandbox, the one its band says; no other row changes |
| `Pressure.Reaper.StopOldestIdle` | control-plane/internal/reaper/pressure.go:128-182 | the target is an eligible row with the least last activity of all, even where the listing broke off; nobody exactly if no listed row is eligible |
| `Pressure.EligibleIff` | control-plane/internal/reaper/pressure.go:136-146 | which rows are eligible |
| `Pressure.Reaper.StopHeaviestRSS` | control-plane/internal/reaper/pressure.go:188-262 | the target is a listed running row with the greatest readable memory of those listed; nobody exactly if none of them can be read |
| `Pressure.WholeListingsDecide` | control-plane/internal/reaper/pressure.go:101-120 | with whole listings a tick goes for somebody exactly if there is somebody its band may stop, and in the emergency band for the heaviest of all |
| `Pressure.CutListingSparesHeaviest` | control-plane/internal/store/store.go:203-243 | an emergency tick whose listing broke off goes for a lighter sandbox |
| `Pressure.IdleRulesAreStricterIff` | control-plane/internal/reaper/pressure.go:122-146 | the idle reaper's due rows are exactly the advisory bands' eligible rows that were inactive since its cutoff and run no coding task |
| `Pressure.PressureMayInterruptTask` | control-plane/internal/reaper/pressure.go:122-146 | a tick that can only go for a sandbox with a running coding task, and stops it |
| `Pressure.AlwaysOnOnlyInEmergency` | control-plane/internal/reaper/pressure.go:128-135 | an always-on sandbox is stopped only in the emergency band and only as the heaviest of those listed |
| `Admit.Admit` | control-plane/internal/wake/admit.go:54-97 | admits exactly on a first reading, or with the flag clear on a second one, whose available percentage less the cost reaches the floor; the tick runs exactly in between |
| `Admit.DefaultsAre` | control-plane/internal/wake/admit.go:99-106 | the cost and the floor that stand in for unset ones |
| `Admit.FirstTestOnIntegers` | control-plane/internal/wake/admit.go:61-67 | with a whole-number floor the first test is an inequality between integers, the cost being that many MB in KB, wrapped to 64 bits |
| `Admit.SecondTestOnIntegers` | control-plane/internal/wake/admit.go:82-90 | and so is the second, which takes the cost relative to the first total |
| `Reconcile.Reconciler.ReconcileRow` | control-plane/internal/reconcile/reconcile.go:176-243 | one row by its verdict; no other row changes |
| `Reconcile.VisitStores` | control-plane/internal/reconcile/reconcile.go:176-243 | what a visit stores: an error for a create more than five minutes old, the short container id and the cgroup of a running container, and otherwise a stopped row without an address |
| `Reconcile.Reconciler.Once` | control-plane/internal/reconcile/reconcile.go:62-95 | exactly the listed rows change, each by its own verdict, and the counters count the verdicts; nothing changes if the query fails |
| `Reconcile.CountsAddUp` | control-plane/internal/reconcile/reconcile.go:62-95 | every visited row is counted once or skipped |
| `Reconcile.Converges` | control-plane/internal/reconcile/reconcile.go:176-243 | with inspections and writes succeeding a row is left creating exactly if it was not listed, every listed row agrees with its container or is a stale create marked error, stopped ones keep no address, the others are as they were, with a whole listing exactly the rows in error, and the counters add up |
| `Reconcile.SecondPassChangesNothing` | control-plane/internal/reconcile/reconcile.go:59-95 | a second pass over unchanged containers changes nothing but the update time of a row the first one visited, and of any row if the first listing was whole |
| `DevServer.BackoffIsCappedPower` | control-plane/cmd/runtimed/devserver.go:150-159 | for every integer, wrapping shifts and counts of 64 and more included, the delay is 2^(max(n,1)-1) seconds capped at thirty |
| `DevServer.Supervisor.Supervise` | control-plane/cmd/runtimed/devserver.go:44-78 | gives up exactly at the first run that closes five fast ones, goes on otherwise until cancelled, counts every finished run, and waits the backoff of the current streak |
| `DevServer.FiveFastIff` | control-plane/cmd/runtimed/devserver.go:59-68 | the counter reaches five exactly if the last five runs were fast |
| `DevServer.WaitsAreShort` | control-plane/cmd/runtimed/devserver.go:69-73 | every wait of the supervisor is 1, 2, 4 or 8 seconds |
| `Preview.ParseIff` | control-plane/internal/api/preview_common.go:38-46 | the host pattern matches in at most one way, and the parser finds it exactly if it is there |
| `Preview.HostRoundTripIff` | control-plane/internal/traefik/traefik.go:57-58 | the printed host, with or without a port suffix, parses back to its id and port exactly if the id is letters and digits |
| `Preview.RouterNamesAreInjective` | control-plane/internal/traefik/traefik.go:57-57 | a router name determines id and port, whatever the id is made of |
| `Preview.CatchAllRecoversIff` | control-plane/internal/wake/handler.go:129-143 | from a lower-cased host the catch-all recovers the id and port exactly if the id has no lower-case letter and the domain no upper-case one |
| `Preview.LowerCaseIdIsNotFound` | control-plane/internal/wake/handler.go:129-143 | a host whose sandbox has a lower-case id, looked up under another one |
| `Preview.ForwardAuthRecoversIff` | control-plane/internal/api/forward_auth.go:29-38 | from a lower-cased host forward-auth recovers the id exactly if neither the id nor the domain has an upper-case letter |
| `Preview.BothRecoverIff` | control-plane/internal/api/preview_common.go:35-46 | the catch-all and forward-auth both recover it exactly if the id is digits only and the domain has no upper-case letter |
| `Preview.UpperCaseIdIsNotFound` | control-plane/internal/api/forward_auth.go:29-38 | a browser's host whose sandbox has an upper-case id, which forward-auth looks up under another one |
| `Preview.Labels` | control-plane/internal/traefik/traefik.go:44-81 | the labels are exactly the required ones: a rule, entry point, priority and service per port, TLS and the auth middleware on every router or on none |
| `Preview.PrivateIsGated` | control-plane/internal/store/writer.go:75-93 | from the request on, every router of a created sandbox carries the auth middleware exactly if it was requested private, whether read off the request or off the stored row |

## Left out

- HTTP encoding, status pages, metrics, logging, environment wiring, tokens and redirects: plumbing around the guards and lock regions modelled here.
- Docker, zstd, fsck, mount, cgroup and file-system calls are inputs that succeed or fail; decompressing a finished archive gives back what was compressed.
- The delete handler's teardown and the purge's egress entries: the row's removal is `Rows.Tables.Delete`.
- SQL and JSON text: the effect on the tables, and decoded values.
- TaskLog.RunTask: the result's timestamps, durations, token usage and preview status are not carried; the context is read once, after the agent.
- TaskStream.RunInv: torn or failed writes of the log file are not modelled, nor is the 4 MiB line limit of the replay.
- TaskStream.ExactlyOnce: is about logs that runtimed itself finished; for recovered ones see `TaskStream.RecoveryKeepsIdsIff`.
- Opencode.ParseOpencodeStream: what `toolTarget` extracts from a tool's arguments is a given string, token counts are unbounded, and costs are exact numbers, because floating-point addition is not associative.
- WakeProtocol.RunInv: a thread of snapshot, restore, prune, delete, purge, image capture or push is its sequence of critical sections; what it does inside is in the other modules.
- WakeHandler.Handler.Serve: is the request that leads, since a follower blocks; followers are threads of `WakeProtocol`. The readiness probe, which decides nothing, is not modelled.
- Timestamps.FormatParse: Go also reads fractional seconds after the seconds field, which the layout never prints; such names count as unreadable here.
- Retention.PruneProperties: the cutoff is a whole second.
- SnapshotDisk.AbortRestoresDisk: whether the image is mounted after an abort is not tracked.
- Auto-snapshot schedule, access-log tailer, connection poller, egress manager and nginx watcher.
- Backfill of legacy rows, which breaks the agreement of owners on purpose.
- Rows.OwnersAlwaysAgree: lookups of the guard that fail abort the request and are not modelled; a create whose caller leaves is one of its operations, carried out or not.
- Reaping.StopSandbox: says which writes are carried out, not what their callers, who only count and log, are told.
- Row stopped implies container stopped: not an invariant of the code, since the reapers take no id lock.
- TaskWatch.AtMostOneFinish: counts the writes of one process; the git push after a result is not modelled.
- Admit.Admit: exact rationals instead of floating point.
- Idle.Reaper.Tick: the rows are those of one moment; activity recorded between the query and a stop is not modelled, nor is it for Pressure.Reaper.Tick.
- Reconcile.Reconciler.Once: re-mounting, the orphan scans, which only log, and the egress branch are not modelled.
- DevServer.Supervisor.Supervise: process groups and signals of a shutdown are not modelled.
- Preview.ParseIff: trimming white space around a host is not modelled; the return-URL checks use the same pattern.
