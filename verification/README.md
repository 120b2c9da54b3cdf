# btrepl: a verified model

btrepl replicates btrfs subvolumes from a master to slaves. Each cycle takes read-only snapshots, sends the newest one to
every slave, incrementally where the two sides have a snapshot in common, prunes both sides, and remembers in a cursor
file the last snapshot it has in common with each slave. A slave can be promoted to a standalone host at any time. This
project models the replication cycle, the command filter on the slaves, the promotion, and the parsers they depend on,
and proves what an operator relies on: that no failure, crash or absence costs the common snapshot, the promotable copy
or the data that is being replaced.

`dafny verify dfyconfig.toml` checks the project.

## How it is built

- `Protocol` gives one cycle as a function of the world (local snapshots, slaves, cursor file) and of a tape of events,
  one for each fallible command. A command may succeed, fail, take effect and be reported as failed, or, if it is a
  receive, leave a writable leftover. A tape that runs out is a crash, so the shorter tapes give the state after every
  single command: `Tapes` proves that one event more is at most one change more. `Run` is any number of cycles.
- `Replicator` has the cycle in the form of the source: a class whose fields the loops update in place. Its methods are
  proved to do what the functions of `Protocol` say.
- `Effects`, `LocalEffects`, `SlaveEffects`, `CycleEffects` say exactly what the parts of a cycle do, for every tape and
  command by command: which snapshots are made and deleted, what is sent and from which parent, and when it is an error.
  `World.streams` records what was sent, and has no other use.
- `Safety`, `Replication`, `Cycles`, `Runs` carry the invariant and the retention law of the slaves through the commands,
  the subvolumes, the slaves and the whole cycle. `Theorems`, `Convergence` and `Sends` state the results, `Limits`
  where they end; `LocalPruning` has the local prune plan.
- `Lock` is the cycle lock over any interleaving of step-by-step processes; `LockedCycles` applies it to cycles.
- `Reconfigured` has the runs between whose cycles the configuration changes.
- `Text`, `Paths` and `Shell` model the string and path functions of Go and the POSIX shell's word splitting, for `Remote`
  (quoting) and `Filter` (the forced command).
- `Restore` and `Standalone` are the promotion. `Naming`, `SubvolList`, `SnapshotList` and `Mount` are names and parsers;
  `SnapshotList` ties the text that btrfs prints to the listing that `Protocol` works on. `Watchdog` has the two timers.

## What is assumed of the environment

- btrfs gives every new subvolume a fresh UUID. A complete receive leaves a read-only copy with the sender's UUID, an
  interrupted one a writable subvolume; a receive fails if the name is taken or the parent is not there.
- Local snapshots are read-only (`src/btrepl/internal/btrfs/btrfs.go:103` uses `-r`) and differ in their send UUIDs.
- At the start each slave's complete snapshots are copies of the master's, none newer than its newest. This, with the
  two points above, is the predicate `Inv`; `Theorems.FreshInstallation` shows that it holds of an empty installation.
- Configured slaves are distinct filesystems, and the configured subvolumes differ after stripping "@".
- Each side has at most one listed entry per snapshot name, and the two listing commands see the same state. The suffix
  match of `subvollist.go:107` also accepts nested paths with the same last element, while deletes go by name.
- `snapshot_dir` is not empty after cleaning; otherwise that suffix never matches a path as btrfs prints it.
- Nobody else deletes snapshots. Stats and renames report truthfully, and a rename onto an existing directory fails, as
  Go's `os.Rename` does.

A snapshot name is modelled as the pair of subvolume and time, which `Naming.NameDetermines` justifies, and a UUID as a
number, which `SnapshotList.NumberingIsFaithful` does.

## What the code does not promise

Each of these has an input at which it happens, and the condition for it.

- An unreadable cursor file is replaced by empty cursors and saved over: in a cycle that saves, a slave loses an anchor
  that is below the age limit if the file was unreadable and the slave was not reached, and only then
  (`Theorems.AnchorKeptExactly`, `Limits.UnreadableFileLosesAnchor`). One over the limit is deleted on purpose
  (`LocalPruning.AnchorDeletedOnlyIfExpired`).
- Between the remote prune and the save the cursor on disk may be stale (`Limits.CursorGoesStale`).
  `Theorems.StaleCursorBound` says how far it can get, and `Limits.UnsavedCycleExactly` when one cycle is enough.
- `Manager.Restore` says that a failure at any step leaves the existing subvolume in place. If both renames fail, the
  target is empty and the data is at the returned path (`Restore.TargetEmptiedExactly`, `Restore.FailureEmptiesTarget`).
- `Manager.Restore` says that it returns the path of old data it could not delete. It returns none if the `show` inside
  `DeleteSubvolume` fails, which reads as "not there" (`Restore.UnreportedExactly`, `Restore.UnreportedHappens`).
- After a call that completed and deleted the original data, a repeated call that is cut off between its two renames
  leaves the target empty and only the first clone at an old path (`Restore.RepeatedCallLosesBoth`).
  `Restore.RepeatedExactly` says from which states "original, clone, or original at an old path" survives every further
  call; `Restore.NeverLost` is what holds always.

## Model

| member | source | states |
|---|---|---|
| `Replicator.Replicator.RunCycle` | src/btrepl/internal/replication/replicator.go:51-107 | The imperative cycle, with its loops over subvolumes and slaves and its in-place updates, ends in the world and with the error flag that `Protocol.Cycle` gives for the world it began in; so every theorem about `Cycle` and `Run` is about this method |
| `Replicator.Replicator.ReplicateSlave` | src/btrepl/internal/replication/replicator.go:125-149 | One listing of the slave serves all subvolumes; a failed subvolume does not stop the others, and the error of any of them is returned |
| `Replicator.Replicator.ReplicateSubvol` | src/btrepl/internal/replication/replicator.go:170-213 | Deletes garbage, sets or clears the cursor to the parent before sending, sends unless the parent is the newest snapshot, sets the cursor to the sent snapshot only after a success, then prunes; nothing is pruned after a failed send |
| `Replicator.Replicator.PruneLocal` | src/btrepl/internal/replication/replicator.go:215-231 | Deletes what the plan lists, oldest first; a refused delete is passed over (`LocalEffects.PrunedExactly` says what that leaves) |
| `Replicator.Replicator.LoadCursors` | src/btrepl/internal/replication/replicator.go:79-84 | A file that cannot be read is taken for one without cursors, and that is remembered |
| `Replicator.Replicator.SaveCursors` | src/btrepl/internal/replication/cursors.go:84-101 | Replaces the file by the cursors of the configured slaves, at once or not at all |
| `Replicator.Replicator.CreateSnapshot` | src/btrepl/internal/btrfs/btrfs.go:80-110 | A taken name makes it wait for the next second once; a second clash is an error and changes nothing (`Effects.CreateExactly` is the whole of it) |
| `Replicator.Replicator.Send` | src/btrepl/internal/replication/replicator.go:196-198 | The whole new world of a send: a complete copy, also when it is reported as failed; a leftover when it is cut off; nothing when the parent is missing or the name is taken |
| `Effects.CreateExactly` | src/btrepl/internal/btrfs/btrfs.go:80-110 | A snapshot is made under the first of two readings of the clock whose name is free, exactly if the command takes effect; it is an error exactly if both names are taken or the command was not done; nothing else changes |
| `Effects.SnapshotTurn` | src/btrepl/internal/replication/replicator.go:63-68 | Every subvolume has its turn, whatever became of those before it, and what its turn leaves is there when all are taken |
| `Effects.TakeFails` | src/btrepl/internal/replication/replicator.go:63-68 | Taking the snapshots is an error exactly if it is one in some turn |
| `Effects.SnapshotOfEach` | src/btrepl/internal/replication/replicator.go:63-68 | If it is no error, each configured subvolume has exactly one new read-only snapshot more |
| `Effects.SweepExactly` | src/btrepl/internal/replication/replicator.go:204-229 | Every delete is tried, whatever became of those before it, and an entry goes exactly if one of its deletes takes effect |
| `LocalEffects.NewestKept` | src/btrepl/internal/replication/plan.go:99-113 | In every cycle, whatever fails, the newest max(keep_sender, 1) snapshots of each subvolume stay |
| `LocalEffects.PrunedExactly` | src/btrepl/internal/replication/replicator.go:215-231 | For every tape: of what the cycle found of a subvolume, it leaves all but the snapshots past keep_sender that are no slave's anchor below the age limit (with the clock as read at this prune) and whose delete takes effect |
| `LocalEffects.CleanPruneExactly` | src/btrepl/internal/replication/replicator.go:103-106 | When every command from the save on is done: exactly the newest max(keep_sender, 1), and the anchors of configured slaves that are not over max_anchor_age, are left |
| `LocalEffects.FinishExactly` | src/btrepl/internal/replication/replicator.go:96-107 | The cursor file is replaced exactly if the save takes effect; local snapshots are pruned only if the file had been read and the save was done; it is an error exactly if one was met before or one of these was not so |
| `SlaveEffects.TurnExactly` | src/btrepl/internal/replication/replicator.go:170-213 | The turn of one subvolume on one slave, for every tape: which garbage and which old copies go by which command, what arrives and by which stream with which parent, where the cursor ends up, how many commands it takes, and that it is an error exactly if a send was needed and was not done |
| `SlaveEffects.TurnWithout` | src/btrepl/internal/replication/replicator.go:170-183 | Without a local snapshot the garbage is deleted all the same, and then it is an error |
| `SlaveEffects.FailedTurnPrunesNothing` | src/btrepl/internal/replication/replicator.go:196-207 | After a turn that is an error every complete copy that was on the slave is still there |
| `CycleEffects.StartExactly` | src/btrepl/internal/replication/replicator.go:63-84 | The cycle goes on exactly if the snapshots could be listed, with the cursors on disk if they could be read and with none otherwise |
| `CycleEffects.ReachedExactly` | src/btrepl/internal/replication/replicator.go:125-139 | A slave is reached exactly if it answers when its turn comes, whatever became of the slaves before it |
| `CycleEffects.CycleFails` | src/btrepl/internal/replication/replicator.go:51-107 | A cycle returns an error exactly if taking a snapshot was one, the listing, the cursor file or the save failed, a slave did not answer, or the turn of a subvolume was an error; without slaves it does nothing |
| `CycleEffects.EveryTurnExactly` | src/btrepl/internal/replication/replicator.go:125-213 | In every cycle of every run, every turn is what `SlaveEffects.TurnExactly` says, going by the listing from before the slave's turn |
| `CycleEffects.CatchUpStream` | src/btrepl/internal/replication/replicator.go:185-198 | After any run that keeps the anchor, whatever the next turn streams to the slave is the newest snapshot, sent incrementally from a parent at least as new as the cursor was |
| `Theorems.RunSafe` | src/btrepl/internal/replication/replicator.go:51-107 | In every run, whatever fails or crashes: the invariant between the two sides holds, the newest local snapshot of a subvolume never goes back in time, and no complete copy leaves a slave until max(keep_receiver, 1) newer complete ones are there |
| `Theorems.FreshInstallation` | src/btrepl/internal/replication/replicator.go:51-107 | The premises of the run theorems hold where nothing has been replicated yet, so every run that starts there keeps the invariant and the stale-cursor bound, and the anchor invariant if every cycle that reaches a slave saves |
| `Runs.CycleSafe` | src/btrepl/internal/replication/replicator.go:51-107 | The same for one cycle from any state in which the invariant holds |
| `Runs.StoppedCycle` | src/btrepl/internal/replication/replicator.go:70-73 | A cycle without slaves, or whose local listing fails, deletes nothing and leaves slaves and cursor file alone |
| `Safety.TakeSnapshotsSafe` | src/btrepl/internal/replication/replicator.go:63-68 | Taking snapshots keeps the invariant with any clock, also one that runs backwards, and loses no local snapshot |
| `Replication.SubvolSafe` | src/btrepl/internal/replication/replicator.go:170-213 | One subvolume on one slave, any outcome of every command: other subvolumes and slaves are not touched, copies are retained, and the cursor left in memory is backed by snapshots on both sides |
| `Cycles.ReplicateSlavesSafe` | src/btrepl/internal/replication/replicator.go:86-94 | The phase over all slaves: each one is either not reached and exactly as before, copies and cursors, or reached with every subvolume accounted for |
| `Theorems.AnchorKeptExactly` | src/btrepl/internal/replication/replicator.go:79-102 | After a cycle that saved, a slave that had an anchor on both sides has one exactly if the cursor file was readable or the slave was reached; otherwise it has no cursor at all. A cursor never goes back in time. With an age limit this holds while no clock reading puts the anchor over it |
| `Limits.UnreadableFileLosesAnchor` | src/btrepl/internal/replication/replicator.go:79-102 | An input at which it is lost: the file cannot be read, the slave cannot be reached, and the save works |
| `Theorems.AnchorInvariant` | src/btrepl/internal/replication/replicator.go:86-105 | Over all runs in which every cycle that reaches a slave saves: every cursor on disk that no clock reading of the run puts over the age limit (without a limit: every cursor) names a read-only local snapshot of which the slave holds a complete copy |
| `Theorems.AnchorStays` | src/btrepl/internal/replication/replicator.go:79-105 | An anchor, once there, is there after any run in which each cycle that saves had read the file or reached the slave, and each cycle that does not save had not reached it, as long as it is not over the age limit |
| `Theorems.StaleCursorBound` | src/btrepl/internal/replication/replicator.go:96-105 | Over all runs, with crashes, unreadable files and failed saves anywhere: the snapshot a cursor on disk names stays local, and its copy stays on the slave until max(keep_receiver, 1) newer complete copies are there. With an age limit this is about the cursors that no clock reading of the run puts over it |
| `Limits.UnsavedCycleExactly` | src/btrepl/internal/replication/replicator.go:96-105 | How tight that is for one cycle: every next cycle that does not save leaves the anchor on both sides exactly if the newer complete copies on the slave and one more are fewer than max(keep_receiver, 1) |
| `Limits.CursorGoesStale` | src/btrepl/internal/replication/replicator.go:96-99 | An input at which the cursor on disk goes stale: six commands that work and then the end of the process, and the slave no longer has the copy that the file still names |
| `Theorems.OfflineCatchUp` | src/btrepl/internal/replication/replicator.go:185-196 | After any run that keeps the anchor, as one does in which the slave is away, and for any keep_sender, the parent chosen next time exists and is at least as new as the cursor |
| `Replication.SendsAreApplicable` | src/btrepl/internal/replication/replicator.go:171-198 | When a send with a parent is issued, after whatever became of the garbage deletions, the slave holds a complete copy received under the parent's send UUID, and the parent is strictly older than what is sent |
| `Sends.EverySendApplies` | src/btrepl/internal/replication/replicator.go:171-198 | In every cycle of every run, for every slave and subvolume, at the moment it is replicated: after the garbage deletions, whatever became of them, the slave holds a complete copy of the parent chosen from the earlier listing, and the parent is older than what is sent |
| `Sends.MomentsOfCycle` | src/btrepl/internal/replication/replicator.go:86-94 | The moments that theorem speaks of are the states the cycle passes through: what is left to do leads from each of them to the end of the phase |
| `Sends.CatchUpIsIncremental` | src/btrepl/internal/replication/replicator.go:185-196 | At the moment of the first send after such a run, the chosen parent exists and is at least as new as the cursor was before it |
| `Safety.ParentIsCommon` | src/btrepl/internal/replication/plan.go:12-25 | The parent is a local snapshot with its complete copy under its own name on the slave, and no common snapshot is newer |
| `Theorems.PromotableNeverLost` | src/btrepl/internal/replication/replicator.go:170-213 | In every run the newest complete snapshot of a subvolume on a slave never goes back in time, and never goes missing |
| `Theorems.TimeDominance` | src/btrepl/internal/replication/replicator.go:200-205 | In every run no complete copy on a slave is newer than the newest local snapshot, whatever the clock does |
| `Safety.LatestDominates` | src/btrepl/internal/replication/plan.go:59-67 | At a send, every complete copy on the slave is older than the snapshot that is sent, so appending it keeps the list sorted and the prune keeps it |
| `Safety.PruneRetains` | src/btrepl/internal/replication/plan.go:61-67 | Pruning a slave keeps the newest max(keep, 1) of the list and breaks no promise of retention, whichever deletes fail |
| `Convergence.SuccessMeansSynced` | src/btrepl/internal/replication/replicator.go:96-107 | A cycle that returns no error has left every slave with a complete copy of the newest local snapshot of every subvolume, and a saved cursor that names it |
| `Convergence.CleanCycleConverges` | src/btrepl/internal/replication/replicator.go:51-107 | A cycle in which no command fails, from any reachable state, leaves every slave synced, without leftovers, with at most max(keep_receiver, 1) complete copies, and at most max(keep_sender, 1) local snapshots plus one per slave; it returns an error only if taking a snapshot did, and syncs all the same |
| `Plan.LatestCommon` | src/btrepl/internal/replication/plan.go:12-25 | The newest read-only local snapshot whose send UUID is the received UUID of a complete remote one |
| `Plan.CommonExactly` | src/btrepl/internal/replication/plan.go:12-25 | The parent is the newest read-only snapshot under whose send UUID a complete snapshot was received, and there is none only if there is no such snapshot |
| `Plan.NewestReadOnly` | src/btrepl/internal/replication/plan.go:28-35 | The newest read-only snapshot, none if there is none |
| `Plan.NewestExactly` | src/btrepl/internal/replication/plan.go:28-35 | The search finds the newest read-only snapshot, or the newest complete one, and nothing only if there is none |
| `Snapshots.NewestOfIsNewest` | src/btrepl/internal/replication/plan.go:12-35 | What those two searches look for: the match later than every other match, none exactly if nothing matches |
| `Plan.SplitRemote` | src/btrepl/internal/replication/plan.go:42-57 | The loop computes the complete and the leftover part of the list |
| `Plan.OfKindExact` | src/btrepl/internal/replication/plan.go:37-57 | Each part is in order and holds exactly the snapshots of its kind |
| `Plan.KindsExactly` | src/btrepl/internal/replication/plan.go:43-57 | Of a slave's snapshots that are not the host's own, the read-only received ones are complete and all others are garbage |
| `Plan.OwnSnapshotsAreLeftAlone` | src/btrepl/internal/replication/plan.go:37-49 | A slave address that points back at the master: none of its snapshots is complete or garbage |
| `Plan.PlanLocalPrune` | src/btrepl/internal/replication/plan.go:83-116 | The two loops with their map updates compute the plan that the next two lemmas describe |
| `LocalPruning.LocalPruneExact` | src/btrepl/internal/replication/plan.go:80-116 | The newest max(keep, 1), the held snapshots and the deleted ones split the list, in order; no name is both held and expired; at most max(keep, 1) plus one per slave stay |
| `LocalPruning.AnchorDeletedOnlyIfExpired` | src/btrepl/internal/replication/plan.go:80-116 | A configured slave's anchor is deleted exactly if it is past the newest max(keep, 1) and over a positive age limit, and is then reported as expired for that slave; otherwise, past the newest, it is held for it |
| `CursorTable.FindSnapshot` | src/btrepl/internal/replication/cursors.go:27-34 | The index loop finds the first local snapshot with the cursor's UUID |
| `CursorTable.FindBySendUuid` | src/btrepl/internal/replication/cursors.go:26-34 | It finds one exactly if one is sent under that UUID |
| `CursorTable.SetGet` | src/btrepl/internal/replication/cursors.go:68-78 | Setting a cursor changes that one and no other |
| `CursorTable.ClearGet` | src/btrepl/internal/replication/cursors.go:80-82 | Clearing a cursor removes that one and no other |
| `CursorTable.Table.SetTo` | src/btrepl/internal/replication/cursors.go:73-78 | The nested map is updated in place, and created for a new slave |
| `CursorTable.Table.Remove` | src/btrepl/internal/replication/cursors.go:80-82 | The entry is removed in place; a slave without a table is left alone |
| `CursorTable.Table.ToSave` | src/btrepl/internal/replication/cursors.go:85-91 | The loop keeps the non-empty tables of the configured slaves |
| `CursorTable.SavedKeepsConfigured` | src/btrepl/internal/replication/cursors.go:84-91 | What is loaded after a save is what was in memory, for the configured slaves, and nothing for others |
| `Lock.Serialises` | src/btrepl/internal/replication/lock.go:17-32 | Any interleaving of step-by-step processes, any of them killed anywhere, leaves what the ones that got the lock leave one after the other; at most one holds it; those not killed ran to their end; those turned away changed nothing |
| `Lock.AskedExactly` | src/btrepl/internal/replication/lock.go:20-36 | After any interleaving, a process that asks gets the lock exactly if no process is in its turn and is turned away otherwise; a killed or finished process is out of its turn; only the process in its turn changes anything |
| `LockedCycles.InterleavingIsRun` | src/btrepl/internal/replication/replicator.go:56-60 | Cycles of the daemon and of `btrepl run` in any interleaving leave the world of a serial run of the ones that got the lock, so no cursor update is lost and every theorem about runs applies |
| `LockedCycles.StepIsOneCommand` | src/btrepl/internal/replication/replicator.go:51-107 | Each step of these processes changes at most what one command can: one entry of one host, or the cursor file |
| `Tapes.OneMoreCommand` | src/btrepl/internal/replication/replicator.go:51-107 | A cycle that is cut off one command later leaves at most one entry of one host, or the cursor file, other than the one cut off before it; so a shorter tape is the same cycle at an earlier moment |
| `Remote.Unquote` | src/btrepl/internal/remote/remote.go:94-127 | Terminates, accepts exactly the words that `Quote` produces, and returns the string that was quoted |
| `Remote.QuoteInjective` | src/btrepl/internal/remote/remote.go:86-92 | Two strings with one quoted form are the same string |
| `Remote.QuoteIsOneWord` | src/btrepl/internal/remote/remote.go:86-92 | Read by the rules of sections 2.2.1, 2.2.2 and 2.3 of the POSIX.1-2017 shell language, Quote(s) is exactly one word, equal to s, for every s |
| `Remote.QuotePlain` | src/btrepl/internal/remote/remote.go:87-92 | A string is left as it is exactly if it is not empty and has only safe characters |
| `Filter.Allow` | src/btrepl/internal/remote/remote.go:45-71 | Accepts exactly the six fixed commands and the delete of a valid name in the snapshot directory; the argv is the POSIX word split of the command |
| `Filter.SnapshotDeletePasses` | src/btrepl/internal/remote/remote.go:38-80 | The delete of a snapshot, by the name that btrepl gives it, is let through exactly if the configured prefix and the subvolume use only safe characters (neither has a slash). The six other commands of a cycle are fixed ones |
| `Filter.NewIsWellFormed` | src/btrepl/internal/remote/remote.go:19-22 | The two paths are clean whatever the settings, which is what `Allow` relies on |
| `Filter.NewPaths` | src/btrepl/internal/remote/remote.go:19-22 | root has the elements of btrfs_root and the snapshot directory is snapshot_dir resolved from there; without a ".." its elements follow those of btrfs_root, and a single name can be taken off again |
| `Paths.CleanIdempotent` | src/btrepl/internal/remote/remote.go:20-21 | `filepath.Clean` as modelled gives normal paths, and cleaning twice is cleaning once |
| `Paths.CleanRules` | src/btrepl/internal/remote/remote.go:20 | An empty component and a "." come to nothing, a ".." takes away the element before it, and at the root it comes to nothing |
| `Paths.JoinThenSplit` | src/btrepl/internal/remote/remote.go:39-66 | `Dir` and `Base` take apart what `Join` put together, for a clean directory and a single name |
| `Restore.Disk.Restore` | src/btrepl/internal/btrfs/btrfs.go:276-322 | The imperative call leaves the disk, the returned path and the error that `RestoreFrom` gives, operation by operation |
| `Restore.Disk.DeleteSubvolume` | src/btrepl/internal/btrfs/btrfs.go:237-251 | A failed `show` reads as nothing to delete, one that cannot be run is an error |
| `Restore.RestoreAccounted` | src/btrepl/internal/btrfs/btrfs.go:272-322 | What error and returned path say: with an error and no path the target is as it was; with an error and a path it is empty and its data intact there; without error it holds the clone, and a returned path holds the old data unless its delete took effect and was reported as failed |
| `Restore.FailureExactly` | src/btrepl/internal/btrfs/btrfs.go:276-309 | A call fails exactly if the clone could not be made or a command up to the swap did not work; a failed call that returns no path leaves the disk as it was but for the clone's path, and nothing there exactly if the `show` and the delete after the failure take effect; otherwise the target's data is at the returned path |
| `Restore.SuccessExactly` | src/btrepl/internal/btrfs/btrfs.go:299-321 | The whole disk and the returned path after a call that succeeds, for every tape: the clone is at the target, and the old data is gone, or left where it was moved to |
| `Restore.TargetEmptiedExactly` | src/btrepl/internal/btrfs/btrfs.go:272-310 | The target is left empty exactly if the clone was made, the target was moved aside to a free name, and the rename of the clone and the one back both fail or are cut off |
| `Restore.FailureEmptiesTarget` | src/btrepl/internal/btrfs/btrfs.go:272-310 | An input at which a failed call does so: five commands that work, and two renames that do not |
| `Restore.CrashSafe` | src/btrepl/internal/btrfs/btrfs.go:272-322 | Cut off anywhere: the target holds what it held, or the clone, or is empty with its data intact at an old path; what is at old paths already stays |
| `Restore.NeverLost` | src/btrepl/internal/btrfs/btrfs.go:272-322 | Over any sequence of failed, cut off and repeated calls: until a call has brought its clone to the target the original data is at the target or an old path, and always that or a clone of a snapshot asked for is |
| `Restore.RepeatedExactly` | src/btrepl/internal/btrfs/btrfs.go:276-322 | "Original, clone, or original at an old path" survives every further call exactly if the original data is still there or a plain directory blocks the clone's path; otherwise a concrete cut-off call breaks it |
| `Restore.RepeatedCallLosesBoth` | src/btrepl/internal/btrfs/btrfs.go:276-322 | An input at which it breaks: after a call in which nothing fails, a second one is cut off between its renames; the target is empty and the original data is nowhere |
| `Restore.UnreportedExactly` | src/btrepl/internal/btrfs/btrfs.go:272-321 | "Returns the path of old data it could not delete" fails exactly if the swap worked, the old data was a subvolume and was shown to be one, and the second `show` of it failed or was cut off: the call succeeds, and the old data stays at a path that is not returned |
| `Restore.UnreportedHappens` | src/btrepl/internal/btrfs/btrfs.go:311-321 | An input at which it does: everything works but that `show` |
| `Restore.CleanRestore` | src/btrepl/internal/btrfs/btrfs.go:276-322 | When nothing fails: the target holds the clone, a subvolume that was there is gone, a plain directory is kept at the returned path, and nothing else has changed |
| `Standalone.LatestReceived` | src/btrepl/cmd/btrepl/main.go:414-424 | Returns the newest complete received snapshot and reports exactly the newer ones, newest first, none of them complete |
| `Standalone.Host.Detach` | src/btrepl/cmd/btrepl/main.go:236-258 | The loop restores one subvolume after the other and passes over those without a complete snapshot and those whose restore fails |
| `Standalone.DetachSafe` | src/btrepl/cmd/btrepl/main.go:236-258 | Whatever fails: each subvolume is only changed as the crash safety of its own restore allows, and one without a complete snapshot not at all |
| `Standalone.EachRestored` | src/btrepl/cmd/btrepl/main.go:236-258 | Every subvolume with a complete snapshot has its restore, whatever became of those before it, and the others are left alone |
| `Standalone.OwnTurnPromotes` | src/btrepl/cmd/btrepl/main.go:236-258 | A subvolume with a complete snapshot whose own ten commands work holds its clone in the end, whatever became of those before it |
| `Standalone.PromotionAfterAnyRun` | src/btrepl/cmd/btrepl/main.go:236-260 | A slave that once had a complete copy is promoted, when the promotion does not fail, to a copy that is complete and at least as new, whatever happened in the cycles between |
| `Reconfigured.CycleLeavesOthersAlone` | src/btrepl/internal/replication/replicator.go:51-107 | Whatever happens in a cycle, what is not in its configuration stays exactly as it is: every other slave, and on both sides the snapshots of every other subvolume |
| `Reconfigured.TurnsSafe` | src/btrepl/cmd/btrepl/main.go:127-218 | Safety of every run in which each cycle has a configuration of its own, with slaves and subvolumes added, dropped and added again and limits changed: the invariant for all subvolumes, the newest local snapshots, and the retention of as many copies as every cycle keeps |
| `Reconfigured.PromotableSurvives` | src/btrepl/cmd/btrepl/main.go:127-218 | In every such run the newest complete snapshot on a slave never goes back in time and never goes missing, also while the slave is not configured |
| `Reconfigured.AnchorSurvives` | src/btrepl/cmd/btrepl/main.go:127-218 | In every such run an anchor stays as long as each cycle configures both sides of it, saves only if it had read the file or reached the slave, does not save only if it had not reached it, and the anchor is not over the age limit of that cycle |
| `Reconfigured.RunIsTurns` | src/btrepl/cmd/btrepl/main.go:127-218 | The runs of the other theorems are those in which the configuration stays the same |
| `Reconfigured.PromotionAfterTurns` | src/btrepl/cmd/btrepl/main.go:236-260 | The promotion is to a complete copy that is at least as new after every such run too |
| `SubvolList.ParseSubvolumeList` | src/btrepl/internal/btrfs/subvollist.go:31-58 | Fails exactly if a line with a path has no UUID; otherwise gives one entry per line with a path, in order, read-only exactly if the other listing has its path |
| `SubvolList.ListField` | src/btrepl/internal/btrfs/subvollist.go:72-82 | The value after the first occurrence of the key, empty if there is none or it is "-" |
| `SubvolList.FieldExactly` | src/btrepl/internal/btrfs/subvollist.go:72-82 | The value of a key is what follows its first place, empty if that is "-" or nothing |
| `SubvolList.ParsePrinted` | src/btrepl/internal/btrfs/subvollist.go:29-69 | Reading undoes printing: subvolumes with distinct paths, with blanks or " path " in them, come back in order with their UUIDs, received UUIDs and flags |
| `SubvolList.PrintedLacksUuid` | src/btrepl/internal/btrfs/subvollist.go:45-49 | The read of a printed listing fails exactly if a subvolume was printed without a UUID |
| `SubvolList.FirstPath` | src/btrepl/internal/btrfs/subvollist.go:62-69 | The first " path " of a line is the one after the key/value part, whatever the path contains |
| `SnapshotList.Snapshots` | src/btrepl/internal/btrfs/subvollist.go:97-126 | Returns, in time order, exactly the entries whose path ends in the elements of the snapshot directory and a name made of prefix, subvolume and a time stamp, with the time of that stamp |
| `SnapshotList.PickExactly` | src/btrepl/internal/btrfs/subvollist.go:103-114 | The two string tests of the source, prefix and suffix, accept exactly those entries |
| `SnapshotList.ListsAreDisjoint` | src/btrepl/internal/btrfs/subvollist.go:100-126 | Subvolumes that differ after stripping "@" have no snapshot in common |
| `SnapshotList.SnapshotsAreListing` | src/btrepl/internal/btrfs/subvollist.go:97-126 | For any filesystem with one entry per snapshot name, at the path of that name, and anything else elsewhere, this is the listing of the snapshot directory that the protocol is proved about, in whatever order btrfs lists |
| `SnapshotList.NumberingIsFaithful` | src/btrepl/internal/btrfs/btrfs.go:31-42 | Numbering the UUIDs changes neither which snapshots are complete nor which are sent under which UUID |
| `Naming.NameDetermines` | src/btrepl/internal/btrfs/btrfs.go:62-64 | A name belongs to one subvolume and one time, also when one subvolume's name continues another's with underscores |
| `Naming.ListAllSubvolumes` | src/btrepl/internal/btrfs/btrfs.go:158-190 | Exactly the "@" subvolumes that have a snapshot in the directory, each once |
| `Naming.OwnerExact` | src/btrepl/internal/btrfs/btrfs.go:170-183 | The part before the last underscore is the one "@" subvolume in whose list the entry is |
| `Naming.NamesSortByTime` | src/btrepl/internal/btrfs/btrfs.go:13-64 | For the 15-character time stamps the names of a subvolume sort as bytes exactly as their times do |
| `Mount.UnescapeMount` | src/btrepl/internal/btrfs/mount.go:62-79 | Decodes exactly the backslashes that three octal digits of a byte follow, and leaves all others |
| `Mount.EscapeDecoded` | src/btrepl/internal/btrfs/mount.go:62-79 | A backslash and three characters are decoded exactly if these are the octal digits of a byte |
| `Mount.UnescapeEscape` | src/btrepl/internal/btrfs/mount.go:62-79 | Undoes the kernel's escaping on every path |
| `Mount.CheckMountInfo` | src/btrepl/internal/btrfs/mount.go:24-51 | The loop judges the last complete line for the cleaned path |
| `Mount.SeenExactly` | src/btrepl/internal/btrfs/mount.go:26-40 | A line says something of a path exactly if it has a fifth field that unescapes to it and something after a "-" |
| `Mount.VerdictOfTable` | src/btrepl/internal/btrfs/mount.go:21-51 | For every printed mount table, namespace mounts and empty sources included: success exactly if the last entry at the path is btrfs with root "/"; "not mounted" exactly if no entry is there; "not btrfs" exactly if the last one has another type |
| `Watchdog.WatchProgress` | src/btrepl/internal/sshclient/client.go:284-307 | One report at most, never before the counter has been the same for `idle`, and within idle + 2 * check of the moment the counter stops, unless stopped before |
| `Watchdog.CheckBound` | src/btrepl/internal/sshclient/client.go:289 | The delay is at most a fifth of `idle`, or 20 ms for a short one |
| `Watchdog.Keepalive` | src/btrepl/internal/sshclient/client.go:94-125 | Gives up at the first error or at the first run of `misses` silent intervals, and never otherwise |

## Left out

- SSH transport, sessions, host keys, `PipeFrom` and TLS: a remote command is a step that succeeds, fails, or takes effect and is reported as failed.
- `RestrictKey` and `restrictAuthorizedKeys`: they rest on a key parser and on scripts that are not part of this model.
- YAML and JSON: the cursor file is a value that can be read, be unreadable, or be replaced at once.
- Connecting, checking and preparing a slave and its two listings are one command of the protocol, since none of them changes a snapshot; `Mount` and `SubvolList` have the parsers.
- Ensuring that the subvolume and the snapshot directory exist, before a snapshot is taken: part of the one command that takes it.
- `btrepl clear` and deletions by hand: they break the invariant on purpose and take no lock.
- Naming.NameDetermines: takes the time parser as a parameter and uses only that a text with an underscore is not a time; the tolerance for fractions of a second is not modelled.
- Naming.NamesSortByTime: covers the stamps that btrepl writes, years 0 to 9999.
- Remote.Unquote: strings are sequences of characters, so text that is not valid UTF-8 is not modelled.
- Mount.VerdictOfTable: paths with white space of a kind that the kernel does not escape are not covered, because the line is split at it.
- SnapshotList.Snapshots: `sort.Slice` is modelled as an insertion sort; the contract promises no order between equal times, and the listing theorem has none.
- Watchdog.WatchProgress: the clock is read once per tick, and a tick that comes late by more than the check interval is outside the premise.
- Lock.Serialises: an error other than "would block" when the lock file is opened or locked counts as being turned away.
- LockedCycles.InterleavingIsRun: a cycle's step goes from the world after n commands to the world after n + 1, as `Protocol.Cycle` gives them on shorter tapes; `LockedCycles.StepIsOneCommand` bounds it by one command.
- Reconfigured.TurnsSafe: the paths and the snapshot prefix stay as they are, and a slave's name goes on meaning the same host.
- Restore.Disk.Restore: a plain file at the target or in the way of a rename is not modelled; subvolumes and directories are.
- Standalone.Host.Detach: the paths of different subvolumes do not overlap; stopping the timers and enabling quotas are left out.
- Log lines and error texts, except which error it is where that matters.
- Configuration helpers, the gRPC server, the Python client, the installer and packaging: thin wrappers or easy members.
