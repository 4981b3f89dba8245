# Formal model of the engine's protocols and algorithms

This project models the parts of the engine whose correctness is not visible from one function, and proves what
they are for. Statements hold for all inputs, all runs or all interleavings of the model, but for the few that give a
concrete input on which something fails; each of those stands beside the exact condition.

- **Publication and recovery** (`PublicationDisk`, `CrashRecovery`, `PublicationInvariants`, `PublicationFaults`,
  `PublicationStaging`, `PublicationWorkspace`): a build is staged, journaled, renamed into a generation, selected, and copied into the
  workspace. The disk changes by single effects; class `Workspace` performs them and records them in a ghost log, so
  a crash is a prefix of that log, and recovery is itself interruptible.
- **Single-writer operation queue** (`QueueSteps`, `QueueSafety`, `QueueMeaning`, `QueueMonitor`): a transition system with one
  step per locked block, free interleaving of callers, writer, watchers and late heartbeats, and an adversarial
  cancellation proxy. Class `OperationQueue` performs the blocks on mutable fields.
- **Git-backed timeline** (`HistoryModel`, `GitHistory`): commits identified with their content, the cursor, the
  branch, git's index, the working files, and the transactional restore around them.
- **Geometry and graphs** (`Features`, `Clusters`, `WallReport`, `Worklists`): closest point on a triangle
  over exact reals, union-find with path halving, and the stack searches, against chains of links.
- **Build brief** (`BriefText`, `Assumptions`, `AssumptionOutcomes`, `Hierarchy`, `BuildBrief`, `BriefIntegrity`,
  `BriefValidator`, `StableIds`, `BriefMigration`, `BriefMigrator`, `MigrationMeaning`, `BriefStore`,
  `BriefUpdates`): validation as a fixed point, migration from v1, and revision
  control.
- **Wire framing** (`Framing`): the newline frame reader of an authorized connection.

`Wrappers`, `Sets` and `Graphs` hold what several modules share.

Where the code and what is said about it differ, the code is modelled and the difference is proved:

- `_point_tri_dist` says it returns infinity for a degenerate triangle. It does so exactly when `a` and `b` coincide
  and the query point projects beyond `a` towards `c`; on all other degenerate triangles it returns the true distance
  (`ClosestPointCorrect`).
- The I/O-error fallback of `recover_publication` can select the prior publication and leave a newer file behind
  (`FallbackLeavesNewFile`, exact condition in `FallbackExact`).
- A v1 part named `null`, `0` or `false` passes `validate_v1` with an empty name and then fails the migration
  (`NullNameFailsMigration`, exact condition in `MigrationExact`).
- Validation adds fields, so a brief that fits the size limit may be stored over it; it then reads as absent and the
  revision count restarts (`AcceptedTwice`, exact condition in `StepRevision` and, over runs, in `NoLostUpdates`).
- The journal still says `generation` when the pointer moves (paths.py:463-465). On the disk between these two writes the
  `set_params` guard takes the prior publication's model file for an outside edit (exact condition in
  `GuardDuringCommit`).
- Staging never stages a deletion and a restore leaves git's index alone, so a commit may contain a file nobody has
  (`StaleFileComesBack`, exact condition in `CommitCaptures`).

## Model

| member | source | states |
|---|---|---|
| CrashRecovery.CrashAtomicity | engine/solidifai_engine/paths.py:442-541 | from a journal-free disk that matches its selected publication, cut a commit after any effect and any number of recoveries after theirs; once a recovery completes, pointer, workspace, mirrors and journal are entirely the new publication's if the pointer had moved (or there was no predecessor and the journal was written), entirely the old one's otherwise |
| CrashRecovery.MidwayFiles | engine/solidifai_engine/paths.py:340-359 | at every crash point between the two, a file tracked by both holds bytes of one of them, a file only the old one tracks holds its bytes or is gone, and an untracked file is untouched |
| CrashRecovery.CommitAlong | engine/solidifai_engine/paths.py:442-475 | every intermediate disk of a commit is one of the two kinds of state crash atomicity relies on, and a completed one has the new publication selected and no journal |
| CrashRecovery.RecoverAlong | engine/solidifai_engine/paths.py:478-541 | every intermediate disk of a recovery, itself interruptible, keeps the side already decided, and a completed one has cleared the journal |
| CrashRecovery.MaterializationReachesTarget | engine/solidifai_engine/paths.py:340-364 | materializing a sound generation over any workspace, half-written or not, gives the tracked files and mirrors of that generation and leaves the rest alone |
| CrashRecovery.AttemptsKeep | engine/solidifai_engine/paths.py:478-541 | any sequence of recoveries that die part-way leaves the outcome of the commit decided as it was |
| PublicationInvariants.ReachableHealthy | engine/solidifai_engine/paths.py:161-250 | over every run of staging, commit, pruning, and recovery under any I/O errors, each cut anywhere, the pointer and the journalled predecessor name existing generations whose model files match their digests |
| PublicationInvariants.EmptyDiskHealthy | engine/solidifai_engine/paths.py:131-147 | a workspace nobody has published to satisfies that invariant, so every disk reached from it does |
| PublicationInvariants.CommitHealthy | engine/solidifai_engine/paths.py:442-475 | no effect of a commit breaks that invariant |
| PublicationInvariants.RecoverHealthy | engine/solidifai_engine/paths.py:478-541 | no effect of a recovery breaks it, on any healthy disk, whatever I/O errors strike it and its fallback |
| PublicationInvariants.StageHealthy | engine/solidifai_engine/paths.py:161-220 | no effect of a staging breaks it, and a staging that completes leaves a directory that loads as the manifest asked for |
| PublicationInvariants.PruneAlong | engine/solidifai_engine/paths.py:544-563 | no effect of a pruning breaks it |
| PublicationInvariants.PruneBound | engine/solidifai_engine/paths.py:544-563 | a completed pruning keeps exactly the selected generation, the journalled predecessor and the `keep` newest, unchanged, and so at most `keep + 2` |
| PublicationInvariants.RecoveryShowsSelected | engine/solidifai_engine/paths.py:478-541 | on a healthy disk with a pointer a completed recovery never falls back: the pointer stays and workspace and mirrors show it |
| PublicationInvariants.StagedIsCommittable | engine/solidifai_engine/paths.py:161-220 | what a completed staging leaves on a quiescent disk meets the assumptions of crash atomicity |
| PublicationFaults.GuardDuringCommit | engine/solidifai_engine/paths.py:415-475 | asked with the source hash of whatever is selected, the `set_params` guard lets a model file both publications track through at every crash point of a commit but one; between the pointer move and the journal write after it, exactly when the commit leaves the file as it is |
| PublicationFaults.GuardExact | engine/solidifai_engine/session.py:598-625 | on every healthy disk, the guard lets a file through exactly when it has the selected bytes, or the prior publication's while the journal says that mirrors are pending |
| PublicationFaults.PendingDuringCommit | engine/solidifai_engine/paths.py:463-475 | from the pointer move to the clearing of the journal, every disk of a commit is pending: selected, old or new file by file, its predecessor journalled and kept |
| PublicationFaults.PendingDuringRecovery | engine/solidifai_engine/paths.py:495-507 | so is every disk of a recovery until it clears the journal |
| PublicationFaults.FallbackExact | engine/solidifai_engine/paths.py:485-507 | a recovery that meets an I/O error goes back to the prior publication; whichever file operation fails, pointer and mirrors are the old ones, and the workspace is the old one whichever fails if and only if every file the commit adds was there before with the same bytes |
| PublicationFaults.FallbackAt | engine/solidifai_engine/paths.py:485-507 | for an error after a given operation: the old workspace is back exactly when no added file had been changed by then |
| PublicationFaults.FallbackLeavesNewFile | engine/solidifai_engine/paths.py:485-507 | a concrete healthy disk on which the fallback moves the pointer back and leaves the new publication's file behind |
| PublicationFaults.CommitErrorIsCrash | engine/solidifai_engine/paths.py:466-475 | an I/O error while a commit copies files leaves what a crash at that point leaves |
| PublicationFaults.RollForwardErrorIsCrash | engine/solidifai_engine/paths.py:534-538 | once its pointer has moved, an I/O error while a first publication rolls forward leaves what a crash at that point leaves |
| PublicationFaults.RollForwardGivesUp | engine/solidifai_engine/paths.py:517-533 | before that, it leaves no pointer, no journal, and workspace and mirrors as they were |
| PublicationFaults.JournalWithoutPointer | engine/solidifai_engine/paths.py:507-516 | a journal without a pointer that names no staged directory is dropped; one that claims the pointer had moved brings back its predecessor, or stays when it has none |
| PublicationStaging.StagedContents | engine/solidifai_engine/paths.py:189-217 | a completed staging holds both model files, the model source under the model path whatever the write set says there, every other entry of the write set and nothing else, each listed with its digest; it deletes exactly what the selected manifest lists and the request does not give, in order |
| PublicationStaging.StagingCompletes | engine/solidifai_engine/paths.py:178-198 | a staging completes if and only if the digest given is that of the source, the id is not being staged, and all paths are safe |
| PublicationStaging.LessMeaning | engine/solidifai_engine/paths.py:215 | the deletions are ordered as strings: by the first difference, a prefix first |
| PublicationStaging.SafePathsDescend | engine/solidifai_engine/paths.py:270-280 | a path is accepted if and only if it is free of backslashes and drives and, from every directory, leads exactly as far down as it has parts |
| PublicationStaging.StagedAgainstSelected | engine/solidifai_engine/paths.py:213-231 | a completed staging on a quiescent disk can be committed and deletes what the selected generation tracks and the new one does not, which is what old-or-new and the fallback assume |
| PublicationStaging.PublishedFiles | engine/solidifai_engine/paths.py:340-359 | the workspace of a finished commit, file by file: staged bytes, deletions gone, everything else as it was |
| PublicationStaging.ReachableWhole | engine/solidifai_engine/paths.py:233-250 | on every reachable disk the generations named by pointer and journal have every listed file, model files and inputs, with its digest |
| PublicationStaging.DamagedStagingIgnored | engine/solidifai_engine/paths.py:442-444 | a staged directory whose model files do not have their digests is never committed |
| PublicationStaging.DamagedFallsBack | engine/solidifai_engine/paths.py:495-507 | a selected generation that has lost or changed a model file gives way to the journalled predecessor, or nothing happens when there is none |
| PublicationWorkspace.Workspace.StagePublication | engine/solidifai_engine/paths.py:161-220 | the staging loop performs exactly the staged effects in order |
| PublicationWorkspace.Workspace.CommitPublication | engine/solidifai_engine/paths.py:442-475 | the commit performs exactly the effects of the protocol, up to an I/O error if there is one |
| PublicationWorkspace.Workspace.RecoverPublication | engine/solidifai_engine/paths.py:478-541 | the recovery, with its prior-publication, roll-forward and fallback branches, performs exactly the effects of the protocol |
| PublicationWorkspace.Workspace.Materialize | engine/solidifai_engine/paths.py:340-359 | copies inputs, then deletes, then writes the mirrors, stopping at an I/O error |
| PublicationWorkspace.Workspace.CopyInputs | engine/solidifai_engine/paths.py:346-350 | the copy loop performs the copies of the manifest in order, failing on the first input that does not match |
| PublicationWorkspace.Workspace.DeleteInputs | engine/solidifai_engine/paths.py:351-358 | the deletion loop performs the deletions in order |
| PublicationWorkspace.Workspace.PrunePublications | engine/solidifai_engine/paths.py:544-563 | the pruning loop removes exactly the generations outside the kept ones |
| PublicationWorkspace.NewestFirst | engine/solidifai_engine/paths.py:557-560 | the listing is a permutation of the generations, newest first |
| QueueSafety.SingleWriter | engine/solidifai_engine/operations.py:212-297 | over every interleaving: only the record the writer holds runs or publishes, an operation is queued exactly when it stands in the deque, once; none is executed twice, and executions follow submission order |
| QueueSafety.NothingStartsAfter | engine/solidifai_engine/operations.py:165-210 | after `close`, and for an operation cancelled in the queue, nothing is executed any more, and terminal records are frozen |
| QueueSafety.IntentWins | engine/solidifai_engine/operations.py:233-293 | once a record is cancelling or timing out, no later heartbeat, report or completion changes that, and it never succeeds |
| QueueSafety.RequestsAreLocal | engine/solidifai_engine/operations.py:330-374 | a cancellation request changes no record but its target, and a too-late answer changes neither state nor phase |
| QueueSafety.ClaimsSettled | engine/solidifai_engine/operations.py:330-402 | every claim `begin_cancel` ever granted is finished or handed back once the calls have returned |
| QueueSafety.QueueDiscipline | engine/solidifai_engine/operations.py:111-138 | over every interleaving the queue is bounded, in submission order, with one entry per replace key, and positions that grow and never understate, that of a lone entry included |
| QueueSafety.RunAdvances | engine/solidifai_engine/operations.py:212-297 | over every interleaving the invariant holds and records only move forward |
| QueueSafety.StepAdvances | engine/solidifai_engine/operations.py:376-399 | each step moves states forward only, freezes terminal records and keeps an intent an intent |
| QueueSafety.StepKeeps | engine/solidifai_engine/operations.py:111-402 | each locked block keeps the invariant of records, queue, writer and claims |
| QueueSafety.PruneRetains | engine/solidifai_engine/operations.py:405-428 | pruning evicts only finished records nobody waits on, and for space only ones that finished no later than those kept |
| QueueSafety.SubmitRetention | engine/solidifai_engine/operations.py:111-138 | after a submission the table holds at most `max_terminal` records, or a full queue, two more and those with waiters |
| QueueMeaning.SuccessHasCause | engine/solidifai_engine/operations.py:255-293 | in every run, a record that has succeeded was returned once without failure, while it held the writer and had not been asked to stop, and what was returned is its outcome |
| QueueMeaning.ReturnMeaning | engine/solidifai_engine/operations.py:272-293 | a live operation that returns ends succeeded exactly when the result is no failure and it has no intent, failed exactly when it is, timed out or cancelled by its intent otherwise, with the outcome handed in; nothing else changes |
| QueueMeaning.RaiseMeaning | engine/solidifai_engine/operations.py:260-271 | one that raises ends timed out, cancelled or failed by its intent and the kind of exception, with the message unless it was cancelled |
| QueueMeaning.CloseFinishMeaning | engine/solidifai_engine/operations.py:196-210 | shutdown ends a live operation as cancelled when its cancellation was claimed and as failed otherwise |
| QueueMeaning.SubmitMeaning | engine/solidifai_engine/operations.py:111-138 | a submission is accepted if and only if the queue is open and has room without its rivals, which are dropped; it goes to the end, and what waits is numbered from one |
| QueueMeaning.CancelMeaning | engine/solidifai_engine/operations.py:165-179 | cancelling a waiting operation drops it and leaves all others and their positions alone |
| QueueMeaning.CloseMeaning | engine/solidifai_engine/operations.py:186-195 | closing drops everything that waits, with the reason |
| QueueMeaning.StartMeaning | engine/solidifai_engine/operations.py:213-223 | the head starts running, and the others move up |
| QueueMeaning.HeartbeatMeaning | engine/solidifai_engine/operations.py:233-254 | a heartbeat takes over the phase, and the state "publishing" with it, exactly when the operation is live and not stopping |
| QueueMeaning.MarkMeaning | engine/solidifai_engine/operations.py:339-353 | an answer marks, does nothing, or puts claim and intent down on the operation that runs, and gives the claim back otherwise |
| QueueMeaning.ForceMeaning | engine/solidifai_engine/operations.py:299-328 | past the hard ceiling for its kind of operation, and only then, the operation that runs is timing out |
| QueueMeaning.IntentMeaning | engine/solidifai_engine/operations.py:362-374 | an intent without a claim reaches the operation that runs and no other |
| QueueMeaning.WaitMeaning | engine/solidifai_engine/operations.py:148-163 | a waiter is counted on an addressable record, and taken back |
| QueueMeaning.PruneExact | engine/solidifai_engine/operations.py:405-428 | pruning drops every aged record, and beyond those no more than it takes to get down to the wanted size |
| QueueMonitor.OperationQueue.Submit | engine/solidifai_engine/operations.py:111-138 | the locked block prunes, supersedes, rejects or enqueues exactly as the transition system says, and names the operation to cancel |
| QueueMonitor.OperationQueue.BeginWait | engine/solidifai_engine/operations.py:148-153 | registers a waiter on an addressable record |
| QueueMonitor.OperationQueue.EndWait | engine/solidifai_engine/operations.py:154-163 | takes the waiter back |
| QueueMonitor.OperationQueue.Cancel | engine/solidifai_engine/operations.py:165-179 | cancels in the queue, or asks for a cancellation of a started operation |
| QueueMonitor.OperationQueue.Close | engine/solidifai_engine/operations.py:186-195 | stops the queue and cancels everything waiting |
| QueueMonitor.OperationQueue.FinishOnClose | engine/solidifai_engine/operations.py:196-210 | ends the running operation on shutdown unless it has ended |
| QueueMonitor.OperationQueue.StartNextOperation | engine/solidifai_engine/operations.py:213-223 | takes the first queued operation and renumbers the rest |
| QueueMonitor.OperationQueue.Beat | engine/solidifai_engine/operations.py:233-254 | a heartbeat, early, late or after the end |
| QueueMonitor.OperationQueue.ExecuteRaised | engine/solidifai_engine/operations.py:260-271 | the terminal state after an exception |
| QueueMonitor.OperationQueue.ExecuteReturned | engine/solidifai_engine/operations.py:272-293 | the terminal state after a result |
| QueueMonitor.OperationQueue.ReleaseWriter | engine/solidifai_engine/operations.py:294-297 | the writer lets go of the record |
| QueueMonitor.OperationQueue.MarkRequest | engine/solidifai_engine/operations.py:339-353 | the block after `begin_cancel` has answered: too late, not active, released or installed |
| QueueMonitor.OperationQueue.ClearRequest | engine/solidifai_engine/operations.py:357-359 | the claim leaves the record, under the lock |
| QueueMonitor.OperationQueue.HandBackClaim | engine/solidifai_engine/operations.py:360-362 | a claim that was not finished is released, outside the lock |
| QueueMonitor.OperationQueue.MarkIntent | engine/solidifai_engine/operations.py:362-374 | the callback path without claims |
| QueueMonitor.OperationQueue.Expired | engine/solidifai_engine/operations.py:299-312 | a watcher acts only on the live operation, past one of its deadlines |
| QueueMonitor.OperationQueue.ForceTimeout | engine/solidifai_engine/operations.py:316-323 | past the hard ceiling the timeout is recorded without a claim |
| QueueMonitor.OperationQueue.PruneTerminals | engine/solidifai_engine/operations.py:405-428 | the pruning loop evicts aged records, then oldest-finished ones |
| QueueMonitor.OperationQueue.FindOldest | engine/solidifai_engine/operations.py:418-426 | the evictable record that finished first, the earlier entry on a tie |
| QueueMonitor.OperationQueue.CancelWaiting | engine/solidifai_engine/operations.py:118-122 | removes and finishes the selected entries of the queue one by one |
| QueueMonitor.OperationQueue.Renumber | engine/solidifai_engine/operations.py:430-432 | gives every queued record its place |
| QueueMonitor.OperationQueue.FinishRecordOf | engine/solidifai_engine/operations.py:376-399 | the only way into a terminal state, releasing a claim still held, and a no-op on terminal records |
| Features.ClosestPointCorrect | engine/solidifai_engine/features.py:176-239 | infinity is returned exactly when a and b coincide and p projects beyond a towards c; in every other case, degenerate triangles included, the point is in the triangle and no point of it is closer |
| Features.VariationalInequality | engine/solidifai_engine/features.py:176-239 | a point of the triangle with nonpositive residuals towards the vertices is the closest one |
| Features.StrictlyInside | engine/solidifai_engine/features.py:229-239 | the interior branch is reached only with all three barycentric numerators positive |
| Features.EdgeRegionCorrect | engine/solidifai_engine/features.py:191-228 | the three edge branches return the closest point when no two vertices coincide |
| Features.InteriorRegionCorrect | engine/solidifai_engine/features.py:229-239 | the interior branch returns the closest point, with a nonzero denominator |
| Features.DegenerateCorrect | engine/solidifai_engine/features.py:176-239 | with coinciding vertices, infinity is returned exactly in the stated case, and the point is the closest one otherwise |
| Features.FeatureRecord.CachedTess | engine/solidifai_engine/features.py:165-173 | the cached mesh is the one the record was built with, and asking again gives it again |
| Features.Nearest | engine/solidifai_engine/features.py:242-266 | the first feature attaining the least distance, exactly when that is within tolerance |
| Features.NearestMeaning | engine/solidifai_engine/features.py:242-266 | in terms of surfaces: some point of the returned feature is at least as close as every point of every triangle measured |
| Clusters.ClusterThinSamples | engine/solidifai_engine/dfm.py:554-579 | the groups are exactly the components of the link relation, in order of their first sample |
| Clusters.Find | engine/solidifai_engine/dfm.py:561-565 | path halving terminates, returns the root and keeps every root |
| Clusters.Union | engine/solidifai_engine/dfm.py:575 | joining renames one tree and keeps the forest acyclic |
| Clusters.OneMoreLink | engine/solidifai_engine/dfm.py:567-575 | joining the trees of two samples is what one more link does to chains of links |
| Clusters.LinkAll | engine/solidifai_engine/dfm.py:567-575 | after the double loop two samples are in one tree exactly when a chain of links joins them |
| Clusters.NearIsDistance | engine/solidifai_engine/dfm.py:573-574 | comparing squares is comparing the distance with slack plus radii |
| Graphs.ComponentsUnique | engine/solidifai_engine/dfm.py:554-579 | only one list of groups meets the description, so any two ways to compute it agree |
| Graphs.PartitionConserves | engine/solidifai_engine/dfm.py:591-620 | any partition into groups conserves a sum over the samples |
| WallReport.ViolationsFromSamples | engine/solidifai_engine/dfm.py:582-636 | one finding per cluster of thin samples, with its thinnest sample, area, count and severity, critical ones first |
| WallReport.ReportConserves | engine/solidifai_engine/dfm.py:591-633 | areas and sample counts of the findings add up to those of the thin samples |
| WallReport.ReportGates | engine/solidifai_engine/dfm.py:595-636 | the first finding is critical exactly when some cluster of sufficient area has a sample below the hard minimum |
| WallReport.ThinnestReported | engine/solidifai_engine/dfm.py:589-594 | a solid has findings exactly when a sample is below the load-bearing limit, and then the thinnest sample is reported |
| WallReport.ReportUnique | engine/solidifai_engine/dfm.py:582-636 | the samples determine the report |
| WallReport.EveryFinding | engine/solidifai_engine/dfm.py:595-633 | each finding measures a thin sample where it is, names the thinnest wall of the solid and the threshold it breaks, and is critical exactly when below the hard minimum over a large enough region |
| WallReport.SortIsStable | engine/solidifai_engine/dfm.py:634-636 | the sort permutes, puts critical findings first and keeps the order among equals |
| Worklists.NativeClosure | scripts/prune_engine.py:212-226 | the set of libraries reachable from the seeds, for any order of the stack |
| Worklists.ClosureIsLeast | scripts/prune_engine.py:212-226 | that set is the least one holding the seeds and closed under dependencies |
| Worklists.ExpandLinkTargets | scripts/prune_engine.py:301-318 | the kept names and everything their chains of symlinks lead to within the present libraries |
| Worklists.ExpansionKeepsTargets | scripts/prune_engine.py:301-318 | no kept symlink is left dangling while its target is present, and nothing foreign is added |
| Worklists.ConnectedComponents | engine/solidifai_engine/interference.py:112-138 | the components of the touching relation, sorted, by least member |
| Worklists.Explore | engine/solidifai_engine/interference.py:127-136 | the stack loop collects exactly what chains of touching boxes reach |
| Worklists.OverlapIsGap | engine/solidifai_engine/interference.py:35-68 | boxes overlap within eps exactly when their reported gap is at most eps, symmetrically |
| Worklists.OverlapMeaning | engine/solidifai_engine/interference.py:35-38 | boxes overlap within eps exactly when a point of one and a point of the other lie within eps on every axis |
| HistoryModel.RunKeeps | engine/solidifai_engine/history.py:237-264 | over every run of edits, commits, amendments and navigations the cursor is in range, the branch is the entry under it, and each entry is the child of the one before |
| HistoryModel.RebuildIsCut | engine/solidifai_engine/history.py:189-203 | rebuilding from git gives the timeline cut after the cursor |
| HistoryModel.ReloadIsExact | engine/solidifai_engine/history.py:179-217 | loading finds the timeline as it was, or cut after the cursor when history.json is lost |
| HistoryModel.LoadedCursor | engine/solidifai_engine/history.py:179-217 | whatever cursor history.json holds, loading takes the entry nearest to it |
| HistoryModel.CommitMeaning | engine/solidifai_engine/history.py:237-264 | a commit drops the redo entries and adds a child of the current one; an amendment at the tip keeps the parent |
| HistoryModel.NavigationShowsEntry | engine/solidifai_engine/history.py:314-330 | after any undo, redo and goto sequence both working files are those of the entry under the cursor |
| HistoryModel.NavigationMeaning | engine/solidifai_engine/history.py:436-458 | undo, redo and goto succeed exactly when there is an entry before, after or at the index and nothing fails, and then cursor, branch, history.json and both files are those of that very entry; otherwise nothing has changed |
| HistoryModel.UndoRedo | engine/solidifai_engine/history.py:442-452 | an undo and a redo, either first, come back to the entry, and to the very same state if and only if the working files were those of the entry |
| HistoryModel.PathIndependent | engine/solidifai_engine/history.py:442-458 | sequences that end at one entry end in one and the same state |
| HistoryModel.RollbackExact | engine/solidifai_engine/session.py:1763-1792 | a restore that raises after any effect, or whose rebuild fails, leaves entries, cursor, branch, index, files and history.json as they were |
| HistoryModel.CommitCaptures | engine/solidifai_engine/history.py:221-231 | coming back to a commit shows the files it was made from if and only if no staged working file was missing |
| HistoryModel.StaleFileComesBack | engine/solidifai_engine/history.py:221-231 | after undoing the entry that brought a file, the next commit still contains that file |
| HistoryModel.StaleFileReachable | engine/solidifai_engine/history.py:221-264 | such a state is four steps from a fresh workspace |
| GitHistory.History.MakeCommit | engine/solidifai_engine/history.py:237-264 | the commit step, with the invariant kept |
| GitHistory.History.StageFiles | engine/solidifai_engine/history.py:221-231 | existing files are staged, missing ones stay staged |
| GitHistory.History.RebuildTimeline | engine/solidifai_engine/history.py:189-203 | the walk over parents, reversed, is the chain |
| GitHistory.History.LoadTimeline | engine/solidifai_engine/history.py:179-187 | history.json or the chain, clamped |
| GitHistory.History.RestoreTo | engine/solidifai_engine/history.py:314-330 | the effects of a restore, in order, up to the one that raises |
| HistoryModel.RevertRepairs | engine/solidifai_engine/history.py:393-433 | reverting to a snapshot gives the captured state back if and only if entries, staged files and ignore file are the captured ones, history.json was in step, and no first branch has come up since |
| GitHistory.History.RevertTo | engine/solidifai_engine/history.py:411-433 | puts a snapshot back |
| GitHistory.History.Navigate | engine/solidifai_engine/history.py:436-458 | undo, redo and goto move only where there is an entry |
| GitHistory.History.RestoreOrRollBack | engine/solidifai_engine/session.py:1763-1792 | either restore and rebuild go through, or nothing has changed |
| Hierarchy.CheckHierarchy | engine/solidifai_engine/build_brief.py:373-388 | rejects exactly when some part is its own descendant |
| Hierarchy.Visit | engine/solidifai_engine/build_brief.py:376-385 | what one visit adds is closed and free of cycles, and a failure means a cycle |
| Hierarchy.AcyclicIffNumbered | engine/solidifai_engine/build_brief.py:373-388 | accepted hierarchies, shared children included, are those whose parts can be numbered from the leaves up |
| BriefValidator.ValidateInPlace | engine/solidifai_engine/build_brief.py:318-409 | the loops accept and normalize exactly as the contract says |
| BriefValidator.CheckIds | engine/solidifai_engine/build_brief.py:345-359 | every entry has an id and no two share one, across all sections |
| BriefValidator.CheckParts | engine/solidifai_engine/build_brief.py:361-388 | names, child references and the absence of cycles |
| BuildBrief.ValidateFixedPoint | engine/solidifai_engine/build_brief.py:318-409 | validation is a fixed point on its own output while that fits the transport limits |
| BriefIntegrity.ValidateImage | engine/solidifai_engine/build_brief.py:318-409 | validation accepts a brief and leaves it alone if and only if it is within the limits and holds together, record by record: neat ids of their own, children and participants that name parts, ranked hierarchy, two participants or an unresolved one, and the risk matrix |
| BriefIntegrity.AcceptedIsIntact | engine/solidifai_engine/build_brief.py:318-409 | whatever validation returns holds together in that sense |
| BriefIntegrity.ValidateExact | engine/solidifai_engine/build_brief.py:318-409 | a brief with ids of its own and assumptions that can be normalized is accepted if and only if it fits and holds together once normalized |
| Assumptions.NormalizeInPlace | engine/solidifai_engine/build_brief.py:242-315 | the in-place edits give the normalized record |
| Assumptions.NormalizedIsNormal | engine/solidifai_engine/build_brief.py:242-315 | every accepted assumption satisfies the risk matrix, and fields outside the contract are kept |
| Assumptions.NormalizeFixedPoint | engine/solidifai_engine/build_brief.py:242-315 | normalizing twice is normalizing once, old records included |
| AssumptionOutcomes.HighOutcome | engine/solidifai_engine/build_brief.py:256-281 | a high-risk record becomes functional; it is confirmed or delegated if it had been, and otherwise marked as open; exactly when it is accepted |
| AssumptionOutcomes.ValidatedOutcome | engine/solidifai_engine/build_brief.py:282-287 | an old record that had been validated is confirmed |
| AssumptionOutcomes.UnansweredOutcome | engine/solidifai_engine/build_brief.py:288-294 | an old record without a disposition is marked as open |
| AssumptionOutcomes.OldOutcome | engine/solidifai_engine/build_brief.py:295-315 | any other old record is held to the risk matrix as it is |
| AssumptionOutcomes.CurrentOutcome | engine/solidifai_engine/build_brief.py:295-315 | a current record is accepted exactly when it passes the risk matrix, and keeps what it says |
| AssumptionOutcomes.UnansweredStaysOpen | engine/solidifai_engine/build_brief.py:256-294 | an old or high-risk record without a disposition is never accepted as delegated or confirmed |
| AssumptionOutcomes.SettledOrOpen | engine/solidifai_engine/build_brief.py:295-315 | beyond low risk nothing is accepted that is not delegated, confirmed or waiting for an answer |
| StableIds.StableId | engine/solidifai_engine/build_brief.py:412-424 | the search ends, on the first free candidate, which is a well-formed id |
| StableIds.DecimalInjective | engine/solidifai_engine/build_brief.py:420-422 | different numbers give different suffixes, so finitely many taken ids run out |
| StableIds.FirstFreeUnique | engine/solidifai_engine/build_brief.py:412-424 | the id is determined by the name and the ids taken |
| StableIds.BaseMeaning | engine/solidifai_engine/build_brief.py:412-418 | an id without a number reads like its name from the first letter or digit to the last, in small letters, with dashes between; a name without any gives the fallback |
| StableIds.IdMeaning | engine/solidifai_engine/build_brief.py:419-424 | the id is that, or that with the least number from two on that makes it a free one |
| StableIds.DecimalReads | engine/solidifai_engine/build_brief.py:420-422 | the number is written in base ten |
| BriefMigration.MigrationExact | engine/solidifai_engine/build_brief.py:427-481 | a valid v1 brief migrates exactly when every part name counts as true, and then to the assembled brief unchanged by validation |
| BriefMigration.NullNameFailsMigration | engine/solidifai_engine/build_brief.py:131-140 | a part named null passes `validate_v1` and then cannot be migrated |
| BriefMigration.MigratedBrief | engine/solidifai_engine/build_brief.py:427-463 | ids are distinct across all sections, and interfaces list ids of the parts they name and the names that belong to no part |
| MigrationMeaning.MigratedFields | engine/solidifai_engine/build_brief.py:427-481 | every field of a migrated brief from the brief as it came in: names, roles and reasons, values and units, kinds in canonical spelling, participants in order, unresolved names, and the manufacturing note |
| MigrationMeaning.IdsChosen | engine/solidifai_engine/build_brief.py:433-463 | each id is made from its record's name, or from kind and number, as the first that no record before it has |
| MigrationMeaning.V1Accepted | engine/solidifai_engine/build_brief.py:111-190 | a v1 brief is valid if and only if it stays within the bounds on counts, texts, kinds and numbers |
| BriefMigration.IdsDistinct | engine/solidifai_engine/build_brief.py:412-424 | ids chosen one after another never repeat |
| BriefMigrator.MigrateV1ToV2 | engine/solidifai_engine/build_brief.py:427-481 | the accumulating loops build the assembled brief and validate it |
| BriefStore.NoLostUpdates | engine/solidifai_engine/build_brief.py:498-581 | over any run the revision grows by the number of accepted calls if and only if every brief accepted still fits the limits in its normal form, and by less otherwise; if so, accepted calls carry strictly increasing expected revisions |
| BriefStore.NormalRunCounts | engine/solidifai_engine/build_brief.py:498-581 | a run of calls that hand in records as validation leaves them keeps that count, however tight the limits |
| BriefStore.AskedStays | engine/solidifai_engine/build_brief.py:498-581 | such a call, a patch of a stored brief included, asks for a brief that is its own normal form |
| BriefStore.StepRevision | engine/solidifai_engine/build_brief.py:498-581 | an accepted call carries the current revision and stores the normal form of what it asks for under the next; a rejected one changes nothing; the count restarts exactly when the brief as asked fits the limits and its normal form does not |
| BriefStore.OversizedRestarts | engine/solidifai_engine/build_brief.py:522-548 | then the file reads as absent, and the next accepted call is a write that expects revision 0 |
| BriefStore.AcceptedTwice | engine/solidifai_engine/build_brief.py:361-372 | a concrete brief and limit: one part without `children` is accepted, its stored form is over the limit, and the same call is accepted a second time |
| BriefStore.OtherSectionsUnchanged | engine/solidifai_engine/build_brief.py:551-581 | a patch leaves every other section, the summary and the tier as they were |
| BriefStore.PatchMeaning | engine/solidifai_engine/build_brief.py:568-573 | an id stands for the last upsert naming it, else for its record unless removed |
| BriefUpdates.UpdateMeaning | engine/solidifai_engine/build_brief.py:551-581 | the section an accepted update stores: the records that were there but for those removed, in their order, then the new ones; each id stands for the stored form of its last upsert, else for the record it had |
| BriefUpdates.UpdateAccepted | engine/solidifai_engine/build_brief.py:551-577 | an update is accepted if and only if there is a brief, it states its revision, names a section, has at most 512 items and an id for every upsert, and the brief is valid once patched |
| BriefUpdates.WriteAccepted | engine/solidifai_engine/build_brief.py:502-511 | a write is accepted if and only if it states the current revision and the brief is valid under the next |
| BriefUpdates.LegacyLoads | engine/solidifai_engine/build_brief.py:522-548 | a valid v1 file reads as a brief of revision 0 exactly when every part name counts as true |
| BriefStore.BriefFile.LoadBrief | engine/solidifai_engine/build_brief.py:522-548 | absent, unreadable, migrated or validated |
| BriefStore.BriefFile.WriteBrief | engine/solidifai_engine/build_brief.py:498-519 | answers and stores as the revision rules say |
| BriefStore.BriefFile.UpdateBrief | engine/solidifai_engine/build_brief.py:551-581 | answers and stores as the revision rules say |
| BriefStore.PatchSection | engine/solidifai_engine/build_brief.py:567-573 | the two loops compute the patched section, or reject a record without id |
| Framing.ChunkingIndependent | engine/solidifai_engine/server.py:433-477 | requests handled, leftover and open or closed follow from the concatenated bytes, however they are cut into reads and wherever reads time out |
| Framing.FramesAppend | engine/solidifai_engine/server.py:457-477 | later bytes continue where earlier ones stopped, and a closed connection stays closed |
| Framing.HandleConnection | engine/solidifai_engine/server.py:433-477 | the loop computes that outcome, with at most 512,000 bytes between reads and 65,536 more at any time |
| Framing.Consume | engine/solidifai_engine/server.py:456-477 | one read: lines are taken, stripped, skipped when empty, and refused when too long |
| Framing.RoundTrip | engine/solidifai_engine/server.py:457-477 | requests written one per line are handled one by one |
| Framing.PaddedLines | engine/solidifai_engine/server.py:456-475 | padded lines are handled without their padding, blank ones are skipped, and a reply that cannot be delivered makes its request the last |
| Framing.OversizedCloses | engine/solidifai_engine/server.py:453-460 | a line over the limit closes the connection, whatever follows, after what came before has been handled |
| Framing.OpenRest | engine/solidifai_engine/server.py:476-477 | an open connection holds one unfinished line of bounded length |

## Left out

- build123d, OCP and VTK geometry: link tests, bounding boxes, tessellations and ray samples are inputs.
- Floating-point rounding: lengths, areas and distances are exact reals, distances are compared by squares, and the
  radius of a facet is an input instead of a square root of its area.
- Digests are injective identities of the bytes, JSON documents are values, and every rename, copy and unlink is one
  atomic effect; `fsync`, temporary names and the directories of the workspace are not modelled.
- PublicationWorkspace.Workspace.PrunePublications: a directory is removed in two effects, emptied and then gone; the
  order in which the files inside disappear is not modelled.
- Publication: generations, staging directories and workspace are maps in the fields of one class; model file names
  are the fixed two; a path is relative and safe by its parts, without symbolic links.
- PublicationInvariants.StageHealthy: publication ids are random (`uuid4`) and never repeat, so a staged id names no
  generation yet; staging under an id that already names one is not covered.
- PublicationInvariants.ReachableHealthy: it covers stagings under the same assumption on ids.
- Commits started on top of a pending journal: crash atomicity is stated from a journal-free disk, as the protocol
  intends; the reachability invariant covers every start.
- Operation queue: elapsed times, snapshots, params and the condition variable are left out; time is an input of each
  step and the monotonic clock is never exactly zero; watchers and joins are safe but their promptness is not stated.
- Records of the operation queue are values in a map field, not objects shared by reference.
- `begin_cancel` and `finish_cancel` are steps of the environment and have no method.
- GitHistory.History.StageFiles: assembly files are not staged; see the next line.
- GitHistory.History.RestoreTo: the assembly branch of a restore is not modelled.
- Assembly workspaces: the fileset that grows and shrinks, directory pruning and their restore; only the single-model
  files are modelled. Ignored files, the `.gitignore` switch, HEAD set-up and the compliance files are left out.
- GitHistory.History.RevertTo: an I/O error inside the rollback itself, which the caller suppresses, and the removal of
  assembly files that a failed restore has introduced are not modelled.
- The rebuild after a restore may write the two working files and succeed or fail; what it builds is not modelled.
- Build brief: letters, digits, white space and case are ASCII; sections, entries and the top-level fields have the
  right JSON shape; the limits on payload size and depth are one parameter; what Python prints for a number or an
  object is part of the value; NaN and infinity are among the values that are not numbers.
- Hierarchy.Visit: Python's recursion limit is not modelled.
- The loops of `validate_v1` are comprehensions, and v1 writes are left out: they carry no revision.
- Framing.HandleConnection: the token line of a TCP connection is left out; the reader starts authorized. What a
  request does, and the bytes of the reply, are left out; a reply that cannot be delivered is an input.
- WallReport.ViolationsFromSamples: messages, hints and rounding are left out; the stable sort by severity is modelled
  by its result for the two severities that occur.
- Worklists.ConnectedComponents: the sort of a component is modelled by its result.
- Worker processes, the RPC table, capability negotiation, requirements and materials, issue and bevel searches, and
  the desktop application.
