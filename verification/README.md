# Crash-safe file publication, in Dafny

This project models a Go library that publishes files by staging a temporary file, syncing
it, renaming it over the target and syncing the directory, together with the library's
confined directory walk, its two stale-temp sweeps, its pinned descent and its bounded read.
It proves what the library promises about them.

`dafny verify dfyconfig.toml` checks everything.

## How the model is built

**The filesystem** (`FileSystem.dfy`). A regular inode has bytes, a mode, an mtime and a flag
saying whether its last change was synced. A directory entry has a live binding and, until
its directory is synced, the set of all bindings it has had since the last sync. A crash
image takes any binding of each such set and arbitrary bytes for every unsynced inode. Paths
resolve through symlinks, with a bound on the symlinks followed; a symlink's target is kept
as the path it denotes from the root in use.

**The protocol** (`Publishing.dfy`, `Runs.dfy`, `Renames.dfy`, `BesideSweeps.dfy`). Any number of writers and
sweeps, interleaved call by call, is a sequence of acts on one state. A run may stop
anywhere, so a theorem about the state after a run is one about every crash point. Nothing
in the protocol says that a rename moves the writer's own inode: that is proved. The state
carries an invariant of twelve parts, each kept by every act.

**The engine** (`Host.dfy`, `Directories.dfy`, `Staging.dfy`, `Engine.dfy`, `AbsolutePaths.dfy`,
`Pending.dfy`). The source's functions and methods, statement by statement, over a class whose
methods are system calls. Each call first lets any number of acts of other writers happen
and then takes effect or fails as it likes; a failed write leaves a prefix. Every call that
takes effect is an act of the protocol, so each theorem about runs without sweeps holds for
the engine; beside a sweep a write may also find its temp gone, and then it never publishes
anything (`BesideSweeps.SweptTempNeverComesBack`). Ghost fields record the steps that failed,
how many system calls failed, how many found a name taken, and every look at the context with
what it found; so a contract can say that an operation fails only with its reason. `Levels.dfy` tells which entries of a path a
write found and which it made, `Syncs.dfy` which directories it synced. `Durability.dfy` says
what a durable verdict is worth and `CrashedWrites.dfy` what a crash in the middle of a call
shows.

**Pending files** (`Lifecycle.dfy`, `Accounting.dfy`, `Pending.dfy`). The methods are proved
against two small machines, one for the life of the object and one for its byte counts, and
the promises are proved of every sequence of calls on those.

**The walk** (`Walk.dfy`, `WalkLogs.dfy`, `WalkAnswers.dfy`, `WalkLooks.dfy`, `QuietTrees.dfy`,
`QuietWalks.dfy`) and **the sweeps** (`Sweeping.dfy`,
`AmbientOrder.dfy`, `Sweeps.dfy`). The world of a walk is five functions of one state that
holds the filesystem, the context and the callback's own variables, so the callback may be
stateful and the tree may change under the walk. The stack loop is proved equal to a
recursive meaning for every such world. `WalkLogs.dfy` and `WalkAnswers.dfy` read off what the
callback's answers and the failures do to a walk, in any world, from a log of its events;
`WalkLooks.dfy` counts the looks at the context. Coverage and the sweeps are proved for a tree
in which only the callback acts, with a context that may be found done at any check.
`PinnedSweeps.dfy` runs the confined sweep on the system calls of the pinned descent.

**The pinned descent** (`Contested.dfy`, `Pinning.dfy`). An adversary may rewrite every entry
before every system call; inode numbers are not reused. A ghost history keeps every instant,
and counters the calls that failed and the looks that found the context done.

**The bounded read** (`BoundedRead.dfy`, `Int64.dfy`, `Contexts.dfy`) reads a file that may grow before every
call, with int64 arithmetic that wraps.

Chance and the outside world are nondeterministic choices: drawn names, which calls fail,
whether a context is done, how a read is split into chunks, how directories are listed.

## Where the obvious claim is false

- `Result.Durable` is documented as "the file and every directory its path depends on were
  fsynced" (write.go:21-23), but directories that were found are never synced
  (writeroot.go:170-172), but for the deepest one, in which the first missing level or the
  target itself is put. With nobody else making levels of the path or syncing what was found,
  the verdict is sound exactly when, before the call, every entry of the path that was there
  was durable or lay in that deepest directory (`Durability.DurableIffFoundDirectoriesWere`).
  A retry after a failed directory sync breaks it (`Durability.RetryForgetsTheDirectory`), and
  so does another writer that has made a directory of the path and not synced it yet
  (`Durability.ConcurrentMakerLosesThePath`).
- A target is promised to be replaced whole or not at all, and a caller's own file never to be
  swept (cleanuproot.go:67-69). Both hold exactly for the names without the temp shape
  (`BesideSweeps.AtomicIffNotTempShaped`): a target of that shape can be swept, and a writer
  that draws its own target's name shows its bytes there one by one
  (`BesideSweeps.DrawnTargetIsTorn`).
- `BytesWritten` is documented as the staged size under the append-stream model, re-synced by
  `Truncate` (write.go:450-454). `Truncate` does not move the offset, so the report is wrong
  once something is streamed after truncating anywhere but at the offset, and only then
  (`Accounting.ReportIsExactIffOffsetAtEnd`, `Accounting.TruncateThenWriteMiscounts`).
- Temps are renamed and removed by name (writeroot.go:223, writeroot.go:234). Beside sweeps a
  rename moves the writer's own file, whole, if and only if nobody has put anything else under
  its temp name since it was created (`Renames.RenamePublishesItsOwnFile`,
  `Renames.OwnRenamesIffNamesKept`); otherwise it moves what was put there last, and the target
  is torn unless that is by then a whole file of the same content
  (`Renames.TornIffTakenByAnotherContent`, with `BesideSweeps.ReusedNameTearsTheTarget` as the
  run). A run whose names are kept so is atomic (`Renames.KeptNamesAreAtomic`).
- The pinned removal fixes the directory, not the entry: between inspection and unlink the
  entry can be swapped (`Pinning.SwappedEntryGoesInstead`). The inspected file goes if and only
  if the entry holds it again just before the unlink (`Pinning.RemovesTheInspectedFileIffBack`).
- The cap test adds before it compares. It tells the truth exactly while the sum fits in an
  int64 (`Int64.CapTestIsExactUnlessItWraps`); the barrier's check of the real size holds
  without any such condition.

## Model

| member | source | states |
|---|---|---|
| Runs.LiveTargetIsAtomic | writeroot.go:233-244 | Any number of writers and sweeps, interleaved call by call with any failures: the live target is the initial file untouched, or the whole content of the writer that renamed onto it last; a name that was free may also hold a directory a write made. |
| Runs.CrashedTargetIsAtomic | write.go:132-166 | Every crash image of every state shows at the target what the initial state could have shown, or the whole content of some writer that renamed onto it, or at a free name a directory a write made. |
| Runs.OldFileOrNewContent | writeroot.go:310-334 | Over a durable old file, every crash at every point shows the complete old file or one writer's complete new content; never a mixture, never nothing. |
| Runs.NeverADirectory | writeroot.go:186-206 | No run makes a directory appear at a name that is taken, not even in a crash image. |
| Runs.DurableWriteSurvives | writeroot.go:233-244 | With the entry and every link of its path synced, no crash before the next rename onto the name loses the path or a byte, whatever writers and sweeps do. |
| Runs.RunGrows | writeroot.go:158-180 | Along any run directories and symlinks stay, new links lead only to new directories, and durable links stay durable. |
| Runs.RunKeepsInv | writeroot.go:74-98 | Every run keeps the protocol's invariant: temps private and distinct, sealed content synced and whole, each writer publishing at most once, each name current. |
| Publishing.StepKeepsInv | writeroot.go:233-244 | Every single act, of a writer or of a sweep, keeps all twelve parts of that invariant. |
| BesideSweeps.FreshDrawsSuffice | writeroot.go:63-67 | Names that are never drawn twice, nor left behind by an earlier process, nor given to a directory, are kept from every temp's creation to its rename. |
| BesideSweeps.ExclusiveCreationSuffices | writeroot.go:74-98 | Without a sweep nothing need be assumed: exclusive creation alone keeps every name from a temp's creation to its rename. |
| BesideSweeps.SweepsTouchTempNamesOnly | cleanuproot.go:168-211 | No step of a sweep changes an entry without the temp shape, a binding a crash may leave there, or any byte. |
| BesideSweeps.LiveTempsSurvive | cleanup.go:80-105 | If live temps are never older than the cutoff, no interleaving of sweeps and writers unlinks a temp somebody still needs. |
| BesideSweeps.SweptTempNeverComesBack | writeroot.go:233-237 | A write whose temp was swept away never publishes anything, whatever else happens: its rename can only fail. |
| BesideSweeps.AtomicIffNotTempShaped | cleanup.go:49-59 | A name is a safe target in all runs if and only if it has not the temp shape. |
| BesideSweeps.DrawnTargetIsTorn | writeroot.go:63-67 | A counterexample run: a writer draws the name of a target, and unsynced bytes are seen there. |
| Renames.RenamePublishesItsOwnFile | writeroot.go:233-237 | In every possible run, sweeps included and with nothing assumed about names: a rename that can happen moves what was put under the temp name last, and that is the writer's own inode, synced and whole, if and only if nobody has taken the name since the writer held it. |
| Renames.TornIffTakenByAnotherContent | writeroot.go:233-237 | Just after any possible rename the target is atomic unless the name was taken and what was put there last is not by then a whole file of the same content and mode. |
| Renames.OwnRenamesIffNamesKept | writeroot.go:63-98 | All renames of a possible run move their writers' own whole files if and only if no name is taken between a temp's creation and its rename, which can be read off the calls. |
| Renames.KeptNamesAreAtomic | writeroot.go:233-244 | In every possible run that keeps names so, the live target and every crash image are atomic, whatever sweeps do. |
| Renames.AllowedRunsKeepNames | writeroot.go:74-98 | Runs in which no held name is taken keep names. |
| BesideSweeps.ReusedNameTearsTheTarget | writeroot.go:222-234 | A counterexample run: a swept name drawn again lets one writer publish another's unfinished file. |
| Durability.DurableMeansCrashProof | writeroot.go:310-334 | A durable success of any entry point, a pending file's Commit included, survives every crash up to the next rename onto the name if every entry of the path that was there before the call was durable and no other writer made a level of it: the full path leads to a whole published file, its own unless another was renamed over it. |
| Durability.DurableIffFoundDirectoriesWere | writeroot.go:158-180 | The path of a durable write survives all crashes if and only if, before the call, every entry of it that was there was durable or lay in the deepest directory that was there - with no other writer making a level of the path or syncing what was found, and where what was found comes back from a crash as it is or not at all. The write's own syncs are no hypothesis: they are what the engine's contract lists. |
| Durability.DeepestIsSynced | writeroot.go:158-180 | A durable write has synced the deepest directory of its path that was there before. |
| Durability.OwnSyncsLeaveIt | writeroot.go:170-172 | It has synced no other directory that was there before. |
| CrashedWrites.CrashedWriteShowsOldOrNew | writeroot.go:310-334 | A crash after any of the calls of one write, over a durable old file at a durable path, shows under the full path the old file, or exactly this payload if the write goes on to succeed, or what another writer renamed over it meanwhile; a write that fails never shows its payload. |
| Durability.RetryForgetsTheDirectory | writeroot.go:158-180 | A counterexample run from an empty directory: the retry after a failed directory sync meets no fault, all that a durable success promises holds of it, and one crash image of its end has lost the directory. |
| Durability.ConcurrentMakerLosesThePath | writeroot.go:186-206 | A counterexample run: over a durable start another writer makes a directory of the path and has not synced it when the write that found it there reports a durable success, and a crash loses it. |
| Syncs.LevelIsDeepestOrNew | writeroot.go:158-180 | A level made where nothing was is made in the deepest directory there was, or in a new one. |
| Syncs.SyncsAreCalls | writeroot.go:136-143 | The directories listed as synced are exactly those of the writer's own sync calls. |
| Levels.FoundAndMadeAreAll | writeroot.go:158-180 | If what was on the path was durable and no other writer made a level of it, then with every recorded level durable the whole path is. |
| Levels.LosableEntryLosesThePath | writeroot.go:170-172 | If an entry of the path that was there can still be lost and nobody syncs its directory, some crash loses the path, whatever the write did. |
| FileSystem.LinksGrow | writeroot.go:146-157 | A path that comes to resolve reads, of the directories and symlinks that were there before, exactly those it read before. |
| FileSystem.PathSurvivesIffSettled | writeroot.go:146-157 | A path resolves in every crash image if and only if every entry its resolution reads is durable, where each such entry comes back from a crash as it is or not at all. |
| FileSystem.ResolutionGrows | writeroot.go:114-129 | While nobody moves directories, a resolved path keeps leading to the same place, and a path that newly resolves leads to a new directory. |
| Interference.OthersDisturbNothing | writeroot.go:74-98 | No other writer's act changes this writer's progress, its temp, or a directory it made. |
| Hosts.Host.CreateExcl | writeroot.go:78-90 | An exclusive creation: a fresh empty inode under a free name, the name reported taken, or a fault. |
| Hosts.Host.Write | write.go:205-210 | A prefix of the bytes lands at the offset, all of them unless the call failed; it may be called only while the open temp, under a demanded mode, lets its owner read and write and nobody else anything. |
| Hosts.Host.Rename | writeroot.go:233-237 | A rename by name that publishes the sealed inode or changes nothing. |
| Hosts.Host.SyncDirectory | writeroot.go:136-143 | A directory sync makes the entry of the target durable, or is reported. |
| Hosts.OverwritesCompose | write.go:401-408 | Two consecutive writes are one, holes included. |
| Engine.WriteAtomicInRoot | writeroot.go:310-334 | Success has renamed exactly the payload onto the name; it is durable exactly when no step failed, and then, over a path that was safe before the call, the whole path and the entry are durable; it has synced exactly directories in which it made a level, and the target's - all of them, if it is durable; and it has looked at the context exactly where the source does and found it not done. A source that fails fails the write. Failure has published nothing, carries the phase of the first failed step that has one, leaves no open handle and no temp unless its removal failed, and has its reason: an unsafe name, a target that is a symlink or another non-file, content over the cap, a source that failed, a context found done, a failed system call, a mode the filesystem does not store, a parent that is not there and was not to be made or is no directory, or 10001 names taken. |
| Engine.WriteFileInRoot | writeroot.go:342-348 | The same for a buffer; an over-cap buffer is refused before anything is staged. |
| Engine.OpenTempForRoot | writeroot.go:268-302 | The preamble in order; success leaves an empty exclusive temp beside a safe target, readable and writable by its owner and by nobody else under a demanded mode; a failure has its reason. |
| Engine.PrepareTarget | writeroot.go:268-290 | The guard refuses every name that names no entry; then one look at the context, target and parents, which are there and recorded afterwards if they were to be made. A refusal says what the target is, and any other failure has its reason. |
| Engine.CreateTempInRoot | writeroot.go:74-98 | At most 10001 draws, and a new one only after a name was found taken; under a demanded mode the temp has, before any byte, the owner's read and write bits and no other, setuid, setgid and sticky included; a temp of which that cannot be proved is closed and removed. It fails only for a failed call, a filesystem that does not store the mode, a missing parent or 10001 taken names. |
| Engine.ParentAndBaseJoin | writeroot.go:282-283 | The directory and the name a write works with make up the whole name. |
| Engine.CheckWriteTargetInRoot | writeroot.go:114-129 | Symlinks and special files are refused as what they are; a missing target or parent is fine. |
| Engine.TargetStaysSafe | writeroot.go:114-129 | The refusal stays good until the rename, whatever other writers do, even if the parent was still missing at the check. |
| Engine.ProveStaged | write.go:132-154 | The barrier passes exactly a size within the cap and, under a demanded mode, the stored bits asked for, unless a call failed. |
| Engine.SyncAndClose | write.go:155-166 | Success has sealed exactly the staged bytes; on every path the handle is closed; it fails only if the sync or the close did or the context was found done. |
| Engine.FinalizeTempFile | write.go:132-166 | What passes the barrier is fit to publish: synced, closed, within the cap, of the demanded mode. Too large is reported exactly of what is, and every other failure has its reason. |
| Engine.CommitTempInRoot | writeroot.go:233-244 | A failed rename publishes nothing and removes the temp; after a successful one there is only a verdict on durability, true exactly when the directory was synced. The rename fails only if the call did or a directory is in the way. |
| Engine.EnforceMode | privatedir.go:60-78 | Success means the read-back bits are those asked for, however the filesystem stores modes; it fails only if a call failed or the filesystem did not store them. |
| Engine.StageAndFinalize | writeroot.go:317-331 | Data and barrier; after any failure, which has its reason, the handle is closed and the temp gone unless its removal failed. A failed source never gets past it. |
| Engine.StageData | write.go:205-210 | Bytes are staged only while the temp is proved owner-only; it succeeds, with the whole payload staged, unless the source failed, a write failed, the context was found done or the cap would be crossed. |
| Engine.CommitPrepared | writeroot.go:233-244 | Rename and directory sync give a success that is durable exactly when no sync failed, here or on the way, and whose syncs are those of the levels made and of the target's directory; or a failed rename that has published nothing and blames the rename. |
| Staging.CapWriter.Write | write.go:221-229 | The temp is always exactly the accepted bytes and the count its size; a crossing write is refused whole. |
| Staging.CopyReader | write.go:276-289 | What is staged is always a prefix of the source, all of it on success, and within the cap for a stream whose sums fit. It succeeds only if the source did not fail; it fails only if that, a write or the cap did or the context was found done, which is looked at before every read. |
| Int64.CapTestIsExactUnlessItWraps | write.go:221-225 | The test before a write tells the truth if and only if the sum fits in an int64. |
| Modes.ChmodBitsCompare | privatedir.go:87-89 | Modes compare equal exactly when they agree on all nine permission bits, setuid, setgid and sticky, each named by its literal value. |
| Modes.TypeBitsNeverCount | privatedir.go:84-89 | Type bits never take part in the comparison. |
| Modes.OwnerOnlyMeans | writeroot.go:71-73 | The mode every temp is created with compares equal exactly to the modes with the owner's read and write bits and no other of those. |
| Directories.MkdirAllInRoot | writeroot.go:158-180 | Success leaves the whole chain there; the directories this write made are exactly those recorded, each where nothing or at most a temp file was before, and holding exactly the requested bits; its calls are exactly, outermost level first, make, set mode, sync the parent, so no other directory is touched or synced; every level whose sync succeeded is durable, and the result is durable exactly when all did. It fails only for a failed call, a mode the filesystem does not store, or a level taken by what leads to no directory. |
| Directories.MissingLevelsWereMade | writeroot.go:158-180 | No level is overlooked: each one that was missing is now a directory this write made and recorded, or one another write made meanwhile. |
| Directories.MkdirLevel | writeroot.go:186-206 | A level is created and proved to hold the mode, or found as a directory and left alone; it fails only for such a reason. |
| Directories.EnforceDirMode | writeroot.go:210-218 | Only the directory this write made is changed, and success means its stored bits are those asked for. |
| AbsolutePaths.DeepestExistingDir | write.go:102-126 | Ends; base joined to rel is the path, and no level below base was there when the search began. What the stat of base said decides the answer: a directory, another file, or that it cannot be asked, which otherwise is answered only after a failed call. |
| AbsolutePaths.SplitIffDirectory | write.go:102-126 | If nothing happens meanwhile and no call fails, it splits the path if and only if the deepest level that is not missing is a directory. |
| AbsolutePaths.SplitsOnce | write.go:94-101 | There is only one such split: base is the deepest existing directory. |
| AbsolutePaths.StatFindsWhatWalkReaches | write.go:105-111 | stat finds a directory exactly where resolution reaches one. |
| AbsolutePaths.MkdirAllAbs | write.go:76-91 | Only levels below the deepest existing directory are created, each of the requested mode and where nothing or at most a temp file was before; a failed sync is reported, and without one all of them are durable. It fails only for a failed call, a mode that is not stored, or something on the way that leads to no directory. |
| AbsolutePaths.OpenParentRoot | write.go:40-61 | Opens the very directory the path leads to, its parents made if asked; a failed open blames the temp-creation phase. If the parents were to be made, it fails only for a reason of their making, or because a symlink below the directory found reads otherwise from outside. |
| AbsolutePaths.WriteAtomic | write.go:171-183 | The engine's promises for an absolute path, from the state before the call: the verdict also counts the directories made on the way, every failure has its phase and its reason, and a source that fails fails the write. |
| Lifecycle.BeginningIsSane | write.go:460-538 | Over every sequence of Commit and Cleanup calls and every outcome: at most one rename, exactly when Commit succeeded; an owned root closed once, exactly on reaching a terminal state; a caller's root never. |
| Lifecycle.FirstAnswerIsReplayed | write.go:476-487 | The first answer of Commit is every later Commit's answer. |
| Lifecycle.TerminalStatesAbsorb | write.go:291-302 | Committed and cleaned absorb: no later call changes anything. |
| Lifecycle.CleanupFirstMeansAborted | write.go:515-538 | Once Cleanup has come first, removal failed or not, nothing is ever renamed and every Commit reports the abort. |
| Lifecycle.CleanupRetries | write.go:520-538 | After a failed removal the file gets cleaned if and only if some later removal works. |
| Accounting.AppendsThenResizesAreExact | write.go:439-448 | Stream writes followed by truncations: the report is the staged size. |
| Accounting.ReportIsExactIffOffsetAtEnd | write.go:439-455 | After any history and a last truncation, the report is the staged size if and only if nothing was streamed since or the truncation ended the file at the offset. |
| Accounting.TruncateThenWriteMiscounts | write.go:443-446 | Ten bytes, truncated to none, one more: eleven staged, one reported. |
| Pending.PendingFile.Write | write.go:401-408 | Accepted bytes land at the offset and advance the count in int64; a write that would cross the cap is refused whole, and any other falls short only if a call failed; on a committed or cleaned file nothing changes. |
| Pending.PendingFile.ReadFrom | write.go:425-434 | What lands is the source's prefix that was accepted, all of it on success; it is counted in int64, so exactly while the count fits. It fails if the source fails, and otherwise only if a write failed, the cap would be crossed or the context was found done. On a committed or cleaned file nothing changes. |
| Pending.PendingFile.Truncate | write.go:439-448 | The size and the count become the argument, the offset stays; growing beyond the cap is refused, and anything else only if the call failed. |
| Pending.PendingFile.Commit | write.go:476-505 | One step of the life machine. A first success has published exactly the staged bytes and keeps all that a write's success promises, its syncs included, counted from before the file was opened; a first failure has published nothing, blames the first failed step, has its reason and leaves no temp unless its removal failed; every later call changes nothing. |
| Pending.PendingFile.Cleanup | write.go:515-538 | One step of the life machine; nothing is published, a cleaned file's temp is gone, and cleaning fails only if the removal did. |
| Pending.PendingFile.CloseOwnedRoot | write.go:460-469 | An owned root is closed now or was closed before; a caller's root is not closed. |
| Pending.NewPendingFileInRoot | writeroot.go:372-374 | A file at the beginning of its life with an empty temp, remembering which syncs failed on the way; or a failure with its phase and reason that leaves nothing staged. |
| TempNames.RecogniserIsExact | cleanup.go:49-59 | The recogniser accepts exactly prefix, one or more ASCII digits, suffix. |
| TempNames.IsStaleTempName | cleanup.go:49-59 | The method decides that shape. |
| TempNames.IsAllDigits | cleanup.go:27-37 | Non-empty and ASCII digits only. |
| TempNames.DrawsAreRecognisedAndDistinct | writeroot.go:63-67 | Every uint64 draw gives a name the sweep recognises, and distinct draws distinct names. |
| TempNames.DecimalRoundTrips | writeroot.go:66 | The decimal numeral of a number reads back as that number. |
| Walking.RootWalk.Run | walkroot.go:108-140 | For any world, callback, batching and failures the walk makes exactly the calls of the recursive one, in its order, and ends in its state and with its result: the entries of a directory, then each queued subdirectory's whole walk in order. |
| Walking.RootWalk.StreamDir | walkroot.go:145-176 | One directory read in batches ends as its recursive meaning says, queue included; the loop ends by the batches left. |
| Walking.RootWalk.VisitBatch | walkroot.go:182-205 | One batch is visited as its recursive meaning says: SkipDir on a file ends the directory, on a directory skips it, SkipAll ends the walk. |
| Walking.RootWalk.ReportDirFailure | walkroot.go:210-219 | A failed directory is reported for its own path, and the callback decides. |
| Walking.PopAndPush | walkroot.go:124-139 | Popping a directory and pushing its subdirectories leaves the same walk to do, one open shorter. |
| Walking.WalkDirInRoot | walkroot.go:56-69 | The entry point returns what the recursive walk returns; the two steering answers never get out. |
| Walking.SortEntriesSorts | walkroot.go:103-103 | A batch is handed over sorted by name and is still the same batch. |
| Walking.NameLeqIsLexicographic | walkroot.go:103-103 | The order is that of the strings: the first character in which two names differ decides, and a proper prefix comes first. |
| WalkLogs.WalkIsLogged | walkroot.go:108-205 | For any world and callback, the log of a walk is the root's call and then one segment for each directory, opened when an earlier call for it was answered with nil; within a segment come calls for that directory's entries, as long as the answers let it go on, and its failure's report; if nothing ends the walk, nothing queued is left out or walked twice. |
| WalkLogs.LogChangesNothing | walkroot.go:108-140 | Keeping that log changes nothing of the walk. |
| WalkAnswers.WalksDoAsTold | walkroot.go:32-55 | Read off the log event by event, in any world: SkipAll is the last thing that happens, without an error; a callback's error, or the context's, is the last thing and the result, and nothing else is; after SkipDir, but for a directory's own entry, the next thing is another directory; every call in a directory is for its entries or its own failure; each failure to open or read is reported once, for its own path and with its own error, as the last thing in its directory; and unless the walk was ended every directory answered with nil is walked, once for each call. |
| WalkLooks.WalkIsCutIffDoneWithin | walkroot.go:108-176 | On an unchanging tree with a polite callback, a walk is cut short if and only if its context is done within a number of looks that the tree and its listing determine: one before the walk, one for each call and one for each read. |
| QuietWalks.WalkCoversTheTree | walkroot.go:124-139 | On an unchanging tree with an always-nil callback and a context that is never done every reachable path is visited exactly once, the root first, parents before children, nothing below a symlink, without an error; an unreadable directory, the root included, is reported once. |
| QuietWalks.WalkRecords | walkroot.go:108-140 | The walk, left to end, makes exactly the visits of the tree in the confined order, descending or not. |
| QuietWalks.TreeFolds | walkroot.go:108-140 | For a callback that aborts only on a done context, the walk is the fold of the callback over the visits due; when the context is found done at any of its checks, over a first part of them, and the walk returns the cancellation. |
| QuietTrees.WalkIsComplete | walkroot.go:145-205 | The confined order visits exactly what is due, each once, for every listing and every split into batches. |
| AmbientOrder.AmbientIsComplete | cleanup.go:219-238 | The ambient order visits exactly the same paths. |
| Sweeping.CompleteVisitsSweepExactly | cleanuproot.go:112-143 | In whatever order, visiting what is due reclaims exactly the stale regular temps, and the counts are the sizes of the three sets. |
| Sweeps.ConfinedSweepIsExact | cleanuproot.go:83-94 | The confined sweep, flat or recursive, leaves the tree without exactly those files and reports exactly those counts; stopped by its context, it has reclaimed some of those files and nothing else, and each count is that of what it met. |
| Sweeps.CleanupStaleTempsInRoot | cleanuproot.go:72-94 | The walk's loop driving the sweep's visit on the tree: a non-positive age does nothing; an unreadable root is an error; the cancellation is returned, with the counts so far, if and only if the context is done within the number of looks the sweep takes; otherwise the exact sweep with the cutoff that far back. |
| PinnedSweeps.CleanupStaleTempsInRoot | cleanuproot.go:72-94 | The same ends on the system calls, with every candidate reaped through its pinned parent: what is left below the root is the tree without exactly the stale temps that let themselves be removed, the counts are right, and the handles are as before. At most as many candidates are counted as failed as calls failed; if none did and nothing on the tree refuses inspection, the fates are those of the tree itself. The cancellation is returned only if a look found the context done. |
| Sweeps.SweepsAgree | cleanup.go:219-238 | Both recursive sweeps leave the same tree and the same counts, whatever the listings. |
| Sweeps.StoppedSweepsReclaimNothingElse | cleanuproot.go:112-116 | After any first part of the visits, part of the stale files is gone and nothing else, and all three counts are the sizes of what was met. |
| Sweeps.FlatIsPartOfDeep | cleanuproot.go:124-132 | What a flat sweep reclaims a recursive one reclaims too. |
| Sweeps.UnreadableRootIsAnError | cleanuproot.go:116-119 | A root that cannot be read is the walk's error and not a count. |
| PinnedSweeps.RootSweep.VisitEntry | cleanuproot.go:112-143 | The callback, reaping through the pinned parent on the system calls, does what the sweep's meaning says of one visit to a file of the fate it turned out to have, or nothing when the context is done; the tree stays the one below the root. |
| PinnedSweeps.RootSweep.SweptSoFar | cleanuproot.go:112-143 | After any first part of the visits due, with all fates told, only stale temps are gone from below the root and the counts are right; after all of them, the sweep is exact. |
| PinnedSweeps.PinnedReapIsReap | cleanuproot.go:168-211 | On a tree nobody else touches the pinned reap is the reap of the tree's own candidate: the pinned descent and the tree agree on what is stale. |
| PinnedSweeps.UnlinkingIsRemoving | cleanuproot.go:205-210 | Unlinking a candidate through its pinned parent takes exactly its own path out of the tree. |
| Sweeps.AmbientSweep.VisitEntry | cleanup.go:219-238 | The same for the ambient tree walk, which never prunes; it gives up exactly when its one look finds the context done. |
| Sweeps.AmbientSweep.ReapDir | cleanup.go:189-205 | The ambient flat sweep reclaims exactly the same set as the confined flat one; it stops early exactly when a look at the context, one before each read, finds it done or a read fails, and then it has done what the entries read called for. |
| Sweeps.ReapStaleTemp | cleanup.go:80-105 | Unlinks only a stale regular file of the temp shape; never both removed and failed. |
| Pinning.PinChild | removeroot.go:113-137 | Opens a directory only if it was, when inspected, bound to the name itself as a real directory; one handle more on success, none otherwise. A failure is a failed call, or something met at the entry meanwhile says which one it is: missing, no real directory, or bound to another inode than the one inspected. |
| Pinning.PinDir | removeroot.go:88-108 | Against any adversary a pinned directory is reached by a chain of such bindings, inspected in order; handles grow by exactly one on success and by none on failure. A failure is a failed call, or the chain leads to a component at which what was met explains it. With nobody else there it succeeds exactly on real directories, and otherwise says of the first component that is none whether it is missing, unless a call failed. |
| Pinning.OpenParentInRoot | removeroot.go:38-51 | The same for the parent of a name; exactly the names that name no entry are refused as unsafe. |
| Pinning.RemoveFileInRoot | removeroot.go:66-82 | Only success unlinks, one entry of the pinned directory that was inspected as a regular file; the handles are as before. A failure is a failed call, or something met on the way or at the entry explains it; with nobody else there it removes exactly a regular file, and otherwise tells a missing entry from one that is no regular file. |
| Pinning.ReapStaleTempInRoot | cleanuproot.go:168-211 | The same for the sweep, with the temp shape and the age checked in that inspection; never both removed and failed. A candidate counts as failed only if a call failed or the way to it was met to be no real directory or exchanged; one that is neither removed nor failed was met missing, no regular file or too young. With nobody else there and no call failed it removes exactly a stale temp below real directories. |
| Pinning.RemovesTheInspectedFileIffBack | removeroot.go:74-81 | The inode removed is the one inspected if and only if the entry holds, just before the unlink, what it held at the inspection, and then it still is a regular file; leaving it alone is enough; every other entry is untouched. |
| Pinning.SwappedEntryGoesInstead | removeroot.go:74-81 | A counterexample history: swapped in between, a directory goes instead of the file. |
| BoundedRead.ReadBoundedFile | read.go:55-80 | Without an error the result is every byte from the offset to the end and at most the limit, for every int64 limit, even while the file grows. Each failure is returned exactly when it is due: the cancellation if one of the at most two looks at the context finds it done, no file, a failed call, and otherwise too large of every file that was larger than the limit before, and only of one that is. |
| BoundedRead.ReadAll | read.go:72-76 | All that is left up to the limit, and if less than the limit then all that is left. |
| Int64.SaturationClamps | read.go:13-19 | Saturating addition is addition clamped to the greatest int64, for a non-negative second operand. |

## Hypotheses

- A target's name has not the temp shape (`PlainName`): for the others atomicity is false
  (`BesideSweeps.AtomicIffNotTempShaped`). Each write has an identity of its own.
- Beside the engine's methods run other writers, not sweeps; sweeps beside writers are
  covered by the theorems about runs.
- Outside processes do not move, replace or remove directories during a write, and a rename
  reported as failed has not happened.
- The sweeps' exactness is about a tree of which each file's fate (removable, not to be
  inspected, not to be removed) and each directory's readability are fixed beforehand; on the
  system calls a fate is what the calls turn out to do. No directory has two paths.
- A walk ends only if paths have a greatest length and directories a greatest number of
  batches; every finite tree has both (`Sweeps.TreesAreFinite`).
- File sizes fit in an int64.

## Left out

- Path text: `filepath.Clean`, `Join`, `Dir` and `Base` on raw strings; a path is its cleaned sequence of components, and the null-byte, emptiness and absoluteness checks before that are single tests.
- Contents of `probe.go`, `identity.go`, `openregular.go` and `EnsurePrivateDir`: their outcomes are short case tables of one call each.
- Logging, option plumbing, error texts, nil-argument checks and `String` methods.
- `filepath.WalkDir`, `io.Copy` and `io.LimitReader` are taken at their documented behaviour; the source of a copy is a sequence of chunks.
- `NewPendingFile` for an absolute path, and the closing of its root when opening fails: the parts are `AbsolutePaths.OpenParentRoot` and `Pending.NewPendingFileInRoot`.
- `WriteString`, which does what `Write` does, and `Chmod` or `Close` called on the file embedded in a pending file.
- Umask, access lists and the type a filesystem gives a device: modes are whatever the filesystem stores.
- `fs.SkipDir` and `fs.SkipAll` wrapped in other errors: an answer is one of nil, the two, or an error.
- Runs.LiveTargetIsAtomic: is stated of names without the temp shape, because for every other name it is false (`BesideSweeps.AtomicIffNotTempShaped`).
- Runs.CrashedTargetIsAtomic: likewise of names without the temp shape, because a sweep takes any other old file away.
- Runs.OldFileOrNewContent: likewise, because a sweep takes an old file of that shape away.
- Runs.NeverADirectory: likewise, because a swept name is free for a directory.
- Runs.DurableWriteSurvives: likewise, because a sweep takes a published file of that shape away.
- Hosts.Host.Rename: publishes at names without the temp shape only, because at any other name nothing could be promised of the file.
- Engine.CommitTempInRoot: likewise, because it renames.
- Engine.CommitPrepared: likewise, because it renames.
- Engine.WriteAtomicInRoot: is stated of such names only, because a writer may draw its own target's name (`BesideSweeps.DrawnTargetIsTorn`).
- Engine.WriteFileInRoot: likewise, because it is the same write.
- AbsolutePaths.WriteAtomic: likewise; nor does it list the directories synced, because a symlink's target is not translated from one root to another.
- Pending.NewPendingFileInRoot: likewise of such names, because its Commit renames.
- FileSystem.PathSurvivesIffSettled: is stated where no entry of the path can come back as another inode, because that inode may happen to lead to the same place.
- Engine.CreateTempInRoot: does not bound how likely 10001 collisions are, because draws are arbitrary.
- AbsolutePaths.MkdirAllAbs: states the new levels as seen from the opened root, because a symlink's target is not translated from one root to another.
- Walking.RootWalk.Run: is stated of worlds with such bounds, because without them the loop need not end.
- Walking.RootWalk.StreamDir: is stated with those bounds, because a directory whose batches never end is read for ever.
- Walking.WalkDirInRoot: is stated with those bounds, because it calls the same loop.
- Sweeps.AmbientSweep.VisitEntry: the tree walk that calls it is the order of `AmbientOrder.AmbientVisits`, because the walk itself is library code.
