# Verification model of ReaPack

This project models the core of ReaPack, the package manager for REAPER, and proves what that core
is for. It is written against the C++ sources under `src/`.

**The install transaction.** Queues of install, uninstall, flag and synchronization tasks are started
speculatively against the package registry inside a savepoint, rolled back, awaited while downloads
run, and then committed for good. `Replay.dfy`, `Arbitration.dfy` and `DiskAgreement.dfy` state what a
queue does as functions on the registry's tables and on a disk, and prove when the replay can meet a
conflict, who gets a contested path, and that disk and registry agree afterwards. `Database.dfy`,
`Registry.dfy` and `RegistryObject.dfy` are the savepoints, the tables and the registry as an object;
`ThreadPool.dfy` is the pool with its aborts and event loop as a state machine and proves exactly when an
install fails in it, `WorkerQueues.dfy` refines it to the six workers that take their jobs first in, first
out, and `Downloads.dfy` runs it; `Files.dfy`, `Tasks.dfy` and `Transaction.dfy` are the transaction itself, whose methods are proved
against those functions. Its whole run is proved to end, and to finish exactly once unless an install
fails; `Orderly.dfy` proves that in a run about different packages and repositories every queue meets
what the theorems on tables and disk ask for, so that only a broken handover can stop it.

**The search filter.** `FilterSpec.dfy` is the one-pass tokenizer and the tree builder on values,
`Filter.dfy` the same as C++ has it, with groups on the heap, parent pointers and nodes rewrapped in
place. `FilterGrammar.dfy` gives the query language a meaning of its own and proves that printing any
expression and filtering by the text computes that meaning on the rows as they are, up to the case of
ASCII letters.

**Versions and updates.** `Versions.dfy` reads and orders version names, `Packages.dfy` chooses among
the versions of a package, `Synchronize.dfy` decides what to update and what is obsolete, says exactly
when which version is installed, and proves that a synchronized registry stays as it is when it is
synchronized again, which `Resynchronize.dfy` derives from what committing the updates leaves on the disk. `SeveralRepositories.dfy` is about the
updates and obsolete entries of several repositories together.

**Paths.** `Paths.dfy` and `Targets.dfy` are the path algebra and the places a source may land in. That
`join` is injective is what lets the registry key files by their text.

**Lists and text formats.** `ListOrder.dfy` and `ListView.dfy` keep rows and the native list's items in
step under filter, sort and removal; `Streams.dfy`, `Remotes.dfy` and `Serializer.dfy` are the list of
repositories and two text formats. `Basics.dfy` holds what several modules share.

What turned out false of the code is stated with its exact condition:

- A failed update keeps the files it would have dropped while a later install of the same queue may
  have started on the promise that they were free. `Replay.ReplayConflict` shows that a commit meets a
  conflict if and only if such a handover is broken, and `Replay.HandoverBreaks` breaks one for any two
  files and any two packages.
- Two files of one version named `p` and `p.part` collide on disk while one of them waits under the
  other's name (`DiskAgreement.MoveOrderMatters`). Every order of the moves delivers every file if and
  only if no file waits under another one's name (`DiskAgreement.EveryOrderDelivers`).
- A download waiting under the name of another package's file overwrites that file, and moving it takes
  the file away for good (`DiskAgreement.TempTakesFile`, at an instance `DiskAgreement.TempTakesFileOnce`).
  The file of a package that no task names stays as it is if and only if no file that is brought waits
  under its name (`DiskAgreement.UntouchedFileStays`).
- A negated word is false on an empty list of rows, so the filter computes every expression on given
  rows if and only if there is a row (`FilterGrammar.FilterComputesIff`).
- Only the first occurrence of a word is held against the anchors and against whole words
  (`FilterSpec.LaterOccurrenceMissed`, `FilterSpec.LaterWordMissed`); `FilterSpec.MatchRowIs` is what a
  match means for any text and flags.
- Rows can be sorted consistently if and only if no two of them lack data in a typed column
  (`ListOrder.StrictWhen`).
- A row created while others are hidden is given a place in the view that it does not have;
  `ListViews.ListView.CreateRow` keeps the list's invariant if and only if no row is hidden. Filtering
  then shows exactly the rows that pass if and only if that row passes: otherwise another item than its
  own is deleted, or none (`ListViews.ListView.EndEdit`, `ListViews.MisplacedStays`).
- An index may hold two categories of one name, and only the first is searched: a stored index can
  list an entry and have it obsolete at once (`Synchronization.ListedYetGone`). Exactly the unlisted
  entries are obsolete, whatever the registry holds, if and only if the first category of each name
  lists all that any of its name does (`Synchronization.GoneExactly`).
- `removeRoot` undoes `prependRoot` if and only if the path is not itself an absolute one under the root.

## Model

| member | source | states |
|---|---|---|
| Savepoints.SaveRefines | src/database.cpp:110-116 | a savepoint pushes the current content onto the stack of snapshots and keeps every name apart that is still needed |
| Savepoints.RestoreRefines | src/database.cpp:118-124 | rolling back to the newest name gives back the last snapshot, although the marker stays on SQLite's stack |
| Savepoints.ReleaseRefines | src/database.cpp:126-132 | releasing keeps the content and drops the last snapshot |
| Savepoints.MarksLeft | src/database.cpp:118-132 | of the marks that carry the newest name releasing takes the last one from the stack with all above it, and rolling back keeps it |
| Savepoints.NamedIsPlain | src/database.cpp:110-132 | for every sequence of calls, nested or not, counter-named savepoints behave exactly like a plain stack of snapshots, failures included |
| Savepoints.NamesRepeat | src/database.cpp:118-124 | after a rollback the next savepoint reuses the name of the marker that stayed behind, so names do repeat |
| Savepoints.Database.Savepoint | src/database.cpp:110-116 | the object's stack grows by the current content, nothing else changes |
| Savepoints.Database.RestoreSavepoint | src/database.cpp:118-124 | the content is the last snapshot again and the stack shrinks by it |
| Savepoints.Database.ReleaseSavepoint | src/database.cpp:126-132 | the content stays and the stack shrinks by its last snapshot |
| Savepoints.Database.Commit | src/database.cpp:105-108 | the content becomes durable and every savepoint ends; the counter that names savepoints stays, so the object is in order afterwards if and only if none was open |
| Paths.Split | src/path.cpp:43-87 | the parts are the maximal runs without separators except `.`, and a leading separator makes the text absolute |
| Paths.NextSeparatorIs | src/path.cpp:54-62 | the separator found is the first one, in both directions |
| Paths.PartsMeaning | src/path.cpp:43-87 | for any text: its parts are its pieces between slashes of either kind, without the empty ones and the single dots |
| Paths.PathBuilder.AppendText | src/path.cpp:94-113 | appending a text walks its parts, `..` going up only with traversal and never above the first part |
| Paths.UpUndoesDown | src/path.cpp:105-112 | `..` takes back the part before it; at the top, or where traversal is off, it does nothing |
| Paths.PathBuilder.AppendPath | src/path.cpp:115-121 | appending a path concatenates the parts and takes over absoluteness only when empty |
| Paths.ConcatMeaning | src/path.cpp:115-121 | the parts one after the other; appending a relative path to one with parts prints as the two texts with a slash between |
| Paths.PathBuilder.Remove | src/path.cpp:128-145 | removal cuts the range to what is there, ignores positions past the end, and removing the front drops absoluteness |
| Paths.RemoveMeaning | src/path.cpp:128-145 | part by part: those before the range stay, those behind it move up by its length, and nothing changes for a position past the end |
| Paths.AppendNormal | src/path.cpp:94-113 | whatever the text, an appended path has only non-empty parts free of separators, `.` and `..`, and without traversal it only grows |
| Paths.JoinText | src/path.cpp:179-213 | the printed text puts one separator before each part but the first, after the root mark if there is one |
| Paths.JoinMeaning | src/path.cpp:179-213 | one slash between each two parts, one before the first exactly when the path is absolute, and nothing for the empty path |
| Paths.ParseJoin | src/path.cpp:179-213 | parsing the printed form of any normal path gives the path back |
| Paths.JoinInjective | src/path.cpp:179-213 | two normal paths have one text if and only if they are one path |
| Paths.JoinParseIdempotent | src/path.cpp:89-92 | parsing, printing and parsing any text at all gives the same path as parsing it once |
| Paths.ComputeStartsWith | src/path.cpp:215-226 | true exactly when absoluteness agrees and the other's parts are a prefix |
| Paths.StartsWithMeaning | src/path.cpp:215-226 | that is, exactly when the path is the other one followed by more parts or none |
| Paths.RemoveRootPrependRoot | src/path.cpp:228-241 | removing the root undoes prepending it if and only if the path is not an absolute path under the root |
| Paths.PrependRootRemoveRoot | src/path.cpp:228-241 | prepending undoes removing for every path under a root with parts |
| Paths.PrependRootInjective | src/path.cpp:228-231 | prepending the root never makes two relative paths meet |
| Paths.TempText | src/path.cpp:315-319 | the text of the temporary file is its target's text followed by `.part` |
| Targets.ComputeTargetPath | src/source.cpp:92-172 | the appends give the target that the rows below say where to find |
| Targets.CategorisedTarget | src/source.cpp:141-154 | a categorised source lands at exactly the directory of its type, its repository, its category and its file, part by part |
| Targets.PlainTarget | src/source.cpp:156-165 | any other lands at exactly its file below the directory of its type |
| Targets.CategorisedByType | src/source.cpp:98-154 | the four categorised types and the name of the directory of each |
| Targets.PlainByType | src/source.cpp:98-168 | the eight other types and the name of the directory of each; an unknown type has no place |
| Targets.TargetInside | src/source.cpp:141-168 | for any category and file text, `..` included, the target is relative, normal and below its type's directory, and below its repository's when categorised |
| Targets.RepositoriesApart | src/source.cpp:141-153 | categorised sources with one target are of one type and one repository |
| Targets.VersionSources.AddSource | src/version.cpp:56-72 | a source of another version is an error; otherwise it is kept exactly when its platform fits and its target is new, so targets never repeat |
| RegistryTables.VersionOfWellFormed | src/version.cpp:56-72 | the sources so kept give a version whose paths are normal, relative and distinct: one file for each, with its target, sections and own type |
| RegistryTables.TextsDistinct | src/registry.cpp:86-107 | distinct target paths stay distinct as the texts the unique column sees |
| RegistryTables.OwnerIffFile | src/registry.cpp:273-326 | an entry is the owner of a path exactly when the path is among its files |
| RegistryTables.OneOwner | src/registry.cpp:98-106 | no path is owned by two packages |
| RegistryTables.InsertFilesEffect | src/registry.cpp:186-209 | inserting files in source order adds a row for every free path and reports every taken one, in order |
| RegistryTables.PushConflicts | src/registry.cpp:149-229 | a push reports exactly the version's paths that other packages own, in source order, and conflicts if and only if there is one |
| RegistryTables.PushTables | src/registry.cpp:149-229 | a push without conflict sets the package's one entry, replaces its file rows by one for each file with the text of its path, its sections and its own type, and keeps every other row |
| RegistryTables.PushEffect | src/registry.cpp:149-229 | after it the package owns exactly the version's files and every other package keeps its entry and files |
| RegistryTables.PushConsistent | src/registry.cpp:149-229 | a push, conflicting or not, keeps one entry per package, one owner per path and a live entry per file |
| RegistryTables.ForgetEffect | src/registry.cpp:328-335 | forgetting removes an entry with its files, keeps the constraints and touches no other package |
| RegistryTables.SetFlagsEffect | src/registry.cpp:231-236 | changing flags keeps the constraints and everything else about every package |
| RegistryObject.SamePathSameText | src/install.cpp:57-62 | comparing a stored file's path with a target is comparing their texts, since every stored text is canonical |
| RegistryObject.OwnershipInvariant | src/registry.cpp:149-229 | across any sequence of pushes, forgets, flag changes, savepoint moves and commits, current, durable and remembered tables all keep unique owners, and owner and file queries agree both ways |
| RegistryObject.InsideSavepoint | src/registry.cpp:149-229 | what is pushed inside a savepoint stays when it is released and is gone when it is rolled back |
| RegistryObject.Registry.FindEntry | src/registry.cpp:238-255 | the entry of a package, or the null entry when it has none |
| RegistryObject.Registry.GetFiles | src/registry.cpp:273-298 | exactly the rows of the entry, and none for the null entry |
| RegistryObject.Registry.GetOwner | src/registry.cpp:314-326 | the entry that owns the path with its current row, or the null entry |
| RegistryObject.Registry.Forget | src/registry.cpp:328-335 | the tables become those without the entry; savepoints and durable content stay |
| RegistryObject.Registry.SetFlags | src/registry.cpp:231-236 | only the flags of the entry change, and nothing at all when it does not exist |
| RegistryObject.Registry.Push | src/registry.cpp:149-229 | statement by statement the push either stores everything and returns the new entry, or undoes everything and returns the foreign paths in order or throws |
| RegistryObject.Registry.Commit | src/registry.hpp:75 | what queries see becomes durable |
| Replay.StartsUnless | src/install.cpp:41-52 | only an install can be refused, and is if and only if another package owns a path it brings |
| Replay.StartAllStarted | src/transaction.cpp:180-187 | the running tasks are exactly those whose start went through, each with the files it will delete |
| Replay.ReplayReachesSpeculation | src/transaction.cpp:176-209 | for any queue in any order, when no task fails no commit meets a conflict, and the registry ends in the speculated tables but for the flags that flag tasks changed |
| Replay.ReplayExact | src/transaction.cpp:176-209 | without flag tasks the committed tables are the speculated ones, entry ids included |
| Replay.ConflictNeedsFailure | src/install.cpp:97-126 | for any queue, guarded or not, a commit that throws has an install that failed |
| Replay.ReplayConflict | src/install.cpp:97-126 | with one current task per package and any tasks failing, a commit throws if and only if a failed update keeps a file that a later install brings; otherwise the tables stay consistent |
| Replay.HandoverBreaks | src/install.cpp:97-126 | for any two files and packages there is a queue whose tasks all start and whose commit throws when the first fails |
| Replay.StartOnlyChanges | src/install.cpp:35-57 | starting a task changes the registry only for its own package |
| Replay.CommitOnlyChanges | src/task.cpp:44-56 | so does committing it; an install leaves its package exactly its version's files, an uninstall none |
| Replay.CommitLeavesOthers | src/task.cpp:44-56 | it leaves the entries of all other packages as they are, flags included |
| Replay.CurrentMeaning | src/transaction.cpp:103-118 | what it is for a task of each kind to hold the entry registered for its package |
| Arbitration.UninstallsFirst | src/transaction.hpp:86-95 | whatever the heap does with ties, every uninstall is popped before any other task |
| Arbitration.FirstClaimStarts | src/transaction.cpp:180-187 | an install starts whenever its paths are free, or owned only by packages the queue uninstalls, and not claimed by an install before it |
| Arbitration.ClaimKept | src/install.cpp:41-52 | a path an install has claimed goes to no later task |
| Arbitration.OneClaimant | src/install.cpp:41-52 | of several installs wanting one path at most one starts: started installs claim disjoint files |
| Arbitration.SpeculatedOwner | src/transaction.cpp:176-190 | during speculation a package owns nothing but what it owned and was not uninstalled, or what its own install claimed |
| Arbitration.StartAllFaithful | src/install.cpp:35-66 | each started task will delete what its package owned when the queue began, less what it brings again |
| Arbitration.GuardedAfter | src/transaction.cpp:159-168 | a queue about other packages meets the conditions of the replay theorems still when one before it was started and committed, whatever failed in it |
| DiskAgreement.MoveAllTargets | src/install.cpp:102-113 | moving waiting files in any order gives a target the content fetched for it when no other file meets its two names |
| DiskAgreement.TempIs | src/path.cpp:315-319 | a download waits under the text of its target's temporary path |
| DiskAgreement.MoveOrderMatters | src/install.cpp:102-113 | two files named `p` and `p.part` are both delivered in one order, and in the other order the first gets the second's content and the second is gone |
| DiskAgreement.EveryOrderDelivers | src/install.cpp:102-113 | for distinct waiting files every order of the moves gives every target its content, if and only if none waits under the name of another target |
| DiskAgreement.DiskAgrees | src/install.cpp:97-126 | after a guarded queue, path by path: one that is brought holds what was fetched and has an owner, one that lost its owner is gone, every other is as it was; it is asked of the path alone that no other file meets its names |
| DiskAgreement.ReadySettles | src/transaction.cpp:192-209 | the same for every path at once but those files wait under, for any queue ready to be committed |
| DiskAgreement.TempTakesFile | src/path.cpp:315-319 | an install takes the file of an untouched package from the disk, while the registry keeps it, when its download waits under that name |
| DiskAgreement.TempTakesFileOnce | src/path.cpp:315-319 | for any file and any two packages there is a queue to which this happens |
| DiskAgreement.UntouchedFileStays | src/install.cpp:97-126 | the file of a package that no task names is as it was if and only if no file that is brought waits under its name |
| Pool.StepInv | src/thread.cpp:35-156 | every step of workers, aborts and event loop keeps the invariant between jobs, events and tasks |
| Pool.Settlement | src/install.cpp:83-95 | over every interleaving, when the pool is done each install waits for nothing, has failed iff some job did not succeed, and otherwise collected each source's path exactly once |
| Pool.InternalDecreases | src/thread.cpp:66-94 | workers and event loop can only go on for so long without new work |
| Pool.AbortedCannotSucceed | src/thread.cpp:35-49 | a job aborted before it finished can end neither in success nor in failure, however the run goes on |
| Pool.AbortReachesAll | src/thread.cpp:150-156 | an abort tells every job that is not over to abort, and does nothing else to any job, task or event |
| Pool.CancelledCannotSucceed | src/thread.cpp:35-49 | whatever run follows an abort, a job that was queued or executing then ends neither in success nor in failure |
| Pool.AbortedNeverBegins | src/thread.cpp:39-42 | a job told to abort before a worker has taken it is never begun, and its start is never announced |
| Pool.FinishReaches | src/install.cpp:128-137 | when the end of a job is handled and it did not succeed exactly the other jobs its task still has at work are told to abort, when it did no job is |
| Pool.FailureStopsSiblings | src/install.cpp:128-137 | so once one job of a task is known not to have succeeded, none of its jobs then queued or executing can succeed |
| Pool.FailsExactlyWhen | src/install.cpp:83-95 | over every interleaving, when nothing is left to run an install has failed if and only if one of its downloads went wrong or an abort came while one of them was queued or executing |
| Pool.NotYetCancelled | src/thread.cpp:150-156 | the pool counts as cancelled if and only if the run had an abort |
| Workers.TurnInv | src/thread.cpp:66-148 | with six workers, each taking the jobs pushed to it in order and one at a time, every step keeps each waiting job in exactly its worker's queue and each executing job with its worker |
| Workers.PlacedBy | src/thread.cpp:142-147 | a concurrent job goes to the worker numbered by the jobs there then are, itself included, modulo six; any other job goes to the first worker |
| Workers.TakenInOrder | src/thread.cpp:66-82 | a worker takes its jobs in the order they were pushed to it, whatever goes on besides |
| Workers.RunRefines | src/thread.cpp:66-148 | every run of the workers is a run of the machine that settlement is proved for |
| Workers.WorkersSettle | src/install.cpp:83-95 | so each install settles the same with the workers, and all workers are idle then |
| Workers.WorkersNeverStuck | src/thread.cpp:66-94 | while a job is left a worker can finish its job or take the next of its queue, or the event loop can go on |
| Workers.WorkersCanDrain | src/event.cpp:51-62 | from every reachable state the workers and ticks alone can empty the pool |
| Workers.WorkersMustDrain | src/event.cpp:51-62 | and every run of theirs is no longer than the work left, and empties the pool when it is that long |
| Downloads.RunJobs | src/thread.cpp:66-148 | jobs are pushed while workers already execute others, then workers and ticks go on, whoever is next, until none is left: what this ends in is reached by the machine, and every task is settled there with a job for each of its files |
| Files.FileSystem.RenameAll | src/install.cpp:102-113 | on success all waiting files have moved in order, on failure exactly those of some prefix have; on a reliable disk it cannot fail while they all wait with names apart |
| TransactionTasks.StartAllAppend | src/transaction.cpp:180-187 | starting one more task adds it to the running tasks exactly when it can start |
| TransactionTasks.UninstallsGuarded | src/transaction.cpp:120-133 | uninstalling a repository gives a queue that meets the conditions of the replay theorems |
| TransactionTasks.TextsMeaning | src/install.cpp:83-95 | files collected in any order are the version's paths, each once |
| TransactionTasks.IndexTextIs | src/index.cpp:29-32 | the cached index of a repository is the file of its name with `.xml` in the cache directory |
| TransactionTasks.WithGoneMeaning | src/transaction.hpp:81 | recording obsolete entries keeps those there are, takes no second one of an id, and leaves out no id |
| TransactionObject.Transaction.Install | src/transaction.cpp:103-113 | the task enqueued holds the entry registered for its package |
| TransactionObject.Transaction.SynchronizeRemote | src/transaction.cpp:52-64 | a repository is enqueued at most once, with its own setting for new packages before the general one; a transaction that only synchronizes repositories of their own proper indexes stays one whose queues will all be guarded |
| TransactionObject.Transaction.UninstallRemote | src/transaction.cpp:120-138 | one uninstall for each entry of the repository and no other task, its cached index file goes, and it may be synchronized again |
| TransactionObject.Transaction.StartInstall | src/install.cpp:35-81 | refused exactly on a conflict; otherwise the tables are the pushed ones, one job per file, and the files to drop are those not brought again |
| TransactionObject.Transaction.StartTask | src/task.cpp:34-42 | starting does to the registry what the table-level start says, for every kind of task |
| TransactionObject.Transaction.PopTop | src/transaction.hpp:86-95 | the task popped has no task left with a higher priority, whichever of equals the heap keeps on top |
| TransactionObject.Transaction.RunQueue | src/transaction.cpp:176-190 | whatever its tasks do the registry is as before; the order is a pop order of the queue and the running tasks are exactly those that could start in it |
| TransactionObject.Transaction.Rollback | src/install.cpp:128-137 | the task has failed and only its waiting files are gone |
| TransactionObject.Transaction.CommitInstall | src/install.cpp:97-126 | a failed task does nothing; otherwise it throws exactly on a conflict or pushes, with all its files in place and no others gone than old ones, on a ready disk exactly those, and one whose rename fails half way has moved a prefix of its files, keeps the registry and gives up what waited |
| TransactionObject.Transaction.SynchronizePackage | src/synchronize.cpp:79-100 | enqueues exactly the install, with the entry and its flags, that the decision for the package asks for; `Synchronization.DecideExactly` says when that is which |
| TransactionObject.Transaction.CommitSynchronize | src/synchronize.cpp:58-77 | enqueues the updates of the whole index in its order and records the entries that are gone, once per id |
| TransactionObject.Transaction.CommitTask | src/task.cpp:44-67 | a commit does to tables and disk what the table-level and disk-level commits say; a synchronization enqueues exactly its updates and obsolete entries, and no other task enqueues anything |
| TransactionObject.Transaction.CommitRunning | src/transaction.cpp:198-206 | the whole queue is committed in start order up to the first conflict; on a ready queue the disk ends where the disk-level commit says |
| TransactionObject.Transaction.RollbackRunning | src/transaction.cpp:200-201 | a cancelled queue changes no file but those that waited, of which none is left where files can be removed; each of its installs has failed and no other task has |
| TransactionObject.Transaction.CommitTasks | src/transaction.cpp:192-209 | waits iff jobs are left; throws only if an install failed and the replay meets a conflict, with a guarded queue iff it is a broken handover; a ready one brings disk and history forward with every file settled as the registry has it; a cancelled one leaves the registry untouched and each of its installs failed; in a run about different packages the queue committed was guarded and so will be the next |
| TransactionObject.Transaction.PromptObsolete | src/transaction.cpp:297-314 | one uninstall for each obsolete entry the user leaves selected joins the last queue, no queue changes otherwise, and asking empties the list of obsolete entries |
| TransactionObject.Transaction.RunFront | src/transaction.cpp:162-164 | the first queue is started in a pop order and all its tasks count as handled; the registry is as before and less is left to do |
| TransactionObject.Transaction.DrainQueues | src/transaction.cpp:162-168 | queue after queue is started and committed until one has to wait, and what is left to do shrinks; it stops short only at a queue whose replay meets a conflict, given an install of it that failed |
| TransactionObject.Transaction.RunTasks | src/transaction.cpp:145-174 | finishes at most once: with all queues and running tasks gone, or after a cancellation with exactly the registry the last committed queue left; when it waits less is left to do; it stops short only at a conflict that a failed install causes, in a guarded queue a broken handover |
| TransactionObject.Transaction.Finish | src/transaction.cpp:211-218 | what is durable is what the registry holds |
| TransactionObject.Transaction.Settle | src/install.cpp:83-95 | what a run of the six workers leaves for each install is what it takes over: it failed, or holds all its paths with their downloads waiting; no other file changed, and a guarded queue with names apart is then ready to be committed; the transaction is cancelled exactly if it was or the run had an abort |
| TransactionObject.Transaction.Drive | src/transaction.cpp:145-218 | every whole run ends; it finishes exactly once, its durable registry the result of exactly the queues committed, unless an install it owns failed and left the last queue a conflict, which in a guarded queue is a broken handover; in a run about different packages every queue is guarded; unless cancelled nothing is left anywhere and every task ever enqueued went through its queue's start exactly once |
| OrderlyTasks.StartInOrder | src/transaction.cpp:176-190 | in a run about different packages and repositories every queue that starts is guarded, in whatever order the heap pops it |
| OrderlyTasks.NextInOrder | src/transaction.cpp:198-206 | committing a task, failed or not, keeps the run so, with the updates and obsolete entries a synchronization adds |
| OrderlyTasks.LastInOrder | src/transaction.cpp:297-314 | so does giving an obsolete entry an uninstall in the last queue |
| OrderlyTasks.GuardedInAnyOrder | src/transaction.hpp:86-95 | the guards of a queue do not depend on its order |
| FilterSpec.MatchRowMeaning | src/filter.cpp:267-287 | an unanchored word is found anywhere, start and both anchors mean prefix and equality, an end anchor alone needs the first occurrence to be the last place |
| FilterSpec.MatchRowIs | src/filter.cpp:267-287 | for any text, flags and row: the first occurrence has to be where the anchors say, and to stand free for a whole word |
| FilterSpec.WholeWordMeaning | src/filter.cpp:279-283 | a phrase matches as a whole word iff its first occurrence stands free of letters and digits; with anchors iff it is the prefix, the whole row or first at the end, free on the other side |
| FilterSpec.LaterOccurrenceMissed | src/filter.cpp:267-287 | a later occurrence at the end of the row does not satisfy an end anchor |
| FilterSpec.LaterWordMissed | src/filter.cpp:279-283 | a later occurrence that stands free does not match as a whole word |
| FilterSpec.SetTreeShape | src/filter.cpp:111-171 | for every input at all the root is a plain AND group and no OR group carries flags |
| FilterGrammar.SetPrinted | src/filter.cpp:31-162 | the tree built from any printed expression is the tree of the expression |
| FilterGrammar.FilterComputes | src/filter.cpp:31-265 | filtering by any printed expression of words, phrases, anchors, NOT, OR chains and nested parentheses computes its value on every non-empty list of rows, where a word is found up to the case of ASCII letters |
| FilterGrammar.StrayAtEnd | src/filter.cpp:111-148 | a `)` or `NOT` behind any expression makes no difference |
| FilterGrammar.StrayAtStart | src/filter.cpp:121-123 | nor does an `OR` before it |
| FilterGrammar.NeverClosed | src/filter.cpp:138-171 | a parenthesis that is never closed is closed at the end |
| FilterGrammar.PhraseEnds | src/filter.cpp:40-84 | a word right behind the closing quote of a phrase is read as if a space were between |
| FilterGrammar.NoRowsDiffers | src/filter.cpp:252-265 | on no rows at all a negated word is false although its expression is true |
| FilterGrammar.FilterComputesIff | src/filter.cpp:233-265 | the filter computes every expression on given rows if and only if there is a row |
| FilterObject.Filter.AddSubGroup | src/filter.cpp:164-171 | the new group hangs last below the current one, with a correct parent pointer, and becomes current |
| FilterObject.Filter.Reenter | src/filter.cpp:125-127 | after OR the OR group that was the last node is current again |
| FilterObject.Filter.WrapLast | src/filter.cpp:128-136 | otherwise the last node moves into a new OR group in its place, flags and parent pointers correct |
| FilterObject.Filter.FindEnclosing | src/filter.cpp:140-147 | the parent pointers lead to the nearest enclosing AND group, or to none |
| FilterObject.Filter.PushToken | src/filter.cpp:149-161 | the token is added and the current group becomes the nearest AND group upwards |
| FilterObject.Filter.Push | src/filter.cpp:111-162 | on the heap a push does what it does on values, keeps the path of last children from the root to the current group, and never makes an AND group current again that was left |
| FilterObject.Filter.Consume | src/filter.cpp:40-84 | one character of input moves quote, anchor and buffer state as the tokenizer on values does |
| FilterObject.Filter.Set | src/filter.cpp:31-89 | for every input whatever the heap tree is the tree specified, all groups closed |
| FilterObject.Filter.TokenMatches | src/filter.cpp:252-265 | the loop with its early exit decides exactly whether some row matches, or for a negated token that there are rows and none matches |
| FilterObject.Filter.GroupMatches | src/filter.cpp:233-245 | the short-circuiting walk over the heap tree computes the value of the tree |
| FilterObject.Filter.Matches | src/filter.cpp:91-97 | matching computes the value of the tree last set on the rows in lower case, which `FilterGrammar.FilterComputes` relates to the rows as they are |
| Versions.PiecesExist | src/version.cpp:105-118 | every text is spelled by maximal runs of digits and letters with gaps between them |
| Versions.ParseMeaning | src/version.cpp:105-141 | reading finds exactly those runs, numbers by their decimal value; it is an error iff the first run is letters or missing, an overflow iff otherwise some number exceeds 65535; a name read is stable iff it has no letters |
| Versions.ParsedWellFormed | src/version.cpp:132-140 | a name read starts with a number and is stable exactly when it has no letters |
| Versions.NameHolder.Parse | src/version.cpp:105-141 | the object takes the name read, or is left exactly as it was when the text is refused |
| Versions.NameHolder.TryParse | src/version.cpp:143-155 | the same without the exception, telling whether it worked |
| Versions.CompareNames | src/version.cpp:165-204 | the loop computes the order that the next row says the meaning of |
| Versions.CompareMeaning | src/version.cpp:165-204 | a name is earlier exactly when it alone is null, or at the first segment that differs, zeros assumed beyond the end, it has the smaller number, the letters earlier in the dictionary, or letters where the other has a number |
| Versions.CompareSwap | src/version.cpp:165-204 | swapping the sides swaps the sign |
| Versions.CompareTransitive | src/version.cpp:165-204 | the order is transitive, strictly so when one of the steps is strict |
| Versions.CompareZero | src/version.cpp:165-204 | equal exactly when both are null, or neither is and they agree after dropping final numeric zeros |
| Versions.CompareAppend | src/version.cpp:178-201 | appending zeros changes nothing, then letters make a version earlier and any other number makes it later |
| Packages.Package.AddVersion | src/package.cpp:112-126 | the version set stays strictly ascending; foreign, empty and equal versions are refused, each exactly then |
| Packages.Package.LastVersion | src/package.cpp:136-149 | the scan from the newest down computes the choice that the lemmas below are about |
| Packages.LastMeaning | src/package.cpp:136-149 | the greatest admissible version not below the starting point; if there is none, nothing from a stable one and the newest version otherwise |
| Packages.LastIdempotent | src/package.cpp:136-149 | choosing again from the answer gives the answer |
| Packages.Package.FindVersion | src/package.cpp:151-160 | found exactly when some version is equal, and then it is the only one |
| Synchronization.UpdatePolicy | src/synchronize.cpp:79-100 | never a downgrade, never another version of a pinned package, no pre-release over a stable version unasked, the same version only for missing files, and never less than the greatest version wanted |
| Synchronization.UpdateReached | src/synchronize.cpp:79-100 | an unpinned package with a newer wanted version is updated to one at least as new |
| Synchronization.DecideExactly | src/synchronize.cpp:79-100 | a version is installed if and only if the package is installed or new ones are wanted, it is the one aimed at, and it is newer and the package not pinned, or it is the installed one and some file of it is gone |
| Synchronization.Restored | src/synchronize.cpp:92-99 | so an installed version that is still the greatest wanted is restored when a file is gone, pinned or not |
| Synchronization.FirstInstall | src/synchronize.cpp:83-90 | a package not installed gets, only if new ones are wanted, its greatest version, stable unless pre-releases are asked for |
| Synchronization.FlagBits | src/registry.hpp:32-35 | the first bit of the flags pins an entry, the second asks for pre-releases |
| Synchronization.UpdateFixpoint | src/synchronize.cpp:92-96 | once the update is installed with its files, the package is left alone |
| Synchronization.UpdatesGuarded | src/synchronize.cpp:67-68 | the updates of an index that lists no package twice form a queue that meets the conditions of the replay theorems |
| Synchronization.SynchronizedTwice | src/synchronize.cpp:58-100 | committing all updates of an index, in any order the heap pops them, brings the registry to a state in which synchronizing again enqueues nothing |
| Resynchronization.SynchronizedOnDisk | src/synchronize.cpp:58-100 | on the disk that committing the updates leaves, synchronizing again enqueues nothing, when all start, none fails, and no file listed for one package belongs to another or waits where another goes |
| SeveralRepositories.UpdatesOfGuarded | src/synchronize.cpp:58-68 | the updates of repositories of distinct names form one queue that meets the conditions of the replay theorems |
| SeveralRepositories.UpdatesOfEach | src/synchronize.cpp:67-68 | what they enqueue together is what each of them enqueues |
| SeveralRepositories.ObsoleteGuarded | src/transaction.cpp:297-314 | so do the uninstalls of any selection of their obsolete entries, in any order |
| SeveralRepositories.ObsoleteThenUpdates | src/transaction.cpp:145-174 | those uninstalls come as a queue of their own, commit without a conflict, and leave the updates meeting the conditions |
| Synchronization.FlattenMember | src/index.cpp:100-115 | the packages of an index are exactly those its categories list, under their keys |
| Synchronization.FindsListed | src/index.cpp:117-133 | what is found is listed, and all that is listed is found when the first category of each name lists it |
| Synchronization.HiddenIsGone | src/synchronize.cpp:70-76 | a package that only a later category of its name lists is obsolete in every index |
| Synchronization.GoneExactly | src/synchronize.cpp:70-76 | over all registries exactly the unpinned entries that the index does not list are obsolete, if and only if the first category of each name lists all that those of its name list |
| Synchronization.ListedYetGone | src/index.cpp:100-133 | an index that can be stored, with two categories of one name, lists an entry that is obsolete |
| ListOrder.CompareCellsSwap | src/listview.cpp:706-733 | comparing cells is antisymmetric exactly when not both lack the data the column asks for |
| ListOrder.CompareCellsMeaning | src/listview.cpp:706-733 | texts compare by the dictionary without regard to the case of ASCII letters, versions and times by which is earlier, and in such a column a cell without data comes before one with data |
| ListOrder.AscendingMeans | src/listview.cpp:188-214 | in a sorted view cells never go down, or never up when the sort is descending, and equal ones keep the order of their rows either way |
| ListOrder.StrictWhen | src/listview.cpp:188-214 | rows have one consistent order if and only if no two of them lack data in a typed column |
| ListOrder.SortItems | src/listview.cpp:211 | a permutation of the items always, and in ascending order whenever the comparison is consistent on them |
| ListViews.DeleteAll | src/listview.cpp:284-288 | deleting ascending positions, each shifted by those before, removes exactly the items meant and keeps the order of the others; a place the list does not have deletes nothing |
| ListViews.MisplacedStays | src/listview.cpp:278-288 | the item of a last row that thinks itself elsewhere survives the deletion meant for it |
| ListViews.ListView.Filter | src/listview.cpp:260-291 | the view holds exactly the rows that pass, and unless one was added it is the old view without the others, in order; a last row that is not where it thinks and does not pass stays shown |
| ListViews.ListView.SortView | src/listview.cpp:188-214 | the same rows, in order whenever they have one order |
| ListViews.ListView.InOrderMeans | src/listview.cpp:188-214 | in order means by the cells of the column sorted by and its type, in its direction; without one in the order of the rows |
| ListViews.FilterValuesMeaning | src/listview.cpp:755-765 | the texts searched are exactly those of the filterable columns |
| ListViews.FilterValuesInOrder | src/listview.cpp:755-765 | in the order of the columns |
| ListViews.ListView.PassesMeans | src/listview.cpp:260-270 | with a search for any printed expression a row passes if and only if the expression holds of the texts searched, up to the case of ASCII letters |
| ListViews.ListView.ReindexVisible | src/listview.cpp:299-312 | every visible row knows its place again and hidden rows stay marked |
| ListViews.ListView.EndEdit | src/listview.cpp:314-324 | all dirty flags are clear; after an edit that marks the filter the view holds exactly the passing rows iff every row was where it thought or the last one, created while others were hidden, passes; from rows in place it comes to rows in place, hidden ones marked, order kept or restored; without marks nothing changes |
| ListViews.ListView.CreateRow | src/listview.cpp:92-98 | the list stays valid if and only if no row was hidden; otherwise the new row is not where it thinks |
| ListViews.ListView.SetCell | src/listview.cpp:741-748 | the cell changes, the filter is marked, and so is the sort exactly when the sorted column changes |
| ListViews.ListView.RemoveRow | src/listview.cpp:144-165 | visible or hidden, the row and its item are gone, later rows and their items are renumbered, and the list stays valid |
| Remotes.TextRoundTrip | src/remote.cpp:57-141 | a valid remote written as text reads back with its name, URL, enabled and auto-install setting; protection is not written |
| Remotes.FromTextValid | src/remote.cpp:57-89 | whatever the text, what is read is null or has a valid name and URL, and is never protected |
| Remotes.NamePlain | src/remote.cpp:29-43 | a valid repository name is a plain part of a path |
| Remotes.ValidNameMeaning | src/remote.cpp:29-43 | a name is valid exactly when it is not empty, holds no control character and none of nine others, neither begins nor ends with a dot or space, and is no device name in any case |
| Remotes.ValidUrlMeaning | src/remote.cpp:45-56 | a URL is valid exactly when it is one or more pieces, each an allowed character or a percent sign with two small hexadecimal digits |
| Remotes.RemoteTargetInside | src/source.cpp:141-153 | so the categorised targets of a valid repository stay below its directory, whatever its index says |
| Remotes.RemoteList.Add | src/remote.cpp:143-163 | map and vector stay a bijection and the list is the old one with the remote in the place of its namesake or at the end; a null remote changes nothing |
| Remotes.RemoteList.Remove | src/remote.cpp:165-180 | the places after the freed one move up in the map, and the list is the old one without that name |
| Remotes.RemoteList.Get | src/remote.cpp:182-190 | the remote of that name, or the null remote |
| Remotes.RemoteList.GetEnabled | src/remote.cpp:192-202 | the enabled remotes in list order |
| Remotes.EnabledMeaning | src/remote.cpp:192-202 | exactly the remotes of the list that are enabled |
| Remotes.EnabledInOrder | src/remote.cpp:192-202 | in the order of the list: those of one list and then of another, and a single one as it is |
| Remotes.PutLookup | src/remote.cpp:143-163 | adding changes what is found under one name and no other |
| Remotes.DropLookup | src/remote.cpp:165-180 | removing a name hides it and no other |
| Remotes.DropPut | src/remote.cpp:143-180 | removing what was just added under a new name gives the list back, order included |
| Serialization.Serializer.Read | src/serializer.cpp:27-73 | records are read up to the first that is incomplete or no number, nothing at all under another version |
| Serialization.Serializer.Write | src/serializer.cpp:75-110 | a header with both versions and the records, or nothing without a user version |
| Serialization.IntRoundTrip | src/serializer.cpp:52-57 | a number in decimal reads back exactly when it has 32 bits, with a plus sign or without |
| Serialization.RoundTrip | src/serializer.cpp:27-110 | what was written reads back under the version it was written with, and as nothing under any other |
| Serialization.ReadIsStable | src/serializer.cpp:27-110 | whatever the text, writing what was read and reading it again gives the same records |

## Left out

- Search synonyms: the filter is the one with synonym expansion off.
- FilterObject.Filter.Set: token texts are copies; in the source they are views into the input, which is lower-cased in place.
- RegistryObject.Registry.GetFiles: rows are a set, so the order in which a query returns them and the row ids of the file table are not modelled; a type column of 0 from old databases is not replaced.
- Real SQLite: statement preparation and binding, locking, and errors other than the uniqueness constraint; schema migration beyond the final tables.
- Receipts, error messages and the registration of scripts with the host.
- TransactionObject.Transaction.Settle: the pool works off the jobs of installs; those of synchronizations and exports, which change neither files nor failures of an install, are only counted.
- TransactionObject.Transaction.RunTasks: exceptions other than a uniqueness conflict, and transactions re-entered from a prompt, are not modelled.
- TransactionObject.Transaction.SynchronizePackage: what an index download brings is given with the synchronization task; parsing the index file and the age of the cached copy are not modelled.
- TransactionObject.Transaction.CommitInstall: directories are not modelled; of files that waited when a rename failed half way it only says that they are the ones that may be gone.
- TransactionObject.Transaction.Rollback: telling jobs still waiting to abort is part of the machine in ThreadPool.dfy only; no job waits when a queue is committed or cancelled.
- Export and archive tasks beyond the jobs they push; downloads, checksums and zip files, of which only success, failure and abort are kept.
- DiskAgreement.DiskAgrees: says nothing about files that wait under temporary names afterwards.
- Targets.VersionSources.AddSource: the sections of a source are not modelled.
- Windows path attributes, the native separator, and assignment to single parts of a path.
- Versions.NameHolder.Parse: digits and letters are those of ASCII.
- Packages.Package.AddVersion: the balanced tree behind the sorted set is a sequence.
- ListViews.ListView.EndEdit: says nothing about the text and icons of native items, nor about several rows created while others are hidden.
- ListOrder.SortItems: the native sort is some sort by comparison; on an inconsistent comparison only the permutation is claimed.
- Remotes.TextRoundTrip: reading a flag accepts exactly the texts that are written; other spellings the conversion library takes are not modelled.
- Serialization.Serializer.Write: the data must have a record, which the source needs too.
- Windows, dialogs, menus, the browser, tabs, rich text, time and number formatting, INI files, host wrappers, and the tables of types, sections and platforms.
