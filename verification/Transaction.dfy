/**
 * The transaction of src/transaction.cpp with its tasks (src/task.cpp, src/install.cpp): queues are
 * started speculatively, awaited, and committed or rolled back.
 */
module TransactionObject {
  import opened Basics
  import opened Savepoints
  import opened Paths
  import opened RegistryTables
  import opened Replay
  import opened Arbitration
  import opened DiskAgreement
  import opened RegistryObject
  import opened Synchronization
  import opened Files
  import opened TransactionTasks
  import opened OrderlyTasks
  import Downloads
  import Remotes
  import Workers

  class Transaction {
    const registry: Registry
    const fs: FileSystem
    const prompts: bool
    var cancelled: bool
    var nextQueue: seq<TaskObject>
    var taskQueues: seq<seq<TaskObject>>
    var running: seq<TaskObject>
    var obsolete: set<Entry>
    var jobs: nat
    var synced: set<string>
    ghost var owned: set<TaskObject>
    ghost var order: seq<Replay.Task>
    ghost var states: seq<Tables>
    ghost var batches: seq<Batch>
    ghost var finishes: nat
    ghost var handled: set<TaskObject>

    /** A queue of this transaction: tasks it owns, each once. */
    ghost predicate QueueOk(q: seq<TaskObject>)
      reads this
    {
      && (forall i :: 0 <= i < |q| ==> q[i] in owned && q[i].kind.WellFormed())
      && Distinct(q)
    }

    ghost predicate Valid()
      reads this, owned, registry, registry.db
    {
      && registry.Valid() && registry.Stack() == []
      && QueueOk(nextQueue) && QueueOk(running) && (forall i :: 0 <= i < |taskQueues| ==> QueueOk(taskQueues[i]))
      && Snapshot(running) == StartAll(registry.Now(), order)
      && History(states, batches) && states[|states| - 1] == registry.Now()
    }

    /** Synchronizations still to be committed, and how much else is to be done. */
    ghost function Pending(): nat
      reads this
    {
      Syncs(nextQueue) + QueuesSyncs(taskQueues) + Syncs(running)
    }

    ghost function Load(): nat
      reads this
    {
      4 * |nextQueue| + QueuesWeight(taskQueues) + |running| + 4 * |obsolete|
    }

    /** No task is lost or started twice. */
    ghost predicate Accounted()
      reads this`taskQueues, this`nextQueue, this`handled, this`owned
    {
      Conserved(Flat(taskQueues) + nextQueue, handled, owned)
    }

    /** What is still to be done is about different packages; `gone` may yet be uninstalled. */
    ghost predicate InOrder(gone: set<Entry>)
      reads this`running, this`taskQueues, this`nextQueue, registry, registry.db
    {
      Orderly(registry.Now(), AllKinds(running, taskQueues, nextQueue), gone)
    }

    /** Every queue committed, and the one that runs, met the guards of the replay theorems. */
    ghost predicate GuardedSoFar()
      reads this`states, this`batches, this`order
    {
      AllGuarded(states, batches, order)
    }

    ghost predicate Untangled()
      reads this`running, this`taskQueues, this`nextQueue, this`obsolete, this`states, this`batches, this`order
      reads registry, registry.db
    {
      InOrder(obsolete) && GuardedSoFar()
    }

    /** Nothing is to be done but synchronizations, each of another repository. */
    ghost predicate Synchronizing()
      reads this`running, this`taskQueues, this`nextQueue, this`obsolete, this`states, this`batches, this`order
      reads this`synced, registry, registry.db
    {
      Untangled() && obsolete == {} && SyncsOf(AllKinds(running, taskQueues, nextQueue), synced)
    }

    constructor (stored: Tables, fs: FileSystem, prompts: bool)
      requires Sound(stored)
      ensures Valid() && registry.Now() == registry.db.conn.durable == stored
      ensures Accounted() && Synchronizing() && finishes == 0 && jobs == 0 && !cancelled && this.fs == fs
      ensures fresh(registry) && fresh(registry.db) && owned == {}
    {
      registry := new Registry(stored);
      this.fs, this.prompts := fs, prompts;
      cancelled, nextQueue, taskQueues, running, obsolete, jobs, synced := false, [], [], [], {}, 0, {};
      owned, handled, order, batches, finishes := {}, {}, [], [], 0;
      new;
      hide Orderly, AllGuarded, SyncsOf, Conserved, StartAll, Sound, Consistent, Committed, Kind.WellFormed;
      states := [registry.Now()];
      NothingToDo(stored);
    }

    /** Fewer synchronizations to commit, or as many and less of everything else. */
    twostate predicate Shrinks()
      reads this
    {
      Pending() < old(Pending()) || (Pending() == old(Pending()) && Load() < old(Load()))
    }

    twostate predicate GrowsNot()
      reads this
    {
      Pending() < old(Pending()) || (Pending() == old(Pending()) && Load() <= old(Load()))
    }

    lemma {:induction false} AddedLast(queue: seq<TaskObject>, had: set<TaskObject>, task: TaskObject)
      requires task !in had
      ensures Conserved(Flat(taskQueues) + queue, handled, had) ==>
        Conserved(Flat(taskQueues) + (queue + [task]), handled, had + {task})
    {
      if Conserved(Flat(taskQueues) + queue, handled, had) {
        assert Flat(taskQueues) + queue + [] == Flat(taskQueues) + queue;
        ConservedAdd(Flat(taskQueues) + queue, [], handled, had, task);
        assert Flat(taskQueues) + queue + [task] + [] == Flat(taskQueues) + (queue + [task]);
      }
    }

    // ----- enqueuing -----

    method Enqueue(kind: Kind) returns (task: TaskObject)
      requires QueueOk(nextQueue) && kind.WellFormed()
      modifies this`nextQueue, this`owned
      ensures fresh(task) && task.kind == kind && owned == old(owned) + {task}
      ensures QueueOk(nextQueue) && nextQueue == old(nextQueue) + [task]
      ensures old(Valid()) ==> Valid()
      ensures old(Accounted()) ==> Accounted()
      ensures old(Untangled()) && old(Free(registry.Now(), AllKinds(running, taskQueues, nextQueue), obsolete, kind)) ==> Untangled()
    {
      hide Free, Orderly, AllKinds, AllGuarded;
      hide AllSound, Database.Valid, StartAll, History, Conserved, Flat;
      ghost var before, had := nextQueue, owned;
      task := new TaskObject(kind);
      AddedLast(before, had, task);
      if Free(registry.Now(), AllKinds(running, taskQueues, nextQueue), obsolete, kind) && Untangled() {
        OneMoreInOrder(registry.Now(), running, taskQueues, nextQueue, obsolete, task);
      }
      owned := owned + {task};
      nextQueue := nextQueue + [task];
      assert Snapshot(running) == old(Snapshot(running));
    }

    /** `install`: the task holds the entry registered when it is enqueued. */
    method Install(ver: Version, flags: int) returns (task: TaskObject)
      requires Valid() && ver.WellFormed()
      modifies this`nextQueue, this`owned
      ensures Valid() && fresh(task) && owned == old(owned) + {task} && nextQueue == old(nextQueue) + [task]
      ensures task.kind == Direct(Replay.Install(ver, flags, EntryOf(registry.Now(), ver.key)))
      ensures Current(registry.Now(), task.kind.Task())
      ensures old(Accounted()) ==> Accounted()
    {
      hide Accounted;
      var entry := registry.FindEntry(ver.key);
      task := Enqueue(Direct(Replay.Install(ver, flags, entry)));
    }

    method SetFlags(entry: Entry, flags: int) returns (task: TaskObject)
      requires Valid()
      modifies this`nextQueue, this`owned
      ensures Valid() && fresh(task) && owned == old(owned) + {task} && nextQueue == old(nextQueue) + [task]
      ensures task.kind == Direct(Replay.ChangeFlags(entry, flags))
      ensures old(Accounted()) ==> Accounted()
    {
      hide Accounted, AllSound, Database.Valid, StartAll, Snapshot, History;
      task := Enqueue(Direct(Replay.ChangeFlags(entry, flags)));
    }

    method Uninstall(entry: Entry) returns (task: TaskObject)
      requires Valid()
      modifies this`nextQueue, this`owned
      ensures Valid() && fresh(task) && owned == old(owned) + {task} && nextQueue == old(nextQueue) + [task]
      ensures task.kind == Direct(Replay.Uninstall(entry))
      ensures old(Accounted()) ==> Accounted()
    {
      hide Accounted, AllSound, Database.Valid, StartAll, Snapshot, History;
      task := Enqueue(Direct(Replay.Uninstall(entry)));
    }

    /** `synchronize`: once per repository; its own setting for new packages comes before the general one. */
    method SynchronizeRemote(remote: Remotes.Remote, force: Option<bool>, opts: Options, index: Option<Index>)
      requires Valid() && Synchronize(true, true, index, opts, remote.isProtected).WellFormed()
      modifies this`nextQueue, this`owned, this`synced
      ensures Valid() && synced == old(synced) + {remote.name}
      ensures remote.name in old(synced) ==> nextQueue == old(nextQueue) && owned == old(owned)
      ensures remote.name !in old(synced) ==> (
        && |nextQueue| == |old(nextQueue)| + 1 && nextQueue[..|old(nextQueue)|] == old(nextQueue)
        && nextQueue[|old(nextQueue)|].kind
             == Synchronize(true, true, index, opts.(autoInstall := AutoInstall(remote, force, opts)), remote.isProtected))
      ensures old(Accounted()) ==> Accounted()
      ensures old(Synchronizing()) && ProperIndex(remote.name, index, opts) ==> Synchronizing()
    {
      hide Accounted, AllSound, Database.Valid, StartAll, Snapshot, History;
      hide Free, Orderly, AllKinds, AllGuarded, SyncsOf;
      if remote.name in synced {
        return;
      }
      synced := synced + {remote.name};
      var install := opts.(autoInstall := AutoInstall(remote, force, opts));
      ghost var kind, next := Synchronize(true, true, index, install, remote.isProtected), nextQueue;
      ghost var tidy := old(Synchronizing()) && ProperIndex(remote.name, index, opts);
      if tidy {
        SyncIsFree(
          registry.Now(), AllKinds(running, taskQueues, nextQueue), old(synced), kind, remote.name);
      }
      var task := Enqueue(Synchronize(true, true, index, install, remote.isProtected));
      if tidy {
        OneMoreSync(running, taskQueues, next, old(synced), task, remote.name);
      }
    }

    method ForgetIndex(name: string)
      requires Valid()
      modifies this`synced, fs
      ensures Valid() && synced == old(synced) - {name}
      ensures fs.files == old(fs.files) || fs.files == old(fs.files) - {IndexText(name)}
      ensures fs.reliable ==> fs.files == old(fs.files) - {IndexText(name)}
    {
      hide AllSound, Database.Valid, StartAll, Snapshot, History, Kind.WellFormed;
      synced := synced - {name};
      var _ := fs.Remove(IndexText(name));
    }

    /**
     * `uninstall` of a repository: its cached index goes, there is one task for each of its packages,
     * and it may be synchronized anew.
     */
    method UninstallRemote(name: string)
      requires Valid()
      modifies this`nextQueue, this`owned, this`synced, fs
      ensures Valid() && synced == old(synced) - {name}
      ensures fs.files == old(fs.files) || fs.files == old(fs.files) - {IndexText(name)}
      ensures fs.reliable ==> fs.files == old(fs.files) - {IndexText(name)}
      ensures old(nextQueue) <= nextQueue
      ensures UninstallsRemote(registry.Now(), name, Tasks(nextQueue)[|old(nextQueue)|..])
      ensures old(Accounted()) ==> Accounted()
    {
      hide Accounted;
      hide Transaction.Valid, UninstallsBut, Tasks;
      ForgetIndex(name);
      var entries := registry.db.conn.now.entries;
      ghost var t, n := registry.Now(), |nextQueue|;
      TasksLength(nextQueue);
      UninstallsBegin(t, name);
      var ids := set id | id in entries && entries[id].key.remote == name;
      ghost var done: seq<Replay.Task> := [];
      while ids != {}
        invariant Valid() && registry.Now() == t && old(nextQueue) <= nextQueue
        invariant old(Accounted()) ==> Accounted()
        invariant |Tasks(nextQueue)| == |nextQueue| && Tasks(nextQueue)[n..] == done && UninstallsBut(t, name, done, ids)
        modifies this`nextQueue, this`owned
        decreases ids
      {
        var id := Pick(ids);
        UninstallsNext(t, name, done, ids, id);
        ghost var before := nextQueue;
        var task := Uninstall(Entry(id, entries[id]));
        TasksGrow(before, task, n);
        done := done + [task.kind.Task()];
        ids := ids - {id};
      }
    }

    // ----- starting -----

    /** `InstallTask::start`: refused on conflicts; else the files to drop are those not brought again. */
    method StartInstall(task: TaskObject, ver: Version, flags: int, previous: Entry) returns (ok: bool)
      requires registry.Valid() && ver.WellFormed()
      modifies registry.db, task`files, this`jobs
      ensures registry.Valid() && registry.Stack() == old(registry.Stack())
      ensures registry.db.conn.durable == old(registry.db.conn.durable)
      ensures ok == !Conflicts(old(registry.Now()), ver, flags)
      ensures registry.Now() == Push(old(registry.Now()), ver, flags)
      ensures ok ==> task.files == FilesToDelete(old(registry.Now()), Replay.Install(ver, flags, previous))
      ensures ok ==> jobs == old(jobs) + |ver.files|
      ensures !ok ==> jobs == old(jobs)
    {
      ghost var t := registry.Now();
      task.files := registry.GetFiles(previous);
      ghost var rows := task.files;
      var outcome := registry.Push(ver, flags, true);
      if outcome.Refused? {
        return false;
      }
      for i := 0 to |ver.files|
        invariant task.files == set r | r in rows && forall k :: 0 <= k < i ==> r.path != ver.files[k].Text()
        invariant jobs == old(jobs) + i
        modifies task`files, this`jobs
      {
        var target := ver.files[i].path;
        forall r | r in rows
          ensures Parse(r.path) == target <==> r.path == ver.files[i].Text()
        {
          SamePathSameText(t, r, target);
        }
        var same := set r | r in task.files && Parse(r.path) == target;
        task.files := task.files - same;
        jobs := jobs + 1;
      }
      return true;
    }

    method StartTask(task: TaskObject) returns (ok: bool)
      requires registry.Valid() && task.kind.WellFormed()
      modifies registry.db, task`files, this`jobs
      ensures registry.Valid() && registry.Stack() == old(registry.Stack())
      ensures registry.db.conn.durable == old(registry.db.conn.durable)
      ensures match StartTables(old(registry.Now()), task.kind.Task())
        case None => !ok && registry.Now() == old(registry.Now()) && jobs == old(jobs)
        case Some(u) =>
          && ok && registry.Now() == u && jobs == old(jobs) + JobCount(task.kind)
          && task.files == FilesToDelete(old(registry.Now()), task.kind.Task())
    {
      match task.kind
      case Direct(Install(ver, flags, previous)) =>
        ok := StartInstall(task, ver, flags, previous);
      case Direct(Uninstall(entry)) =>
        task.files := registry.GetFiles(entry);
        registry.Forget(entry);
        ok := true;
      case Direct(_) =>
        task.files := {};
        ok := true;
      case Synchronize(download, _, _, _, _) =>
        task.files := {};
        jobs := if download then jobs + 1 else jobs;
        ok := true;
      case Export(n) =>
        task.files := {};
        jobs := jobs + n;
        ok := true;
    }

    /** The heap's top: a task no other one in the queue has priority over. */
    method PopTop(queue: seq<TaskObject>) returns (task: TaskObject, rest: seq<TaskObject>)
      requires queue != [] && Distinct(queue)
      ensures multiset(Tasks(queue)) == multiset(Tasks(rest)) + multiset{task.kind.Task()}
      ensures task in queue && task !in rest && Distinct(rest) && |rest| == |queue| - 1
      ensures forall other :: other in rest ==> other in queue
      ensures forall other :: other in rest ==> Priority(other.kind.Task()) <= Priority(task.kind.Task())
      ensures Syncs(queue) == Syncs(rest) + if task.kind.Synchronize? then 1 else 0
    {
      var best := 0;
      for i := 0 to |queue|
        invariant best < |queue|
        invariant forall k :: 0 <= k < i ==> Priority(queue[k].kind.Task()) <= Priority(queue[best].kind.Task())
      {
        var take: bool := *;  // which of several equals a heap keeps on top is unspecified
        var p, q := Priority(queue[i].kind.Task()), Priority(queue[best].kind.Task());
        if p > q || (p == q && take) {
          best := i;
        }
      }
      task := queue[best];
      rest := queue[..best] + queue[best + 1..];
      TasksWithout(queue, best);
      SyncsWithout(queue, best);
    }

    /** One turn of `runQueue`: the task starts, and is running if it could. */
    method StartNext(task: TaskObject, ghost t: Tables)
      requires registry.Valid() && task.kind.WellFormed() && task !in running
      requires Snapshot(running) == StartAll(t, order) && registry.Now() == SpeculatedEnd(t, order)
      modifies this`running, this`order, this`jobs, registry.db, task`files
      ensures registry.Valid() && registry.Stack() == old(registry.Stack())
      ensures registry.db.conn.durable == old(registry.db.conn.durable)
      ensures Snapshot(running) == StartAll(t, order) && registry.Now() == SpeculatedEnd(t, order)
      ensures order == old(order) + [task.kind.Task()]
      ensures running == old(running) || running == old(running) + [task]
      ensures jobs >= old(jobs)
    {
      hide StartAll, SpeculatedEnd, AllSound, Database.Valid, FilesToDelete, StartTables;
      StartAllAppend(t, order, task.kind.Task());
      ghost var before := Snapshot(running);
      var ok := StartTask(task);
      assert Snapshot(running) == before;
      if ok {
        assert Snapshot(running + [task]) == before + [Started(task.kind.Task(), task.files)];
        running := running + [task];
      }
      order := order + [task.kind.Task()];
    }

    /** The loop of `runQueue`. */
    method StartQueue(queue: seq<TaskObject>, ghost t: Tables)
      requires registry.Valid() && registry.Now() == t && running == [] && Distinct(queue)
      requires forall task <- queue :: task.kind.WellFormed()
      modifies this`running, this`order, this`jobs, registry.db, set task | task in queue
      ensures registry.Valid() && registry.Stack() == old(registry.Stack())
      ensures registry.db.conn.durable == old(registry.db.conn.durable)
      ensures Snapshot(running) == StartAll(t, order)
      ensures Splits(queue, order, running, [])
      ensures jobs >= old(jobs)
    {
      hide StartAll, SpeculatedEnd, AllSound, Database.Valid, Splits, Distinct, Syncs;
      order := [];
      var rest := queue;
      SplitsBegin(queue);
      StartNone(t);
      while rest != []
        invariant registry.Valid() && registry.Stack() == old(registry.Stack())
        invariant registry.db.conn.durable == old(registry.db.conn.durable)
        invariant Snapshot(running) == StartAll(t, order) && registry.Now() == SpeculatedEnd(t, order)
        invariant Splits(queue, order, running, rest)
        invariant jobs >= old(jobs)
        modifies this`running, this`order, this`jobs, registry.db, set task | task in queue
        decreases |rest|
      {
        SplitsRest(queue, order, running, rest);
        var task, rest' := PopTop(rest);
        SplitsStep(queue, order, running, rest, task, rest');
        StartNext(task, t);
        rest := rest';
      }
    }

    /**
     * `runQueue`: starts every task of a queue against the registry, uninstalls first, then takes all
     * the changes back. The tasks that started are running; the registry is as it was.
     */
    method RunQueue(queue: seq<TaskObject>)
      requires Valid() && QueueOk(queue) && running == []
      modifies this`running, this`order, this`jobs, registry.db, set task | task in queue
      ensures Valid() && PopOrder(Tasks(queue), order)
      ensures registry.Now() == old(registry.Now())
      ensures registry.db.conn.durable == old(registry.db.conn.durable)
      ensures |running| <= |queue| && Syncs(running) <= Syncs(queue)
      ensures forall task <- running :: task in queue
      ensures jobs >= old(jobs)
    {
      hide StartAll, AllSound, Database.Valid, History, Splits;
      ghost var t := registry.Now();
      registry.Savepoint();
      StartQueue(queue, t);
      registry.RestoreSavepoint();
      SplitsEnd(queue, order, running);
      forall i | 0 <= i < |running|
        ensures running[i] in owned && running[i].kind.WellFormed()
      {
        assert running[i] in running && running[i] in queue;
      }
      assert QueueOk(nextQueue) && QueueOk(running);
      assert Snapshot(running) == StartAll(registry.Now(), order);
      assert registry.Valid() && registry.Stack() == [];
      assert History(states, batches);
    }

    // ----- committing -----

    /** `InstallTask::rollback` once its jobs are over: the files that wait are dropped. */
    method Rollback(task: TaskObject)
      modifies fs, task`fail
      ensures task.fail
      ensures fs.files.Keys <= old(fs.files).Keys
      ensures forall path :: path !in Temps(task.newFiles) ==> Same(old(fs.files), fs.files, path)
      ensures fs.reliable ==> fs.files == old(fs.files) - Temps(task.newFiles)
    {
      for i := 0 to |task.newFiles|
        invariant fs.files.Keys <= old(fs.files).Keys
        invariant forall path :: path !in Temps(task.newFiles) ==> Same(old(fs.files), fs.files, path)
        invariant fs.reliable ==> fs.files == old(fs.files) - Temps(task.newFiles[..i])
        modifies fs
      {
        var path := task.newFiles[i];
        var _ := fs.Remove(Temp(path));
        assert task.newFiles[..i + 1] == task.newFiles[..i] + [path];
        assert Temps(task.newFiles[..i + 1]) == Temps(task.newFiles[..i]) + {Temp(path)};
        assert Temp(path) in Temps(task.newFiles);
      }
      assert task.newFiles[..|task.newFiles|] == task.newFiles;
      task.fail := true;
    }

    /** `InstallTask::commit`; `thrown` is the exception a conflict raises. */
    method CommitInstall(task: TaskObject, ver: Version, flags: int) returns (thrown: bool)
      requires registry.Valid() && ver.WellFormed()
      modifies fs, registry.db, task`fail
      ensures registry.Valid() && registry.Stack() == old(registry.Stack())
      ensures registry.db.conn.durable == old(registry.db.conn.durable)
      ensures thrown <==> !task.fail && Conflicts(old(registry.Now()), ver, flags)
      ensures registry.Now() == if task.fail then old(registry.Now()) else Push(old(registry.Now()), ver, flags)
      ensures old(task.fail) ==> task.fail && fs.files == old(fs.files)
      ensures fs.reliable && !old(task.fail) && AllWaiting(old(fs.files), task.newFiles) ==>
        !task.fail && fs.files == MoveAll(old(fs.files), task.newFiles) - PathsOf(task.files)
      ensures !old(task.fail) && task.fail ==> HalfMoved(old(fs.files), task.newFiles, fs.files)
      ensures !task.fail ==> LacksSome(MoveAll(old(fs.files), task.newFiles), PathsOf(task.files), fs.files)
    {
      if task.fail {
        return false;
      }
      ghost var disk := fs.files;
      var ok := fs.RenameAll(task.newFiles);
      if !ok {
        ghost var k :| 0 <= k < |task.newFiles| && fs.files == MoveAll(disk, task.newFiles[..k]);
        Rollback(task);
        assert forall path :: path !in Temps(task.newFiles) ==>
          Same(MoveAll(disk, task.newFiles[..k]), fs.files, path);
        return false;
      }
      fs.RemoveAll(task.files);
      var outcome := registry.Push(ver, flags, false);
      return outcome.Thrown?;
    }

    /** `SynchronizeTask::synchronize`. */
    method SynchronizePackage(item: Item, opts: Options)
      requires registry.Valid() && QueueOk(nextQueue) && item.Valid()
      modifies this`nextQueue, this`owned
      ensures QueueOk(nextQueue) && old(nextQueue) <= nextQueue && Syncs(nextQueue) == old(Syncs(nextQueue))
      ensures old(owned) <= owned && fresh(owned - old(owned))
      ensures Tasks(nextQueue) == Tasks(old(nextQueue)) + UpdateFor(registry.Now(), item, opts, fs.files.Keys)
      ensures old(Accounted()) ==> Accounted()
    {
      hide Accounted;
      hide Decide, Item.Valid, Registry.Valid, Syncs;
      var entry := registry.FindEntry(item.key);
      var update := Decide(entry, item.versions, opts, fs.files.Keys);
      DecideWellFormed(entry, item, opts, fs.files.Keys);
      if update.Some? {
        var kind := Direct(Replay.Install(update.value.ver, entry.row.flags, entry));
        var task := Enqueue(kind);
        SyncsAppend(old(nextQueue), task);
      }
    }

    /** An install was enqueued for every update of the index, and its obsolete entries were added. */
    twostate predicate Synchronized(full: bool, index: Option<Index>, opts: Options, protected: bool)
      reads this, registry, registry.db, fs
    {
      if !full || index.None? then nextQueue == old(nextQueue) && obsolete == old(obsolete)
      else
        && Tasks(nextQueue) == Tasks(old(nextQueue)) + Updates(registry.Now(), Items(index.value), opts, fs.files.Keys)
        && obsolete == (if opts.promptObsolete && !protected
                        then WithGone(old(obsolete), Gone(registry.Now(), index.value)) else old(obsolete))
    }

    /** `SynchronizeTask::commit`: an install for every update, and the obsolete entries. */
    method CommitSynchronize(full: bool, index: Option<Index>, opts: Options, protected: bool)
      requires registry.Valid() && QueueOk(nextQueue)
      requires index.Some? ==> forall item <- Items(index.value) :: item.Valid()
      modifies this`nextQueue, this`owned, this`obsolete
      ensures QueueOk(nextQueue) && old(nextQueue) <= nextQueue && Syncs(nextQueue) == old(Syncs(nextQueue))
      ensures old(owned) <= owned && fresh(owned - old(owned))
      ensures Synchronized(full, index, opts, protected)
      ensures old(Accounted()) ==> Accounted()
    {
      hide Accounted;
      hide UpdateFor, Item.Valid, Registry.Valid, Gone, WithGone, Syncs, Updates, Items;
      if index.None? || !full {
        return;
      }
      var items := Items(index.value);
      ghost var t, present := registry.Now(), fs.files.Keys;
      UpdatesNone(t, items, opts, present);
      for i := 0 to |items|
        invariant QueueOk(nextQueue) && old(nextQueue) <= nextQueue && Syncs(nextQueue) == old(Syncs(nextQueue))
        invariant old(owned) <= owned && fresh(owned - old(owned))
        invariant Tasks(nextQueue) == Tasks(old(nextQueue)) + Updates(t, items[..i], opts, present)
        invariant old(Accounted()) ==> Accounted()
        modifies this`nextQueue, this`owned
      {
        UpdatesNext(t, items, i, opts, present);
        SynchronizePackage(items[i], opts);
      }
      if opts.promptObsolete && !protected {
        AddGone(index.value);
      }
    }

    method AddGone(index: Index)
      modifies this`obsolete
      ensures obsolete == WithGone(old(obsolete), Gone(registry.Now(), index))
    {
      var entries := registry.db.conn.now.entries;
      var gone := set id | id in entries
          && entries[id].key.remote == index.name && !Pinned(entries[id].flags)
          && !Finds(index.categories, entries[id].key.category, entries[id].key.package)
        :: Entry(id, entries[id]);
      obsolete := obsolete + set e | e in gone && forall h <- obsolete :: h.id != e.id;
    }

    /** Its files can be put in place: the disk is reliable and the downloads are there. */
    ghost predicate Smooth(task: TaskObject)
      reads fs, task
    {
      && fs.reliable
      && (task.kind.Task().Install? && !task.fail ==> AllWaiting(fs.files, task.newFiles))
    }

    method CommitTask(task: TaskObject) returns (thrown: bool)
      requires registry.Valid() && QueueOk(nextQueue) && task.kind.WellFormed()
      modifies fs, registry.db, task`fail, this`nextQueue, this`owned, this`obsolete
      ensures registry.Valid() && registry.Stack() == old(registry.Stack())
      ensures registry.db.conn.durable == old(registry.db.conn.durable)
      ensures CommitTables(old(registry.Now()), task.kind.Task(), task.fail)
           == if thrown then None else Some(registry.Now())
      ensures QueueOk(nextQueue) && old(nextQueue) <= nextQueue && Syncs(nextQueue) == old(Syncs(nextQueue))
      ensures old(owned) <= owned && fresh(owned - old(owned))
      ensures !task.kind.Synchronize? ==> nextQueue == old(nextQueue) && obsolete == old(obsolete)
      ensures task.kind.Synchronize? ==>
        Synchronized(task.kind.full, task.kind.index, task.kind.opts, task.kind.protected)
      ensures Adds(
        old(registry.Now()), old(fs.files.Keys), task.kind, old(nextQueue), nextQueue, old(obsolete), obsolete)
      ensures task.kind.Task().Install? && !old(task.fail) && task.fail ==>
        HalfMoved(old(fs.files), task.newFiles, fs.files)
      ensures task.kind.Task().Install? && !task.fail ==>
        LacksSome(MoveAll(old(fs.files), task.newFiles), PathsOf(task.files), fs.files)
      ensures task.kind.Task().Uninstall? ==> LacksSome(old(fs.files), PathsOf(task.files), fs.files)
      ensures !task.kind.Task().Install? && !task.kind.Task().Uninstall? ==> fs.files == old(fs.files)
      ensures old(Smooth(task)) ==>
        && task.fail == old(task.fail)
        && fs.files == CommitDisk(old(fs.files), Started(task.kind.Task(), task.files), task.newFiles, task.fail)
      ensures old(Accounted()) ==> Accounted()
    {
      hide Accounted;
      hide Registry.Valid;
      thrown := false;
      match task.kind
      case Direct(Install(ver, flags, _)) =>
        thrown := CommitInstall(task, ver, flags);
      case Direct(Uninstall(entry)) =>
        fs.RemoveAll(task.files);
        registry.Forget(entry);
      case Direct(ChangeFlags(entry, newFlags)) =>
        registry.SetFlags(entry, newFlags);
      case Synchronize(_, full, index, opts, protected) =>
        CommitSynchronize(full, index, opts, protected);
      case Export(_) =>
      case Direct(Passive) =>
    }

    /** The running tasks, once their downloads are over, can all be put in place. */
    ghost predicate AllReady()
      reads this, registry, registry.db, fs, running
    {
      fs.reliable && Ready(registry.Now(), fs.files, Snapshot(running), Moved(running), Fails(running))
    }

    /** What is left to commit of the running tasks, and where. */
    ghost function View(): (q: Progress)
      reads this, registry, registry.db, fs, running
      ensures q.Even() && |q.snap| == |running|
    {
      Progress(registry.Now(), fs.files, Snapshot(running), Moved(running), Fails(running), AllReady())
    }

    lemma {:induction false} AllReadySmooth(task: TaskObject)
      requires AllReady() && running != [] && task == running[0]
      ensures Smooth(task)
    {
      ReadyFirst(registry.Now(), fs.files, Snapshot(running), Moved(running), Fails(running));
    }

    lemma {:induction false} Tails(all: seq<TaskObject>)
      requires all != [] && Distinct(all)
      ensures all[0] !in all[1..] && |Snapshot(all)| == |Moved(all)| == |Fails(all)| == |all|
      ensures Snapshot(all)[0].task == all[0].kind.Task() && Snapshot(all)[0].files == all[0].files
      ensures Moved(all)[0] == all[0].newFiles && Fails(all)[0] == all[0].fail
      ensures Snapshot(all[1..]) == Snapshot(all)[1..]
      ensures Moved(all[1..]) == Moved(all)[1..] && Fails(all[1..]) == Fails(all)[1..]
    {
    }

    lemma {:induction false} StepTaken(q: Progress, thrown: bool, failed: bool)
      requires q.Even() && q.snap != []
      requires q.ready ==> Ready(q.t, q.disk, q.snap, q.moved, q.fails) && fs.reliable && failed == q.fails[0]
      requires CommitTables(q.t, q.snap[0].task, failed) == if thrown then None else Some(registry.Now())
      requires q.ready ==> fs.files == CommitDisk(q.disk, q.snap[0], q.moved[0], failed)
      requires Snapshot(running) == q.snap[1..] && Moved(running) == q.moved[1..] && Fails(running) == q.fails[1..]
      ensures Steps(q, thrown, failed, View())
    {
      if q.ready && !thrown {
        ReadyNext(q.t, q.disk, q.snap, q.moved, q.fails, registry.Now());
      }
    }

    /** One turn of the loop of `commitTasks`. */
    method CommitNext() returns (thrown: bool, ghost failed: bool)
      requires registry.Valid() && QueueOk(nextQueue) && QueueOk(running) && running != []
      modifies this`running, this`nextQueue, this`owned, this`obsolete, registry.db, fs, set task | task in running
      ensures registry.Valid() && registry.Stack() == old(registry.Stack())
      ensures registry.db.conn.durable == old(registry.db.conn.durable)
      ensures running == old(running)[1..] && QueueOk(running) && QueueOk(nextQueue)
      ensures Steps(old(View()), thrown, failed, View()) && failed == old(running)[0].fail
      ensures Syncs(nextQueue) == old(Syncs(nextQueue)) && old(owned) <= owned && fresh(owned - old(owned))
      ensures old(NoSyncs(running)) ==> nextQueue == old(nextQueue) && obsolete == old(obsolete)
      ensures old(Accounted()) ==> Accounted()
      ensures !thrown && old(InOrder(obsolete)) ==> InOrder(obsolete)
    {
      hide Accounted;
      hide AllSound, Database.Valid, CommitTables, CommitDisk, Smooth, Syncs, Ready, Orderly, AllKinds;
      hide Adds, Synchronized, HalfMoved, Kind.WellFormed, Steps, Snapshot, Moved, Fails;
      ghost var q, next, gone, present := View(), nextQueue, obsolete, fs.files.Keys;
      var task := running[0];
      Tails(running);
      if AllReady() {
        AllReadySmooth(task);
      }
      thrown := CommitTask(task);
      failed := task.fail;
      running := running[1..];
      StepTaken(q, thrown, failed);
      if !thrown && old(InOrder(obsolete)) {
        NextInOrder(q.t, old(running), taskQueues, next, nextQueue, failed, registry.Now(), gone, obsolete, present);
      }
    }

    /** What failed, when the first tasks have been committed and the others have not. */
    lemma {:induction false} FailsAre(all: seq<TaskObject>, i: nat, done: seq<bool>, rest: seq<bool>)
      requires i <= |all| && Fails(all[..i]) == done && Fails(all[i..]) == rest
      ensures Fails(all) == done + rest
    {
      forall k | 0 <= k < |all|
        ensures Fails(all)[k] == (done + rest)[k]
      {
        assert if k < i then Fails(all[..i])[k] == all[k].fail else Fails(all[i..])[k - i] == all[k].fail;
      }
    }

    lemma {:induction false} OneMore(all: seq<TaskObject>, i: nat, done: seq<bool>)
      requires i < |all| && Fails(all[..i]) == done
      ensures Fails(all[..i + 1]) == done + [all[i].fail]
    {
      forall k | 0 <= k <= i
        ensures Fails(all[..i + 1])[k] == (done + [all[i].fail])[k]
      {
        assert k < i ==> Fails(all[..i])[k] == all[k].fail;
      }
    }

    /** The invariant of the loop, and what comes of a queue whose next task throws. */
    lemma {:induction false} OneCommitted(
      all: seq<TaskObject>, i: nat, q: Progress, done: seq<bool>, before: Progress, thrown: bool, last: bool)
      requires i < |all| && running == all[i..][1..] && Fails(all[..i]) == done && last == all[i].fail
      requires Along(q, done, before) && Steps(before, thrown, last, View())
      ensures running == all[i + 1..]
      ensures if thrown then Comes(q, true, Fails(all), registry.Now(), fs.files)
        else Along(q, done + [last], View()) && Fails(all[..i + 1]) == done + [last]
    {
      hide Along, Steps, Comes, AllReady, Fails, Moved, Snapshot;
      assert all[i..][1..] == all[i + 1..];
      OneMore(all, i, done);
      if thrown {
        AlongThrown(q, done, before, last, View());
        FailsAre(all, i + 1, done + [last], View().fails);
      } else {
        AlongStep(q, done, before, last, View());
      }
    }

    lemma {:induction false} DoneApart(all: seq<TaskObject>, i: nat)
      requires i <= |all| && Distinct(all)
      ensures forall task <- all[..i] :: task !in all[i..]
    {
    }

    /** The loop of `commitTasks` when nothing was cancelled; `failed` is what became of the tasks. */
    method CommitRunning() returns (thrown: bool, ghost failed: seq<bool>)
      requires registry.Valid() && QueueOk(nextQueue) && QueueOk(running)
      modifies this`running, this`nextQueue, this`owned, this`obsolete, registry.db, fs, set task | task in running
      ensures registry.Valid() && registry.Stack() == old(registry.Stack())
      ensures registry.db.conn.durable == old(registry.db.conn.durable)
      ensures Comes(old(View()), thrown, failed, registry.Now(), fs.files) && failed == Fails(old(running))
      ensures !thrown ==> running == []
      ensures QueueOk(nextQueue) && Syncs(nextQueue) == old(Syncs(nextQueue))
      ensures old(owned) <= owned && fresh(owned - old(owned))
      ensures old(NoSyncs(running)) ==> nextQueue == old(nextQueue) && obsolete == old(obsolete)
      ensures old(Accounted()) ==> Accounted()
      ensures !thrown && old(InOrder(obsolete)) ==> InOrder(obsolete)
    {
      hide Accounted, InOrder, Kind.WellFormed, Distinct;
      hide Registry.Valid, Registry.Stack, Registry.Now, Syncs, AllReady, Along, Steps, Comes, Snapshot, Moved, Fails;
      ghost var all, q, i := running, View(), 0;
      failed := [];
      AlongBegins(q);
      NoFails(all);
      while running != []
        invariant i <= |all| && running == all[i..]
        invariant registry.Valid() && registry.Stack() == old(registry.Stack())
        invariant registry.db.conn.durable == old(registry.db.conn.durable)
        invariant QueueOk(nextQueue) && Syncs(nextQueue) == old(Syncs(nextQueue)) && QueueOk(running)
        invariant old(owned) <= owned && fresh(owned - old(owned))
        invariant NoSyncs(all) ==> nextQueue == old(nextQueue) && obsolete == old(obsolete)
        invariant old(Accounted()) ==> Accounted()
        invariant Along(q, failed, View()) && Fails(all[..i]) == failed
        invariant old(InOrder(obsolete)) ==> InOrder(obsolete)
        modifies this`running, this`nextQueue, this`owned, this`obsolete, registry.db, fs, set task | task in all
        decreases |running|
      {
        ghost var last, before := false, View();
        DoneApart(all, i);
        thrown, last := CommitNext();
        OneCommitted(all, i, q, failed, before, thrown, last);
        if thrown {
          failed := Fails(all);
          return;
        }
        failed := failed + [last];
        i := i + 1;
      }
      thrown := false;
      AlongEnds(q, failed, View());
      assert all[..i] == all;
    }

    lemma {:induction false} NoFails(all: seq<TaskObject>)
      ensures Fails(all[..0]) == []
    {
    }

    /** `Task::rollback`: only an install has something to undo. */
    method RollbackTask(task: TaskObject)
      modifies fs, task`fail
      ensures task.fail == (task.kind.Task().Install? || old(task.fail))
      ensures fs.files.Keys <= old(fs.files.Keys)
      ensures task.kind.Task().Install? && fs.reliable ==> forall path <- task.newFiles :: Temp(path) !in fs.files
      ensures forall path :: path !in Temps(task.newFiles) ==> Same(old(fs.files), fs.files, path)
    {
      if task.kind.Direct? && task.kind.task.Install? {
        Rollback(task);
        assert fs.reliable ==> forall path <- task.newFiles :: Temp(path) in Temps(task.newFiles);
      }
    }

    /**
     * Of the first `n` tasks every install has failed, and where files can be removed none of its downloads
     * waits any more; no other task fails.
     */
    ghost predicate RolledBack(tasks: seq<TaskObject>, fails: seq<bool>, n: nat)
      reads this, fs, tasks
    {
      && |fails| == |tasks|
      && (forall k :: 0 <= k < |tasks| ==> tasks[k].fail == (fails[k] || (k < n && tasks[k].kind.Task().Install?)))
      && (fs.reliable ==> forall k :: 0 <= k < |tasks| && k < n && tasks[k].kind.Task().Install? ==>
            forall path <- tasks[k].newFiles :: Temp(path) !in fs.files)
    }

    /** The loop of `commitTasks` after a cancellation: nothing but waiting files goes. */
    method RollbackRunning()
      requires QueueOk(running)
      modifies this`running, fs, set task | task in running
      ensures running == [] && fs.files.Keys <= old(fs.files.Keys)
      ensures RolledBack(old(running), old(Fails(running)), |old(running)|)
      ensures forall path :: Elsewhere(old(Moved(running)), path) ==> Same(old(fs.files), fs.files, path)
    {
      hide Temps, Elsewhere, Same, Kind.Task, Kind.WellFormed;
      ghost var all, moved, fails := running, Moved(running), Fails(running);
      ghost var i := 0;
      SameAtFirst(fs.files);
      while running != []
        invariant i <= |all| && running == all[i..] && QueueOk(running)
        invariant forall k :: 0 <= k < |all| ==> all[k].newFiles == moved[k]
        invariant RolledBack(all, fails, i) && fs.files.Keys <= old(fs.files.Keys)
        invariant forall path :: Elsewhere(moved, path) ==> Same(old(fs.files), fs.files, path)
        modifies this`running, fs, set task | task in all
        decreases |running|
      {
        var task := running[0];
        ghost var before := fs.files;
        assert task == all[i] && task.newFiles == moved[i];
        RollbackTask(task);
        SameThrough(old(fs.files), before, fs.files, moved, i);
        running := running[1..];
        i := i + 1;
      }
    }

    /** `commitTasks` on running tasks whose jobs are over, when nothing was cancelled. */
    method CommitQueue() returns (thrown: bool, ghost failed: seq<bool>)
      requires Valid()
      modifies this`running, this`nextQueue, this`owned, this`obsolete, this`order, this`states, this`batches
      modifies registry.db, fs, set task | task in running
      ensures registry.db.conn.durable == old(registry.db.conn.durable)
      ensures if thrown then states == old(states) && batches == old(batches) && order == old(order)
        else
          && Valid() && running == [] && states == old(states) + [registry.Now()]
          && batches == old(batches) + [Batch(old(order), old(Snapshot(running)), failed)]
      ensures Syncs(nextQueue) == old(Syncs(nextQueue)) && old(owned) <= owned && fresh(owned - old(owned))
      ensures old(NoSyncs(running)) ==> nextQueue == old(nextQueue) && obsolete == old(obsolete)
      ensures Comes(old(View()), thrown, failed, registry.Now(), fs.files) && failed == Fails(old(running))
      ensures old(Accounted()) ==> Accounted()
      ensures old(Untangled()) ==> if thrown then GuardedSoFar() else Untangled()
    {
      hide Accounted, InOrder, AllGuarded, Kind.WellFormed, Registry.Stack, History, Consistent;
      hide AllSound, Database.Valid, StartAll, AllReady, CommitAll, CommitDisks, Syncs, NoSyncs, Fails, Moved;
      ghost var t, snap := registry.Now(), Snapshot(running);
      thrown, failed := CommitRunning();
      if thrown {
        return;
      }
      ghost var batch := Batch(order, snap, failed);
      if old(Untangled()) {
        NowConsistent();
        AllGuardedOn(states, batches, batch, registry.Now());
      }
      HistoryGoesOn(states, batches, batch, registry.Now());
      states := states + [registry.Now()];
      batches := batches + [batch];
      order := [];
      StartNone(registry.Now());
    }

    /**
     * How a run stops short: the queue being committed meets a conflict, given what failed in it, and
     * the install that failed is one of this transaction's.
     */
    ghost predicate Stopped(failed: seq<bool>)
      reads this, owned
    {
      && states != [] && Conflicted(states[|states| - 1], order, failed)
      && exists task <- owned :: task.kind.Task().Install? && task.fail
    }

    lemma {:induction false} StoppedBy(t: Tables, snap: seq<Started>, tasks: seq<TaskObject>, failed: seq<bool>)
      requires states != [] && t == states[|states| - 1] && Consistent(t) && snap == StartAll(t, order)
      requires |snap| == |tasks| && failed == Fails(tasks) && CommitAll(t, snap, failed) == None
      requires forall i :: 0 <= i < |tasks| ==>
        tasks[i] in owned && tasks[i].kind.WellFormed() && snap[i].task == tasks[i].kind.Task()
      ensures Stopped(failed)
    {
      hide StartAll, CommitAll, Consistent, Conflicted;
      ThrowIsConflicted(t, order, failed);
      var j :| 0 <= j < |snap| && snap[j].task.Install? && failed[j];
      assert tasks[j] in owned && tasks[j].fail == Fails(tasks)[j];
    }

    /** The running tasks are given up. */
    lemma {:induction false} GivenUp(all: seq<TaskObject>)
      requires running == [] && registry.Valid() && AllGuarded(states, batches, order)
      requires states[|states| - 1] == registry.Now()
      requires Orderly(registry.Now(), AllKinds(all, taskQueues, nextQueue), obsolete)
      ensures InOrder(obsolete) && AllGuarded(states, batches, [])
    {
      NoneInOrder(registry.Now(), all, taskQueues, nextQueue, obsolete);
      NoneGuarded(registry.Now());
    }

    lemma {:induction false} NowConsistent()
      requires registry.Valid()
      ensures Consistent(registry.Now())
    {
    }

    /** Nothing was committed: the registry, its history and what is still to be done are the same. */
    twostate predicate Untouched()
      reads this, registry, registry.db
    {
      && registry.Now() == old(registry.Now())
      && states == old(states) && batches == old(batches)
      && nextQueue == old(nextQueue) && obsolete == old(obsolete) && owned == old(owned)
    }

    /** With no task running any more less is left to do. */
    twostate lemma {:induction false} LessLeft()
      requires running == [] && taskQueues == old(taskQueues) && Syncs(nextQueue) == old(Syncs(nextQueue))
      requires old(NoSyncs(running)) ==> nextQueue == old(nextQueue) && obsolete == old(obsolete)
      ensures GrowsNot() && (old(running) != [] ==> Shrinks())
    {
      hide Syncs, NoSyncs, QueuesSyncs, QueuesWeight;
      NoSyncsCount(old(running));
      SyncsNone();
    }

    /** `commitTasks` after a cancellation, when all jobs are over. */
    method CancelQueue()
      requires Valid()
      modifies this`running, this`order, fs, set task | task in running
      ensures Valid() && Untouched() && running == []
      ensures GrowsNot() && (old(running) != [] ==> Shrinks())
      ensures RolledBack(old(running), old(Fails(running)), |old(running)|)
      ensures forall path :: Elsewhere(old(Moved(running)), path) ==> Same(old(fs.files), fs.files, path)
      ensures old(Untangled()) ==> Untangled()
    {
      hide AllSound, Database.Valid, StartAll, Syncs, NoSyncs, Moved, Elsewhere, Same, Kind.WellFormed, History;
      hide AllKinds, Orderly, AllGuarded;
      ghost var all, tidy := running, Untangled();
      RollbackRunning();
      if tidy {
        GivenUp(all);
      }
      order := [];
      StartNone(registry.Now());
      LessLeft();
    }

    /**
     * What committing the running tasks comes to when `failed` of them do: tables and disk are where
     * `Comes` says; a guarded queue throws if and only if a failed update keeps a file that another
     * install was promised; and a ready one leaves every file where the registry has it.
     */
    twostate predicate Outcome(tasks: seq<TaskObject>, thrown: bool, failed: seq<bool>)
      reads this, registry, registry.db, fs, tasks
    {
      && Comes(old(View()), thrown, failed, registry.Now(), fs.files) && failed == Fails(tasks)
      && (old(Guarded(registry.Now(), order)) ==> (thrown <==> BrokenHandover(old(Snapshot(running)), failed)))
      && (!thrown && old(AllReady()) ==>
            AllSettled(old(registry.Now()), old(fs.files), old(Snapshot(running)), failed, registry.Now(), fs.files))
    }

    /** `commitTasks` when nothing was cancelled and all jobs are over. */
    method FinishQueue() returns (thrown: bool, ghost failed: seq<bool>)
      requires Valid()
      modifies this`running, this`nextQueue, this`owned, this`obsolete, this`order, this`states, this`batches
      modifies registry.db, fs, set task | task in running
      ensures registry.db.conn.durable == old(registry.db.conn.durable)
      ensures if thrown then states == old(states) && batches == old(batches) && Stopped(failed)
        else
          && Valid() && running == [] && states == old(states) + [registry.Now()]
          && batches == old(batches) + [Batch(old(order), old(Snapshot(running)), failed)]
          && GrowsNot() && (old(running) != [] ==> Shrinks())
      ensures Syncs(nextQueue) == old(Syncs(nextQueue)) && old(owned) <= owned && fresh(owned - old(owned))
      ensures old(NoSyncs(running)) ==> nextQueue == old(nextQueue) && obsolete == old(obsolete)
      ensures Outcome(old(running), thrown, failed)
      ensures old(Accounted()) ==> Accounted()
      ensures old(Untangled()) ==> if thrown then GuardedSoFar() else Untangled()
    {
      hide Accounted, Untangled, GuardedSoFar, Stopped, Kind.WellFormed, Committed, Fails, Moved;
      hide AllSound, Database.Valid, StartAll, CommitAll, CommitDisks, Syncs, NoSyncs, Guarded, BrokenHandover, Ready;
      hide AllSettled, Conflicted, InstallFailed, Consistent;
      NowConsistent();
      ghost var q, goal, tasks := View(), order, running;
      thrown, failed := CommitQueue();
      ComesGuarded(q, goal, thrown, failed, registry.Now(), fs.files);
      if thrown {
        StoppedBy(q.t, q.snap, tasks, failed);
      } else {
        LessLeft();
        ReadyCame(q, failed);
      }
    }

    lemma {:induction false} ReadyCame(q: Progress, failed: seq<bool>)
      requires Comes(q, false, failed, registry.Now(), fs.files)
      requires q.ready ==> Ready(q.t, q.disk, q.snap, q.moved, q.fails)
      ensures q.ready ==> AllSettled(q.t, q.disk, q.snap, failed, registry.Now(), fs.files)
    {
      if q.ready {
        ReadySettles(q.t, q.disk, q.snap, q.moved, failed, registry.Now());
      }
    }

    /**
     * `commitTasks`: waits for the pool, or finishes every running task as `Outcome` says. It throws
     * only because an install failed. After a cancellation nothing changes but the files that waited.
     */
    method CommitTasks() returns (status: Status, ghost failed: seq<bool>)
      requires Valid()
      modifies this`running, this`nextQueue, this`owned, this`obsolete, this`order, this`states, this`batches
      modifies registry.db, fs, set task | task in running
      ensures status.Waiting? <==> jobs > 0
      ensures registry.db.conn.durable == old(registry.db.conn.durable)
      ensures Syncs(nextQueue) == old(Syncs(nextQueue)) && old(owned) <= owned && fresh(owned - old(owned))
      ensures old(NoSyncs(running)) ==> nextQueue == old(nextQueue) && obsolete == old(obsolete)
      ensures !status.Threw? ==> Valid() && GrowsNot()
      ensures status.Waiting? ==> Untouched() && running == old(running) && fs.files == old(fs.files)
      ensures status.Done? ==> running == [] && (old(running) != [] ==> Shrinks())
      ensures cancelled && status.Done? ==> (
        && Untouched() && RolledBack(old(running), old(Fails(running)), |old(running)|)
        && forall path :: Elsewhere(old(Moved(running)), path) ==> Same(old(fs.files), fs.files, path))
      ensures !cancelled && status.Done? ==> (
        && states == old(states) + [registry.Now()]
        && batches == old(batches) + [Batch(old(order), old(Snapshot(running)), failed)])
      ensures status.Threw? ==> !cancelled && states == old(states) && batches == old(batches) && Stopped(failed)
      ensures !cancelled && jobs == 0 ==> Outcome(old(running), status.Threw?, failed)
      ensures old(Accounted()) ==> Accounted()
      ensures old(Untangled()) ==> if status.Threw? then GuardedSoFar() else Untangled()
    {
      hide Transaction.Valid, Accounted, Untangled, GuardedSoFar, Stopped, Pending, Load, Shrinks, Outcome;
      hide Snapshot, Moved, Elsewhere, Same, Syncs, NoSyncs;
      failed := [];
      if jobs > 0 {
        return Waiting, [];
      }
      if cancelled {
        CancelQueue();
        return Done, [];
      }
      var thrown;
      thrown, failed := FinishQueue();
      return if thrown then Threw else Done, failed;
    }

    // ----- runs -----

    lemma {:induction false} AddedBack(queues: seq<seq<TaskObject>>, had: set<TaskObject>, task: TaskObject)
      requires task !in had && queues != []
      ensures Conserved(Flat(queues) + nextQueue, handled, had) ==>
        Conserved(Flat(PushedBack(queues, task)) + nextQueue, handled, had + {task})
    {
      var front, last := queues[..|queues| - 1], queues[|queues| - 1];
      assert queues == front + [last];
      FlatBack(front, last + [task]);
      assert Flat(front) + (last + [task]) == Flat(queues) + [task];
      if Conserved(Flat(queues) + nextQueue, handled, had) {
        ConservedAdd(Flat(queues), nextQueue, handled, had, task);
      }
    }

    /** Uninstalls an entry with the last queue. */
    method UninstallLast(entry: Entry) returns (task: TaskObject)
      requires Valid() && taskQueues != []
      modifies this`taskQueues, this`owned
      ensures Valid() && fresh(task) && task.kind == Direct(Replay.Uninstall(entry))
      ensures owned == old(owned) + {task} && taskQueues == PushedBack(old(taskQueues), task)
      ensures old(Accounted()) ==> Accounted()
    {
      hide AllSound, Database.Valid, StartAll, History, Conserved, Flat;
      ghost var before, had := taskQueues, owned;
      task := new TaskObject(Direct(Replay.Uninstall(entry)));
      AddedBack(before, had, task);
      owned := owned + {task};
      taskQueues := PushedBack(taskQueues, task);
      assert Snapshot(running) == old(Snapshot(running));
    }

    method UninstallSelected(entries: set<Entry>)
      requires Valid() && (entries != {} ==> taskQueues != [])
      modifies this`taskQueues, this`owned
      ensures Valid() && old(owned) <= owned && fresh(owned - old(owned))
      ensures QueuesWeight(taskQueues) == old(QueuesWeight(taskQueues)) + 2 * |entries|
      ensures QueuesSyncs(taskQueues) == old(QueuesSyncs(taskQueues))
      ensures LastUninstalls(old(taskQueues), entries, taskQueues)
      ensures old(Accounted()) ==> Accounted()
      ensures old(InOrder(entries)) ==> InOrder({})
    {
      hide Accounted, Orderly, AllKinds;
      hide Transaction.Valid, LastUninstalls, QueuesWeight, QueuesSyncs, PushedBack;
      ghost var t, tidy := registry.Now(), InOrder(entries);
      LastUninstallsBegin(taskQueues);
      var selected := entries;
      assert entries - selected == {};
      while selected != {}
        invariant Valid() && (entries != {} ==> taskQueues != []) && selected <= entries
        invariant old(owned) <= owned && fresh(owned - old(owned))
        invariant LastUninstalls(old(taskQueues), entries - selected, taskQueues)
        invariant old(Accounted()) ==> Accounted()
        invariant tidy ==> Orderly(t, AllKinds(running, taskQueues, nextQueue), selected)
        modifies this`taskQueues, this`owned
        decreases selected
      {
        var entry := Pick(selected);
        ghost var queues := taskQueues;
        var task := UninstallLast(entry);
        if tidy {
          LastInOrder(t, running, queues, nextQueue, selected, task, entry);
        }
        LastUninstallsStep(old(taskQueues), entries - selected, queues, entry, task);
        assert entries - (selected - {entry}) == entries - selected + {entry};
        selected := selected - {entry};
      }
      assert entries - selected == entries;
      LastUninstallsMeasure(old(taskQueues), entries, taskQueues);
    }

    /** `promptObsolete`: what the user selects is uninstalled with the last queue that is pending. */
    method PromptObsolete() returns (ghost chosen: set<Entry>)
      requires Valid() && running == []
      modifies this`obsolete, this`taskQueues, this`owned
      ensures Valid() && GrowsNot()
      ensures old(owned) <= owned && fresh(owned - old(owned))
      ensures obsolete == if prompts then {} else old(obsolete)
      ensures chosen <= old(obsolete) && (!prompts ==> chosen == {})
      ensures chosen == {} ==> taskQueues == old(taskQueues)
      ensures chosen != {} ==>
        LastUninstalls(if old(taskQueues) == [] then [[]] else old(taskQueues), chosen, taskQueues)
      ensures old(Accounted()) ==> Accounted()
      ensures old(Untangled()) ==> Untangled()
    {
      hide Orderly, AllKinds, AllGuarded;
      hide Conserved, Flat;
      hide AllSound, Database.Valid, StartAll, Snapshot, History, Kind.WellFormed, LastUninstalls;
      hide QueuesWeight, QueuesSyncs, Syncs;
      QueuesEmpty();
      chosen := {};
      if !prompts || obsolete == {} {
        return;
      }
      var keep: set<Entry> := *;  // the answer to the prompt
      var selected := obsolete * keep;
      Fewer(selected, obsolete);
      obsolete := {};
      chosen := selected;
      if selected == {} {
        if old(Untangled()) {
          OrderlyFewer(registry.Now(), AllKinds(running, taskQueues, nextQueue), old(obsolete), {});
        }
        return;
      }
      if old(Untangled()) {
        OrderlyFewer(registry.Now(), AllKinds(running, taskQueues, nextQueue), old(obsolete), selected);
      }
      SameKinds(running, [], nextQueue);
      if taskQueues == [] {
        FlatEmpty();
        taskQueues := [[]];
      }
      UninstallSelected(selected);
    }

    /** What every part of a run keeps until it finishes. */
    twostate predicate GoesOn()
      reads this, registry, registry.db
    {
      && registry.db.conn.durable == old(registry.db.conn.durable) && finishes == old(finishes)
      && cancelled == old(cancelled) && old(states) <= states && old(batches) <= batches
      && old(owned) <= owned
    }

    lemma {:induction false} StartsFront()
      requires taskQueues != []
      ensures Accounted() ==>
        Conserved(Flat(taskQueues[1..]) + nextQueue, handled + TasksIn(taskQueues[0]), owned)
    {
      FlatFront(taskQueues);
      var rest := Flat(taskQueues[1..]) + nextQueue;
      assert Flat(taskQueues) + nextQueue == taskQueues[0] + rest;
      if Accounted() {
        ConservedStart(taskQueues[0], rest, handled, owned);
      }
    }

    /** Starts the first queue that is pending. */
    method RunFront()
      requires Valid() && running == [] && taskQueues != []
      modifies this`running, this`order, this`jobs, this`taskQueues, this`handled, registry.db, owned
      ensures Valid() && GoesOn() && Shrinks()
      ensures registry.Now() == old(registry.Now())
      ensures PopOrder(Tasks(old(taskQueues)[0]), order) && taskQueues == old(taskQueues)[1..]
      ensures handled == old(handled) + TasksIn(old(taskQueues)[0])
      ensures jobs >= old(jobs) && forall task <- running :: task in owned
      ensures old(Accounted()) ==> Accounted()
      ensures old(Untangled()) ==> Untangled()
    {
      hide Orderly, AllKinds, AllGuarded, Guarded;
      hide AllSound, Database.Valid, StartAll, Snapshot, History, PopOrder, Conserved, Flat, Syncs, Kind.WellFormed;
      SyncsNone();
      QueuesFront(taskQueues);
      StartsFront();
      ghost var queues, last, tidy := taskQueues, order, Untangled();
      RunQueue(taskQueues[0]);
      if tidy {
        StartInOrder(registry.Now(), queues, nextQueue, running, order, obsolete);
        AllGuardedStart(states, batches, last, order);
      }
      handled := handled + TasksIn(taskQueues[0]);
      taskQueues := taskQueues[1..];
    }

    /** The inner loop of `runTasks`: queue after queue is started, and committed unless it has to wait. */
    method DrainQueues() returns (status: Status, ghost failed: seq<bool>)
      requires Valid() && running == [] && jobs == 0 && !cancelled
      modifies this, registry.db, fs, owned
      ensures GoesOn() && fresh(owned - old(owned))
      ensures !status.Threw? ==> Valid() && GrowsNot()
      ensures status.Waiting? ==> jobs > 0 && Shrinks()
      ensures status.Done? ==> jobs == 0 && running == [] && taskQueues == []
      ensures status.Done? && old(taskQueues) == [] ==> nextQueue == old(nextQueue)
      ensures status.Done? && old(taskQueues) != [] ==> Shrinks()
      ensures status.Threw? ==> Stopped(failed)
      ensures old(Accounted()) && !status.Threw? ==> Accounted()
      ensures old(Untangled()) ==> if status.Threw? then GuardedSoFar() else Untangled()
    {
      hide Untangled, GuardedSoFar;
      hide Outcome, Elsewhere, Moved, Same, Snapshot, Syncs, NoSyncs;
      hide Accounted;
      hide Transaction.Valid, Registry.Valid, Registry.Now, Pending, Load, Stopped;
      failed := [];
      while taskQueues != []
        invariant Valid() && running == [] && jobs == 0 && !cancelled
        invariant GoesOn() && fresh(owned - old(owned))
        invariant |taskQueues| <= |old(taskQueues)|
        invariant old(Accounted()) ==> Accounted()
        invariant old(Untangled()) ==> Untangled()
        invariant if |taskQueues| < |old(taskQueues)| then Shrinks() else GrowsNot() && nextQueue == old(nextQueue)
        decreases Pending(), Load()
      {
        RunFront();
        status, failed := CommitTasks();
        if !status.Done? {
          return;
        }
      }
      return Done, failed;
    }

    /** `finish`. */
    method Finish()
      requires Valid()
      modifies this`finishes, registry.db
      ensures Valid() && registry.Now() == old(registry.Now()) == registry.db.conn.durable
      ensures finishes == old(finishes) + 1 && Pending() == old(Pending()) && Load() == old(Load())
      ensures old(Untangled()) ==> Untangled()
    {
      hide Orderly, AllKinds, AllGuarded;
      registry.Commit();
      finishes := finishes + 1;
    }

    /** The tasks enqueued so far become a queue of their own. */
    method TakeNext()
      requires Valid()
      modifies this`nextQueue, this`taskQueues
      ensures Valid() && nextQueue == []
      ensures taskQueues == if old(nextQueue) == [] then old(taskQueues) else old(taskQueues) + [old(nextQueue)]
      ensures GrowsNot() && (old(nextQueue) != [] ==> Shrinks())
      ensures old(Accounted()) ==> Accounted()
      ensures old(Untangled()) ==> Untangled()
    {
      hide Orderly, AllKinds, AllGuarded;
      hide AllSound, Database.Valid, StartAll, Snapshot, History;
      SyncsNone();
      if nextQueue != [] {
        SameKinds(running, taskQueues, nextQueue);
        QueuesBack(taskQueues, nextQueue);
        FlatBack(taskQueues, nextQueue);
        assert Flat(taskQueues) + nextQueue + [] == Flat(taskQueues) + nextQueue;
        taskQueues := taskQueues + [nextQueue];
        nextQueue := [];
      }
    }

    /** The body of the loop of `runTasks`. */
    method RunOnce() returns (status: Status, ghost failed: seq<bool>)
      requires Valid()
      modifies this, registry.db, fs, owned
      ensures GoesOn() && fresh(owned - old(owned))
      ensures !status.Threw? ==> Valid() && GrowsNot()
      ensures status.Waiting? ==> jobs > 0 && (old(jobs) == 0 ==> Shrinks())
      ensures status.Done? ==> jobs == 0 && running == []
      ensures status.Done? && cancelled ==> states == old(states) && batches == old(batches)
      ensures status.Done? && !cancelled ==> taskQueues == [] && (nextQueue != [] ==> Shrinks())
      ensures status.Threw? ==> !cancelled && Stopped(failed)
      ensures old(Accounted()) && !status.Threw? ==> Accounted()
      ensures old(Untangled()) ==> if status.Threw? then GuardedSoFar() else Untangled()
    {
      hide Untangled, GuardedSoFar;
      hide Outcome, Elsewhere, Moved, Same, LastUninstalls, Syncs;
      hide Accounted;
      hide Transaction.Valid, Registry.Valid, Registry.Stack, Registry.Now, Pending, Load, History, Snapshot, Stopped;
      hide QueueOk, Kind.WellFormed, Distinct;
      RunningOwned();
      TakeNext();
      status, failed := CommitTasks();
      if !status.Done? || cancelled {
        return;
      }
      ghost var chosen := PromptObsolete();
      status, failed := DrainQueues();
    }

    lemma {:induction false} RunningOwned()
      requires Valid()
      ensures forall task <- running :: task in owned
    {
    }

    /**
     * `runTasks`: until something has to wait, or for good. It finishes at most once: with every queue
     * empty, or after a cancellation with the registry that the last committed queue left. It is stopped
     * short only by an install that failed, in a guarded queue only by a broken handover.
     */
    method RunTasks() returns (status: Status, ghost failed: seq<bool>)
      requires Valid()
      modifies this, registry.db, fs, owned
      ensures cancelled == old(cancelled) && old(states) <= states && old(batches) <= batches
      ensures old(owned) <= owned && fresh(owned - old(owned))
      ensures !status.Threw? ==> Valid() && GrowsNot()
      ensures !status.Done? ==> finishes == old(finishes) && registry.db.conn.durable == old(registry.db.conn.durable)
      ensures status.Waiting? ==> jobs > 0 && (old(jobs) == 0 ==> Shrinks())
      ensures status.Done? ==>
        && finishes == old(finishes) + 1 && registry.db.conn.durable == registry.Now() == states[|states| - 1]
        && jobs == 0 && running == []
        && (if cancelled then states == old(states) else nextQueue == [] && taskQueues == [])
      ensures status.Threw? ==> !cancelled && Stopped(failed)
      ensures old(Accounted()) && !status.Threw? ==> Accounted()
      ensures old(Untangled()) ==> if status.Threw? then GuardedSoFar() else Untangled()
    {
      hide Untangled, GuardedSoFar;
      hide Accounted;
      hide AllSound, Database.Valid, Pending, Load, History, Snapshot, StartAll, Stopped;
      var again := true;
      status, failed := Done, [];
      while again
        invariant status.Done?
        invariant Valid() && GoesOn() && fresh(owned - old(owned)) && GrowsNot()
        invariant old(Accounted()) ==> Accounted()
        invariant old(Untangled()) ==> Untangled()
        invariant if again && jobs > 0 then jobs == old(jobs) else jobs == 0
        invariant again || running == []
        invariant again || (if cancelled then states == old(states) else nextQueue == [] && taskQueues == [])
        invariant cancelled && again ==> states == old(states)
        decreases again, Pending(), Load()
      {
        status, failed := RunOnce();
        if !status.Done? {
          return;
        }
        again := !cancelled && nextQueue != [];
      }
      Finish();
    }

    /**
     * The pool has worked until it was idle. Each install took over what a run of the six workers left
     * for it: it failed, or holds all its paths, whose downloads wait. A guarded queue with names apart
     * can then be put in place; and no file changed but those that wait.
     */
    twostate predicate Idle(pool: Workers.Machine, turns: seq<Workers.Turn>)
      reads this, registry, registry.db, fs, running
    {
      && Downloads.Reached(|running|, turns, pool) && pool.s.running == {}
      && running == old(running)
      && (forall i :: 0 <= i < |running| ==> Took(running[i], old(Fails(running))[i], pool.s, i))
      && Fetched(Snapshot(running), Moved(running), Fails(running))
      && DiskAgreement.Waiting(fs.files, Snapshot(running), Fails(running))
      && (Guarded(registry.Now(), order) && TempsApart(registry.Now(), Snapshot(running)) && fs.reliable ==> AllReady())
      && forall path :: !IsTemp(Snapshot(running), path) ==> Same(old(fs.files), fs.files, path)
    }

    lemma {:induction false} ReadyWhen()
      requires Valid()
      requires Fetched(Snapshot(running), Moved(running), Fails(running))
      requires DiskAgreement.Waiting(fs.files, Snapshot(running), Fails(running))
      ensures Guarded(registry.Now(), order) && TempsApart(registry.Now(), Snapshot(running)) && fs.reliable ==> AllReady()
    {
      hide AllSound, Database.Valid, StartAll, History, Kind.WellFormed, Faithful, TempsApart, Fetched, DiskAgreement.Waiting;
      if Guarded(registry.Now(), order) {
        StartAllFaithful(registry.Now(), order);
      }
    }

    /** What happens between two calls of `runTasks`; the user may cancel meanwhile. */
    method Settle() returns (ghost pool: Workers.Machine, ghost turns: seq<Workers.Turn>)
      requires Valid()
      modifies this`jobs, this`cancelled, fs, set task | task in running
      ensures Valid() && jobs == 0 && (cancelled <==> old(cancelled) || pool.s.cancelled)
      ensures Pending() == old(Pending()) && Load() == old(Load())
      ensures Snapshot(running) == old(Snapshot(running))
      ensures Idle(pool, turns)
      ensures old(Untangled()) ==> Untangled()
    {
      hide Orderly, AllKinds, AllGuarded, Kind.WellFormed, Registry.Stack;
      hide AllSound, Database.Valid, StartAll, History, IsTemp, TempsFor, Fetched, DiskAgreement.Waiting, Arrived, Same;
      hide Guarded, TempsApart, Took, Downloads.Reached, AllReady;
      var cancel;
      cancel, pool, turns := SettleTasks(running, fs);
      cancelled := cancelled || cancel;
      jobs := 0;
      AllArrived(running, fs.files);
      ReadyWhen();
    }

    lemma {:induction false} Over()
      requires Valid()
      ensures states != [] && states[|states| - 1] == registry.Now()
      ensures Accounted() && taskQueues == [] && nextQueue == [] ==> handled == owned
    {
    }

    /**
     * A whole run with nothing enqueued from outside: it ends, and unless a conflict is thrown it
     * finishes exactly once. What is then durable is what the last committed queue left; unless the
     * run was cancelled no task is left anywhere, and the pool is idle. A run in which no install fails
     * finishes, and one that stops at a guarded queue has a broken handover there.
     */
    method Drive() returns (status: Status, ghost failed: seq<bool>)
      requires Valid() && jobs == 0
      modifies this, registry.db, fs, owned
      ensures !status.Waiting? && old(states) <= states && old(batches) <= batches
      ensures status.Done? ==> (
        && Valid() && finishes == old(finishes) + 1
        && registry.db.conn.durable == registry.Now() == states[|states| - 1]
        && jobs == 0 && running == []
        && (!cancelled ==> nextQueue == [] && taskQueues == [])
        && (!cancelled && old(Accounted()) ==> handled == owned && old(owned) <= owned))
      ensures status.Threw? ==>
        finishes == old(finishes) && registry.db.conn.durable == old(registry.db.conn.durable) && Stopped(failed)
      ensures old(Untangled()) ==> if status.Threw? then GuardedSoFar() else Untangled()
    {
      hide Untangled, GuardedSoFar;
      hide Transaction.Valid, Accounted, Idle, Pending, Load, Snapshot, Stopped;
      status, failed := RunTasks();
      while status.Waiting?
        invariant old(states) <= states && old(batches) <= batches
        invariant old(owned) <= owned && fresh(owned - old(owned))
        invariant !status.Threw? ==> Valid() && (old(Accounted()) ==> Accounted())
        invariant old(Untangled()) ==> if status.Threw? then GuardedSoFar() else Untangled()
        invariant !status.Done? ==>
          finishes == old(finishes) && registry.db.conn.durable == old(registry.db.conn.durable)
        invariant status.Threw? ==> Stopped(failed)
        invariant status.Done? ==> (
          && finishes == old(finishes) + 1 && registry.db.conn.durable == registry.Now()
          && jobs == 0 && running == []
          && (!cancelled ==> nextQueue == [] && taskQueues == []))
        decreases status.Waiting?, Pending(), Load()
      {
        RunningOwned();
        ghost var pool, turns := Settle();
        status, failed := RunTasks();
      }
      if status.Done? {
        Over();
      }
    }
  }
}
