/**
 * Synchronizing several repositories in one run (src/synchronize.cpp, src/transaction.cpp): the queues
 * this gives meet the guards of the replay theorems.
 */
module SeveralRepositories {
  import opened Basics
  import opened RegistryTables
  import opened RegistryObject
  import opened Replay
  import opened Arbitration
  import opened Packages
  import opened Synchronization

  /** An index with the settings of the repository it is of. */
  datatype Received = Received(index: Index, opts: Options)

  /** Lists no package twice, and each in the first category of its name. */
  ghost predicate Proper(r: Received) {
    && DistinctItems(Items(r.index)) && FirstListsAll(r.index.categories)
    && forall item <- Items(r.index) :: item.Valid()
  }

  /** Repositories of distinct names, as the list of remotes keeps them. */
  ghost predicate DistinctlyNamed(all: seq<Received>) {
    forall i, j :: 0 <= i < j < |all| ==> all[i].index.name != all[j].index.name
  }

  /** What the synchronizations enqueue, committed one after the other. */
  ghost function UpdatesOf(t: Tables, all: seq<Received>, present: set<string>): seq<Task>
    decreases |all|
  {
    if all == [] then []
    else
      var n := |all| - 1;
      UpdatesOf(t, all[..n], present) + Updates(t, Items(all[n].index), all[n].opts, present)
  }

  /** Uninstalls, in any order, of entries the synchronizations found obsolete. */
  ghost predicate Obsolete(t: Tables, all: seq<Received>, gone: seq<Task>) {
    && Distinct(gone)
    && forall task <- gone :: task.Uninstall? && exists r <- all :: task.entry in Gone(t, r.index)
  }

  /** An update is of one package, which its index lists. */
  ghost predicate UpdateOf(t: Tables, index: Index, task: Task) {
    && task.Install? && task.WellFormed() && Current(t, task)
    && task.Keys() == {task.ver.key} && task.ver.key.remote == index.name && Listed(index, task.ver.key)
  }

  lemma {:induction false} UpdatesAreOf(t: Tables, r: Received, present: set<string>, task: Task)
    requires Consistent(t) && Proper(r) && task in Updates(t, Items(r.index), r.opts, present)
    ensures UpdateOf(t, r.index, task)
  {
    hide UpdateFor, Item.Valid, Consistent, Current, Flatten, FirstListsAll, Updates;
    UpdatesMember(t, Items(r.index), r.opts, present, task);
    var item :| item in Items(r.index) && task in UpdateFor(t, item, r.opts, present);
    UpdateForMeaning(t, item, r.opts, present);
    assert task.ver.key in task.Keys();
    FlattenMember(r.index.name, r.index.categories, item.key);
  }

  /** What is enqueued is what each of the synchronizations enqueues by itself. */
  lemma {:induction false} UpdatesOfEach(t: Tables, all: seq<Received>, present: set<string>, task: Task)
    ensures task in UpdatesOf(t, all, present) <==>
      exists r <- all :: task in Updates(t, Items(r.index), r.opts, present)
    decreases |all|
  {
    hide Updates, Flatten;
    if all != [] {
      var n := |all| - 1;
      UpdatesOfEach(t, all[..n], present, task);
      assert all == all[..n] + [all[n]];
    }
  }

  lemma {:induction false} UpdatesOfMember(t: Tables, all: seq<Received>, present: set<string>, task: Task)
    requires Consistent(t) && (forall r <- all :: Proper(r)) && task in UpdatesOf(t, all, present)
    ensures exists r <- all :: UpdateOf(t, r.index, task)
    decreases |all|
  {
    hide Proper, UpdateOf, Updates, Consistent;
    var n := |all| - 1;
    if task in UpdatesOf(t, all[..n], present) {
      UpdatesOfMember(t, all[..n], present, task);
    } else {
      UpdatesAreOf(t, all[n], present, task);
    }
  }

  lemma {:induction false} UpdatesOfDistinct(t: Tables, all: seq<Received>, present: set<string>)
    requires Consistent(t) && DistinctlyNamed(all) && forall r <- all :: Proper(r)
    ensures DistinctKeys(UpdatesOf(t, all, present))
    decreases |all|
  {
    if all != [] {
      var n := |all| - 1;
      var before, last := all[..n], all[n];
      var a, b := UpdatesOf(t, before, present), Updates(t, Items(last.index), last.opts, present);
      UpdatesOfDistinct(t, before, present);
      assert last in all;
      UpdatesDistinct(t, Items(last.index), last.opts, present);
      forall i, j | 0 <= i < |a| && 0 <= j < |b|
        ensures a[i].Keys() !! b[j].Keys()
      {
        UpdatesOfMember(t, before, present, a[i]);
        UpdatesAreOf(t, last, present, b[j]);
      }
    }
  }

  /** The updates of several repositories make one guarded queue. */
  lemma {:induction false} UpdatesOfGuarded(t: Tables, all: seq<Received>, present: set<string>)
    requires Consistent(t) && DistinctlyNamed(all) && forall r <- all :: Proper(r)
    ensures Guarded(t, UpdatesOf(t, all, present))
  {
    hide Proper, Consistent, DistinctKeys;
    UpdatesOfDistinct(t, all, present);
    forall task | task in UpdatesOf(t, all, present)
      ensures task.WellFormed() && Current(t, task)
    {
      UpdatesOfMember(t, all, present, task);
    }
  }

  lemma {:induction false} GoneIs(t: Tables, index: Index, entry: Entry)
    requires Consistent(t) && FirstListsAll(index.categories) && entry in Gone(t, index)
    ensures entry.id in t.entries && t.entries[entry.id] == entry.row && IdOf(t, entry.row.key) == entry.id
    ensures entry.row.key.remote == index.name && !Listed(index, entry.row.key)
  {
    GoneMeaning(t, index, entry.id);
    IdOfIs(t, entry.row.key, entry.id);
  }

  /** The uninstalls of what is obsolete make another. */
  lemma {:induction false} ObsoleteGuarded(t: Tables, all: seq<Received>, gone: seq<Task>)
    requires Consistent(t) && (forall r <- all :: Proper(r)) && Obsolete(t, all, gone)
    ensures Guarded(t, gone)
  {
    forall task | task in gone
      ensures task.WellFormed() && Current(t, task)
      ensures task.entry.id in t.entries && IdOf(t, task.entry.row.key) == task.entry.id
      ensures t.entries[task.entry.id] == task.entry.row
    {
      var r :| r in all && task.entry in Gone(t, r.index);
      GoneIs(t, r.index, task.entry);
    }
    forall i, j | 0 <= i < j < |gone|
      ensures gone[i].Keys() !! gone[j].Keys()
    {
      assert gone[i] in gone && gone[j] in gone;
    }
  }

  /** No update is of a package that an uninstall of an obsolete entry is about. */
  lemma {:induction false} GoneNotUpdated(t: Tables, all: seq<Received>, present: set<string>, gone: seq<Task>)
    requires Consistent(t) && DistinctlyNamed(all) && (forall r <- all :: Proper(r)) && Obsolete(t, all, gone)
    ensures forall a <- gone, b <- UpdatesOf(t, all, present) :: a.Keys() !! b.Keys()
  {
    forall a, b | a in gone && b in UpdatesOf(t, all, present)
      ensures a.Keys() !! b.Keys()
    {
      var r :| r in all && a.entry in Gone(t, r.index);
      GoneIs(t, r.index, a.entry);
      UpdatesOfMember(t, all, present, b);
      var q :| q in all && UpdateOf(t, q.index, b);
    }
  }

  lemma {:induction false} NoInstallUnbroken(running: seq<Started>, failed: seq<bool>)
    requires |failed| == |running| && forall s <- running :: !s.task.Install?
    ensures !BrokenHandover(running, failed)
  {
  }

  /**
   * A run over several repositories: the uninstalls of what became obsolete are committed as their own
   * queue first, without a conflict, and the updates still meet their guards after it.
   */
  lemma {:induction false} ObsoleteThenUpdates(
    t: Tables, all: seq<Received>, present: set<string>, gone: seq<Task>, failed: seq<bool>)
    requires Consistent(t) && DistinctlyNamed(all) && (forall r <- all :: Proper(r)) && Obsolete(t, all, gone)
    requires |failed| == |StartAll(t, gone)|
    ensures Guarded(t, gone)
    ensures CommitAll(t, StartAll(t, gone), failed).Some?
    ensures Guarded(CommitAll(t, StartAll(t, gone), failed).value, UpdatesOf(t, all, present))
  {
    hide Proper, Consistent, Gone;
    ObsoleteGuarded(t, all, gone);
    UpdatesOfGuarded(t, all, present);
    GoneNotUpdated(t, all, present, gone);
    StartAllStarted(t, gone);
    NoInstallUnbroken(StartAll(t, gone), failed);
    ReplayConflict(t, gone, failed);
    GuardedAfter(t, gone, failed, UpdatesOf(t, all, present));
  }
}
