/**
 * Synchronizing again after the updates were put in place (src/synchronize.cpp, src/install.cpp): what
 * the fixpoint needs of the disk is what the commit of the updates leaves there.
 */
module Resynchronization {
  import opened Basics
  import opened RegistryTables
  import opened Replay
  import opened Arbitration
  import opened DiskAgreement
  import opened Packages
  import opened Synchronization

  /** The updates of an index, started in some order, none failed, with all downloads waiting. */
  ghost predicate Downloaded(
    t: Tables, items: seq<Item>, opts: Options, disk: Disk, order: seq<Task>, moved: seq<seq<string>>)
  {
    var running := StartAll(t, order);
    && PopOrder(Updates(t, items, opts, disk.Keys), order) && AllStarted(t, order)
    && |moved| == |running|
    && Fetched(running, moved, NoneFailed(|running|)) && Waiting(disk, running, NoneFailed(|running|))
  }

  /** The file belongs to no other package, and no other download of the queue meets its names. */
  ghost predicate Own(t: Tables, order: seq<Task>, item: Item, path: string) {
    && Clear(t, StartAll(t, order), path)
    && forall key :: key != item.key ==> path !in FilesOf(t, key)
  }

  ghost predicate OwnFiles(t: Tables, items: seq<Item>, order: seq<Task>) {
    forall item <- items, r <- item.versions, path <- r.ver.Texts() :: Own(t, order, item, path)
  }

  lemma {:induction false} DownloadedQueue(
    t: Tables, items: seq<Item>, opts: Options, disk: Disk, order: seq<Task>, moved: seq<seq<string>>)
    requires Consistent(t) && DistinctItems(items) && (forall i <- items :: i.Valid())
    requires Downloaded(t, items, opts, disk, order, moved)
    ensures Guarded(t, order) && AllInstalls(order)
    ensures forall task :: task in order <==> task in Updates(t, items, opts, disk.Keys)
    ensures !BrokenHandover(StartAll(t, order), NoneFailed(|StartAll(t, order)|))
    ensures TasksOf(StartAll(t, order)) == order
  {
    hide Item.Valid, Updates, StartAll, Fetched, Waiting;
    var updates := Updates(t, items, opts, disk.Keys);
    UpdatesGuarded(t, items, opts, disk.Keys);
    UpdatesInstall(t, items, opts, disk.Keys);
    SameMembersDistinct(updates, order);
    AllStartedRun(t, order);
  }

  lemma {:induction false} AllStartedRun(t: Tables, order: seq<Task>)
    requires AllStarted(t, order)
    ensures TasksOf(StartAll(t, order)) == order
    decreases |order|
  {
    if order != [] {
      var u := StartTables(t, order[0]).value;
      AllStartedRun(u, order[1..]);
      assert TasksOf(StartAll(t, order)) == [order[0]] + TasksOf(StartAll(u, order[1..]));
    }
  }

  /** An update's files are on the disk once it is committed. */
  lemma {:induction false} UpdatedPresent(
    t: Tables, items: seq<Item>, opts: Options, disk: Disk, order: seq<Task>, moved: seq<seq<string>>, item: Item, r: Release)
    requires Consistent(t) && DistinctItems(items) && (forall i <- items :: i.Valid())
    requires Downloaded(t, items, opts, disk, order, moved) && OwnFiles(t, items, order) && item in items
    requires Decide(EntryOf(t, item.key), item.versions, opts, disk.Keys) == Some(r) && r in item.versions
    ensures AllPresent(
      r.ver, CommitDisks(disk, StartAll(t, order), moved, NoneFailed(|StartAll(t, order)|)).Keys)
  {
    hide Item.Valid, Decide, Guarded, BrokenHandover, Clear, Fetched;
    var running := StartAll(t, order);
    var entry, none := EntryOf(t, item.key), NoneFailed(|running|);
    DownloadedQueue(t, items, opts, disk, order, moved);
    UpdateListed(t, items, opts, disk.Keys, item);
    var task := Install(r.ver, entry.row.flags, entry);
    assert task in UpdateFor(t, item, opts, disk.Keys) && task in order;
    var i :| 0 <= i < |order| && order[i] == task;
    assert TasksOf(running)[i] == task;
    forall f | f in r.ver.files
      ensures f.Text() in CommitDisks(disk, running, moved, none).Keys
    {
      var path := f.Text();
      assert path in r.ver.Texts() && path in running[i].task.ver.Texts() && Own(t, order, item, path);
      assert Brought(running, none, path) && Temp(path) in disk;
      DiskAgrees(t, order, disk, moved, none, path);
    }
  }

  /** What was on the disk for a package that is not updated is still there. */
  lemma {:induction false} OthersPresent(
    t: Tables, items: seq<Item>, opts: Options, disk: Disk, order: seq<Task>, moved: seq<seq<string>>, item: Item, r: Release)
    requires Consistent(t) && DistinctItems(items) && (forall i <- items :: i.Valid())
    requires Downloaded(t, items, opts, disk, order, moved) && OwnFiles(t, items, order) && item in items
    requires Decide(EntryOf(t, item.key), item.versions, opts, disk.Keys) == None && r in item.versions
    requires AllPresent(r.ver, disk.Keys)
    ensures AllPresent(
      r.ver, CommitDisks(disk, StartAll(t, order), moved, NoneFailed(|StartAll(t, order)|)).Keys)
  {
    hide Item.Valid, Decide, Guarded, BrokenHandover, Clear, Fetched;
    var running := StartAll(t, order);
    var none := NoneFailed(|running|);
    DownloadedQueue(t, items, opts, disk, order, moved);
    NotUpdated(t, items, opts, disk.Keys, order, item);
    forall f | f in r.ver.files
      ensures f.Text() in CommitDisks(disk, running, moved, none).Keys
    {
      var path := f.Text();
      assert path in r.ver.Texts() && Own(t, order, item, path);
      DiskAgrees(t, order, disk, moved, none, path);
      if Owned(t, path) {
        assert path in FilesOf(t, item.key);
        UntouchedKept(t, order, none, item.key, path);
      }
    }
  }

  lemma {:induction false} NotUpdated(
    t: Tables, items: seq<Item>, opts: Options, present: set<string>, order: seq<Task>, item: Item)
    requires Consistent(t) && DistinctItems(items) && (forall i <- items :: i.Valid()) && item in items
    requires Decide(EntryOf(t, item.key), item.versions, opts, present) == None
    requires forall task <- order :: task in Updates(t, items, opts, present)
    ensures forall task <- order :: item.key !in task.Keys()
  {
    hide Item.Valid, Decide;
    forall task | task in order
      ensures item.key !in task.Keys()
    {
      UpdatesMember(t, items, opts, present, task);
      var other :| other in items && task in UpdateFor(t, other, opts, present);
      UpdateForMeaning(t, other, opts, present);
      assert other.key == item.key ==> other == item;
    }
  }

  /**
   * Downloading and committing the updates of an index leaves nothing to update: when all of them
   * start, none fails, and no file an index lists for one package belongs to another or waits where
   * another goes, synchronizing again on the disk they leave enqueues nothing.
   */
  lemma {:induction false} SynchronizedOnDisk(
    t: Tables, items: seq<Item>, opts: Options, disk: Disk, order: seq<Task>, moved: seq<seq<string>>)
    requires Consistent(t) && DistinctItems(items) && forall item <- items :: item.Valid()
    requires Downloaded(t, items, opts, disk, order, moved) && OwnFiles(t, items, order)
    ensures var running := StartAll(t, order);
      var none := NoneFailed(|running|);
      && CommitAll(t, running, none).Some?
      && Updates(CommitAll(t, running, none).value, items, opts, CommitDisks(disk, running, moved, none).Keys) == []
  {
    var running := StartAll(t, order);
    var later := CommitDisks(disk, running, moved, NoneFailed(|running|)).Keys;
    forall item | item in items
      ensures Leaves(t, item, opts, disk.Keys, later)
    {
      match Decide(EntryOf(t, item.key), item.versions, opts, disk.Keys)
      case Some(r) =>
        UpdatePolicy(EntryOf(t, item.key), item.versions, opts, disk.Keys);
        UpdatedPresent(t, items, opts, disk, order, moved, item, r);
      case None =>
        forall r | r in item.versions && AllPresent(r.ver, disk.Keys)
          ensures AllPresent(r.ver, later)
        {
          OthersPresent(t, items, opts, disk, order, moved, item, r);
        }
    }
    SynchronizedTwice(t, items, opts, disk.Keys, order, later);
  }
}
