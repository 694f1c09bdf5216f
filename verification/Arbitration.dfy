/**
 * Who gets a contested path: the pop order of the task heap (src/transaction.hpp, src/task.hpp)
 * and what a speculative start may rely on.
 */
module Arbitration {
  import opened Basics
  import opened RegistryTables
  import opened Replay

  function Priority(task: Task): nat {
    if task.Uninstall? then 1 else 0
  }

  /** An order in which a heap with these priorities may hand out its tasks; ties are arbitrary. */
  ghost predicate PopOrder(queue: seq<Task>, order: seq<Task>) {
    && multiset(queue) == multiset(order)
    && forall i, j :: 0 <= i < j < |order| ==> Priority(order[i]) >= Priority(order[j])
  }

  /** The guards of a queue: one task per package, holding the entry registered when it starts. */
  ghost predicate Guarded(t: Tables, order: seq<Task>) {
    && Consistent(t) && DistinctKeys(order)
    && forall task <- order :: task.WellFormed() && Current(t, task)
  }

  /** The guards outlive the start of the first task, refused or not. */
  lemma {:induction false} GuardedTail(t: Tables, order: seq<Task>)
    requires Guarded(t, order) && order != []
    ensures Guarded(t, order[1..])
    ensures StartTables(t, order[0]).Some? ==> Guarded(StartTables(t, order[0]).value, order[1..])
  {
    var task := order[0];
    assert task in order;
    StartOnlyChanges(t, task);
    forall other | other in order[1..]
      ensures other.WellFormed() && Current(t, other)
      ensures StartTables(t, task).Some? ==> Current(StartTables(t, task).value, other)
    {
      var i :| 0 <= i < |order[1..]| && order[1..][i] == other;
      assert order[i + 1] == other && order[0].Keys() !! order[i + 1].Keys();
      if StartTables(t, task).Some? {
        CurrentKept(t, StartTables(t, task).value, task.Keys(), other);
      }
    }
  }

  ghost predicate ClaimedFor(running: seq<Started>, key: Key, path: string) {
    exists s <- running :: s.task.Install? && s.task.ver.key == key && path in s.task.ver.Texts()
  }

  /** Uninstalls that have started: packages whose files speculation gives away. */
  ghost predicate Uninstalls(order: seq<Task>, key: Key) {
    exists task <- order :: task.Uninstall? && task.entry.row.key == key
  }

  /** In speculation a package owns nothing beyond what it owned or what its own install claimed. */
  lemma {:induction false} SpeculatedOwner(t: Tables, order: seq<Task>, key: Key, path: string)
    requires Guarded(t, order)
    requires path in FilesOf(SpeculatedEnd(t, order), key)
    ensures || (path in FilesOf(t, key) && !Uninstalls(order, key))
            || ClaimedFor(StartAll(t, order), key, path)
    decreases |order|
  {
    if order != [] {
      var task, rest := order[0], order[1..];
      assert task in order;
      GuardedTail(t, order);
      StartOnlyChanges(t, task);
      match StartTables(t, task)
      case None =>
        SpeculatedOwner(t, rest, key, path);
        assert Uninstalls(order, key) ==> Uninstalls(rest, key);
      case Some(u) =>
        SpeculatedOwner(u, rest, key, path);
        var all := StartAll(t, order);
        var first := Started(task, FilesToDelete(t, task));
        assert all == [first] + StartAll(u, rest);
        assert first in all && forall s <- StartAll(u, rest) :: s in all;
        if path in FilesOf(u, key) && !Uninstalls(rest, key) {
          if key in task.Keys() {
            match task
            case Install(ver, _, _) => assert ClaimedFor(all, key, path);
            case Uninstall(_) =>
            case ChangeFlags(_, _) => NoUninstallTail(order, key);
            case Passive =>
          } else {
            assert !Uninstalls(order, key);
          }
        }
    }
  }

  lemma {:induction false} NoUninstallTail(order: seq<Task>, key: Key)
    requires order != [] && !order[0].Uninstall? && !Uninstalls(order[1..], key)
    ensures !Uninstalls(order, key)
  {
    forall task | task in order && task.Uninstall?
      ensures task in order[1..]
    {
    }
  }

  /** Whatever the tie order, every uninstall of the queue is popped before a task of another kind. */
  lemma {:induction false} UninstallsFirst(queue: seq<Task>, order: seq<Task>, k: nat, key: Key)
    requires PopOrder(queue, order) && k < |order| && !order[k].Uninstall?
    requires Uninstalls(queue, key)
    ensures Uninstalls(order[..k], key)
  {
    var task :| task in queue && task.Uninstall? && task.entry.row.key == key;
    assert task in multiset(queue) && task in multiset(order);
    var i :| 0 <= i < |order| && order[i] == task;
    assert Priority(order[i]) == 1 && Priority(order[k]) == 0;
    assert order[..k][i] == task;
  }

  /**
   * An install starts whenever each of its paths is unowned by others, or owned only by a package
   * the queue uninstalls, and no install that started before it claimed one of them: every
   * uninstall has started by then, whatever the tie order of the heap.
   */
  lemma {:induction false} FirstClaimStarts(t: Tables, queue: seq<Task>, order: seq<Task>, k: nat)
    requires Guarded(t, order) && PopOrder(queue, order)
    requires k < |order| && order[k].Install?
    requires forall path <- order[k].ver.Texts(), key ::
      key != order[k].ver.key && path in FilesOf(t, key) ==> Uninstalls(queue, key)
    requires forall path <- order[k].ver.Texts(), key :: !ClaimedFor(StartAll(t, order[..k]), key, path)
    ensures StartTables(SpeculatedEnd(t, order[..k]), order[k]).Some?
  {
    var ver, flags := order[k].ver, order[k].flags;
    var spec := SpeculatedEnd(t, order[..k]);
    GuardedPrefix(t, order, k);
    SpeculatedConsistent(t, order[..k]);
    assert order[k] in order && order[k].WellFormed();
    PushConflicts(spec, ver, flags);
    if Conflicts(spec, ver, flags) {
      var path :| path in ver.Texts() && OwnedByOther(spec, ver.key, path);
      OwnedByOtherIs(spec, ver.key, path);
      var key :| key != ver.key && path in FilesOf(spec, key);
      SpeculatedOwner(t, order[..k], key, path);
      UninstallsFirst(queue, order, k, key);
      assert false;
    }
  }

  lemma {:induction false} GuardedPrefix(t: Tables, order: seq<Task>, k: nat)
    requires Guarded(t, order) && k <= |order|
    ensures Guarded(t, order[..k])
  {
    assert forall task <- order[..k] :: task in order;
  }

  lemma {:induction false} SpeculatedConsistent(t: Tables, order: seq<Task>)
    requires Guarded(t, order)
    ensures Consistent(SpeculatedEnd(t, order))
    decreases |order|
  {
    if order != [] {
      GuardedTail(t, order);
      match StartTables(t, order[0])
      case None => SpeculatedConsistent(t, order[1..]);
      case Some(u) => SpeculatedConsistent(u, order[1..]);
    }
  }

  /** A path an install has claimed stays claimed: no later task of a guarded queue gets it. */
  lemma {:induction false} ClaimKept(t: Tables, order: seq<Task>, key: Key, path: string)
    requires Guarded(t, order)
    requires path in FilesOf(t, key) && forall task <- order :: key !in task.Keys()
    ensures forall s <- StartAll(t, order) :: s.task.Install? ==> path !in s.task.ver.Texts()
    decreases |order|
  {
    if order != [] {
      var task := order[0];
      assert task in order;
      GuardedTail(t, order);
      StartOnlyChanges(t, task);
      if task.Install? && path in task.ver.Texts() {
        PushConflicts(t, task.ver, task.flags);
        OwnedByOtherIs(t, task.ver.key, path);
        assert task.ver.key in task.Keys();
      }
      match StartTables(t, task)
      case None => ClaimKept(t, order[1..], key, path);
      case Some(u) => ClaimKept(u, order[1..], key, path);
    }
  }

  ghost predicate DisjointClaims(running: seq<Started>) {
    forall i, j :: 0 <= i < j < |running| && running[i].task.Install? && running[j].task.Install? ==>
      running[i].task.ver.Texts() !! running[j].task.ver.Texts()
  }

  /** Of several installs that want one path, at most one starts: the files they claim are disjoint. */
  lemma {:induction false} OneClaimant(t: Tables, order: seq<Task>)
    requires Guarded(t, order)
    ensures DisjointClaims(StartAll(t, order))
    decreases |order|
  {
    if order != [] {
      var task := order[0];
      assert task in order;
      GuardedTail(t, order);
      StartOnlyChanges(t, task);
      match StartTables(t, task)
      case None => OneClaimant(t, order[1..]);
      case Some(u) =>
        OneClaimant(u, order[1..]);
        var rest := StartAll(u, order[1..]);
        if task.Install? {
          forall j | 0 <= j < |rest| && rest[j].task.Install?
            ensures task.ver.Texts() !! rest[j].task.ver.Texts()
          {
            forall path | path in task.ver.Texts()
              ensures path !in rest[j].task.ver.Texts()
            {
              assert forall other <- order[1..] :: task.ver.key !in other.Keys() by {
                assert forall i :: 0 <= i < |order[1..]| ==> order[1..][i] == order[i + 1];
                assert task.ver.key in order[0].Keys();
              }
              ClaimKept(u, order[1..], task.ver.key, path);
              assert rest[j] in rest;
            }
          }
        }
    }
  }

  /** In a guarded queue each task will delete what its package owned when the queue started. */
  ghost predicate Faithful(t: Tables, running: seq<Started>) {
    && Guarded(t, TasksOf(running))
    && DisjointClaims(running)
    && forall s <- running :: s.files == FilesToDelete(t, s.task)
  }

  lemma {:induction false} FilesToDeleteKept(t: Tables, u: Tables, keys: set<Key>, task: Task)
    requires OnlyChanges(t, u, keys) && task.Keys() !! keys && Current(t, task)
    ensures FilesToDelete(u, task) == FilesToDelete(t, task)
  {
    match task
    case Install(ver, _, previous) => assert ver.key in task.Keys() && ver.key !in keys;
    case Uninstall(entry) => assert entry.row.key in task.Keys() && entry.row.key !in keys;
    case ChangeFlags(_, _) =>
    case Passive =>
  }

  lemma {:induction false} StartAllFiles(t: Tables, order: seq<Task>)
    requires Guarded(t, order)
    ensures forall s <- StartAll(t, order) :: s.files == FilesToDelete(t, s.task)
    decreases |order|
  {
    if order != [] {
      var task := order[0];
      assert task in order;
      GuardedTail(t, order);
      StartOnlyChanges(t, task);
      match StartTables(t, task)
      case None => StartAllFiles(t, order[1..]);
      case Some(u) =>
        StartAllFiles(u, order[1..]);
        StartAllStarted(u, order[1..]);
        forall s | s in StartAll(u, order[1..])
          ensures s.files == FilesToDelete(t, s.task)
        {
          var i :| 0 <= i < |order[1..]| && order[1..][i] == s.task;
          assert order[i + 1] == s.task && order[i + 1] in order;
          assert order[0].Keys() !! order[i + 1].Keys();
          FilesToDeleteKept(t, u, task.Keys(), s.task);
        }
    }
  }

  lemma {:induction false} StartAllFaithful(t: Tables, order: seq<Task>)
    requires Guarded(t, order)
    ensures Faithful(t, StartAll(t, order))
  {
    OneClaimant(t, order);
    StartAllFiles(t, order);
    StartAllDistinct(t, order);
    StartAllStarted(t, order);
  }

  // ----- one queue after another -----

  lemma {:induction false} CurrentThrough(t: Tables, running: seq<Started>, failed: seq<bool>, end: Tables, task: Task)
    requires Consistent(t) && |failed| == |running| && CommitAll(t, running, failed) == Some(end)
    requires DistinctKeys(TasksOf(running))
    requires forall s <- running :: s.task.WellFormed() && Current(t, s.task) && s.task.Keys() !! task.Keys()
    requires Current(t, task)
    ensures Current(end, task)
    decreases |running|
  {
    if running != [] {
      var first, rest := running[0].task, running[1..];
      var u := CommitTables(t, first, failed[0]).value;
      assert running[0] in running;
      CommitOnlyChanges(t, first, failed[0]);
      CurrentKept(t, u, first.Keys(), task);
      DistinctTail(running);
      forall i | 0 <= i < |rest|
        ensures rest[i].task.WellFormed() && Current(u, rest[i].task) && rest[i].task.Keys() !! task.Keys()
      {
        assert rest[i] == running[i + 1] && running[i + 1] in running;
        assert TasksOf(running)[0].Keys() !! TasksOf(running)[i + 1].Keys();
        CurrentKept(t, u, first.Keys(), rest[i].task);
      }
      CurrentThrough(u, rest, failed[1..], end, task);
    }
  }

  /** A queue about other packages stays guarded while one before it is started and committed. */
  lemma {:induction false} GuardedAfter(t: Tables, order: seq<Task>, failed: seq<bool>, later: seq<Task>)
    requires Guarded(t, order) && Guarded(t, later) && |failed| == |StartAll(t, order)|
    requires forall a <- order, b <- later :: a.Keys() !! b.Keys()
    ensures CommitAll(t, StartAll(t, order), failed).Some? ==>
      Guarded(CommitAll(t, StartAll(t, order), failed).value, later)
  {
    var running := StartAll(t, order);
    StartAllStarted(t, order);
    StartAllDistinct(t, order);
    ReplayConflict(t, order, failed);
    if CommitAll(t, running, failed).Some? {
      forall task | task in later
        ensures Current(CommitAll(t, running, failed).value, task)
      {
        CurrentThrough(t, running, failed, CommitAll(t, running, failed).value, task);
      }
    }
  }
}
