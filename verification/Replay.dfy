/**
 * A queue of tasks on the tables: started speculatively, rolled back, then committed for actual
 * (src/transaction.cpp, src/install.cpp, src/task.cpp). Proves when the replay can go wrong.
 */
module Replay {
  import opened Basics
  import opened Paths
  import opened RegistryTables

  /** Synchronize and export tasks are passive: they never touch the registry themselves. */
  datatype Task =
    | Install(ver: Version, flags: int, previous: Entry)
    | Uninstall(entry: Entry)
    | ChangeFlags(entry: Entry, newFlags: int)
    | Passive
  {
    function Keys(): set<Key> {
      match this
      case Install(ver, _, _) => {ver.key}
      case Uninstall(entry) => {entry.row.key}
      case ChangeFlags(entry, _) => {entry.row.key}
      case Passive => {}
    }

    /** The id of the entry the task was created with. */
    function EntryId(): int {
      match this
      case Install(_, _, previous) => previous.id
      case Uninstall(entry) => entry.id
      case ChangeFlags(entry, _) => entry.id
      case Passive => 0
    }

    ghost predicate WellFormed() {
      Install? ==> ver.WellFormed()
    }
  }

  /** A task whose start succeeded, with the files it will delete. */
  datatype Started = Started(task: Task, files: set<FileRow>)

  // ----- starting -----

  ghost function FilesToDelete(t: Tables, task: Task): set<FileRow> {
    match task
    case Install(ver, _, previous) => set r | r in RowsOf(t, previous.id) && r.path !in ver.Texts()
    case Uninstall(entry) => RowsOf(t, entry.id)
    case _ => {}
  }

  /** What starting does to the registry; None is a refused install. */
  ghost function StartTables(t: Tables, task: Task): Option<Tables> {
    match task
    case Install(ver, flags, _) => if Conflicts(t, ver, flags) then None else Some(Push(t, ver, flags))
    case Uninstall(entry) => Some(Forget(t, entry.id))
    case _ => Some(t)
  }

  /** Only an install can be refused, and is exactly when another package owns a path it brings. */
  lemma {:induction false} StartsUnless(t: Tables, task: Task)
    requires Consistent(t) && task.WellFormed()
    ensures StartTables(t, task) == None <==>
      task.Install? && exists path <- task.ver.Texts() :: OwnedByOther(t, task.ver.key, path)
  {
    if task.Install? {
      PushConflicts(t, task.ver, task.flags);
    }
  }

  /** The running tasks a queue leaves when popped in this order. */
  ghost function StartAll(t: Tables, order: seq<Task>): seq<Started>
    decreases |order|
  {
    if order == [] then []
    else
      match StartTables(t, order[0])
      case None => StartAll(t, order[1..])
      case Some(u) => [Started(order[0], FilesToDelete(t, order[0]))] + StartAll(u, order[1..])
  }

  /** The tables speculation ends in, before they are rolled back. */
  ghost function SpeculatedEnd(t: Tables, order: seq<Task>): Tables
    decreases |order|
  {
    if order == [] then t
    else
      match StartTables(t, order[0])
      case None => SpeculatedEnd(t, order[1..])
      case Some(u) => SpeculatedEnd(u, order[1..])
  }

  /** The running tasks are what starting them one after the other from `t` gives. */
  ghost predicate StartedFrom(t: Tables, running: seq<Started>, end: Tables)
    decreases |running|
  {
    if running == [] then end == t
    else
      && running[0].files == FilesToDelete(t, running[0].task)
      && StartTables(t, running[0].task).Some?
      && StartedFrom(StartTables(t, running[0].task).value, running[1..], end)
  }

  lemma {:induction false} StartAllStarted(t: Tables, order: seq<Task>)
    ensures StartedFrom(t, StartAll(t, order), SpeculatedEnd(t, order))
    ensures forall s <- StartAll(t, order) :: s.task in order
    decreases |order|
  {
    if order != [] {
      match StartTables(t, order[0])
      case None => StartAllStarted(t, order[1..]);
      case Some(u) =>
        StartAllStarted(u, order[1..]);
        assert StartAll(t, order)[1..] == StartAll(u, order[1..]);
    }
  }

  lemma {:induction false} StartOne(t: Tables, task: Task)
    requires StartTables(t, task).Some?
    ensures StartAll(t, [task]) == [Started(task, FilesToDelete(t, task))]
  {
    assert [task][1..] == [];
    assert StartAll(StartTables(t, task).value, []) == [];
  }

  // ----- committing -----

  /** `commit` on the registry: a failed install is skipped; None is the exception of a conflict. */
  ghost function CommitTables(t: Tables, task: Task, failed: bool): Option<Tables> {
    match task
    case Install(ver, flags, _) =>
      if failed then Some(t)
      else if Conflicts(t, ver, flags) then None
      else Some(Push(t, ver, flags))
    case Uninstall(entry) => Some(Forget(t, entry.id))
    case ChangeFlags(entry, newFlags) => Some(SetFlags(t, entry.id, newFlags))
    case Passive => Some(t)
  }

  ghost function CommitAll(t: Tables, running: seq<Started>, failed: seq<bool>): Option<Tables>
    requires |failed| == |running|
    decreases |running|
  {
    if running == [] then Some(t)
    else
      match CommitTables(t, running[0].task, failed[0])
      case None => None
      case Some(u) => CommitAll(u, running[1..], failed[1..])
  }

  /** Committing one more task comes after committing those before it. */
  lemma {:induction false} CommitAllAppend(
    t: Tables, running: seq<Started>, i: nat, done: seq<bool>, last: bool)
    requires i < |running| && |done| == i
    ensures CommitAll(t, running[..i + 1], done + [last])
         == match CommitAll(t, running[..i], done)
            case None => None
            case Some(u) => CommitTables(u, running[i].task, last)
    decreases i
  {
    if i == 0 {
      assert running[..1][1..] == [] && (done + [last])[1..] == [];
    } else {
      match CommitTables(t, running[0].task, done[0])
      case None =>
      case Some(u) =>
        CommitAllAppend(u, running[1..], i - 1, done[1..], last);
        assert running[..i + 1][1..] == running[1..][..i] && running[..i][1..] == running[1..][..i - 1];
        assert (done + [last])[1..] == done[1..] + [last];
        assert (done + [last])[0] == done[0] && running[1..][i - 1] == running[i];
    }
  }

  /** An exception ends the queue, whatever would have become of the tasks left. */
  lemma {:induction false} CommitAllStuck(t: Tables, running: seq<Started>, i: nat, failed: seq<bool>)
    requires i <= |running| == |failed|
    requires CommitAll(t, running[..i], failed[..i]) == None
    ensures CommitAll(t, running, failed) == None
    decreases i
  {
    if CommitTables(t, running[0].task, failed[0]).Some? {
      var u := CommitTables(t, running[0].task, failed[0]).value;
      assert running[..i][1..] == running[1..][..i - 1] && failed[..i][1..] == failed[1..][..i - 1];
      CommitAllStuck(u, running[1..], i - 1, failed[1..]);
    }
  }

  function NoneFailed(n: nat): seq<bool> {
    seq(n, i => false)
  }

  // ----- replay when nothing fails -----

  /** Flags that tasks changed for entries no later task replaced. */
  ghost function Overrides(t: Tables, m: map<int, int>, running: seq<Started>): map<int, int>
    decreases |running|
  {
    if running == [] then m
    else
      match StartTables(t, running[0].task)
      case None => m
      case Some(u) => Overrides(u, OverrideStep(t, m, running[0].task), running[1..])
  }

  ghost function OverrideStep(t: Tables, m: map<int, int>, task: Task): map<int, int> {
    match task
    case Install(ver, _, _) => m - {EntryIdFor(t, ver.key)}
    case Uninstall(entry) => m - {entry.id}
    case ChangeFlags(entry, newFlags) => if entry.id in t.entries then m[entry.id := newFlags] else m
    case Passive => m
  }

  ghost function WithFlags(t: Tables, m: map<int, int>): Tables {
    t.(entries := map id | id in t.entries :: if id in m then t.entries[id].(flags := m[id]) else t.entries[id])
  }

  lemma {:induction false} WithFlagsSame(t: Tables, m: map<int, int>)
    requires Consistent(t)
    ensures Consistent(WithFlags(t, m))
    ensures forall key :: IdOf(WithFlags(t, m), key) == IdOf(t, key) && HasKey(WithFlags(t, m), key) == HasKey(t, key)
    ensures WithFlags(t, m).entries.Keys == t.entries.Keys
    ensures forall key, path :: OwnedByOther(WithFlags(t, m), key, path) == OwnedByOther(t, key, path)
  {
    var u := WithFlags(t, m);
    assert u.entries.Keys == t.entries.Keys;
    forall key
      ensures IdOf(u, key) == IdOf(t, key) && HasKey(u, key) == HasKey(t, key)
    {
      if HasKey(t, key) {
        IdOfIs(u, key, IdOf(t, key));
      } else {
        assert !HasKey(u, key);
      }
    }
    forall key, path
      ensures OwnedByOther(u, key, path) == OwnedByOther(t, key, path)
    {
      assert forall r <- t.files :: u.entries[r.entry].key == t.entries[r.entry].key;
    }
  }

  /** Changed flags neither cause nor hide a conflict... */
  lemma {:induction false} ConflictsWithFlags(t: Tables, m: map<int, int>, ver: Version, flags: int)
    requires Consistent(t) && ver.WellFormed()
    ensures Conflicts(WithFlags(t, m), ver, flags) == Conflicts(t, ver, flags)
    ensures EntryIdFor(WithFlags(t, m), ver.key) == EntryIdFor(t, ver.key)
    ensures Consistent(WithFlags(t, m))
  {
    WithFlagsSame(t, m);
    PushConflicts(t, ver, flags);
    PushConflicts(WithFlags(t, m), ver, flags);
  }

  /** ...and commute with a push, which sets the flags of its own entry anew. */
  lemma {:induction false} PushWithFlags(t: Tables, m: map<int, int>, ver: Version, flags: int)
    requires Consistent(t) && ver.WellFormed() && !Conflicts(t, ver, flags)
    ensures !Conflicts(WithFlags(t, m), ver, flags)
    ensures Push(WithFlags(t, m), ver, flags) == WithFlags(Push(t, ver, flags), m - {EntryIdFor(t, ver.key)})
  {
    hide EntryIdFor, Consistent;
    ConflictsWithFlags(t, m, ver, flags);
    PushTables(t, ver, flags);
    PushTables(WithFlags(t, m), ver, flags);
    assert Push(WithFlags(t, m), ver, flags).entries
        == WithFlags(Push(t, ver, flags), m - {EntryIdFor(t, ver.key)}).entries;
  }

  lemma {:induction false} CommitWithFlags(t: Tables, m: map<int, int>, task: Task)
    requires Consistent(t) && task.WellFormed() && StartTables(t, task).Some?
    requires m.Keys <= t.entries.Keys
    ensures var u, n := StartTables(t, task).value, OverrideStep(t, m, task);
      && Consistent(u) && n.Keys <= u.entries.Keys
      && CommitTables(WithFlags(t, m), task, false) == Some(WithFlags(u, n))
  {
    match task
    case Install(ver, flags, _) =>
      PushWithFlags(t, m, ver, flags);
      PushConsistent(t, ver, flags);
      PushTables(t, ver, flags);
    case Uninstall(entry) =>
      ForgetEffect(t, entry.id);
      assert Forget(WithFlags(t, m), entry.id).entries == WithFlags(Forget(t, entry.id), m - {entry.id}).entries;
    case ChangeFlags(entry, newFlags) =>
      var n := OverrideStep(t, m, task);
      assert SetFlags(WithFlags(t, m), entry.id, newFlags).entries == WithFlags(t, n).entries;
    case Passive =>
  }

  lemma {:induction false} ReplayFrom(t: Tables, m: map<int, int>, running: seq<Started>, end: Tables)
    requires Consistent(t) && m.Keys <= t.entries.Keys
    requires StartedFrom(t, running, end)
    requires forall s <- running :: s.task.WellFormed()
    ensures CommitAll(WithFlags(t, m), running, NoneFailed(|running|))
         == Some(WithFlags(end, Overrides(t, m, running)))
    decreases |running|
  {
    if running != [] {
      CommitWithFlags(t, m, running[0].task);
      var u, n := StartTables(t, running[0].task).value, OverrideStep(t, m, running[0].task);
      ReplayFrom(u, n, running[1..], end);
      assert NoneFailed(|running|)[1..] == NoneFailed(|running| - 1);
    }
  }

  /**
   * Replay of any queue whatever, in any order, when no task fails: no commit meets a conflict, and
   * the registry ends in the speculated tables, except for the flags that flag tasks changed.
   */
  lemma {:induction false} ReplayReachesSpeculation(t: Tables, order: seq<Task>)
    requires Consistent(t)
    requires forall task <- order :: task.WellFormed()
    ensures var running := StartAll(t, order);
      CommitAll(t, running, NoneFailed(|running|))
        == Some(WithFlags(SpeculatedEnd(t, order), Overrides(t, map[], running)))
  {
    StartAllStarted(t, order);
    assert WithFlags(t, map[]) == t;
    ReplayFrom(t, map[], StartAll(t, order), SpeculatedEnd(t, order));
  }

  /** Without flag tasks the committed tables are the speculated ones, ids included. */
  lemma {:induction false} ReplayExact(t: Tables, order: seq<Task>)
    requires Consistent(t)
    requires forall task <- order :: task.WellFormed() && !task.ChangeFlags?
    ensures CommitAll(t, StartAll(t, order), NoneFailed(|StartAll(t, order)|)) == Some(SpeculatedEnd(t, order))
  {
    ReplayReachesSpeculation(t, order);
    StartAllStarted(t, order);
    NoOverrides(t, StartAll(t, order));
    assert WithFlags(SpeculatedEnd(t, order), map[]) == SpeculatedEnd(t, order);
  }

  ghost predicate InstallFailed(running: seq<Started>, failed: seq<bool>)
    requires |failed| == |running|
  {
    exists j :: 0 <= j < |running| && running[j].task.Install? && failed[j]
  }

  /** Only whether an install failed makes a difference to a commit. */
  lemma {:induction false} NoInstallFailed(t: Tables, running: seq<Started>, failed: seq<bool>)
    requires |failed| == |running| && !InstallFailed(running, failed)
    ensures CommitAll(t, running, failed) == CommitAll(t, running, NoneFailed(|running|))
    decreases |running|
  {
    if running != [] {
      assert NoneFailed(|running|)[1..] == NoneFailed(|running| - 1);
      assert running[0].task.Install? ==> !failed[0];
      forall j | 0 <= j < |running[1..]| && running[1..][j].task.Install?
        ensures !failed[1..][j]
      {
        assert running[1..][j] == running[j + 1] && failed[1..][j] == failed[j + 1];
      }
      if u :| CommitTables(t, running[0].task, failed[0]) == Some(u) {
        NoInstallFailed(u, running[1..], failed[1..]);
      }
    }
  }

  /** Whatever the queue, guarded or not, a commit that throws has an install that failed. */
  lemma {:induction false} ConflictNeedsFailure(t: Tables, order: seq<Task>, failed: seq<bool>)
    requires Consistent(t) && |failed| == |StartAll(t, order)|
    requires forall s <- StartAll(t, order) :: s.task.WellFormed()
    requires CommitAll(t, StartAll(t, order), failed) == None
    ensures InstallFailed(StartAll(t, order), failed)
  {
    var running := StartAll(t, order);
    StartAllStarted(t, order);
    assert WithFlags(t, map[]) == t;
    ReplayFrom(t, map[], running, SpeculatedEnd(t, order));
    if !InstallFailed(running, failed) {
      NoInstallFailed(t, running, failed);
    }
  }

  lemma {:induction false} NoOverrides(t: Tables, running: seq<Started>)
    requires forall s <- running :: !s.task.ChangeFlags?
    ensures Overrides(t, map[], running) == map[]
    decreases |running|
  {
    if running != [] && StartTables(t, running[0].task).Some? {
      NoOverrides(StartTables(t, running[0].task).value, running[1..]);
    }
  }

  // ----- replay when some installs fail -----

  ghost predicate DistinctKeys(tasks: seq<Task>) {
    forall i, j :: 0 <= i < j < |tasks| ==> tasks[i].Keys() !! tasks[j].Keys()
  }

  function TasksOf(running: seq<Started>): seq<Task> {
    seq(|running|, i requires 0 <= i < |running| => running[i].task)
  }

  /** The entry a task holds is the one registered for its package, or null when there is none. */
  ghost predicate Current(t: Tables, task: Task) {
    forall key <- task.Keys() :: task.EntryId() == IdOf(t, key)
  }

  ghost function Dropped(s: Started): set<string> {
    PathsOf(s.files)
  }

  /**
   * A broken handover: a failed update keeps the files it would have dropped, and an install that
   * started later, on the assumption that they were free, claims one of them.
   */
  ghost predicate BrokenHandover(running: seq<Started>, failed: seq<bool>)
    requires |failed| == |running|
  {
    exists j, k :: 0 <= j < k < |running|
      && running[j].task.Install? && failed[j]
      && running[k].task.Install? && !failed[k]
      && Dropped(running[j]) * running[k].task.ver.Texts() != {}
  }

  /** The same, walking the queue: `debts` are the paths that failed updates kept. */
  ghost predicate Broken(debts: set<string>, running: seq<Started>, failed: seq<bool>)
    requires |failed| == |running|
    decreases |running|
  {
    running != [] &&
    var task := running[0].task;
    || (task.Install? && !failed[0] && debts * task.ver.Texts() != {})
    || Broken(if task.Install? && failed[0] then debts + Dropped(running[0]) else debts, running[1..], failed[1..])
  }

  lemma {:induction false} BrokenIs(debts: set<string>, running: seq<Started>, failed: seq<bool>)
    requires |failed| == |running|
    ensures Broken(debts, running, failed) <==>
      || BrokenHandover(running, failed)
      || exists k :: 0 <= k < |running| && running[k].task.Install? && !failed[k] && debts * running[k].task.ver.Texts() != {}
    decreases |running|
  {
    if running != [] {
      var first := running[0];
      var kept := if first.task.Install? && failed[0] then debts + Dropped(first) else debts;
      BrokenIs(kept, running[1..], failed[1..]);
      BrokenSplit(running, failed);
      forall k | 1 <= k < |running| && running[k].task.Install?
        ensures kept * running[k].task.ver.Texts() != {} <==>
          || debts * running[k].task.ver.Texts() != {}
          || (first.task.Install? && failed[0] && Dropped(first) * running[k].task.ver.Texts() != {})
      {
        if p :| p in kept * running[k].task.ver.Texts() {
          assert p in debts * running[k].task.ver.Texts() || p in Dropped(first) * running[k].task.ver.Texts();
        }
      }
      assert forall k :: 1 <= k < |running| ==> running[k] == running[1..][k - 1] && failed[k] == failed[1..][k - 1];
    }
  }

  lemma {:induction false} BrokenSplit(running: seq<Started>, failed: seq<bool>)
    requires |failed| == |running| && running != []
    ensures BrokenHandover(running, failed) <==>
      || BrokenHandover(running[1..], failed[1..])
      || exists k :: 1 <= k < |running|
           && running[0].task.Install? && failed[0]
           && running[k].task.Install? && !failed[k]
           && Dropped(running[0]) * running[k].task.ver.Texts() != {}
  {
    assert forall k :: 1 <= k < |running| ==> running[k] == running[1..][k - 1] && failed[k] == failed[1..][k - 1];
    if BrokenHandover(running[1..], failed[1..]) {
      var j, k :| 0 <= j < k < |running[1..]|
        && running[1..][j].task.Install? && failed[1..][j]
        && running[1..][k].task.Install? && !failed[1..][k]
        && Dropped(running[1..][j]) * running[1..][k].task.ver.Texts() != {};
      assert running[1..][j] == running[j + 1] && running[1..][k] == running[k + 1];
    }
    if BrokenHandover(running, failed) {
      var j, k :| 0 <= j < k < |running|
        && running[j].task.Install? && failed[j]
        && running[k].task.Install? && !failed[k]
        && Dropped(running[j]) * running[k].task.ver.Texts() != {};
      if j > 0 {
        assert running[j] == running[1..][j - 1] && running[k] == running[1..][k - 1];
      }
    }
  }

  /** How the actual tables relate to the speculated ones while tasks are still to be committed. */
  ghost predicate Tracks(actual: Tables, spec: Tables, debts: set<string>, running: seq<Started>) {
    && Consistent(actual) && Consistent(spec)
    && (forall key :: FilesOf(actual, key) <= FilesOf(spec, key) + debts)
    && (forall p <- debts :: exists key :: p in FilesOf(actual, key) && forall s <- running :: key !in s.task.Keys())
    && (forall s <- running :: s.task.WellFormed() && Current(actual, s.task) && Current(spec, s.task))
    && (forall s <- running, key | key in s.task.Keys() :: RowsOf(actual, IdOf(actual, key)) == RowsOf(spec, IdOf(spec, key)))
  }

  lemma {:induction false} OwnedByOtherIs(t: Tables, key: Key, path: string)
    requires Consistent(t)
    ensures OwnedByOther(t, key, path) <==> exists other :: other != key && path in FilesOf(t, other)
  {
    if r :| r in t.files && r.path == path && t.entries[r.entry].key != key {
      var other := t.entries[r.entry].key;
      IdOfIs(t, other, r.entry);
      assert r in RowsOf(t, IdOf(t, other));
      assert path in FilesOf(t, other);
    }
  }

  /** An install conflicts at commit exactly when it claims a debt. */
  lemma {:induction false} ConflictIsDebt(
    actual: Tables, spec: Tables, debts: set<string>, running: seq<Started>)
    requires Tracks(actual, spec, debts, running)
    requires running != [] && running[0].task.Install? && StartTables(spec, running[0].task).Some?
    ensures var ver, flags := running[0].task.ver, running[0].task.flags;
      Conflicts(actual, ver, flags) <==> debts * ver.Texts() != {}
  {
    var ver, flags := running[0].task.ver, running[0].task.flags;
    PushConflicts(actual, ver, flags);
    PushConflicts(spec, ver, flags);
    if Conflicts(actual, ver, flags) {
      var path :| path in ver.Texts() && OwnedByOther(actual, ver.key, path);
      OwnedByOtherIs(actual, ver.key, path);
      var other :| other != ver.key && path in FilesOf(actual, other);
      OwnedByOtherIs(spec, ver.key, path);
      assert path in debts * ver.Texts();
    }
    if path :| path in debts * ver.Texts() {
      var key :| path in FilesOf(actual, key) && forall s <- running :: key !in s.task.Keys();
      assert running[0] in running && key != ver.key;
      OwnedByOtherIs(actual, ver.key, path);
    }
  }

  ghost function DebtsAfter(debts: set<string>, s: Started, failed: bool): set<string> {
    if s.task.Install? && failed then debts + Dropped(s) else debts
  }

  /** The tables change only for the packages a task names. */
  ghost predicate OnlyChanges(t: Tables, u: Tables, keys: set<Key>) {
    forall key :: key !in keys ==> IdOf(u, key) == IdOf(t, key) && RowsOf(u, IdOf(u, key)) == RowsOf(t, IdOf(t, key))
  }

  lemma {:induction false} StartOnlyChanges(t: Tables, task: Task)
    requires Consistent(t) && task.WellFormed() && Current(t, task)
    ensures match StartTables(t, task)
      case None => true
      case Some(u) =>
        && Consistent(u) && OnlyChanges(t, u, task.Keys())
        && (task.Install? ==> FilesOf(u, task.ver.key) == task.ver.Texts())
        && (task.Uninstall? ==> FilesOf(u, task.entry.row.key) == {})
  {
    match task
    case Install(ver, flags, _) =>
      PushConsistent(t, ver, flags);
      if !Conflicts(t, ver, flags) {
        PushEffect(t, ver, flags);
      }
    case Uninstall(entry) =>
      ForgetEffect(t, entry.id);
      var key := entry.row.key;
      assert key in task.Keys() && entry.id == IdOf(t, key);
      assert IdOf(Forget(t, entry.id), key) == 0;
      forall other | other != key
        ensures IdOf(t, other) != entry.id || entry.id == 0
      {
      }
    case _ =>
  }

  lemma {:induction false} CommitOnlyChanges(t: Tables, task: Task, failed: bool)
    requires Consistent(t) && task.WellFormed() && Current(t, task)
    ensures match CommitTables(t, task, failed)
      case None => true
      case Some(u) =>
        && Consistent(u) && OnlyChanges(t, u, task.Keys())
        && (task.Install? && !failed ==> FilesOf(u, task.ver.key) == task.ver.Texts())
        && (task.Install? && failed ==> u == t)
        && (task.Uninstall? ==> FilesOf(u, task.entry.row.key) == {})
        && (task.ChangeFlags? || task.Passive? ==> OnlyChanges(t, u, {}))
  {
    match task
    case Install(ver, flags, _) =>
      StartOnlyChanges(t, task);
    case Uninstall(entry) =>
      StartOnlyChanges(t, task);
    case ChangeFlags(entry, newFlags) =>
      SetFlagsEffect(t, entry.id, newFlags);
    case Passive =>
  }

  /** What it is for a task to hold the registered entry of its package. */
  lemma {:induction false} CurrentMeaning(t: Tables, task: Task)
    ensures task.Install? ==> (Current(t, task) <==> task.previous.id == IdOf(t, task.ver.key))
    ensures task.Uninstall? || task.ChangeFlags? ==> (Current(t, task) <==> task.entry.id == IdOf(t, task.entry.row.key))
    ensures task.Passive? ==> Current(t, task)
  {
    if task.Install? {
      assert task.ver.key in task.Keys();
    } else if !task.Passive? {
      assert task.entry.row.key in task.Keys();
    }
  }

  /** A commit leaves the entries of all other packages as they are, flags included. */
  lemma {:induction false} CommitLeavesOthers(t: Tables, task: Task, failed: bool, id: int)
    requires Consistent(t) && task.WellFormed() && Current(t, task) && CommitTables(t, task, failed).Some?
    requires id in t.entries && t.entries[id].key !in task.Keys()
    ensures var u := CommitTables(t, task, failed).value; id in u.entries && u.entries[id] == t.entries[id]
  {
    match task
    case Install(ver, flags, _) =>
      if !failed {
        PushTables(t, ver, flags);
      }
    case Uninstall(entry) => assert entry.row.key in task.Keys();
    case ChangeFlags(entry, _) => assert entry.row.key in task.Keys();
    case Passive =>
  }

  lemma {:induction false} CurrentKept(t: Tables, u: Tables, keys: set<Key>, task: Task)
    requires OnlyChanges(t, u, keys) && task.Keys() !! keys && Current(t, task)
    ensures Current(u, task)
  {
    assert forall key <- task.Keys() :: key !in keys;
  }

  /** For the packages still to come nothing has changed, in speculation or for good. */
  lemma {:induction false} PendingKept(
    actual: Tables, spec: Tables, debts: set<string>, running: seq<Started>, actual': Tables, spec': Tables)
    requires Tracks(actual, spec, debts, running) && running != [] && DistinctKeys(TasksOf(running))
    requires OnlyChanges(actual, actual', running[0].task.Keys())
    requires OnlyChanges(spec, spec', running[0].task.Keys())
    ensures forall s <- running[1..] :: s.task.Keys() !! running[0].task.Keys()
    ensures forall s <- running[1..] :: s.task.WellFormed() && Current(actual', s.task) && Current(spec', s.task)
    ensures forall s <- running[1..], key | key in s.task.Keys() ::
      RowsOf(actual', IdOf(actual', key)) == RowsOf(spec', IdOf(spec', key))
  {
    var keys := running[0].task.Keys();
    forall s | s in running[1..]
      ensures s.task.Keys() !! keys
      ensures s.task.WellFormed() && Current(actual', s.task) && Current(spec', s.task)
    {
      var i :| 0 <= i < |running[1..]| && running[1..][i] == s;
      assert TasksOf(running)[0].Keys() !! TasksOf(running)[i + 1].Keys();
      CurrentKept(actual, actual', keys, s.task);
      CurrentKept(spec, spec', keys, s.task);
    }
  }

  /** A failed install leaves its old files behind: those the new version dropped become debts. */
  lemma {:induction false} DebtsCover(
    actual: Tables, spec: Tables, debts: set<string>, running: seq<Started>, failed: bool, actual': Tables, key: Key)
    requires Tracks(actual, spec, debts, running) && running != []
    requires running[0].files == FilesToDelete(spec, running[0].task)
    requires StartTables(spec, running[0].task).Some?
    requires CommitTables(actual, running[0].task, failed) == Some(actual')
    ensures FilesOf(actual', key)
         <= FilesOf(StartTables(spec, running[0].task).value, key) + DebtsAfter(debts, running[0], failed)
  {
    var task := running[0].task;
    assert running[0] in running;
    StartOnlyChanges(spec, task);
    CommitOnlyChanges(actual, task, failed);
    if task.Install? && failed && key == task.ver.key {
      assert key in task.Keys();
      forall path | path in FilesOf(actual, key) && path !in task.ver.Texts()
        ensures path in Dropped(running[0])
      {
        var r :| r in RowsOf(actual, IdOf(actual, key)) && r.path == path;
        assert r in running[0].files;
      }
    } else if key in task.Keys() {
      match task
      case Install(ver, _, _) => assert key == ver.key;
      case Uninstall(entry) => assert key == entry.row.key;
      case ChangeFlags(_, _) => assert FilesOf(actual', key) == FilesOf(actual, key);
      case Passive =>
    } else {
      assert FilesOf(actual', key) == FilesOf(actual, key);
      assert FilesOf(StartTables(spec, task).value, key) == FilesOf(spec, key);
    }
  }

  lemma {:induction false} DebtsOwned(
    actual: Tables, spec: Tables, debts: set<string>, running: seq<Started>, failed: bool, actual': Tables, path: string)
    requires Tracks(actual, spec, debts, running) && running != [] && DistinctKeys(TasksOf(running))
    requires running[0].files == FilesToDelete(spec, running[0].task)
    requires CommitTables(actual, running[0].task, failed) == Some(actual')
    requires path in DebtsAfter(debts, running[0], failed)
    ensures exists key :: path in FilesOf(actual', key) && forall s <- running[1..] :: key !in s.task.Keys()
  {
    var task := running[0].task;
    assert running[0] in running;
    CommitOnlyChanges(actual, task, failed);
    if path in debts {
      var key :| path in FilesOf(actual, key) && forall s <- running :: key !in s.task.Keys();
      assert path in FilesOf(actual', key);
    } else {
      var key := task.ver.key;
      assert key in task.Keys();
      var r :| r in running[0].files && r.path == path;
      assert r in RowsOf(actual, IdOf(actual, key));
      assert path in FilesOf(actual', key);
      forall s | s in running[1..]
        ensures key !in s.task.Keys()
      {
        var i :| 0 <= i < |running[1..]| && running[1..][i] == s;
        assert TasksOf(running)[0].Keys() !! TasksOf(running)[i + 1].Keys();
      }
    }
  }

  lemma {:induction false} TracksStep(
    actual: Tables, spec: Tables, debts: set<string>, running: seq<Started>, failed: bool)
    requires Tracks(actual, spec, debts, running) && running != [] && DistinctKeys(TasksOf(running))
    requires running[0].files == FilesToDelete(spec, running[0].task)
    requires StartTables(spec, running[0].task).Some?
    requires CommitTables(actual, running[0].task, failed).Some?
    ensures Tracks(CommitTables(actual, running[0].task, failed).value, StartTables(spec, running[0].task).value,
                   DebtsAfter(debts, running[0], failed), running[1..])
  {
    var task := running[0].task;
    var actual', spec' := CommitTables(actual, task, failed).value, StartTables(spec, task).value;
    assert running[0] in running;
    StartOnlyChanges(spec, task);
    CommitOnlyChanges(actual, task, failed);
    PendingKept(actual, spec, debts, running, actual', spec');
    forall key
      ensures FilesOf(actual', key) <= FilesOf(spec', key) + DebtsAfter(debts, running[0], failed)
    {
      DebtsCover(actual, spec, debts, running, failed, actual', key);
    }
    forall p | p in DebtsAfter(debts, running[0], failed)
      ensures exists key :: p in FilesOf(actual', key) && forall s <- running[1..] :: key !in s.task.Keys()
    {
      DebtsOwned(actual, spec, debts, running, failed, actual', p);
    }
  }

  lemma {:induction false} DistinctTail(running: seq<Started>)
    requires running != [] && DistinctKeys(TasksOf(running))
    ensures DistinctKeys(TasksOf(running[1..]))
  {
    assert TasksOf(running[1..]) == TasksOf(running)[1..];
  }

  lemma {:induction false} ReplayTracks(
    actual: Tables, spec: Tables, debts: set<string>, running: seq<Started>, failed: seq<bool>, end: Tables)
    requires |failed| == |running|
    requires Tracks(actual, spec, debts, running) && DistinctKeys(TasksOf(running))
    requires StartedFrom(spec, running, end)
    ensures CommitAll(actual, running, failed).None? <==> Broken(debts, running, failed)
    ensures CommitAll(actual, running, failed).Some? ==> Consistent(CommitAll(actual, running, failed).value)
    decreases |running|
  {
    if running != [] {
      var task := running[0].task;
      if task.Install? {
        ConflictIsDebt(actual, spec, debts, running);
      }
      if CommitTables(actual, task, failed[0]).Some? {
        TracksStep(actual, spec, debts, running, failed[0]);
        DistinctTail(running);
        ReplayTracks(CommitTables(actual, task, failed[0]).value, StartTables(spec, task).value,
                     DebtsAfter(debts, running[0], failed[0]), running[1..], failed[1..], end);
      }
    }
  }

  lemma {:induction false} StartAllDistinct(t: Tables, order: seq<Task>)
    requires DistinctKeys(order)
    ensures DistinctKeys(TasksOf(StartAll(t, order)))
    decreases |order|
  {
    hide StartTables;
    if order != [] {
      match StartTables(t, order[0])
      case None => StartAllDistinct(t, order[1..]);
      case Some(u) =>
        var rest := StartAll(u, order[1..]);
        StartAllDistinct(u, order[1..]);
        StartAllStarted(u, order[1..]);
        var all := StartAll(t, order);
        assert TasksOf(all) == [order[0]] + TasksOf(rest);
        forall i | 0 <= i < |rest|
          ensures order[0].Keys() !! rest[i].task.Keys()
        {
          assert rest[i] in rest;
          var k :| 0 <= k < |order[1..]| && order[1..][k] == rest[i].task;
          assert order[k + 1] == rest[i].task;
        }
    }
  }

  /**
   * The replay of a queue with one task per package, each holding the registered entry, meets a
   * conflict if and only if a failed update keeps a file that a later install was promised.
   * The set of failed tasks is arbitrary, and so is the order the heap pops the queue in.
   */
  lemma {:induction false} ReplayConflict(t: Tables, order: seq<Task>, failed: seq<bool>)
    requires Consistent(t) && DistinctKeys(order)
    requires forall task <- order :: task.WellFormed() && Current(t, task)
    requires |failed| == |StartAll(t, order)|
    ensures CommitAll(t, StartAll(t, order), failed).None? <==> BrokenHandover(StartAll(t, order), failed)
    ensures CommitAll(t, StartAll(t, order), failed).Some? ==>
      Consistent(CommitAll(t, StartAll(t, order), failed).value)
  {
    var running := StartAll(t, order);
    StartAllStarted(t, order);
    StartAllDistinct(t, order);
    assert Tracks(t, t, {}, running);
    ReplayTracks(t, t, {}, running, failed, SpeculatedEnd(t, order));
    BrokenIs({}, running, failed);
  }

  // ----- a handover does break -----

  lemma {:induction false} StartTwo(t: Tables, first: Task, second: Task)
    requires StartTables(t, first).Some? && StartTables(StartTables(t, first).value, second).Some?
    ensures var u := StartTables(t, first).value;
      StartAll(t, [first, second]) == [Started(first, FilesToDelete(t, first)), Started(second, FilesToDelete(u, second))]
  {
    assert [first, second][1..] == [second];
    StartOne(StartTables(t, first).value, second);
  }

  /** What a package owns when it moves from the file `p` to the file `q`, before and after its start. */
  lemma {:induction false} MoveStarts(p: Path, q: Path, a: Key, info: Info)
    requires Normal(p) && !p.absolute && Normal(q) && !q.absolute && p != q
    ensures var row := FileRow(1, Join(p), 0, info.ptype);
      var t := Tables(map[1 := EntryRow(a, info, 0)], {row});
      var update := Install(Version(a, info, [FileSpec(q, 0, info.ptype)]), 0, Entry(1, EntryRow(a, info, 0)));
      && Consistent(t) && IdOf(t, a) == 1 && StartTables(t, update).Some?
      && FilesToDelete(t, update) == {row}
      && Consistent(StartTables(t, update).value)
      && forall r <- StartTables(t, update).value.files :: r.path == Join(q)
  {
    var row := FileRow(1, Join(p), 0, info.ptype);
    var t := Tables(map[1 := EntryRow(a, info, 0)], {row});
    var ver := Version(a, info, [FileSpec(q, 0, info.ptype)]);
    JoinInjective(p, q);
    assert ver.files[0].Text() == Join(q);
    assert ver.Texts() == {Join(q)};
    IdOfIs(t, a, 1);
    PushConflicts(t, ver, 0);
    PushTables(t, ver, 0);
    PushConsistent(t, ver, 0);
    assert RowsOf(t, 1) == {row};
  }

  /**
   * A handover does break, for any two files and any two packages: one package is to move from `p`
   * to `q` and fails, the other was promised `p` and does not. Both started, and the commit throws.
   */
  lemma {:induction false} HandoverBreaks(p: Path, q: Path, a: Key, b: Key, info: Info)
    requires Normal(p) && !p.absolute && Normal(q) && !q.absolute && p != q && a != b
    ensures var row := EntryRow(a, info, 0);
      var t := Tables(map[1 := row], {FileRow(1, Join(p), 0, info.ptype)});
      var update := Install(Version(a, info, [FileSpec(q, 0, info.ptype)]), 0, Entry(1, row));
      var claim := Install(Version(b, info, [FileSpec(p, 0, info.ptype)]), 0, Entry(0, row));
      var order := [update, claim];
      && Consistent(t) && DistinctKeys(order) && (forall task <- order :: task.WellFormed() && Current(t, task))
      && |StartAll(t, order)| == 2
      && BrokenHandover(StartAll(t, order), [true, false])
      && CommitAll(t, StartAll(t, order), [true, false]) == None
  {
    var row := EntryRow(a, info, 0);
    var file := FileRow(1, Join(p), 0, info.ptype);
    var t := Tables(map[1 := row], {file});
    var update := Install(Version(a, info, [FileSpec(q, 0, info.ptype)]), 0, Entry(1, row));
    var claim := Install(Version(b, info, [FileSpec(p, 0, info.ptype)]), 0, Entry(0, row));
    MoveStarts(p, q, a, info);
    JoinInjective(p, q);
    var u := StartTables(t, update).value;
    assert claim.ver.files[0].Text() == Join(p);
    assert claim.ver.Texts() == {Join(p)};
    PushConflicts(u, claim.ver, 0);
    StartTwo(t, update, claim);
    assert !HasKey(t, b);
    var running := StartAll(t, [update, claim]);
    assert file in running[0].files && Join(p) in Dropped(running[0]) * running[1].task.ver.Texts();
    assert BrokenHandover(running, [true, false]);
    ReplayConflict(t, [update, claim], [true, false]);
  }
}
