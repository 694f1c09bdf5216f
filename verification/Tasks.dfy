/**
 * The tasks of a transaction (src/task.hpp, src/install.cpp) and their queues: what is counted, the
 * order in which a queue starts, how far a commit has come, and when the jobs of a task are over.
 */
module TransactionTasks {
  import opened Basics
  import opened RegistryTables
  import opened Replay
  import opened Arbitration
  import opened DiskAgreement
  import opened Synchronization
  import opened Files
  import opened Paths
  import Downloads
  import Pool
  import Remotes
  import Targets
  import Workers

  // ----- tasks -----

  /** What a task was created for; for a synchronization, also the index its download will bring, if any. */
  datatype Kind =
    | Direct(task: Replay.Task)
    | Synchronize(download: bool, full: bool, index: Option<Index>, opts: Options, protected: bool)
    | Export(jobs: nat)
  {
    function Task(): Replay.Task {
      if Direct? then task else Passive
    }

    ghost predicate WellFormed() {
      && Task().WellFormed()
      && (Synchronize? && index.Some? ==> forall item <- Items(index.value) :: item.Valid())
    }
  }

  /** How `commitTasks` or `runTasks` ends: downloads are pending, it is done, or a conflict was thrown. */
  datatype Status = Waiting | Done | Threw

  class TaskObject {
    const kind: Kind
    var files: set<FileRow>
    var newFiles: seq<string>
    var fail: bool

    constructor (kind: Kind)
      ensures this.kind == kind && files == {} && newFiles == [] && !fail
    {
      this.kind := kind;
      files, newFiles, fail := {}, [], false;
    }
  }

  /** Replay's view of tasks that have started. */
  ghost function Snapshot(tasks: seq<TaskObject>): seq<Started>
    reads tasks
  {
    seq(|tasks|, i requires 0 <= i < |tasks| reads tasks => Started(tasks[i].kind.Task(), tasks[i].files))
  }

  ghost function Moved(tasks: seq<TaskObject>): seq<seq<string>>
    reads tasks
  {
    seq(|tasks|, i requires 0 <= i < |tasks| reads tasks => tasks[i].newFiles)
  }

  ghost function Fails(tasks: seq<TaskObject>): seq<bool>
    reads tasks
  {
    seq(|tasks|, i requires 0 <= i < |tasks| reads tasks => tasks[i].fail)
  }

  /** Not where a download waits. */
  ghost predicate Elsewhere(moved: seq<seq<string>>, path: string) {
    forall i :: 0 <= i < |moved| ==> path !in Temps(moved[i])
  }

  /** What is left of a queue while it is committed: its tasks, the tables and the disk; and whether all can be put in place. */
  datatype Progress = Progress(
    t: Tables, disk: Disk, snap: seq<Started>, moved: seq<seq<string>>, fails: seq<bool>, ready: bool)
  {
    ghost predicate Even() {
      |snap| == |moved| == |fails|
    }
  }

  /** A queue that was committed: the order it was popped in, what ran, and what failed. */
  datatype Batch = Batch(order: seq<Replay.Task>, running: seq<Started>, failed: seq<bool>)

  /** One committed queue took the tables from one state to the next. */
  ghost predicate Committed(t: Tables, b: Batch, u: Tables) {
    && b.running == StartAll(t, b.order)
    && |b.failed| == |b.running|
    && CommitAll(t, b.running, b.failed) == Some(u)
  }

  /** The history of a run: the tables it began with, then those each committed queue left. */
  ghost predicate History(states: seq<Tables>, batches: seq<Batch>) {
    && |states| == |batches| + 1
    && forall i :: 0 <= i < |batches| ==> Committed(states[i], batches[i], states[i + 1])
  }

  lemma {:induction false} HistoryGoesOn(states: seq<Tables>, batches: seq<Batch>, b: Batch, u: Tables)
    requires History(states, batches) && Committed(states[|states| - 1], b, u)
    ensures History(states + [u], batches + [b])
  {
    var s, c := states + [u], batches + [b];
    forall i | 0 <= i < |c|
      ensures Committed(s[i], c[i], s[i + 1])
    {
      if i < |batches| {
        assert s[i] == states[i] && s[i + 1] == states[i + 1];
      }
    }
  }

  /** The synchronizations of a queue: the only tasks that cause further ones. */
  function Syncs(q: seq<TaskObject>): nat
    decreases |q|
  {
    if q == [] then 0 else Syncs(q[..|q| - 1]) + if q[|q| - 1].kind.Synchronize? then 1 else 0
  }

  function QueuesSyncs(qs: seq<seq<TaskObject>>): nat
    decreases |qs|
  {
    if qs == [] then 0 else QueuesSyncs(qs[..|qs| - 1]) + Syncs(qs[|qs| - 1])
  }

  function QueuesWeight(qs: seq<seq<TaskObject>>): nat
    decreases |qs|
  {
    if qs == [] then 0 else QueuesWeight(qs[..|qs| - 1]) + 2 * |qs[|qs| - 1]| + 1
  }

  // ----- no task is lost -----

  function Flat(qs: seq<seq<TaskObject>>): seq<TaskObject>
    decreases |qs|
  {
    if qs == [] then [] else Flat(qs[..|qs| - 1]) + qs[|qs| - 1]
  }

  ghost function TasksIn(q: seq<TaskObject>): set<TaskObject> {
    set task | task in q
  }

  /** Every task a transaction owns waits in one place, or went through its queue's start; never both. */
  ghost predicate Conserved(waiting: seq<TaskObject>, handled: set<TaskObject>, owned: set<TaskObject>) {
    && Distinct(waiting)
    && owned == TasksIn(waiting) + handled
    && (forall task <- waiting :: task !in handled)
  }

  lemma {:induction false} FlatEmpty()
    ensures Flat([]) == [] && Flat([[]]) == []
  {
    var none: seq<TaskObject> := [];
    assert [none][..0] == [];
  }

  lemma {:induction false} FlatFront(qs: seq<seq<TaskObject>>)
    requires qs != []
    ensures Flat(qs) == qs[0] + Flat(qs[1..])
    decreases |qs|
  {
    var n := |qs| - 1;
    if n == 0 {
      assert qs[..0] == [] && qs[1..] == [];
    } else {
      FlatFront(qs[..n]);
      assert qs[1..][..n - 1] == qs[..n][1..];
      assert qs[0] + (Flat(qs[..n][1..]) + qs[n]) == qs[0] + Flat(qs[..n][1..]) + qs[n];
    }
  }

  lemma {:induction false} FlatBack(qs: seq<seq<TaskObject>>, q: seq<TaskObject>)
    ensures Flat(qs + [q]) == Flat(qs) + q
  {
    assert (qs + [q])[..|qs|] == qs;
  }

  lemma {:induction false} ConservedAdd(
    a: seq<TaskObject>, b: seq<TaskObject>, handled: set<TaskObject>, owned: set<TaskObject>, task: TaskObject)
    requires Conserved(a + b, handled, owned) && task !in owned
    ensures Conserved(a + [task] + b, handled, owned + {task})
  {
    var before, after := a + b, a + [task] + b;
    forall i | 0 <= i < |after|
      ensures after[i] == if i == |a| then task else before[if i < |a| then i else i - 1]
    {
    }
    assert forall i :: 0 <= i < |before| ==> before[i] in before;
    assert TasksIn(after) == TasksIn(before) + {task};
  }

  lemma {:induction false} ConservedStart(
    first: seq<TaskObject>, rest: seq<TaskObject>, handled: set<TaskObject>, owned: set<TaskObject>)
    requires Conserved(first + rest, handled, owned)
    ensures Conserved(rest, handled + TasksIn(first), owned)
  {
    var all := first + rest;
    forall i | 0 <= i < |rest|
      ensures rest[i] == all[|first| + i] && rest[i] !in first
    {
      assert forall k :: 0 <= k < |first| ==> first[k] == all[k];
    }
    assert TasksIn(all) == TasksIn(first) + TasksIn(rest);
  }

  lemma {:induction false} SyncsAppend(q: seq<TaskObject>, task: TaskObject)
    ensures Syncs(q + [task]) == Syncs(q) + if task.kind.Synchronize? then 1 else 0
  {
    assert (q + [task])[..|q|] == q;
  }

  lemma {:induction false} QueuesFront(qs: seq<seq<TaskObject>>)
    requires qs != []
    ensures QueuesSyncs(qs) == Syncs(qs[0]) + QueuesSyncs(qs[1..])
    ensures QueuesWeight(qs) == 2 * |qs[0]| + 1 + QueuesWeight(qs[1..])
    decreases |qs|
  {
    var n := |qs| - 1;
    if n == 0 {
      assert qs[..0] == [] && qs[1..] == [];
    } else {
      QueuesFront(qs[..n]);
      assert qs[1..][..n - 1] == qs[..n][1..];
    }
  }

  lemma {:induction false} QueuesEmpty()
    ensures QueuesWeight([]) == 0 && QueuesSyncs([]) == 0
    ensures QueuesWeight([[]]) == 1 && QueuesSyncs([[]]) == 0
  {
    var none: seq<TaskObject> := [];
    assert [none][..0] == [];
  }

  lemma {:induction false} QueuesBack(qs: seq<seq<TaskObject>>, q: seq<TaskObject>)
    ensures QueuesSyncs(qs + [q]) == QueuesSyncs(qs) + Syncs(q)
    ensures QueuesWeight(qs + [q]) == QueuesWeight(qs) + 2 * |q| + 1
  {
    assert (qs + [q])[..|qs|] == qs;
  }

  /** The jobs a task pushes when it starts. */
  function JobCount(k: Kind): nat {
    match k
    case Direct(Install(ver, _, _)) => |ver.files|
    case Direct(_) => 0
    case Synchronize(download, _, _, _, _) => if download then 1 else 0
    case Export(jobs) => jobs
  }

  /** One job for each file an install brings, one for the index a synchronization downloads, none for other changes. */
  lemma {:induction false} JobCountMeaning(k: Kind)
    ensures k.Task().Install? ==> JobCount(k) == |Texts(k.Task().ver)|
    ensures k.Direct? && !k.task.Install? ==> JobCount(k) == 0
    ensures k.Synchronize? ==> JobCount(k) <= 1 && (JobCount(k) == 1 <==> k.download)
    ensures k.Export? ==> JobCount(k) == k.jobs
  {
  }

  // ----- enqueuing -----

  /** Where the index of a repository is cached (`Index::pathFor`). */
  function IndexText(name: string): string {
    Join(Append(Path(false, ["ReaPack", "cache"]), name + ".xml", true))
  }

  function AutoInstall(remote: Remotes.Remote, force: Option<bool>, opts: Options): bool {
    match remote.autoInstall
    case True => true
    case False => false
    case Indeterminate => if force.Some? then force.value else opts.autoInstall
  }

  /** The cached index of a valid repository is one file of its own. */
  lemma {:induction false} IndexTextIs(name: string)
    requires Plain(name)
    ensures IndexText(name) == "ReaPack/cache/" + name + ".xml"
  {
    var cache := Path(false, ["ReaPack", "cache"]);
    assert Plain(name + ".xml") by {
      XmlPlain(name);
    }
    CacheText();
    hide Append, Join, Plain;
    Targets.AppendPlain(cache, name + ".xml", true);
    assert IndexText(name) == Join(cache.(parts := cache.parts + [name + ".xml"]));
    hide IndexText;
    JoinMeaning(cache, name + ".xml");
  }

  lemma {:induction false} XmlPlain(name: string)
    requires Plain(name)
    ensures Plain(name + ".xml")
  {
    assert forall i :: 0 <= i < |name| ==> (name + ".xml")[i] == name[i];
  }

  lemma {:induction false} CacheText()
    ensures Join(Path(false, ["ReaPack", "cache"])) == "ReaPack/cache"
    ensures Plain("ReaPack") && Plain("cache")
  {
    var first := Path(false, ["ReaPack"]);
    assert [] + "ReaPack" == "ReaPack";
    JoinMeaning(EMPTY_PATH, "ReaPack");
    JoinMeaning(first, "cache");
    assert first.parts + ["cache"] == ["ReaPack", "cache"];
  }

  /** A repository's own setting comes first, then what the caller forces, then the general option. */
  lemma {:induction false} AutoInstallOrder(remote: Remotes.Remote, force: Option<bool>, opts: Options)
    ensures remote.autoInstall.True? ==> AutoInstall(remote, force, opts)
    ensures remote.autoInstall.False? ==> !AutoInstall(remote, force, opts)
    ensures remote.autoInstall.Indeterminate? ==>
      (AutoInstall(remote, force, opts) <==> force == Some(true) || (force == None && opts.autoInstall))
  {
  }

  /** Uninstalls of the entries of a repository, all but those with the ids left. */
  ghost predicate UninstallsBut(t: Tables, remote: string, tasks: seq<Replay.Task>, left: set<int>) {
    && (forall id <- left :: id in t.entries && t.entries[id].key.remote == remote)
    && (forall task <- tasks :: task.Uninstall? && task.entry.id in t.entries && task.entry.id !in left
          && task.entry.row == t.entries[task.entry.id] && task.entry.row.key.remote == remote)
    && (forall i, j :: 0 <= i < j < |tasks| ==> tasks[i].EntryId() != tasks[j].EntryId())
    && (forall id :: id in t.entries && t.entries[id].key.remote == remote && id !in left ==>
          exists task <- tasks :: task == Replay.Uninstall(Entry(id, t.entries[id])))
  }

  ghost predicate UninstallsRemote(t: Tables, remote: string, tasks: seq<Replay.Task>) {
    UninstallsBut(t, remote, tasks, {})
  }

  lemma {:induction false} UninstallsBegin(t: Tables, remote: string)
    ensures UninstallsBut(t, remote, [], set id | id in t.entries && t.entries[id].key.remote == remote)
  {
  }

  lemma {:induction false} UninstallsNext(t: Tables, remote: string, tasks: seq<Replay.Task>, left: set<int>, id: int)
    requires UninstallsBut(t, remote, tasks, left) && id in left
    ensures UninstallsBut(t, remote, tasks + [Replay.Uninstall(Entry(id, t.entries[id]))], left - {id})
  {
    var task := Replay.Uninstall(Entry(id, t.entries[id]));
    assert (tasks + [task])[|tasks|] == task;
    forall i | 0 <= i < |tasks|
      ensures tasks[i] in tasks + [task] && tasks[i].EntryId() != id
    {
      assert (tasks + [task])[i] == tasks[i];
    }
    forall other | other in t.entries && t.entries[other].key.remote == remote && other !in left - {id}
      ensures exists done <- tasks + [task] :: done == Replay.Uninstall(Entry(other, t.entries[other]))
    {
      if other == id {
        assert task in tasks + [task];
      } else {
        var done :| done in tasks && done == Replay.Uninstall(Entry(other, t.entries[other]));
        assert done in tasks + [task];
      }
    }
  }

  /** Such a queue meets the conditions of the replay theorems. */
  lemma {:induction false} UninstallsGuarded(t: Tables, remote: string, tasks: seq<Replay.Task>)
    requires Consistent(t) && UninstallsRemote(t, remote, tasks)
    ensures Guarded(t, tasks)
  {
    forall task | task in tasks
      ensures Current(t, task)
    {
      IdOfIs(t, task.entry.row.key, task.entry.id);
    }
    forall i, j | 0 <= i < j < |tasks|
      ensures tasks[i].Keys() !! tasks[j].Keys()
    {
      assert tasks[i] in tasks && tasks[j] in tasks;
    }
  }

  // ----- starting a queue -----

  function Tasks(q: seq<TaskObject>): seq<Replay.Task> {
    seq(|q|, i requires 0 <= i < |q| => q[i].kind.Task())
  }

  lemma {:induction false} TasksLength(q: seq<TaskObject>)
    ensures |Tasks(q)| == |q| && Tasks(q)[|q|..] == []
  {
  }

  lemma {:induction false} TasksGrow(q: seq<TaskObject>, task: TaskObject, n: nat)
    requires n <= |q|
    ensures |Tasks(q + [task])| == |q| + 1 && |Tasks(q)| == |q|
    ensures Tasks(q + [task])[n..] == Tasks(q)[n..] + [task.kind.Task()]
  {
  }

  lemma {:induction false} TasksWithout(q: seq<TaskObject>, k: nat)
    requires k < |q|
    ensures multiset(Tasks(q)) == multiset(Tasks(q[..k] + q[k + 1..])) + multiset{q[k].kind.Task()}
  {
    var all := Tasks(q);
    assert all == all[..k] + ([all[k]] + all[k + 1..]);
    assert Tasks(q[..k] + q[k + 1..]) == all[..k] + all[k + 1..];
  }

  lemma {:induction false} SyncsWithout(q: seq<TaskObject>, k: nat)
    requires k < |q|
    ensures Syncs(q) == Syncs(q[..k] + q[k + 1..]) + if q[k].kind.Synchronize? then 1 else 0
    decreases |q|
  {
    var n := |q| - 1;
    if k == n {
      assert q[..k] + q[k + 1..] == q[..n];
    } else {
      SyncsWithout(q[..n], k);
      var rest := q[..k] + q[k + 1..];
      assert rest[..n - 1] == q[..n][..k] + q[..n][k + 1..];
      assert rest[n - 1] == q[n] && q[..n][k] == q[k];
    }
  }

  lemma {:induction false} StartNone(t: Tables)
    ensures StartAll(t, []) == [] && SpeculatedEnd(t, []) == t
  {
  }

  /** Starting one more task after an order extends what starting the order gave. */
  lemma {:induction false} StartAllAppend(t: Tables, order: seq<Replay.Task>, task: Replay.Task)
    ensures var end := SpeculatedEnd(t, order);
      && StartAll(t, order + [task])
           == StartAll(t, order)
              + (if StartTables(end, task).Some? then [Started(task, FilesToDelete(end, task))] else [])
      && SpeculatedEnd(t, order + [task]) == (if StartTables(end, task).Some? then StartTables(end, task).value else end)
    decreases |order|
  {
    if order == [] {
      assert (order + [task])[1..] == [];
    } else {
      assert (order + [task])[1..] == order[1..] + [task];
      match StartTables(t, order[0])
      case None => StartAllAppend(t, order[1..], task);
      case Some(u) => StartAllAppend(u, order[1..], task);
    }
  }

  /** A queue being started: the order so far, what is running, and what of the queue is left. */
  ghost predicate Splits(queue: seq<TaskObject>, order: seq<Replay.Task>, running: seq<TaskObject>, rest: seq<TaskObject>) {
    && Distinct(running) && Distinct(rest)
    && (forall task <- running :: task in queue && task !in rest)
    && (forall task <- rest :: task in queue)
    && |running| + |rest| <= |queue| && Syncs(running) + Syncs(rest) <= Syncs(queue)
    && multiset(Tasks(queue)) == multiset(order) + multiset(Tasks(rest))
    && Sorted(order, rest)
  }

  lemma {:induction false} SplitsStep(
    queue: seq<TaskObject>, order: seq<Replay.Task>, running: seq<TaskObject>, rest: seq<TaskObject>,
    task: TaskObject, rest': seq<TaskObject>)
    requires Splits(queue, order, running, rest) && task in rest && task !in rest' && Distinct(rest')
    requires multiset(Tasks(rest)) == multiset(Tasks(rest')) + multiset{task.kind.Task()}
    requires forall other <- rest' :: other in rest && Priority(other.kind.Task()) <= Priority(task.kind.Task())
    requires |rest| == |rest'| + 1
    requires Syncs(rest) == Syncs(rest') + if task.kind.Synchronize? then 1 else 0
    ensures Splits(queue, order + [task.kind.Task()], running, rest')
    ensures Splits(queue, order + [task.kind.Task()], running + [task], rest')
  {
    assert (running + [task])[..|running|] == running;
  }

  lemma {:induction false} SplitsBegin(queue: seq<TaskObject>)
    requires Distinct(queue)
    ensures Splits(queue, [], [], queue)
  {
  }

  lemma {:induction false} SplitsRest(
    queue: seq<TaskObject>, order: seq<Replay.Task>, running: seq<TaskObject>, rest: seq<TaskObject>)
    requires Splits(queue, order, running, rest)
    ensures Distinct(rest) && forall task <- rest :: task in queue && task !in running
  {
  }

  lemma {:induction false} SplitsEnd(queue: seq<TaskObject>, order: seq<Replay.Task>, running: seq<TaskObject>)
    requires Splits(queue, order, running, [])
    ensures PopOrder(Tasks(queue), order)
    ensures |running| <= |queue| && Syncs(running) <= Syncs(queue)
    ensures Distinct(running) && forall task <- running :: task in queue
  {
    assert Tasks([]) == [];
  }

  /** The order so far is sorted by priority, and nothing still queued has a higher one. */
  ghost predicate Sorted(order: seq<Replay.Task>, rest: seq<TaskObject>) {
    && (forall i, j :: 0 <= i < j < |order| ==> Priority(order[i]) >= Priority(order[j]))
    && (forall i, task :: 0 <= i < |order| && task in rest ==> Priority(order[i]) >= Priority(task.kind.Task()))
  }

  // ----- committing a queue -----

  /** Some files of an install, the first ones, are in place, and those that waited may be gone. */
  ghost predicate HalfMoved(before: Disk, paths: seq<string>, after: Disk) {
    exists k :: 0 <= k < |paths|
      && forall path :: path !in Temps(paths) ==> Same(MoveAll(before, paths[..k]), after, path)
  }

  /** A set of entries does not take a second one with an id it has. */
  ghost function WithGone(have: set<Entry>, gone: set<Entry>): set<Entry> {
    have + set e | e in gone && forall h <- have :: h.id != e.id
  }

  /** Every id that is gone is in the set afterwards; nothing leaves it and nothing else comes in. */
  lemma {:induction false} WithGoneMeaning(have: set<Entry>, gone: set<Entry>)
    ensures have <= WithGone(have, gone) <= have + gone
    ensures forall e <- gone :: exists h <- WithGone(have, gone) :: h.id == e.id
    ensures forall e <- gone :: (e in WithGone(have, gone) <==> e in have || forall h <- have :: h.id != e.id)
  {
    forall e | e in gone
      ensures exists h <- WithGone(have, gone) :: h.id == e.id
    {
      if h :| h in have && h.id == e.id {
        assert h in WithGone(have, gone);
      } else {
        assert e in WithGone(have, gone);
      }
    }
  }

  predicate NoSyncs(q: seq<TaskObject>) {
    forall task <- q :: !task.kind.Synchronize?
  }

  lemma {:induction false} SyncsNone()
    ensures Syncs([]) == 0
  {
  }

  lemma {:induction false} NoSyncsCount(q: seq<TaskObject>)
    ensures NoSyncs(q) <==> Syncs(q) == 0
    decreases |q|
  {
    if q != [] {
      var n := |q| - 1;
      NoSyncsCount(q[..n]);
      assert q == q[..n] + [q[n]];
    }
  }

  /** One task is committed, or throws; when all can be put in place so it is, and stays so. */
  ghost predicate Steps(q: Progress, thrown: bool, failed: bool, r: Progress) {
    && q.Even() && q.snap != []
    && CommitTables(q.t, q.snap[0].task, failed) == (if thrown then None else Some(r.t))
    && r.snap == q.snap[1..] && r.moved == q.moved[1..] && r.fails == q.fails[1..]
    && (q.ready ==>
          && failed == q.fails[0]
          && (!thrown ==> r.ready && r.disk == CommitDisk(q.disk, q.snap[0], q.moved[0], failed)))
  }

  /**
   * A queue of which the first tasks are committed: the tables are where those lead, and on a ready
   * queue what is left of its file operations leads where the whole of them does.
   */
  ghost predicate Along(q: Progress, done: seq<bool>, r: Progress) {
    var i := |done|;
    && q.Even() && i <= |q.snap|
    && r.snap == q.snap[i..] && r.moved == q.moved[i..] && r.fails == q.fails[i..]
    && CommitAll(q.t, q.snap[..i], done) == Some(r.t)
    && (q.ready ==>
          && r.ready && done == q.fails[..i]
          && CommitDisks(r.disk, r.snap, r.moved, r.fails) == CommitDisks(q.disk, q.snap, q.moved, q.fails))
  }

  lemma {:induction false} AlongBegins(q: Progress)
    requires q.Even()
    ensures Along(q, [], q)
  {
  }

  lemma {:induction false} AlongStep(q: Progress, done: seq<bool>, r: Progress, failed: bool, next: Progress)
    requires Along(q, done, r) && Steps(r, false, failed, next)
    ensures Along(q, done + [failed], next)
  {
    CommitAllAppend(q.t, q.snap, |done|, done, failed);
    assert q.snap[|done|..][0] == q.snap[|done|];
  }

  /** What committing a queue comes to, given what failed in it. */
  ghost predicate Comes(q: Progress, thrown: bool, failed: seq<bool>, now: Tables, files: Disk) {
    && q.Even() && |failed| == |q.snap|
    && CommitAll(q.t, q.snap, failed) == (if thrown then None else Some(now))
    && (q.ready ==> failed == q.fails && (!thrown ==> files == CommitDisks(q.disk, q.snap, q.moved, q.fails)))
  }

  lemma {:induction false} ComesGuarded(
    q: Progress, order: seq<Replay.Task>, thrown: bool, failed: seq<bool>, now: Tables, files: Disk)
    requires Comes(q, thrown, failed, now, files) && q.snap == StartAll(q.t, order)
    ensures Guarded(q.t, order) ==> (thrown <==> BrokenHandover(q.snap, failed))
  {
    hide StartAll, CommitAll, Guarded, BrokenHandover, CommitDisks;
    if Guarded(q.t, order) {
      GuardedConflict(q.t, order, failed);
    }
  }

  lemma {:induction false} AlongThrown(q: Progress, done: seq<bool>, r: Progress, failed: bool, next: Progress)
    requires Along(q, done, r) && Steps(r, true, failed, next)
    ensures Comes(q, true, done + [failed] + next.fails, next.t, next.disk)
  {
    var all := done + [failed] + next.fails;
    CommitAllAppend(q.t, q.snap, |done|, done, failed);
    assert all[..|done| + 1] == done + [failed];
    CommitAllStuck(q.t, q.snap, |done| + 1, all);
  }

  lemma {:induction false} AlongEnds(q: Progress, done: seq<bool>, r: Progress)
    requires Along(q, done, r) && r.snap == []
    ensures Comes(q, false, done, r.t, r.disk)
  {
    assert |done| == |q.snap|;
    assert q.snap[..|done|] == q.snap && q.fails[..|done|] == q.fails;
  }

  lemma {:induction false} SameAtFirst(disk: Disk)
    ensures forall path :: Same(disk, disk, path)
  {
  }

  lemma {:induction false} SameThrough(a: Disk, b: Disk, c: Disk, moved: seq<seq<string>>, i: nat)
    requires i < |moved|
    requires forall path :: Elsewhere(moved, path) ==> Same(a, b, path)
    requires b == c || forall path :: path !in Temps(moved[i]) ==> Same(b, c, path)
    ensures forall path :: Elsewhere(moved, path) ==> Same(a, c, path)
  {
  }

  /**
   * Why committing a queue throws: an install of it failed, and in a guarded queue one that keeps a
   * file which a later install brings.
   */
  ghost predicate Conflicted(t: Tables, order: seq<Replay.Task>, failed: seq<bool>) {
    var running := StartAll(t, order);
    && |failed| == |running| && CommitAll(t, running, failed) == None
    && InstallFailed(running, failed)
    && (Guarded(t, order) ==> BrokenHandover(running, failed))
  }

  lemma {:induction false} ThrowIsConflicted(t: Tables, order: seq<Replay.Task>, failed: seq<bool>)
    requires Consistent(t) && |failed| == |StartAll(t, order)|
    requires forall s <- StartAll(t, order) :: s.task.WellFormed()
    requires CommitAll(t, StartAll(t, order), failed) == None
    ensures InstallFailed(StartAll(t, order), failed) && Conflicted(t, order, failed)
  {
    hide StartAll, CommitAll, Guarded, BrokenHandover, Consistent;
    ConflictNeedsFailure(t, order, failed);
    if Guarded(t, order) {
      GuardedConflict(t, order, failed);
    }
  }

  lemma {:induction false} GuardedConflict(t: Tables, order: seq<Replay.Task>, failed: seq<bool>)
    requires Guarded(t, order) && |failed| == |StartAll(t, order)|
    ensures CommitAll(t, StartAll(t, order), failed).None? <==> BrokenHandover(StartAll(t, order), failed)
  {
    ReplayConflict(t, order, failed);
  }

  // ----- obsolete entries -----

  function PushedBack(queues: seq<seq<TaskObject>>, task: TaskObject): seq<seq<TaskObject>>
    requires queues != []
  {
    queues[..|queues| - 1] + [queues[|queues| - 1] + [task]]
  }

  /** The queue got one uninstall for each of the entries, and nothing else. */
  ghost predicate AddsUninstalls(before: seq<TaskObject>, entries: set<Entry>, after: seq<TaskObject>) {
    && before <= after && |after| == |before| + |entries|
    && (forall k :: |before| <= k < |after| ==>
          after[k].kind.Direct? && after[k].kind.task.Uninstall? && after[k].kind.task.entry in entries)
    && (forall e <- entries :: exists k :: |before| <= k < |after| && after[k].kind == Direct(Replay.Uninstall(e)))
  }

  /** Only the last queue changed: it got the uninstalls. */
  ghost predicate LastUninstalls(before: seq<seq<TaskObject>>, entries: set<Entry>, after: seq<seq<TaskObject>>) {
    if before == [] then after == [] && entries == {}
    else
      var n := |before| - 1;
      |after| == n + 1 && after[..n] == before[..n] && AddsUninstalls(before[n], entries, after[n])
  }

  lemma {:induction false} LastUninstallsBegin(before: seq<seq<TaskObject>>)
    ensures LastUninstalls(before, {}, before)
  {
  }

  lemma {:induction false} AddsUninstallsStep(
    before: seq<TaskObject>, entries: set<Entry>, after: seq<TaskObject>, entry: Entry, task: TaskObject)
    requires AddsUninstalls(before, entries, after) && entry !in entries
    requires task.kind == Direct(Replay.Uninstall(entry))
    ensures AddsUninstalls(before, entries + {entry}, after + [task])
  {
    var last := after + [task];
    assert last[|after|] == task;
    forall e | e in entries
      ensures exists k :: |before| <= k < |last| && last[k].kind == Direct(Replay.Uninstall(e))
    {
      var k :| |before| <= k < |after| && after[k].kind == Direct(Replay.Uninstall(e));
      assert last[k] == after[k];
    }
  }

  lemma {:induction false} LastUninstallsStep(
    before: seq<seq<TaskObject>>, entries: set<Entry>, after: seq<seq<TaskObject>>, entry: Entry, task: TaskObject)
    requires LastUninstalls(before, entries, after) && after != [] && entry !in entries
    requires task.kind == Direct(Replay.Uninstall(entry))
    ensures LastUninstalls(before, entries + {entry}, PushedBack(after, task))
  {
    AddsUninstallsStep(before[|before| - 1], entries, after[|after| - 1], entry, task);
  }

  lemma {:induction false} SyncsSame(before: seq<TaskObject>, after: seq<TaskObject>)
    requires before <= after && forall k :: |before| <= k < |after| ==> !after[k].kind.Synchronize?
    ensures Syncs(after) == Syncs(before)
    decreases |after|
  {
    if |before| < |after| {
      SyncsSame(before, after[..|after| - 1]);
    } else {
      assert after == before;
    }
  }

  /** The uninstalls weigh two each, and no synchronization is among them. */
  lemma {:induction false} LastUninstallsMeasure(
    before: seq<seq<TaskObject>>, entries: set<Entry>, after: seq<seq<TaskObject>>)
    requires LastUninstalls(before, entries, after)
    ensures QueuesWeight(after) == QueuesWeight(before) + 2 * |entries| && QueuesSyncs(after) == QueuesSyncs(before)
  {
    if before != [] {
      var n := |before| - 1;
      assert before == before[..n] + [before[n]] && after == before[..n] + [after[n]];
      QueuesBack(before[..n], before[n]);
      QueuesBack(before[..n], after[n]);
      SyncsSame(before[n], after[n]);
    }
  }

  // ----- downloads -----

  function Texts(ver: Version): seq<string> {
    seq(|ver.files|, i requires 0 <= i < |ver.files| => ver.files[i].Text())
  }

  lemma {:induction false} TextsMeaning(ver: Version, moved: seq<string>)
    requires ver.WellFormed() && multiset(moved) == multiset(Texts(ver))
    ensures forall p :: p in moved <==> p in ver.Texts()
    ensures forall p :: p in Texts(ver) <==> p in ver.Texts()
    ensures Distinct(moved)
  {
    var texts := Texts(ver);
    TextsDistinct(ver);
    forall p
      ensures p in texts <==> p in ver.Texts()
      ensures p in moved <==> p in multiset(texts)
    {
      assert p in moved <==> p in multiset(moved);
      if p in ver.Texts() {
        var i :| 0 <= i < |ver.files| && ver.files[i].Text() == p;
        assert texts[i] == p;
      }
    }
    forall a, b | 0 <= a < b < |moved|
      ensures moved[a] != moved[b]
    {
      if moved[a] == moved[b] {
        AtLeastTwice(moved, a, b);
        OnceIn(texts, moved[a]);
      }
    }
  }

  /** The jobs of a task are over: its downloads wait, unless it failed. */
  ghost predicate Arrived(task: TaskObject, disk: Disk)
    reads task
  {
    task.kind.Task().Install? && !task.fail ==>
      && multiset(task.newFiles) == multiset(Texts(task.kind.Task().ver))
      && forall path <- Texts(task.kind.Task().ver) :: Temp(path) in disk
  }

  ghost function TempsFor(task: Replay.Task): set<string> {
    if task.Install? then Temps(Texts(task.ver)) else {}
  }

  /** What the handlers of its jobs' events have left in a task, when the pool ends in `s`. */
  ghost predicate Took(task: TaskObject, failedBefore: bool, s: Pool.State, t: nat)
    reads task
  {
    task.kind.Task().Install? ==>
      && t in s.tasks && (forall j <- s.tasks[t].newFiles :: j in s.jobs)
      && task.fail == (failedBefore || s.tasks[t].fail)
      && task.newFiles == Pool.PathsOf(s, s.tasks[t].newFiles)
  }

  /** A job that succeeded has saved its file; another one may have. */
  method SaveFiles(texts: seq<string>, succeeded: seq<bool>, fs: FileSystem)
    requires |succeeded| == |texts|
    modifies fs
    ensures old(fs.files).Keys <= fs.files.Keys
    ensures forall path :: path !in Temps(texts) ==> Same(old(fs.files), fs.files, path)
    ensures forall k :: 0 <= k < |texts| && succeeded[k] ==> Temp(texts[k]) in fs.files
  {
    for i := 0 to |texts|
      invariant old(fs.files).Keys <= fs.files.Keys
      invariant forall path :: path !in Temps(texts) ==> Same(old(fs.files), fs.files, path)
      invariant forall k :: 0 <= k < i && succeeded[k] ==> Temp(texts[k]) in fs.files
      modifies fs
    {
      ghost var before := fs.files;
      var left: bool := *;
      if succeeded[i] || left {
        fs.Save(texts[i]);
        forall path | path !in Temps(texts)
          ensures Same(before, fs.files, path)
        {
          assert Temp(texts[i]) in Temps(texts);
        }
      }
    }
  }

  function Succeeded(s: Pool.State, jobs: seq<Pool.JobId>): seq<bool>
    requires forall j <- jobs :: j in s.jobs
  {
    seq(|jobs|, i requires 0 <= i < |jobs| => s.jobs[jobs[i]].outcome.Success?)
  }

  /** The jobs of an install are over. */
  method SettleInstall(task: TaskObject, ver: Version, s: Pool.State, t: nat, fs: FileSystem)
    requires task.kind.Task().Install? && task.kind.Task().ver == ver
    requires Downloads.JobsFor(s, t, Texts(ver)) && Pool.Settled(s, t)
    modifies fs, task`newFiles, task`fail
    ensures Took(task, old(task.fail), s, t)
    ensures old(fs.files).Keys <= fs.files.Keys && Arrived(task, fs.files)
    ensures forall path :: path !in Temps(Texts(ver)) ==> Same(old(fs.files), fs.files, path)
  {
    hide Texts, Temps, Same;
    Downloads.JobsForPaths(s, t, Texts(ver));
    SaveFiles(Texts(ver), Succeeded(s, s.tasks[t].jobs), fs);
    task.newFiles := Pool.PathsOf(s, s.tasks[t].newFiles);
    task.fail := task.fail || s.tasks[t].fail;
    if !task.fail {
      AllSaved(s, t, Texts(ver), fs.files);
    }
  }

  lemma {:induction false} AllSaved(s: Pool.State, t: nat, texts: seq<string>, disk: Disk)
    requires Downloads.JobsFor(s, t, texts) && Pool.Settled(s, t) && !s.tasks[t].fail
    requires forall j <- s.tasks[t].jobs :: j in s.jobs
    requires forall k :: 0 <= k < |texts| && Succeeded(s, s.tasks[t].jobs)[k] ==> Temp(texts[k]) in disk
    ensures forall path <- texts :: Temp(path) in disk
  {
    var jobs := s.tasks[t].jobs;
    forall k | 0 <= k < |texts|
      ensures Temp(texts[k]) in disk
    {
      assert jobs[k] in jobs && Succeeded(s, jobs)[k];
    }
  }

  method SettleTask(task: TaskObject, s: Pool.State, t: nat, fs: FileSystem)
    requires Downloads.JobsFor(s, t, ToFetch(task.kind)) && Pool.Settled(s, t)
    modifies fs, task`newFiles, task`fail
    ensures Took(task, old(task.fail), s, t)
    ensures old(fs.files).Keys <= fs.files.Keys && Arrived(task, fs.files)
    ensures forall path :: path !in TempsFor(task.kind.Task()) ==> Same(old(fs.files), fs.files, path)
  {
    if task.kind.Direct? && task.kind.task.Install? {
      SettleInstall(task, task.kind.task.ver, s, t, fs);
    }
  }

  /** The files a task fetches before it is committed. */
  function ToFetch(kind: Kind): seq<string> {
    if kind.Task().Install? then Texts(kind.Task().ver) else []
  }

  function AllToFetch(tasks: seq<TaskObject>): seq<seq<string>> {
    seq(|tasks|, i requires 0 <= i < |tasks| => ToFetch(tasks[i].kind))
  }

  lemma {:induction false} TempsForTemp(snap: seq<Started>, i: nat, kind: Kind)
    requires i < |snap| && kind.WellFormed() && snap[i].task == kind.Task()
    ensures forall path <- TempsFor(snap[i].task) :: IsTemp(snap, path)
  {
    if snap[i].task.Install? {
      var ver := snap[i].task.ver;
      TextsMeaning(ver, Texts(ver));
      assert snap[i] in snap;
    }
  }

  lemma {:induction false} AllArrived(tasks: seq<TaskObject>, disk: Disk)
    requires forall i :: 0 <= i < |tasks| ==> tasks[i].kind.WellFormed() && Arrived(tasks[i], disk)
    ensures Fetched(Snapshot(tasks), Moved(tasks), Fails(tasks))
    ensures DiskAgreement.Waiting(disk, Snapshot(tasks), Fails(tasks))
  {
    hide Texts;
    forall i | 0 <= i < |tasks| && tasks[i].kind.Task().Install? && !tasks[i].fail
      ensures forall p :: p in tasks[i].newFiles <==> p in tasks[i].kind.Task().ver.Texts()
      ensures Distinct(tasks[i].newFiles)
      ensures forall p <- tasks[i].kind.Task().ver.Texts() :: Temp(p) in disk
    {
      TextsMeaning(tasks[i].kind.Task().ver, tasks[i].newFiles);
    }
  }

  /** The pool works off the jobs of the installs, whatever its six workers do; the user may cancel. */
  method SettleTasks(tasks: seq<TaskObject>, fs: FileSystem)
    returns (cancelled: bool, ghost pool: Workers.Machine, ghost turns: seq<Workers.Turn>)
    requires Distinct(tasks) && forall task <- tasks :: task.kind.WellFormed()
    modifies fs, set task | task in tasks
    ensures Snapshot(tasks) == old(Snapshot(tasks))
    ensures Downloads.Reached(|tasks|, turns, pool) && pool.s.running == {} && (cancelled <==> pool.s.cancelled)
    ensures forall i :: 0 <= i < |tasks| ==> Took(tasks[i], old(Fails(tasks))[i], pool.s, i)
    ensures forall i :: 0 <= i < |tasks| ==> Arrived(tasks[i], fs.files)
    ensures forall path :: !IsTemp(Snapshot(tasks), path) ==> Same(old(fs.files), fs.files, path)
  {
    hide Kind.Task;
    hide Kind.WellFormed, IsTemp, TempsFor, Texts, Arrived, Same, Took, ToFetch, Downloads.JobsFor, Pool.Settled, Downloads.Reached;
    ghost var snap, fails := Snapshot(tasks), Fails(tasks);
    var m;
    m, cancelled, turns := Downloads.RunJobs(AllToFetch(tasks));
    pool := m;
    SameAtFirst(fs.files);
    for i := 0 to |tasks|
      invariant Snapshot(tasks) == snap
      invariant forall k :: 0 <= k < i ==> Took(tasks[k], fails[k], m.s, k)
      invariant forall k :: i <= k < |tasks| ==> tasks[k].fail == fails[k]
      invariant forall k :: 0 <= k < i ==> Arrived(tasks[k], fs.files)
      invariant forall path :: !IsTemp(snap, path) ==> Same(old(fs.files), fs.files, path)
      modifies fs, set task | task in tasks
    {
      ghost var before := fs.files;
      TempsForTemp(snap, i, tasks[i].kind);
      assert AllToFetch(tasks)[i] == ToFetch(tasks[i].kind);
      SettleTask(tasks[i], m.s, i, fs);
      ArrivedStill(tasks, i, before, fs.files);
      SameButTemps(old(fs.files), before, fs.files, snap, i);
    }
  }

  lemma {:induction false} ArrivedStill(tasks: seq<TaskObject>, n: nat, a: Disk, b: Disk)
    requires n <= |tasks| && a.Keys <= b.Keys
    requires forall k :: 0 <= k < n ==> Arrived(tasks[k], a)
    ensures forall k :: 0 <= k < n ==> Arrived(tasks[k], b)
  {
  }

  lemma {:induction false} SameButTemps(a: Disk, b: Disk, c: Disk, snap: seq<Started>, i: nat)
    requires i < |snap| && forall path <- TempsFor(snap[i].task) :: IsTemp(snap, path)
    requires forall path :: !IsTemp(snap, path) ==> Same(a, b, path)
    requires forall path :: path !in TempsFor(snap[i].task) ==> Same(b, c, path)
    ensures forall path :: !IsTemp(snap, path) ==> Same(a, c, path)
  {
  }
}
