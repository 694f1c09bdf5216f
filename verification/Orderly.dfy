/**
 * Runs whose tasks are about different packages (src/transaction.cpp, src/synchronize.cpp): every queue
 * of such a run, those that synchronizations bring included, meets the guards of the replay theorems.
 */
module OrderlyTasks {
  import opened Basics
  import opened RegistryTables
  import opened RegistryObject
  import opened Replay
  import opened Arbitration
  import opened Synchronization
  import opened SeveralRepositories
  import opened TransactionTasks

  // ----- tasks about different packages -----

  /** The repository whose packages a synchronization may enqueue or find obsolete. */
  function Repository(kind: Kind): Option<Index> {
    if kind.Synchronize? && kind.full then kind.index else None
  }

  /** The packages a task is about, those that its index may bring among them. */
  ghost predicate Touches(kind: Kind, key: Key) {
    key in kind.Task().Keys() || (Repository(kind).Some? && key.remote == Repository(kind).value.name)
  }

  ghost predicate Unrelated(a: Kind, b: Kind) {
    forall key :: !Touches(a, key) || !Touches(b, key)
  }

  ghost predicate AllUnrelated(kinds: seq<Kind>) {
    forall i, j :: 0 <= i < j < |kinds| ==> Unrelated(kinds[i], kinds[j])
  }

  /** It holds the entry registered for its package, and its index is proper. */
  ghost predicate Fits(t: Tables, kind: Kind) {
    && kind.WellFormed() && Current(t, kind.Task())
    && (Repository(kind).Some? ==> Proper(Received(Repository(kind).value, kind.opts)))
  }

  ghost predicate Spares(kinds: seq<Kind>, entry: Entry) {
    forall kind <- kinds :: !Touches(kind, entry.row.key)
  }

  /** Tasks about different packages, and entries that may yet be uninstalled, of other packages again. */
  ghost predicate Orderly(t: Tables, kinds: seq<Kind>, gone: set<Entry>) {
    && Consistent(t) && (forall kind <- kinds :: Fits(t, kind)) && AllUnrelated(kinds)
    && (forall e <- gone :: Current(t, Uninstall(e)) && Spares(kinds, e))
    && (forall e <- gone, f <- gone :: e.row.key == f.row.key ==> e == f)
  }

  lemma {:induction false} UnrelatedTo(a: seq<Kind>, kinds: seq<Kind>, b: seq<Kind>)
    requires AllUnrelated(a + kinds + b)
    ensures AllUnrelated(a) && AllUnrelated(kinds) && AllUnrelated(b) && AllUnrelated(a + b)
    ensures forall x <- kinds, y <- a + b :: Unrelated(x, y)
  {
    var all := a + kinds + b;
    assert forall i :: 0 <= i < |a| ==> all[i] == a[i];
    assert forall i :: 0 <= i < |kinds| ==> all[|a| + i] == kinds[i];
    assert forall i :: 0 <= i < |b| ==> all[|a| + |kinds| + i] == b[i];
    assert forall i :: 0 <= i < |a + b| ==> (a + b)[i] == all[if i < |a| then i else i + |kinds|];
  }

  lemma {:induction false} UnrelatedWith(a: seq<Kind>, kinds: seq<Kind>, b: seq<Kind>)
    requires AllUnrelated(a + b) && AllUnrelated(kinds)
    requires forall x <- kinds, y <- a + b :: Unrelated(x, y)
    ensures AllUnrelated(a + kinds + b)
  {
    var all := a + kinds + b;
    forall i, j | 0 <= i < j < |all|
      ensures Unrelated(all[i], all[j])
    {
      if |a| <= i < |a| + |kinds| {
        assert all[i] in kinds && (|a| + |kinds| <= j ==> all[j] == (a + b)[j - |kinds|]);
      } else if |a| <= j < |a| + |kinds| {
        assert all[i] == (a + b)[i] && all[j] in kinds;
        assert Unrelated(all[j], all[i]);
      } else {
        var k, l := if i < |a| then i else i - |kinds|, if j < |a| then j else j - |kinds|;
        assert all[i] == (a + b)[k] && all[j] == (a + b)[l];
      }
    }
  }

  /** Tasks may go... */
  lemma {:induction false} OrderlyWithout(t: Tables, a: seq<Kind>, kinds: seq<Kind>, b: seq<Kind>, gone: set<Entry>)
    requires Orderly(t, a + kinds + b, gone)
    ensures Orderly(t, a + b, gone) && forall x <- kinds, y <- a + b :: Unrelated(x, y)
  {
    hide Unrelated, Fits, Touches, Consistent, Current, AllUnrelated;
    UnrelatedTo(a, kinds, b);
    assert forall kind <- a + b :: kind in a + kinds + b;
  }

  /** ...and come, when they are about other packages. */
  lemma {:induction false} OrderlyWith(t: Tables, a: seq<Kind>, kinds: seq<Kind>, b: seq<Kind>, gone: set<Entry>)
    requires Orderly(t, a + b, gone) && (forall kind <- kinds :: Fits(t, kind)) && AllUnrelated(kinds)
    requires forall x <- kinds, y <- a + b :: Unrelated(x, y)
    requires forall e <- gone :: Spares(kinds, e)
    ensures Orderly(t, a + kinds + b, gone)
  {
    hide Unrelated, Fits, Touches, Consistent, Current, AllUnrelated;
    UnrelatedWith(a, kinds, b);
    forall kind | kind in a + kinds + b
      ensures kind in kinds || kind in a + b
    {
    }
  }

  // ----- the queue that starts -----

  function Kinds(q: seq<TaskObject>): seq<Kind> {
    seq(|q|, i requires 0 <= i < |q| => q[i].kind)
  }

  lemma {:induction false} KindsJoin(a: seq<TaskObject>, b: seq<TaskObject>)
    ensures Kinds(a + b) == Kinds(a) + Kinds(b)
  {
  }

  lemma {:induction false} KindsIn(q: seq<TaskObject>, kind: Kind)
    requires kind in Kinds(q)
    ensures exists task <- q :: task.kind == kind
  {
    var i :| 0 <= i < |q| && q[i].kind == kind;
    assert q[i] in q;
  }

  /** What of a queue runs is no more entangled than the queue. */
  lemma {:induction false} RunningUnrelated(queue: seq<TaskObject>, running: seq<TaskObject>)
    requires Distinct(running) && (forall task <- running :: task in queue) && AllUnrelated(Kinds(queue))
    ensures AllUnrelated(Kinds(running))
  {
    forall i, j | 0 <= i < j < |running|
      ensures Unrelated(running[i].kind, running[j].kind)
    {
      assert running[i] in queue && running[j] in queue;
      var k :| 0 <= k < |queue| && queue[k] == running[i];
      var l :| 0 <= l < |queue| && queue[l] == running[j];
      assert Kinds(queue)[k] == running[i].kind && Kinds(queue)[l] == running[j].kind;
    }
  }

  lemma {:induction false} OrderlyStart(
    t: Tables, queue: seq<TaskObject>, running: seq<TaskObject>, rest: seq<Kind>, gone: set<Entry>)
    requires Orderly(t, Kinds(queue) + rest, gone)
    requires Distinct(running) && (forall task <- running :: task in queue)
    ensures Orderly(t, Kinds(running) + rest, gone)
  {
    hide Unrelated, Fits, Touches, Consistent, Current, AllUnrelated, Distinct;
    var all := [] + Kinds(queue) + rest;
    assert all == Kinds(queue) + rest;
    UnrelatedTo([], Kinds(queue), rest);
    OrderlyWithout(t, [], Kinds(queue), rest, gone);
    RunningUnrelated(queue, running);
    forall kind | kind in Kinds(running)
      ensures kind in Kinds(queue) && kind in all
    {
      KindsIn(running, kind);
      var task :| task in running && task.kind == kind;
      var k :| 0 <= k < |queue| && queue[k] == task;
      assert Kinds(queue)[k] == kind;
    }
    OrderlyWith(t, [], Kinds(running), rest, gone);
    assert [] + Kinds(running) + rest == Kinds(running) + rest;
  }

  lemma {:induction false} TasksGuarded(t: Tables, queue: seq<TaskObject>, rest: seq<Kind>, gone: set<Entry>)
    requires Orderly(t, Kinds(queue) + rest, gone)
    ensures Guarded(t, Tasks(queue))
  {
    var all, tasks := Kinds(queue) + rest, Tasks(queue);
    forall i | 0 <= i < |queue|
      ensures all[i] == queue[i].kind && Fits(t, all[i])
    {
      assert all[i] in all;
    }
    forall i, j | 0 <= i < j < |queue|
      ensures tasks[i].Keys() !! tasks[j].Keys()
    {
      assert Unrelated(all[i], all[j]);
      forall key | key in tasks[i].Keys()
        ensures key !in tasks[j].Keys()
      {
        assert Touches(all[i], key);
      }
    }
  }

  /** A task about some package is in such a queue once. */
  lemma {:induction false} KeyedOnce(tasks: seq<Replay.Task>, task: Replay.Task)
    requires DistinctKeys(tasks) && task.Keys() != {}
    ensures multiset(tasks)[task] <= 1
    decreases |tasks|
  {
    if tasks != [] {
      var n := |tasks| - 1;
      assert tasks == tasks[..n] + [tasks[n]];
      KeyedOnce(tasks[..n], task);
      if tasks[n] == task {
        forall i | 0 <= i < n
          ensures tasks[i] != task
        {
          assert tasks[i].Keys() !! tasks[n].Keys();
        }
        assert task !in tasks[..n];
      }
    }
  }

  lemma {:induction false} GuardedInAnyOrder(t: Tables, queue: seq<Replay.Task>, order: seq<Replay.Task>)
    requires Guarded(t, queue) && multiset(queue) == multiset(order)
    ensures Guarded(t, order)
  {
    forall task | task in order
      ensures task in queue
    {
      assert task in multiset(order);
    }
    forall i, j | 0 <= i < j < |order|
      ensures order[i].Keys() !! order[j].Keys()
    {
      assert order[i] in order && order[j] in order;
      if order[i] == order[j] {
        AtLeastTwice(order, i, j);
        if order[i].Keys() != {} {
          KeyedOnce(queue, order[i]);
        }
      } else {
        var k :| 0 <= k < |queue| && queue[k] == order[i];
        var l :| 0 <= l < |queue| && queue[l] == order[j];
        assert k < l || l < k;
      }
    }
  }

  // ----- a task is committed -----

  lemma {:induction false} FitsKept(t: Tables, task: Replay.Task, failed: bool, u: Tables, kind: Kind)
    requires Consistent(t) && task.WellFormed() && Current(t, task) && CommitTables(t, task, failed) == Some(u)
    requires Fits(t, kind) && forall key <- task.Keys() :: !Touches(kind, key)
    ensures Fits(u, kind)
  {
    CommitOnlyChanges(t, task, failed);
    CurrentKept(t, u, task.Keys(), kind.Task());
  }

  /** Committing a task leaves the others orderly, whether it failed or not. */
  lemma {:induction false} OrderlyCommit(
    t: Tables, kind: Kind, failed: bool, u: Tables, rest: seq<Kind>, gone: set<Entry>)
    requires Orderly(t, [kind] + rest, gone) && CommitTables(t, kind.Task(), failed) == Some(u)
    ensures Orderly(u, rest, gone)
  {
    hide Consistent;
    var all := [kind] + rest;
    assert all == [] + [kind] + rest && all[0] == kind && kind in all;
    OrderlyWithout(t, [], [kind], rest, gone);
    assert [] + rest == rest;
    CommitOnlyChanges(t, kind.Task(), failed);
    forall other | other in rest
      ensures Fits(u, other)
    {
      assert Unrelated(kind, other);
      forall key | key in kind.Task().Keys()
        ensures !Touches(other, key)
      {
        assert Touches(kind, key);
      }
      FitsKept(t, kind.Task(), failed, u, other);
    }
    forall e | e in gone
      ensures Current(u, Uninstall(e))
    {
      assert !Touches(kind, e.row.key);
      CurrentKept(t, u, kind.Task().Keys(), Uninstall(e));
    }
  }

  // ----- a synchronization enqueues -----

  function Directs(tasks: seq<Replay.Task>): seq<Kind> {
    seq(|tasks|, i requires 0 <= i < |tasks| => Direct(tasks[i]))
  }

  /** The updates of an index, as tasks that fit and are about different packages of it. */
  lemma {:induction false} UpdatesFit(t: Tables, r: Received, present: set<string>)
    requires Consistent(t) && Proper(r)
    ensures var added := Directs(Updates(t, Items(r.index), r.opts, present));
      && AllUnrelated(added)
      && forall kind <- added :: Fits(t, kind)
          && forall key :: Touches(kind, key) ==> key.remote == r.index.name && Listed(r.index, key)
  {
    hide Consistent, Current, Listed, UpdateFor;
    var tasks := Updates(t, Items(r.index), r.opts, present);
    UpdatesDistinct(t, Items(r.index), r.opts, present);
    forall i | 0 <= i < |tasks|
      ensures UpdateOf(t, r.index, tasks[i])
    {
      UpdatesAreOf(t, r, present, tasks[i]);
    }
    forall i, j | 0 <= i < j < |tasks|
      ensures Unrelated(Direct(tasks[i]), Direct(tasks[j]))
    {
      assert tasks[i].Keys() !! tasks[j].Keys();
    }
  }

  /** Obsolete entries of the repository just synchronized are registered, unlisted and of one id each. */
  lemma {:induction false} GoneFits(t: Tables, r: Received, e: Entry)
    requires Consistent(t) && Proper(r) && e in Gone(t, r.index)
    ensures Current(t, Uninstall(e)) && e.row.key.remote == r.index.name && !Listed(r.index, e.row.key)
    ensures e.id in t.entries && t.entries[e.id] == e.row && IdOf(t, e.row.key) == e.id
  {
    GoneIs(t, r.index, e);
  }

  lemma {:induction false} GoneUntouched(kind: Kind, rest: seq<Kind>, index: Index, e: Entry)
    requires (forall other <- rest :: Unrelated(kind, other)) && Repository(kind) == Some(index)
    requires e.row.key.remote == index.name
    ensures Spares(rest, e)
  {
    forall other | other in rest
      ensures !Touches(other, e.row.key)
    {
      assert Unrelated(kind, other) && Touches(kind, e.row.key);
    }
  }

  lemma {:induction false} OrderlyUpdates(
    t: Tables, kind: Kind, rest: seq<Kind>, gone: set<Entry>, present: set<string>)
    requires Orderly(t, [kind] + rest, gone) && Repository(kind).Some?
    ensures Orderly(t, rest + Directs(Updates(t, Items(Repository(kind).value), kind.opts, present)), gone)
  {
    hide Consistent, Current, Fits, Proper;
    var index := Repository(kind).value;
    var r := Received(index, kind.opts);
    var all, added := [kind] + rest, Directs(Updates(t, Items(index), kind.opts, present));
    assert all == [] + [kind] + rest && all[0] == kind && kind in all;
    FitsProper(t, kind);
    OrderlyWithout(t, [], [kind], rest, gone);
    assert [] + rest == rest && rest + [] == rest;
    UpdatesFit(t, r, present);
    forall x, y | x in added && y in rest
      ensures Unrelated(x, y)
    {
      forall key | Touches(x, key)
        ensures !Touches(y, key)
      {
        assert Unrelated(kind, y) && Touches(kind, key);
      }
    }
    forall e | e in gone
      ensures Spares(added, e)
    {
      assert !Touches(kind, e.row.key);
    }
    OrderlyWith(t, rest, added, [], gone);
    assert rest + added + [] == rest + added;
  }

  lemma {:induction false} FitsProper(t: Tables, kind: Kind)
    requires Fits(t, kind) && Repository(kind).Some?
    ensures Proper(Received(Repository(kind).value, kind.opts))
  {
  }

  /** Its obsolete entries come on top. */
  lemma {:induction false} OrderlyGone(
    t: Tables, kind: Kind, rest: seq<Kind>, added: seq<Kind>, gone: set<Entry>)
    requires Orderly(t, [kind] + rest, gone) && Repository(kind).Some? && Orderly(t, rest + added, gone)
    requires forall k <- added, key :: Touches(k, key) ==> Listed(Repository(kind).value, key)
    ensures Orderly(t, rest + added, WithGone(gone, Gone(t, Repository(kind).value)))
  {
    hide Consistent, Current, Fits, Proper, Gone, Listed;
    var index := Repository(kind).value;
    var r, both := Received(index, kind.opts), WithGone(gone, Gone(t, index));
    var all := [kind] + rest;
    assert all == [] + [kind] + rest && all[0] == kind && kind in all;
    FitsProper(t, kind);
    OrderlyWithout(t, [], [kind], rest, gone);
    assert [] + rest == rest;
    forall e | e in both && e !in gone
      ensures e in Gone(t, index) && Current(t, Uninstall(e)) && Spares(rest + added, e)
      ensures e.row.key.remote == index.name && e.id in t.entries && t.entries[e.id] == e.row && IdOf(t, e.row.key) == e.id
    {
      GoneFits(t, r, e);
      GoneUntouched(kind, rest, index, e);
    }
    forall e | e in gone
      ensures e.row.key.remote != index.name
    {
      assert !Touches(kind, e.row.key);
    }
  }

  // ----- an obsolete entry is uninstalled -----

  lemma {:induction false} OrderlyUninstall(t: Tables, a: seq<Kind>, b: seq<Kind>, gone: set<Entry>, e: Entry)
    requires Orderly(t, a + b, gone) && e in gone
    ensures Orderly(t, a + [Direct(Uninstall(e))] + b, gone - {e})
  {
    hide Consistent, Current;
    var kind := Direct(Uninstall(e));
    assert forall key :: Touches(kind, key) <==> key == e.row.key;
    forall x, y | x in [kind] && y in a + b
      ensures Unrelated(x, y)
    {
      assert !Touches(y, e.row.key);
    }
    OrderlyWith(t, a, [kind], b, gone - {e});
  }

  // ----- the steps of a run -----

  /** All tasks that run or wait, in the order in which they will be started and committed. */
  function AllKinds(running: seq<TaskObject>, queues: seq<seq<TaskObject>>, next: seq<TaskObject>): seq<Kind> {
    Kinds(running) + (Kinds(Flat(queues)) + Kinds(next))
  }

  ghost predicate AllGuarded(states: seq<Tables>, batches: seq<Batch>, order: seq<Replay.Task>) {
    && |states| == |batches| + 1 && Guarded(states[|batches|], order)
    && forall k :: 0 <= k < |batches| ==> Guarded(states[k], batches[k].order)
  }

  lemma {:induction false} NoneGuarded(t: Tables)
    requires Consistent(t)
    ensures Guarded(t, [])
  {
  }

  /** A guarded queue is committed. */
  lemma {:induction false} AllGuardedOn(states: seq<Tables>, batches: seq<Batch>, b: Batch, u: Tables)
    requires AllGuarded(states, batches, b.order) && Consistent(u)
    ensures AllGuarded(states + [u], batches + [b], [])
  {
    hide Guarded, Consistent;
    NoneGuarded(u);
    forall k | 0 <= k <= |batches|
      ensures Guarded((states + [u])[k], (batches + [b])[k].order)
    {
      assert (states + [u])[k] == states[k];
    }
  }

  /** Another queue starts. */
  lemma {:induction false} AllGuardedStart(
    states: seq<Tables>, batches: seq<Batch>, last: seq<Replay.Task>, order: seq<Replay.Task>)
    requires AllGuarded(states, batches, last) && Guarded(states[|states| - 1], order)
    ensures AllGuarded(states, batches, order)
  {
  }

  lemma {:induction false} FrontKinds(queues: seq<seq<TaskObject>>, next: seq<TaskObject>)
    requires queues != []
    ensures AllKinds([], queues, next) == Kinds(queues[0]) + (Kinds(Flat(queues[1..])) + Kinds(next))
  {
    FlatFront(queues);
    KindsJoin(queues[0], Flat(queues[1..]));
  }

  lemma {:induction false} PoppedGuarded(t: Tables, queue: seq<Replay.Task>, order: seq<Replay.Task>)
    requires Guarded(t, queue) && PopOrder(queue, order)
    ensures Guarded(t, order)
  {
    GuardedInAnyOrder(t, queue, order);
  }

  lemma {:induction false} StartInOrder(
    t: Tables, queues: seq<seq<TaskObject>>, next: seq<TaskObject>, running: seq<TaskObject>,
    order: seq<Replay.Task>, gone: set<Entry>)
    requires queues != [] && Orderly(t, AllKinds([], queues, next), gone)
    requires PopOrder(Tasks(queues[0]), order)
    requires Distinct(running) && forall task <- running :: task in queues[0]
    ensures Orderly(t, AllKinds(running, queues[1..], next), gone) && Guarded(t, order)
  {
    hide Orderly, Distinct, PopOrder, Guarded, Flat;
    var rest := Kinds(Flat(queues[1..])) + Kinds(next);
    FrontKinds(queues, next);
    OrderlyStart(t, queues[0], running, rest, gone);
    TasksGuarded(t, queues[0], rest, gone);
    PoppedGuarded(t, Tasks(queues[0]), order);
  }

  /** What a commit adds: nothing, or the updates of an index and its obsolete entries. */
  ghost predicate Adds(
    t: Tables, present: set<string>, kind: Kind, before: seq<TaskObject>, next: seq<TaskObject>,
    gone: set<Entry>, more: set<Entry>)
  {
    match Repository(kind)
    case None => next == before && more == gone
    case Some(index) =>
      && before <= next
      && Tasks(next) == Tasks(before) + Updates(t, Items(index), kind.opts, present)
      && (more == gone || more == WithGone(gone, Gone(t, index)))
  }

  lemma {:induction false} AddedKinds(before: seq<TaskObject>, next: seq<TaskObject>, updates: seq<Replay.Task>)
    requires before <= next && Tasks(next) == Tasks(before) + updates && forall task <- updates :: task.Install?
    ensures Kinds(next) == Kinds(before) + Directs(updates)
  {
    forall i | 0 <= i < |next|
      ensures Kinds(next)[i] == (Kinds(before) + Directs(updates))[i]
    {
      if i < |before| {
        assert next[i] == before[i];
      } else {
        assert Tasks(next)[i] == updates[i - |before|] && updates[i - |before|] in updates;
      }
    }
  }

  lemma {:induction false} OrderlyNext(
    t: Tables, kind: Kind, failed: bool, u: Tables, rest: seq<Kind>, before: seq<TaskObject>, next: seq<TaskObject>,
    gone: set<Entry>, more: set<Entry>, present: set<string>)
    requires Orderly(t, [kind] + (rest + Kinds(before)), gone) && CommitTables(t, kind.Task(), failed) == Some(u)
    requires Adds(t, present, kind, before, next, gone, more)
    ensures Orderly(u, rest + Kinds(next), more)
  {
    hide Orderly, Gone, WithGone;
    if Repository(kind).None? {
      OrderlyCommit(t, kind, failed, u, rest + Kinds(before), gone);
    } else {
      var index := Repository(kind).value;
      var updates := Updates(t, Items(index), kind.opts, present);
      SynchronizedKinds(t, kind, rest + Kinds(before), gone, present);
      AddedKinds(before, next, updates);
      OrderlyUpdates(t, kind, rest + Kinds(before), gone, present);
      assert rest + Kinds(before) + Directs(updates) == rest + Kinds(next);
      if more != gone {
        OrderlyGone(t, kind, rest + Kinds(before), Directs(updates), gone);
      }
    }
  }

  lemma {:induction false} SynchronizedKinds(
    t: Tables, kind: Kind, rest: seq<Kind>, gone: set<Entry>, present: set<string>)
    requires Orderly(t, [kind] + rest, gone) && Repository(kind).Some?
    ensures var updates := Updates(t, Items(Repository(kind).value), kind.opts, present);
      && (forall task <- updates :: task.Install?)
      && (forall k <- Directs(updates), key :: Touches(k, key) ==> Listed(Repository(kind).value, key))
  {
    var r := Received(Repository(kind).value, kind.opts);
    assert kind in [kind] + rest;
    FitsProper(t, kind);
    UpdatesFit(t, r, present);
    var updates := Updates(t, Items(r.index), r.opts, present);
    forall task | task in updates
      ensures task.Install?
    {
      UpdatesAreOf(t, r, present, task);
    }
  }

  /** The first running task is committed. */
  lemma {:induction false} NextInOrder(
    t: Tables, running: seq<TaskObject>, queues: seq<seq<TaskObject>>, before: seq<TaskObject>, next: seq<TaskObject>,
    failed: bool, u: Tables, gone: set<Entry>, more: set<Entry>, present: set<string>)
    requires running != [] && Orderly(t, AllKinds(running, queues, before), gone)
    requires CommitTables(t, running[0].kind.Task(), failed) == Some(u)
    requires Adds(t, present, running[0].kind, before, next, gone, more)
    ensures Orderly(u, AllKinds(running[1..], queues, next), more)
  {
    hide Orderly, Adds;
    var kind, rest := running[0].kind, Kinds(running[1..]) + Kinds(Flat(queues));
    assert Kinds(running) == [kind] + Kinds(running[1..]);
    assert AllKinds(running, queues, before) == [kind] + (rest + Kinds(before));
    OrderlyNext(t, kind, failed, u, rest, before, next, gone, more, present);
    assert rest + Kinds(next) == AllKinds(running[1..], queues, next);
  }

  /** The running tasks are given up. */
  lemma {:induction false} NoneInOrder(
    t: Tables, running: seq<TaskObject>, queues: seq<seq<TaskObject>>, next: seq<TaskObject>, gone: set<Entry>)
    requires Orderly(t, AllKinds(running, queues, next), gone)
    ensures Orderly(t, AllKinds([], queues, next), gone)
  {
    hide Orderly;
    var rest := Kinds(Flat(queues)) + Kinds(next);
    assert AllKinds(running, queues, next) == [] + Kinds(running) + rest;
    OrderlyWithout(t, [], Kinds(running), rest, gone);
    assert AllKinds([], queues, next) == [] + rest;
  }

  lemma {:induction false} BackKinds(
    running: seq<TaskObject>, queues: seq<seq<TaskObject>>, next: seq<TaskObject>, task: TaskObject)
    requires queues != []
    ensures var a := Kinds(running) + Kinds(Flat(queues));
      && AllKinds(running, queues, next) == a + Kinds(next)
      && AllKinds(running, PushedBack(queues, task), next) == a + [task.kind] + Kinds(next)
  {
    var front, last := queues[..|queues| - 1], queues[|queues| - 1];
    assert queues == front + [last];
    FlatBack(front, last);
    FlatBack(front, last + [task]);
    assert Flat(PushedBack(queues, task)) == Flat(queues) + [task];
    KindsJoin(Flat(queues), [task]);
  }

  /** An obsolete entry gets a task in the last queue. */
  lemma {:induction false} LastInOrder(
    t: Tables, running: seq<TaskObject>, queues: seq<seq<TaskObject>>, next: seq<TaskObject>, gone: set<Entry>,
    task: TaskObject, e: Entry)
    requires queues != [] && Orderly(t, AllKinds(running, queues, next), gone) && e in gone
    requires task.kind == Direct(Replay.Uninstall(e))
    ensures Orderly(t, AllKinds(running, PushedBack(queues, task), next), gone - {e})
  {
    hide Orderly, AllKinds, PushedBack;
    BackKinds(running, queues, next, task);
    OrderlyUninstall(t, Kinds(running) + Kinds(Flat(queues)), Kinds(next), gone, e);
  }

  lemma {:induction false} OrderlyFewer(t: Tables, kinds: seq<Kind>, gone: set<Entry>, fewer: set<Entry>)
    requires Orderly(t, kinds, gone) && fewer <= gone
    ensures Orderly(t, kinds, fewer)
  {
  }

  /** The tasks enqueued become a queue of their own, or an empty queue is opened. */
  lemma {:induction false} SameKinds(running: seq<TaskObject>, queues: seq<seq<TaskObject>>, next: seq<TaskObject>)
    ensures AllKinds(running, queues + [next], []) == AllKinds(running, queues, next)
    ensures AllKinds(running, [[]], next) == AllKinds(running, [], next)
  {
    FlatBack(queues, next);
    KindsJoin(Flat(queues), next);
    FlatEmpty();
  }

  // ----- enqueuing -----

  /** One more task, about packages no other task and no obsolete entry is about. */
  ghost predicate Free(t: Tables, kinds: seq<Kind>, gone: set<Entry>, kind: Kind) {
    Fits(t, kind) && (forall other <- kinds :: Unrelated(kind, other)) && (forall e <- gone :: !Touches(kind, e.row.key))
  }

  lemma {:induction false} OneMoreInOrder(
    t: Tables, running: seq<TaskObject>, queues: seq<seq<TaskObject>>, next: seq<TaskObject>, gone: set<Entry>,
    task: TaskObject)
    requires Orderly(t, AllKinds(running, queues, next), gone)
    requires Free(t, AllKinds(running, queues, next), gone, task.kind)
    ensures Orderly(t, AllKinds(running, queues, next + [task]), gone)
  {
    var all := AllKinds(running, queues, next);
    KindsJoin(next, [task]);
    assert all + [] == all;
    OrderlyWith(t, all, [task.kind], [], gone);
    assert all + [task.kind] + [] == AllKinds(running, queues, next + [task]);
  }

  /** Synchronizations of some repositories. */
  ghost predicate SyncsOf(kinds: seq<Kind>, names: set<string>) {
    forall kind <- kinds :: kind.Synchronize? && (Repository(kind).Some? ==> Repository(kind).value.name in names)
  }

  /** The index of a repository is that repository's, and proper. */
  ghost predicate ProperIndex(name: string, index: Option<Index>, opts: Options) {
    index.Some? ==> index.value.name == name && Proper(Received(index.value, opts))
  }

  lemma {:induction false} SyncIsFree(t: Tables, kinds: seq<Kind>, names: set<string>, kind: Kind, name: string)
    requires SyncsOf(kinds, names) && name !in names && kind.Synchronize? && kind.WellFormed()
    requires ProperIndex(name, kind.index, kind.opts)
    ensures Free(t, kinds, {}, kind)
  {
    forall other | other in kinds
      ensures Unrelated(kind, other)
    {
    }
  }

  lemma {:induction false} OneMoreSync(
    running: seq<TaskObject>, queues: seq<seq<TaskObject>>, next: seq<TaskObject>, names: set<string>,
    task: TaskObject, name: string)
    requires SyncsOf(AllKinds(running, queues, next), names) && task.kind.Synchronize?
    requires Repository(task.kind).Some? ==> Repository(task.kind).value.name == name
    ensures SyncsOf(AllKinds(running, queues, next + [task]), names + {name})
  {
    var all := AllKinds(running, queues, next);
    KindsJoin(next, [task]);
    assert AllKinds(running, queues, next + [task]) == all + [task.kind];
  }

  /** A transaction begins with nothing to do. */
  lemma {:induction false} NothingToDo(t: Tables)
    requires Sound(t)
    ensures Orderly(t, AllKinds([], [], []), {}) && SyncsOf(AllKinds([], [], []), {})
    ensures AllGuarded([t], [], []) && StartAll(t, []) == [] && Conserved(Flat([]) + [], {}, {})
  {
    FlatEmpty();
    assert Kinds([]) == [];
    assert TasksIn([]) == {};
  }
}
