/**
 * Files on disk against files in the registry while a queue commits (src/install.cpp, src/task.cpp).
 * Downloads wait under their target's name followed by `.part`; a commit renames them.
 */
module DiskAgreement {
  import opened Basics
  import opened Paths
  import opened RegistryTables
  import opened Replay
  import opened Arbitration

  type Content = int

  type Disk = map<string, Content>

  function Temp(path: string): string {
    path + ".part"
  }

  /** `FS::rename(TempPath)`: the waiting file takes its target's place. */
  function Move(disk: Disk, path: string): Disk {
    if Temp(path) in disk then (disk - {Temp(path)})[path := disk[Temp(path)]] else disk
  }

  function MoveAll(disk: Disk, paths: seq<string>): Disk
    decreases |paths|
  {
    if paths == [] then disk else MoveAll(Move(disk, paths[0]), paths[1..])
  }

  lemma {:induction false} MoveAllNext(disk: Disk, paths: seq<string>, i: nat)
    requires i < |paths|
    ensures MoveAll(disk, paths[..i + 1]) == Move(MoveAll(disk, paths[..i]), paths[i])
    decreases i
  {
    if i == 0 {
      assert paths[..1][1..] == [];
    } else {
      assert paths[..i + 1][1..] == paths[1..][..i] && paths[..i][1..] == paths[1..][..i - 1];
      MoveAllNext(Move(disk, paths[0]), paths[1..], i - 1);
    }
  }

  function Temps(paths: seq<string>): set<string> {
    set path | path in paths :: Temp(path)
  }

  /** What a commit does to the disk when its file operations succeed; `moved` is `m_newFiles`. */
  ghost function CommitDisk(disk: Disk, s: Started, moved: seq<string>, failed: bool): Disk {
    match s.task
    case Install(_, _, _) =>
      if failed then disk else MoveAll(disk, moved) - Dropped(s)
    case Uninstall(_) => disk - Dropped(s)
    case _ => disk
  }

  ghost function CommitDisks(disk: Disk, running: seq<Started>, moved: seq<seq<string>>, failed: seq<bool>): Disk
    requires |moved| == |failed| == |running|
    decreases |running|
  {
    if running == [] then disk
    else CommitDisks(CommitDisk(disk, running[0], moved[0], failed[0]), running[1..], moved[1..], failed[1..])
  }

  predicate Same(d: Disk, e: Disk, path: string) {
    (path in d <==> path in e) && (path in d ==> d[path] == e[path])
  }

  lemma {:induction false} TempInjective(p: string, q: string)
    ensures Temp(p) == Temp(q) <==> p == q
    ensures Temp(p) != p
  {
    assert Temp(p)[..|Temp(p)| - 5] == p && Temp(q)[..|Temp(q)| - 5] == q;
    assert |Temp(p)| == |p| + 5;
  }

  /** A download waits under the text of its temporary path. */
  lemma {:induction false} TempIs(p: Path)
    requires p.parts != []
    ensures Temp(Join(p)) == Join(TempOf(p))
  {
    TempText(p);
  }

  // ----- one install -----

  /** No file to be moved waits where another one is to go. */
  ghost predicate Apart(paths: seq<string>) {
    forall p <- paths, q <- paths :: Temp(p) != q
  }

  lemma {:induction false} MoveAllElsewhere(disk: Disk, paths: seq<string>, at: string)
    requires at !in paths && at !in Temps(paths)
    ensures Same(disk, MoveAll(disk, paths), at)
    decreases |paths|
  {
    if paths != [] {
      assert Temp(paths[0]) in Temps(paths);
      assert forall p <- paths[1..] :: p in paths;
      MoveAllElsewhere(Move(disk, paths[0]), paths[1..], at);
    }
  }

  /** The rest of the moves, after a first one that concerns another file. */
  lemma {:induction false} MoveFirst(disk: Disk, p: string, at: string)
    requires Temp(at) in disk && p != at && p != Temp(at)
    ensures Temp(at) in Move(disk, p) && Move(disk, p)[Temp(at)] == disk[Temp(at)]
  {
    TempInjective(p, at);
  }

  /** Moving, in any order, gives a target the content that waited for it, if no other file meets its two names. */
  lemma {:induction false} MoveAllTargets(disk: Disk, paths: seq<string>, at: string)
    requires at in paths && Distinct(paths) && Temp(at) in disk
    requires at !in Temps(paths) && Temp(at) !in paths
    ensures at in MoveAll(disk, paths) && MoveAll(disk, paths)[at] == disk[Temp(at)]
    decreases |paths|
  {
    var next, rest := Move(disk, paths[0]), paths[1..];
    forall p | p in rest
      ensures p in paths && Temp(p) in Temps(paths) && p != paths[0]
    {
    }
    if at == paths[0] {
      MoveAllElsewhere(next, rest, at);
    } else {
      MoveFirst(disk, paths[0], at);
      MoveAllTargets(next, rest, at);
    }
  }

  /** Every target has the content that waited for it. */
  ghost predicate Delivered(disk: Disk, order: seq<string>) {
    forall p <- order :: Temp(p) in disk && p in MoveAll(disk, order) && MoveAll(disk, order)[p] == disk[Temp(p)]
  }

  /** Nothing comes to a path that is no target. */
  lemma {:induction false} MoveAllNotGained(disk: Disk, paths: seq<string>, at: string)
    requires at !in paths && at !in disk
    ensures at !in MoveAll(disk, paths)
    decreases |paths|
  {
    if paths != [] {
      assert forall p <- paths[1..] :: p in paths;
      MoveAllNotGained(Move(disk, paths[0]), paths[1..], at);
    }
  }

  /** Moved in this order, the file that was to stay at `Temp(p)` is taken for the download of `p`. */
  lemma {:induction false} BadOrder(disk: Disk, p: string, rest: seq<string>)
    requires Temp(Temp(p)) in disk && Temp(p) !in rest
    ensures !Delivered(disk, [Temp(p), p] + rest)
  {
    var order := [Temp(p), p] + rest;
    TempInjective(p, Temp(p));
    var first := Move(disk, Temp(p));
    assert order[1..] == [p] + rest && order[1..][1..] == rest;
    assert MoveAll(disk, order) == MoveAll(Move(first, p), rest);
    assert Temp(p) !in Move(first, p);
    MoveAllNotGained(Move(first, p), rest, Temp(p));
    assert order[0] == Temp(p) && Temp(p) in order;
  }

  /** All of the paths but two, in some order. */
  lemma {:induction false} WithoutTwo(paths: seq<string>, p: string, q: string) returns (rest: seq<string>)
    requires Distinct(paths) && p in paths && q in paths && p != q
    ensures multiset([q, p] + rest) == multiset(paths) && q !in rest
  {
    var i :| 0 <= i < |paths| && paths[i] == q;
    var most := paths[..i] + paths[i + 1..];
    TakenOut(paths, i);
    OnceIn(paths, q);
    assert q !in multiset(most);
    assert p in multiset(paths) && p in multiset(most);
    var j :| 0 <= j < |most| && most[j] == p;
    rest := most[..j] + most[j + 1..];
    TakenOut(most, j);
    hide Distinct;
    assert q !in multiset(rest);
    assert multiset([q, p] + rest) == multiset(rest) + multiset{p} + multiset{q};
  }

  /**
   * Waiting files reach their targets with their content in every order of the moves if and only if
   * none of them waits under the name of another one's target.
   */
  lemma {:induction false} EveryOrderDelivers(disk: Disk, paths: seq<string>)
    requires Distinct(paths) && forall p <- paths :: Temp(p) in disk
    ensures (forall order: seq<string> :: multiset(order) == multiset(paths) ==> Delivered(disk, order)) <==> Apart(paths)
  {
    if Apart(paths) {
      forall order: seq<string> | multiset(order) == multiset(paths)
        ensures Delivered(disk, order)
      {
        Reordered(paths, order);
        forall p | p in order
          ensures p in MoveAll(disk, order) && MoveAll(disk, order)[p] == disk[Temp(p)]
        {
          assert Temp(p) !in order && p !in Temps(order);
          MoveAllTargets(disk, order, p);
        }
      }
    } else {
      var p, q :| p in paths && q in paths && Temp(p) == q;
      TempInjective(p, p);
      var rest := WithoutTwo(paths, p, q);
      BadOrder(disk, p, rest);
    }
  }

  lemma {:induction false} Reordered(paths: seq<string>, order: seq<string>)
    requires Distinct(paths) && multiset(order) == multiset(paths)
    ensures Distinct(order) && forall p :: p in order <==> p in paths
  {
    forall p
      ensures p in order <==> p in paths
    {
      assert p in order <==> p in multiset(order);
      assert p in paths <==> p in multiset(paths);
    }
    forall i, j | 0 <= i < j < |order|
      ensures order[i] != order[j]
    {
      if order[i] == order[j] {
        AtLeastTwice(order, i, j);
        OnceIn(paths, order[i]);
      }
    }
  }

  /**
   * Without that guard the content can end up wrong: of two files of one version, named `p` and
   * `p.part`, moving the second first loses what waited for `p`.
   */
  lemma {:induction false} MoveOrderMatters(p: string, a: Content, b: Content)
    ensures var disk := map[Temp(p) := a, Temp(Temp(p)) := b];
      && MoveAll(disk, [p, Temp(p)]) == map[p := a, Temp(p) := b]
      && MoveAll(disk, [Temp(p), p]) == map[p := b]
  {
    TempInjective(p, Temp(p));
    TempInjective(p, Temp(Temp(p)));
    var disk: Disk := map[Temp(p) := a, Temp(Temp(p)) := b];
    assert [p, Temp(p)][1..] == [Temp(p)] && [Temp(p), p][1..] == [p];
    assert [p][1..] == [] && [Temp(p)][1..] == [];
    assert |Temp(Temp(p))| == |p| + 10;
    assert Move(disk, p) == map[p := a, Temp(Temp(p)) := b];
    assert Move(Move(disk, p), Temp(p)) == map[p := a, Temp(p) := b];
    assert Move(disk, Temp(p)) == map[Temp(p) := b];
    assert Move(Move(disk, Temp(p)), p) == map[p := b];
    assert MoveAll(disk, [p, Temp(p)]) == MoveAll(Move(disk, p), [Temp(p)]);
    assert MoveAll(disk, [Temp(p), p]) == MoveAll(Move(disk, Temp(p)), [p]);
  }

  // ----- a whole queue -----

  ghost predicate Owned(t: Tables, path: string) {
    exists key :: path in FilesOf(t, key)
  }

  /** Some install that does not fail brings this path. */
  ghost predicate Brought(running: seq<Started>, failed: seq<bool>, path: string)
    requires |failed| == |running|
  {
    exists i :: 0 <= i < |running| && running[i].task.Install? && !failed[i] && path in running[i].task.ver.Texts()
  }

  ghost predicate IsTemp(running: seq<Started>, path: string) {
    exists s <- running, p :: s.task.Install? && p in s.task.ver.Texts() && path == Temp(p)
  }

  /** No waiting file has the name of a target or of a file the registry knows. */
  ghost predicate TempsApart(t: Tables, running: seq<Started>) {
    forall path :: IsTemp(running, path) ==>
      !Owned(t, path) && forall s <- running :: s.task.Install? ==> path !in s.task.ver.Texts()
  }

  /** The `m_newFiles` of an install that did not fail hold its version's targets once each, in any order. */
  ghost predicate Fetched(running: seq<Started>, moved: seq<seq<string>>, failed: seq<bool>)
    requires |moved| == |failed| == |running|
  {
    forall i :: 0 <= i < |running| && running[i].task.Install? && !failed[i] ==>
      && (forall p :: p in moved[i] <==> p in running[i].task.ver.Texts())
      && Distinct(moved[i])
  }

  ghost predicate Waiting(disk: Disk, running: seq<Started>, failed: seq<bool>)
    requires |failed| == |running|
  {
    forall i, p :: 0 <= i < |running| && running[i].task.Install? && !failed[i] && p in running[i].task.ver.Texts() ==>
      Temp(p) in disk
  }

  /** A path under whose names no other file of the queue, and none the registry knows, waits or goes. */
  ghost predicate Clear(t: Tables, running: seq<Started>, path: string) {
    && !IsTemp(running, path)
    && (Named(running, path) ==> !Owned(t, Temp(path)) && !Named(running, Temp(path)))
  }

  /** The target of an install that started. */
  ghost predicate Named(running: seq<Started>, path: string) {
    exists s <- running :: s.task.Install? && path in s.task.ver.Texts()
  }

  /** When all waiting names are apart, every path that is none of them is clear. */
  lemma {:induction false} ApartClear(t: Tables, running: seq<Started>, path: string)
    requires TempsApart(t, running) && !IsTemp(running, path)
    ensures Clear(t, running, path)
  {
    if Named(running, path) {
      assert IsTemp(running, Temp(path));
    }
  }

  lemma {:induction false} MovedApart(t: Tables, running: seq<Started>, moved: seq<seq<string>>, failed: seq<bool>)
    requires |moved| == |failed| == |running| && running != []
    requires TempsApart(t, running) && Fetched(running, moved, failed)
    requires running[0].task.Install? && !failed[0]
    ensures Apart(moved[0])
  {
    assert running[0] in running;
    forall p | p in moved[0]
      ensures IsTemp(running, Temp(p))
    {
      assert p in running[0].task.ver.Texts();
    }
  }

  lemma {:induction false} NotMoved(running: seq<Started>, moved: seq<seq<string>>, failed: seq<bool>, path: string)
    requires |moved| == |failed| == |running| && running != [] && Fetched(running, moved, failed)
    requires running[0].task.Install? && !failed[0]
    ensures !IsTemp(running, path) ==> path !in Temps(moved[0])
    ensures !Named(running, path) ==> path !in moved[0]
  {
    assert running[0] in running;
    if p :| p in moved[0] && path == Temp(p) {
      assert p in running[0].task.ver.Texts();
      assert IsTemp(running, path);
    }
  }

  lemma {:induction false} DroppedOwned(t: Tables, running: seq<Started>, path: string)
    requires Faithful(t, running) && running != [] && path in Dropped(running[0])
    ensures Owned(t, path)
    ensures running[0].task.Install? ==> path !in running[0].task.ver.Texts()
    ensures running[0].task.Install? || running[0].task.Uninstall?
    ensures forall key <- running[0].task.Keys() :: path in FilesOf(t, key)
  {
    var s := running[0];
    assert s in running && TasksOf(running)[0] == s.task && s.task in TasksOf(running);
    var r :| r in s.files && r.path == path;
    forall key | key in s.task.Keys()
      ensures path in FilesOf(t, key)
    {
      assert s.task.EntryId() == IdOf(t, key);
      assert r in RowsOf(t, IdOf(t, key));
    }
    match s.task
    case Install(ver, _, _) => assert ver.key in s.task.Keys();
    case Uninstall(entry) => assert entry.row.key in s.task.Keys();
  }

  /** The first commit leaves alone everything it neither brings nor drops, temporaries aside. */
  lemma {:induction false} CommitDiskElsewhere(
    disk: Disk, running: seq<Started>, moved: seq<seq<string>>, failed: seq<bool>, path: string)
    requires |moved| == |failed| == |running| && running != [] && Fetched(running, moved, failed)
    requires running[0].task.Install? && !failed[0] ==>
      path !in Temps(moved[0]) && path !in running[0].task.ver.Texts()
    requires path !in Dropped(running[0]) || (running[0].task.Install? && failed[0])
    ensures Same(disk, CommitDisk(disk, running[0], moved[0], failed[0]), path)
  {
    if running[0].task.Install? && !failed[0] {
      MoveAllElsewhere(disk, moved[0], path);
    }
  }

  lemma {:induction false} CommitDiskBrings(
    t: Tables, disk: Disk, running: seq<Started>, moved: seq<seq<string>>, failed: seq<bool>, path: string)
    requires |moved| == |failed| == |running| && running != []
    requires Faithful(t, running) && Fetched(running, moved, failed) && Clear(t, running, path)
    requires running[0].task.Install? && !failed[0] && path in running[0].task.ver.Texts() && Temp(path) in disk
    ensures var e := CommitDisk(disk, running[0], moved[0], failed[0]);
      path in e && e[path] == disk[Temp(path)]
  {
    assert running[0] in running && path in moved[0];
    NotMoved(running, moved, failed, path);
    NotMoved(running, moved, failed, Temp(path));
    MoveAllTargets(disk, moved[0], path);
    if path in Dropped(running[0]) {
      DroppedOwned(t, running, path);
      assert false;
    }
  }

  /** What waits for a later install is still there after the first commit. */
  lemma {:induction false} WaitingKept(
    t: Tables, disk: Disk, running: seq<Started>, moved: seq<seq<string>>, failed: seq<bool>, path: string)
    requires |moved| == |failed| == |running| && running != []
    requires Faithful(t, running) && Fetched(running, moved, failed)
    requires !Owned(t, Temp(path)) && !Named(running, Temp(path))
    requires running[0].task.Install? && !failed[0] ==> path !in running[0].task.ver.Texts()
    ensures Same(disk, CommitDisk(disk, running[0], moved[0], failed[0]), Temp(path))
  {
    assert running[0] in running;
    if running[0].task.Install? && !failed[0] {
      if p :| p in moved[0] && Temp(p) == Temp(path) {
        TempInjective(p, path);
        assert false;
      }
    }
    if Temp(path) in Dropped(running[0]) {
      DroppedOwned(t, running, Temp(path));
      assert false;
    }
    CommitDiskElsewhere(disk, running, moved, failed, Temp(path));
  }

  lemma {:induction false} FaithfulTail(t: Tables, running: seq<Started>, failed: bool, u: Tables)
    requires Faithful(t, running) && running != []
    requires CommitTables(t, running[0].task, failed) == Some(u)
    ensures Faithful(u, running[1..])
  {
    var task, rest := running[0].task, running[1..];
    assert running[0] in running && TasksOf(running)[0] == task && task in TasksOf(running);
    CommitOnlyChanges(t, task, failed);
    DistinctTail(running);
    forall i | 0 <= i < |rest|
      ensures rest[i].task.WellFormed() && Current(u, rest[i].task)
      ensures rest[i].files == FilesToDelete(u, rest[i].task)
    {
      assert rest[i] == running[i + 1] && running[i + 1] in running;
      assert TasksOf(running)[i + 1] in TasksOf(running);
      assert TasksOf(running)[0].Keys() !! TasksOf(running)[i + 1].Keys();
      CurrentKept(t, u, task.Keys(), rest[i].task);
      FilesToDeleteKept(t, u, task.Keys(), rest[i].task);
    }
    forall other | other in TasksOf(rest)
      ensures other.WellFormed() && Current(u, other)
    {
      var i :| 0 <= i < |rest| && TasksOf(rest)[i] == other;
    }
  }

  /** A commit gives a package no file it neither had nor brings. */
  lemma {:induction false} OwnedGain(t: Tables, running: seq<Started>, failed: bool, u: Tables, path: string)
    requires Faithful(t, running) && running != []
    requires CommitTables(t, running[0].task, failed) == Some(u)
    ensures Owned(u, path) ==> Owned(t, path) || Brought(running[..1], [failed], path)
    ensures Brought(running[..1], [failed], path) ==> Owned(u, path)
  {
    var task := running[0].task;
    assert TasksOf(running)[0] == task && task in TasksOf(running);
    CommitOnlyChanges(t, task, failed);
    if key :| path in FilesOf(u, key) && path !in FilesOf(t, key) {
      assert key in task.Keys();
      assert Brought(running[..1], [failed], path);
    }
  }

  /** What loses its owner is what the task drops... */
  lemma {:induction false} OwnedLoss(t: Tables, running: seq<Started>, failed: bool, u: Tables, path: string)
    requires Faithful(t, running) && running != []
    requires CommitTables(t, running[0].task, failed) == Some(u)
    requires Owned(t, path) && !Owned(u, path)
    ensures path in Dropped(running[0]) && !(running[0].task.Install? && failed)
  {
    var s := running[0];
    assert s in running && TasksOf(running)[0] == s.task && s.task in TasksOf(running);
    CommitOnlyChanges(t, s.task, failed);
    var key :| path in FilesOf(t, key);
    assert path !in FilesOf(u, key);
    assert key in s.task.Keys() && s.task.EntryId() == IdOf(t, key);
    var r :| r in RowsOf(t, IdOf(t, key)) && r.path == path;
    assert r in s.files;
  }

  /** ...and what it drops has no other owner. */
  lemma {:induction false} DroppedLost(t: Tables, running: seq<Started>, failed: bool, u: Tables, path: string)
    requires Faithful(t, running) && running != []
    requires CommitTables(t, running[0].task, failed) == Some(u)
    requires path in Dropped(running[0]) && !(running[0].task.Install? && failed)
    ensures !Owned(u, path)
  {
    var task := running[0].task;
    assert TasksOf(running)[0] == task && task in TasksOf(running);
    CommitOnlyChanges(t, task, failed);
    DroppedOwned(t, running, path);
    var key := if task.Install? then task.ver.key else task.entry.row.key;
    assert key in task.Keys() && path in FilesOf(t, key);
    forall other
      ensures path !in FilesOf(u, other)
    {
      if other != key && path in FilesOf(u, other) {
        OneOwner(t, path, key, other);
      }
    }
  }

  lemma {:induction false} OwnedStep(t: Tables, running: seq<Started>, failed: bool, u: Tables, path: string)
    requires Faithful(t, running) && running != []
    requires CommitTables(t, running[0].task, failed) == Some(u)
    ensures Owned(u, path) ==> Owned(t, path) || Brought(running[..1], [failed], path)
    ensures Brought(running[..1], [failed], path) ==> Owned(u, path)
    ensures Owned(t, path) && !Owned(u, path) ==> path in Dropped(running[0]) && !(running[0].task.Install? && failed)
    ensures path in Dropped(running[0]) && !(running[0].task.Install? && failed) ==> !Owned(u, path)
  {
    OwnedGain(t, running, failed, u, path);
    if Owned(t, path) && !Owned(u, path) {
      OwnedLoss(t, running, failed, u, path);
    }
    if path in Dropped(running[0]) && !(running[0].task.Install? && failed) {
      DroppedLost(t, running, failed, u, path);
    }
  }

  lemma {:induction false} TempsApartTail(t: Tables, running: seq<Started>, failed: bool, u: Tables)
    requires Faithful(t, running) && running != [] && TempsApart(t, running)
    requires CommitTables(t, running[0].task, failed) == Some(u)
    ensures TempsApart(u, running[1..])
    ensures forall path :: IsTemp(running[1..], path) ==> IsTemp(running, path)
  {
    assert running[0] in running;
    forall path | IsTemp(running[1..], path)
      ensures IsTemp(running, path)
    {
      var s, p :| s in running[1..] && s.task.Install? && p in s.task.ver.Texts() && path == Temp(p);
      assert s in running;
    }
    forall path | IsTemp(running[1..], path)
      ensures !Owned(u, path)
    {
      OwnedStep(t, running, failed, u, path);
      assert !Brought(running[..1], [failed], path);
    }
  }

  lemma {:induction false} BroughtSplit(running: seq<Started>, failed: seq<bool>, path: string)
    requires |failed| == |running| && running != []
    ensures Brought(running, failed, path)
       <==> Brought(running[..1], [failed[0]], path) || Brought(running[1..], failed[1..], path)
  {
    if Brought(running[1..], failed[1..], path) {
      var i :| 0 <= i < |running[1..]| && running[1..][i].task.Install? && !failed[1..][i]
        && path in running[1..][i].task.ver.Texts();
      assert running[i + 1] == running[1..][i] && failed[i + 1] == failed[1..][i];
    }
    if i :| 0 <= i < |running| && running[i].task.Install? && !failed[i] && path in running[i].task.ver.Texts() {
      if i > 0 {
        assert running[i] == running[1..][i - 1] && failed[i] == failed[1..][i - 1];
      }
    }
  }

  lemma {:induction false} FetchedTail(running: seq<Started>, moved: seq<seq<string>>, failed: seq<bool>)
    requires |moved| == |failed| == |running| && running != [] && Fetched(running, moved, failed)
    ensures Fetched(running[1..], moved[1..], failed[1..])
  {
    forall i | 0 <= i < |running[1..]|
      ensures running[1..][i] == running[i + 1] && moved[1..][i] == moved[i + 1] && failed[1..][i] == failed[i + 1]
    {
    }
  }

  /** A target is a target of one install only. */
  lemma {:induction false} NamedOnce(t: Tables, running: seq<Started>, i: nat, path: string)
    requires Faithful(t, running) && 0 < i < |running| && running[i].task.Install? && path in running[i].task.ver.Texts()
    ensures running[0].task.Install? ==> path !in running[0].task.ver.Texts()
  {
  }

  lemma {:induction false} QueueTail(
    t: Tables, disk: Disk, running: seq<Started>, moved: seq<seq<string>>, failed: seq<bool>, u: Tables)
    requires |moved| == |failed| == |running| && running != []
    requires Faithful(t, running) && TempsApart(t, running) && Fetched(running, moved, failed)
    requires Waiting(disk, running, failed)
    requires CommitTables(t, running[0].task, failed[0]) == Some(u)
    ensures Faithful(u, running[1..]) && TempsApart(u, running[1..]) && Fetched(running[1..], moved[1..], failed[1..])
    ensures Waiting(CommitDisk(disk, running[0], moved[0], failed[0]), running[1..], failed[1..])
  {
    FaithfulTail(t, running, failed[0], u);
    TempsApartTail(t, running, failed[0], u);
    FetchedTail(running, moved, failed);
    var rest := running[1..];
    forall i, p | 0 <= i < |rest| && rest[i].task.Install? && !failed[1..][i] && p in rest[i].task.ver.Texts()
      ensures Temp(p) in CommitDisk(disk, running[0], moved[0], failed[0])
    {
      assert rest[i] == running[i + 1] && failed[1..][i] == failed[i + 1] && running[i + 1] in running;
      NamedOnce(t, running, i + 1, p);
      assert IsTemp(running, Temp(p));
      WaitingKept(t, disk, running, moved, failed, p);
    }
  }

  /** What a queue whose downloads are over must look like for its commit to go as `CommitDisks` says. */
  ghost predicate Ready(t: Tables, disk: Disk, running: seq<Started>, moved: seq<seq<string>>, failed: seq<bool>) {
    && |moved| == |failed| == |running|
    && Faithful(t, running) && TempsApart(t, running) && Fetched(running, moved, failed)
    && Waiting(disk, running, failed)
  }

  /** Distinct targets whose downloads are there, none under the name of another target. */
  ghost predicate AllWaiting(disk: Disk, paths: seq<string>) {
    && Apart(paths)
    && Distinct(paths)
    && (forall p <- paths :: Temp(p) in disk)
  }

  lemma {:induction false} ReadyFirst(
    t: Tables, disk: Disk, running: seq<Started>, moved: seq<seq<string>>, failed: seq<bool>)
    requires Ready(t, disk, running, moved, failed) && running != []
    ensures running[0].task.Install? && !failed[0] ==> AllWaiting(disk, moved[0])
  {
    if running[0].task.Install? && !failed[0] {
      MovedApart(t, running, moved, failed);
      forall p | p in moved[0]
        ensures Temp(p) in disk
      {
        assert p in running[0].task.ver.Texts();
      }
    }
  }

  lemma {:induction false} ReadyNext(
    t: Tables, disk: Disk, running: seq<Started>, moved: seq<seq<string>>, failed: seq<bool>, u: Tables)
    requires Ready(t, disk, running, moved, failed) && running != []
    requires CommitTables(t, running[0].task, failed[0]) == Some(u)
    ensures Ready(u, CommitDisk(disk, running[0], moved[0], failed[0]), running[1..], moved[1..], failed[1..])
  {
    QueueTail(t, disk, running, moved, failed, u);
  }

  lemma {:induction false} NotNamedLater(running: seq<Started>)
    requires running != [] && DistinctKeys(TasksOf(running))
    ensures forall key <- running[0].task.Keys(), s <- running[1..] :: key !in s.task.Keys()
  {
    forall key, s | key in running[0].task.Keys() && s in running[1..]
      ensures key !in s.task.Keys()
    {
      var i :| 0 <= i < |running[1..]| && running[1..][i] == s;
      assert TasksOf(running)[0].Keys() !! TasksOf(running)[i + 1].Keys();
    }
  }

  /** A package no task names keeps its files. */
  lemma {:induction false} OwnedKept(
    t: Tables, running: seq<Started>, failed: seq<bool>, key: Key, path: string, end: Tables)
    requires |failed| == |running|
    requires Faithful(t, running) && path in FilesOf(t, key) && forall s <- running :: key !in s.task.Keys()
    requires CommitAll(t, running, failed) == Some(end)
    ensures path in FilesOf(end, key)
    decreases |running|
  {
    if running != [] {
      var task := running[0].task;
      assert running[0] in running && TasksOf(running)[0] == task && task in TasksOf(running);
      CommitOnlyChanges(t, task, failed[0]);
      var u := CommitTables(t, task, failed[0]).value;
      FaithfulTail(t, running, failed[0], u);
      OwnedKept(u, running[1..], failed[1..], key, path, end);
    }
  }

  /** What becomes of the file at a path, between two points of a queue's commit. */
  ghost predicate Settled(
    t: Tables, disk: Disk, running: seq<Started>, failed: seq<bool>, end: Tables, e: Disk, path: string)
    requires |failed| == |running|
  {
    if Brought(running, failed, path) then
      Owned(end, path) && path in e && Temp(path) in disk && e[path] == disk[Temp(path)]
    else if Owned(t, path) && !Owned(end, path) then path !in e
    else Same(disk, e, path) && (Owned(end, path) ==> Owned(t, path))
  }

  lemma {:induction false} ClearTail(t: Tables, running: seq<Started>, failed: bool, u: Tables, path: string)
    requires Faithful(t, running) && running != [] && Clear(t, running, path)
    requires CommitTables(t, running[0].task, failed) == Some(u)
    ensures Clear(u, running[1..], path)
  {
    assert forall s <- running[1..] :: s in running;
    if Named(running[1..], path) {
      assert running[0] in running;
      OwnedGain(t, running, failed, u, Temp(path));
      assert !Brought(running[..1], [failed], Temp(path));
    }
  }

  /** A path the first install brings is not touched by those after it. */
  lemma {:induction false} SettledBrought(
    t: Tables, disk: Disk, running: seq<Started>, moved: seq<seq<string>>, failed: seq<bool>,
    u: Tables, end: Tables, e: Disk, path: string)
    requires |moved| == |failed| == |running| && running != []
    requires Faithful(t, running) && Fetched(running, moved, failed) && Clear(t, running, path) && Temp(path) in disk
    requires CommitTables(t, running[0].task, failed[0]) == Some(u)
    requires CommitAll(u, running[1..], failed[1..]) == Some(end)
    requires Brought(running[..1], [failed[0]], path) && !Brought(running[1..], failed[1..], path)
    requires Settled(u, CommitDisk(disk, running[0], moved[0], failed[0]), running[1..], failed[1..], end, e, path)
    ensures Settled(t, disk, running, failed, end, e, path)
  {
    var task := running[0].task;
    assert running[0] in running && TasksOf(running)[0] == task && task in TasksOf(running);
    FaithfulTail(t, running, failed[0], u);
    BroughtSplit(running, failed, path);
    CommitDiskBrings(t, disk, running, moved, failed, path);
    NotNamedLater(running);
    CommitOnlyChanges(t, task, failed[0]);
    OwnedKept(u, running[1..], failed[1..], task.ver.key, path, end);
  }

  lemma {:induction false} SettledOther(
    t: Tables, disk: Disk, running: seq<Started>, moved: seq<seq<string>>, failed: seq<bool>,
    u: Tables, end: Tables, e: Disk, path: string)
    requires |moved| == |failed| == |running| && running != []
    requires Faithful(t, running) && Fetched(running, moved, failed)
    requires CommitTables(t, running[0].task, failed[0]) == Some(u)
    requires !Brought(running, failed, path) && !IsTemp(running, path)
    requires Settled(u, CommitDisk(disk, running[0], moved[0], failed[0]), running[1..], failed[1..], end, e, path)
    ensures Settled(t, disk, running, failed, end, e, path)
  {
    var s := running[0];
    BroughtSplit(running, failed, path);
    OwnedStep(t, running, failed[0], u, path);
    if path !in Dropped(s) || (s.task.Install? && failed[0]) {
      if s.task.Install? && !failed[0] {
        NotMoved(running, moved, failed, path);
      }
      CommitDiskElsewhere(disk, running, moved, failed, path);
    } else {
      DroppedOwned(t, running, path);
      assert path !in CommitDisk(disk, s, moved[0], failed[0]);
    }
  }

  /** What waits for a path that a later install brings, seen through the first commit. */
  lemma {:induction false} SettledLater(
    t: Tables, disk: Disk, running: seq<Started>, moved: seq<seq<string>>, failed: seq<bool>, path: string)
    requires |moved| == |failed| == |running| && running != []
    requires Faithful(t, running) && Fetched(running, moved, failed) && Clear(t, running, path)
    requires Brought(running[1..], failed[1..], path)
    ensures Same(disk, CommitDisk(disk, running[0], moved[0], failed[0]), Temp(path)) && Brought(running, failed, path)
  {
    var i :| 0 <= i < |running[1..]| && running[1..][i].task.Install? && path in running[1..][i].task.ver.Texts();
    assert running[i + 1] == running[1..][i] && running[i + 1] in running;
    NamedOnce(t, running, i + 1, path);
    WaitingKept(t, disk, running, moved, failed, path);
    BroughtSplit(running, failed, path);
  }

  lemma {:induction false} DiskFollows(
    t: Tables, disk: Disk, running: seq<Started>, moved: seq<seq<string>>, failed: seq<bool>, end: Tables, path: string)
    requires |moved| == |failed| == |running|
    requires Faithful(t, running) && Fetched(running, moved, failed) && CommitAll(t, running, failed) == Some(end)
    requires Clear(t, running, path) && (Brought(running, failed, path) ==> Temp(path) in disk)
    ensures Settled(t, disk, running, failed, end, CommitDisks(disk, running, moved, failed), path)
    decreases |running|
  {
    hide Faithful, Fetched, Clear, CommitDisk, CommitTables, IsTemp, Owned, Brought;
    if running == [] {
      assert CommitDisks(disk, running, moved, failed) == disk;
      NoneBrought(failed, path);
    } else {
      var u := CommitTables(t, running[0].task, failed[0]).value;
      var next := CommitDisk(disk, running[0], moved[0], failed[0]);
      var e := CommitDisks(disk, running, moved, failed);
      FaithfulTail(t, running, failed[0], u);
      FetchedTail(running, moved, failed);
      ClearTail(t, running, failed[0], u, path);
      BroughtSplit(running, failed, path);
      if Brought(running[1..], failed[1..], path) {
        SettledLater(t, disk, running, moved, failed, path);
        DiskFollows(u, next, running[1..], moved[1..], failed[1..], end, path);
      } else {
        DiskFollows(u, next, running[1..], moved[1..], failed[1..], end, path);
        if Brought(running, failed, path) {
          SettledBrought(t, disk, running, moved, failed, u, end, e, path);
        } else {
          ClearNotTemp(t, running, path);
          SettledOther(t, disk, running, moved, failed, u, end, e, path);
        }
      }
    }
  }

  lemma {:induction false} NoneBrought(failed: seq<bool>, path: string)
    requires failed == []
    ensures !Brought([], failed, path)
  {
  }

  lemma {:induction false} ClearNotTemp(t: Tables, running: seq<Started>, path: string)
    requires Clear(t, running, path)
    ensures !IsTemp(running, path)
  {
  }

  /**
   * Disk and registry after a guarded queue whose replay is not broken, path by path: if an install
   * brings it, it holds what was fetched for it and has an owner; if it lost its owner it is gone;
   * else, as with untouched packages and failed installs, it is as it was. Only of the path itself it
   * is asked that no other file meets its name or, if it is brought, the one it waits under.
   */
  lemma {:induction false} DiskAgrees(
    t: Tables, order: seq<Task>, disk: Disk, moved: seq<seq<string>>, failed: seq<bool>, path: string)
    requires Guarded(t, order)
    requires var running := StartAll(t, order);
      && |moved| == |failed| == |running|
      && !BrokenHandover(running, failed) && Fetched(running, moved, failed)
      && Clear(t, running, path) && (Brought(running, failed, path) ==> Temp(path) in disk)
    ensures var running := StartAll(t, order);
      && CommitAll(t, running, failed).Some?
      && var end, e := CommitAll(t, running, failed).value, CommitDisks(disk, running, moved, failed);
      && Consistent(end)
      && (Brought(running, failed, path) ==> Owned(end, path) && path in e && e[path] == disk[Temp(path)])
      && (Owned(t, path) && !Owned(end, path) ==> path !in e)
      && (!Brought(running, failed, path) && (Owned(end, path) || !Owned(t, path)) ==> Same(disk, e, path))
      && (Owned(end, path) ==> Owned(t, path) || Brought(running, failed, path))
  {
    var running := StartAll(t, order);
    StartAllFaithful(t, order);
    ReplayConflict(t, order, failed);
    DiskFollows(t, disk, running, moved, failed, CommitAll(t, running, failed).value, path);
  }

  /** Every file that is not a waiting one is settled. */
  ghost predicate AllSettled(
    t: Tables, disk: Disk, running: seq<Started>, failed: seq<bool>, end: Tables, e: Disk)
    requires |failed| == |running|
  {
    forall path :: !IsTemp(running, path) ==> Settled(t, disk, running, failed, end, e, path)
  }

  lemma {:induction false} ReadySettles(
    t: Tables, disk: Disk, running: seq<Started>, moved: seq<seq<string>>, failed: seq<bool>, end: Tables)
    requires Ready(t, disk, running, moved, failed) && CommitAll(t, running, failed) == Some(end)
    ensures AllSettled(t, disk, running, failed, end, CommitDisks(disk, running, moved, failed))
  {
    forall path | !IsTemp(running, path)
      ensures Settled(t, disk, running, failed, end, CommitDisks(disk, running, moved, failed), path)
    {
      ApartClear(t, running, path);
      DiskFollows(t, disk, running, moved, failed, end, path);
    }
  }

  // ----- why waiting names must be apart -----

  lemma {:induction false} MoveAllTakes(disk: Disk, paths: seq<string>, p: string)
    requires p in paths && Temp(p) !in paths
    ensures Temp(p) !in MoveAll(disk, paths)
    decreases |paths|
  {
    var next, rest := Move(disk, paths[0]), paths[1..];
    assert forall q <- rest :: q in paths;
    TempInjective(p, paths[0]);
    if p == paths[0] {
      MoveAllNotGained(next, rest, Temp(p));
    } else {
      MoveAllTakes(next, rest, p);
    }
  }

  lemma {:induction false} GoneStays(
    disk: Disk, running: seq<Started>, moved: seq<seq<string>>, failed: seq<bool>, at: string)
    requires |moved| == |failed| == |running| && at !in disk
    requires forall i :: 0 <= i < |running| && running[i].task.Install? && !failed[i] ==> at !in moved[i]
    ensures at !in CommitDisks(disk, running, moved, failed)
    decreases |running|
  {
    if running != [] {
      if running[0].task.Install? && !failed[0] {
        MoveAllNotGained(disk, moved[0], at);
      }
      GoneStays(CommitDisk(disk, running[0], moved[0], failed[0]), running[1..], moved[1..], failed[1..], at);
    }
  }

  lemma {:induction false} TempGone(
    disk: Disk, running: seq<Started>, moved: seq<seq<string>>, failed: seq<bool>, k: nat, p: string)
    requires |moved| == |failed| == |running| && k < |running|
    requires running[k].task.Install? && !failed[k] && p in moved[k]
    requires forall i :: 0 <= i < |running| && running[i].task.Install? && !failed[i] ==> Temp(p) !in moved[i]
    ensures Temp(p) !in CommitDisks(disk, running, moved, failed)
    decreases |running|
  {
    var next := CommitDisk(disk, running[0], moved[0], failed[0]);
    if k == 0 {
      MoveAllTakes(disk, moved[0], p);
      GoneStays(next, running[1..], moved[1..], failed[1..], Temp(p));
    } else {
      TempGone(next, running[1..], moved[1..], failed[1..], k - 1, p);
    }
  }

  /** A package that no task names keeps its files, and no install that starts brings one of them. */
  lemma {:induction false} UntouchedKept(t: Tables, order: seq<Task>, failed: seq<bool>, key: Key, path: string)
    requires Guarded(t, order) && |failed| == |StartAll(t, order)| && !BrokenHandover(StartAll(t, order), failed)
    requires path in FilesOf(t, key) && forall task <- order :: key !in task.Keys()
    ensures CommitAll(t, StartAll(t, order), failed).Some?
    ensures Owned(CommitAll(t, StartAll(t, order), failed).value, path)
    ensures forall s <- StartAll(t, order) :: s.task.Install? ==> path !in s.task.ver.Texts()
  {
    ReplayConflict(t, order, failed);
    StartAllFaithful(t, order);
    StartAllStarted(t, order);
    ClaimKept(t, order, key, path);
    OwnedKept(t, StartAll(t, order), failed, key, path, CommitAll(t, StartAll(t, order), failed).value);
  }

  /**
   * An install takes away, for good, the file of an untouched package that has the name its own
   * download waits under: the registry still has that file, and the disk does not.
   */
  lemma {:induction false} TempTakesFile(
    t: Tables, order: seq<Task>, disk: Disk, moved: seq<seq<string>>, failed: seq<bool>, key: Key, p: string)
    requires Guarded(t, order)
    requires var running := StartAll(t, order);
      && |moved| == |failed| == |running|
      && !BrokenHandover(running, failed) && Fetched(running, moved, failed) && Brought(running, failed, p)
    requires Temp(p) in FilesOf(t, key) && forall task <- order :: key !in task.Keys()
    ensures var running := StartAll(t, order);
      && CommitAll(t, running, failed).Some?
      && Owned(CommitAll(t, running, failed).value, Temp(p))
      && Temp(p) !in CommitDisks(disk, running, moved, failed)
  {
    var running := StartAll(t, order);
    UntouchedKept(t, order, failed, key, Temp(p));
    hide StartAll, CommitAll, BrokenHandover, Guarded, Owned;
    var k :| 0 <= k < |running| && running[k].task.Install? && !failed[k] && p in running[k].task.ver.Texts();
    forall i | 0 <= i < |running| && running[i].task.Install? && !failed[i]
      ensures Temp(p) !in moved[i]
    {
      assert running[i] in running;
    }
    TempGone(disk, running, moved, failed, k, p);
  }

  /** A file nobody brings, drops or waits under stays, whatever names others wait under. */
  lemma {:induction false} FileStays(
    disk: Disk, running: seq<Started>, moved: seq<seq<string>>, failed: seq<bool>, at: string)
    requires |moved| == |failed| == |running| && Fetched(running, moved, failed)
    requires forall p :: Brought(running, failed, p) ==> p != at && Temp(p) != at
    requires forall s <- running :: at !in Dropped(s)
    ensures Same(disk, CommitDisks(disk, running, moved, failed), at)
    decreases |running|
  {
    if running != [] {
      assert running[0] in running && forall s <- running[1..] :: s in running;
      forall p | Brought(running[..1], [failed[0]], p) || Brought(running[1..], failed[1..], p)
        ensures p != at && Temp(p) != at
      {
        BroughtSplit(running, failed, p);
      }
      if running[0].task.Install? && !failed[0] {
        forall p | p in moved[0]
          ensures p != at && Temp(p) != at
        {
          assert Brought(running[..1], [failed[0]], p);
        }
      }
      CommitDiskElsewhere(disk, running, moved, failed, at);
      FetchedTail(running, moved, failed);
      FileStays(CommitDisk(disk, running[0], moved[0], failed[0]), running[1..], moved[1..], failed[1..], at);
    }
  }

  lemma {:induction false} UntouchedNotDropped(t: Tables, order: seq<Task>, key: Key, path: string)
    requires Guarded(t, order) && path in FilesOf(t, key) && forall task <- order :: key !in task.Keys()
    ensures forall s <- StartAll(t, order) :: path !in Dropped(s)
  {
    StartAllFaithful(t, order);
    StartAllStarted(t, order);
    var running := StartAll(t, order);
    forall s | s in running
      ensures path !in Dropped(s)
    {
      if r :| r in s.files && r.path == path {
        var owner := if s.task.Install? then s.task.ver.key else s.task.entry.row.key;
        assert owner in s.task.Keys() && s.task.EntryId() == IdOf(t, owner);
        assert r in RowsOf(t, IdOf(t, owner));
        OneOwner(t, path, key, owner);
      }
    }
  }

  /**
   * The exact condition: the file of a package that no task names is as it was if and only if no file
   * that is brought waits under its name.
   */
  lemma {:induction false} UntouchedFileStays(
    t: Tables, order: seq<Task>, disk: Disk, moved: seq<seq<string>>, failed: seq<bool>, key: Key, at: string)
    requires Guarded(t, order)
    requires var running := StartAll(t, order);
      && |moved| == |failed| == |running|
      && !BrokenHandover(running, failed) && Fetched(running, moved, failed) && Waiting(disk, running, failed)
    requires at in FilesOf(t, key) && forall task <- order :: key !in task.Keys()
    ensures var running := StartAll(t, order);
      (forall p :: Brought(running, failed, p) ==> Temp(p) != at) <==>
      Same(disk, CommitDisks(disk, running, moved, failed), at)
  {
    var running := StartAll(t, order);
    if p :| Brought(running, failed, p) && Temp(p) == at {
      TempTakesFile(t, order, disk, moved, failed, key, p);
      assert at in disk;
    } else {
      UntouchedKept(t, order, failed, key, at);
      UntouchedNotDropped(t, order, key, at);
      FileStays(disk, running, moved, failed, at);
    }
  }

  /** Such a queue exists, for any path and any two packages. */
  lemma {:induction false} TempTakesFileOnce(path: Path, a: Key, b: Key, info: Info, content: Content)
    requires Normal(path) && !path.absolute && a != b
    ensures var p := Join(path);
      var t := Tables(map[1 := EntryRow(b, info, 0)], {FileRow(1, Temp(p), 0, info.ptype)});
      var install := Install(Version(a, info, [FileSpec(path, 0, info.ptype)]), 0, Entry(0, EntryRow(a, info, 0)));
      var disk := map[Temp(p) := content];
      var running := StartAll(t, [install]);
      && Guarded(t, [install]) && Temp(p) in FilesOf(t, b)
      && |running| == 1 && Fetched(running, [[p]], [false]) && Waiting(disk, running, [false])
      && CommitAll(t, running, [false]).Some?
      && Owned(CommitAll(t, running, [false]).value, Temp(p))
      && Temp(p) !in CommitDisks(disk, running, [[p]], [false])
  {
    var p := Join(path);
    var row := FileRow(1, Temp(p), 0, info.ptype);
    var t := Tables(map[1 := EntryRow(b, info, 0)], {row});
    var ver := Version(a, info, [FileSpec(path, 0, info.ptype)]);
    var install := Install(ver, 0, Entry(0, EntryRow(a, info, 0)));
    TempInjective(p, p);
    assert ver.files[0].Text() == p;
    assert ver.Texts() == {p};
    IdOfIs(t, b, 1);
    assert !HasKey(t, a);
    assert row in RowsOf(t, IdOf(t, b));
    PushConflicts(t, ver, 0);
    assert !OwnedByOther(t, a, p);
    assert StartTables(t, install).Some?;
    var running := StartAll(t, [install]);
    StartOne(t, install);
    assert running[0].task == install && install.ver.Texts() == {p} && p in running[0].task.ver.Texts();
    assert ![false][0];
    assert Brought(running, [false], p);
    TempTakesFile(t, [install], map[Temp(p) := content], [[p]], [false], b, p);
  }
}
