/**
 * The pool at work for the installs of a transaction (src/thread.cpp, src/event.cpp, src/install.cpp):
 * jobs are pushed while workers already execute others, then workers and ticks go on until none is left.
 * Which worker goes next, how a job ends, the order of a tick's events and when the user cancels are open.
 */
module Downloads {
  import opened Basics
  import opened Pool
  import opened Workers

  // ----- what a turn leaves as it is -----

  /** The jobs of every task, with the paths they are for. */
  ghost predicate SameJobs(s: State, u: State) {
    && u.jobs.Keys == s.jobs.Keys && u.tasks.Keys == s.tasks.Keys
    && (forall id <- s.jobs :: u.jobs[id].path == s.jobs[id].path)
    && (forall t <- s.tasks :: u.tasks[t].jobs == s.tasks[t].jobs)
  }

  lemma {:induction false} StepSameJobs(s: State, step: Step)
    requires Enabled(s, step) && !step.Push?
    ensures SameJobs(s, Apply(s, step))
  {
    if step.Handle? && s.batch[0].Finished? {
      var u := Apply(s, step);
      forall id | id in s.jobs
        ensures id in u.jobs && u.jobs.Keys == s.jobs.Keys && u.jobs[id].path == s.jobs[id].path
      {
        FinishedJobs(s, id);
        assert u.jobs[id].(abort := s.jobs[id].abort).path == u.jobs[id].path;
      }
    }
  }

  /** A task's jobs are for these paths, in this order. */
  ghost predicate JobsFor(s: State, t: TaskId, paths: seq<string>) {
    && t in s.tasks && |s.tasks[t].jobs| == |paths|
    && forall k :: 0 <= k < |paths| ==> s.tasks[t].jobs[k] in s.jobs && s.jobs[s.tasks[t].jobs[k]].path == paths[k]
  }

  lemma {:induction false} SameJobsFor(s: State, u: State, t: TaskId, paths: seq<string>)
    requires SameJobs(s, u) && JobsFor(s, t, paths)
    ensures JobsFor(u, t, paths)
  {
  }

  lemma {:induction false} PushedFor(s: State, step: Step, t: TaskId, paths: seq<string>)
    requires Enabled(s, step) && step.Push? && JobsFor(s, t, paths)
    ensures JobsFor(Apply(s, step), t, if t == step.task then paths + [step.path] else paths)
  {
  }

  lemma {:induction false} RenamedAre(m: map<JobId, string>, ids: seq<JobId>, paths: seq<string>)
    requires |ids| == |paths| && (forall i <- ids :: i in m) && forall k :: 0 <= k < |ids| ==> m[ids[k]] == paths[k]
    ensures Renamed(m, ids) == paths
    decreases |ids|
  {
    if ids != [] {
      RenamedAre(m, ids[1..], paths[1..]);
      assert paths == [paths[0]] + paths[1..];
    }
  }

  lemma {:induction false} JobsForPaths(s: State, t: TaskId, paths: seq<string>)
    requires JobsFor(s, t, paths)
    ensures (forall j <- s.tasks[t].jobs :: j in s.jobs) && PathsOf(s, s.tasks[t].jobs) == paths
  {
    var jobs := s.tasks[t].jobs;
    forall j | j in jobs
      ensures j in s.jobs
    {
      var k :| 0 <= k < |jobs| && jobs[k] == j;
      assert s.jobs[jobs[k]].path == paths[k];
    }
    RenamedAre(map id | id in s.jobs :: s.jobs[id].path, jobs, paths);
  }

  // ----- runs -----

  function Ids(n: nat): (ids: set<TaskId>)
    ensures forall t: TaskId :: t in ids <==> t < n
  {
    if n == 0 then {} else Ids(n - 1) + {n - 1}
  }

  ghost predicate Reached(n: nat, turns: seq<Turn>, m: Machine) {
    MachineRun(InitialMachine(Ids(n)), turns) == Some(m)
  }

  lemma {:induction false} RunAppend(m: Machine, turns: seq<Turn>, turn: Turn)
    requires MachineRun(m, turns).Some? && CanTurn(MachineRun(m, turns).value, turn)
    ensures MachineRun(m, turns + [turn]) == Some(After(MachineRun(m, turns).value, turn))
    decreases |turns|
  {
    hide CanTurn, After;
    if turns == [] {
      assert [turn][1..] == [];
      assert MachineRun(After(m, turn), []) == Some(After(m, turn));
    } else {
      assert (turns + [turn])[1..] == turns[1..] + [turn];
      RunAppend(After(m, turns[0]), turns[1..], turn);
    }
  }

  lemma {:induction false} TurnCancels(m: Machine, turn: Turn)
    requires CanTurn(m, turn)
    ensures After(m, turn).s.cancelled <==> m.s.cancelled || turn.Abort?
  {
    hide WorkersAfter;
  }

  lemma {:induction false} OneTurn(n: nat, turns: seq<Turn>, m: Machine, turn: Turn)
    requires Reached(n, turns, m) && MachineInv(m) && CanTurn(m, turn)
    ensures Reached(n, turns + [turn], After(m, turn)) && MachineInv(After(m, turn))
    ensures !turn.Add? ==> SameJobs(m.s, After(m, turn).s)
    ensures Inner(turn) ==> Work(After(m, turn).s) < Work(m.s)
    ensures After(m, turn).s.cancelled <==> m.s.cancelled || turn.Abort?
  {
    TurnCancels(m, turn);
    hide CanTurn, Possible, MachineInv, Enabled, Apply, Work, SameJobs;
    RunAppend(InitialMachine(Ids(n)), turns, turn);
    TurnInv(m, turn);
    if !turn.Add? {
      TurnSameJobs(m, turn);
    }
    if Inner(turn) {
      TurnDecreases(m, turn);
    }
  }

  lemma {:induction false} TurnSameJobs(m: Machine, turn: Turn)
    requires CanTurn(m, turn) && !turn.Add?
    ensures SameJobs(m.s, After(m, turn).s)
  {
    StepSameJobs(m.s, StepOf(m, turn));
  }

  // ----- choices -----

  /** The events of a tick in some order, a job's start before its finish. */
  method MakeOrder(events: set<Event>) returns (order: seq<Event>)
    ensures TickOrder(events, order)
  {
    var rest := events;
    order := [];
    while rest != {}
      invariant rest <= events && (forall e :: e in events <==> e in order || e in rest)
      invariant Distinct(order) && forall e <- order :: e !in rest
      invariant forall e <- order :: e.Finished? ==> Started(e.job) !in rest
      invariant forall a, b :: 0 <= b < a < |order| && order[a].Started? ==> order[b] != Finished(order[a].job)
      decreases rest
    {
      var e := Pick(rest);
      if e.Finished? && Started(e.job) in rest {
        e := Started(e.job);
      }
      order, rest := order + [e], rest - {e};
    }
  }

  /** A turn of some worker that is not idle, or else of the event loop: any of those possible. */
  method NextTurn(m: Machine) returns (turn: Turn)
    requires MachineInv(m) && m.s.running != {}
    ensures Inner(turn) && CanTurn(m, turn)
  {
    hide Inv, WorkerOk, CanTurn;
    MachineSize(m);
    var w: int := *;
    var ok: bool := *;
    if 0 <= w < POOL_SIZE && m.workers[w] != IDLE_WORKER {
      WorkerCan(m, w, ok);
      return TurnOf(m, w, ok);
    }
    if m.s.batch != [] {
      LoopCanHandle(m);
      return HandleNext;
    }
    if m.s.pending != {} {
      var order := MakeOrder(m.s.pending);
      LoopCanSwap(m, order);
      return Tick(order);
    }
    w := 0;
    while m.workers[w] == IDLE_WORKER
      invariant 0 <= w < POOL_SIZE && forall v :: 0 <= v < w ==> m.workers[v] == IDLE_WORKER
      decreases POOL_SIZE - w
    {
      if w == POOL_SIZE - 1 {
        SomeoneBusy(m);
      }
      w := w + 1;
    }
    WorkerCan(m, w, ok);
    return TurnOf(m, w, ok);
  }

  lemma {:induction false} MachineSize(m: Machine)
    requires MachineInv(m)
    ensures |m.workers| == POOL_SIZE
  {
  }

  lemma {:induction false} WorkerCan(m: Machine, w: nat, ok: bool)
    requires MachineInv(m) && w < POOL_SIZE && |m.workers| == POOL_SIZE && m.workers[w] != IDLE_WORKER
    ensures Inner(TurnOf(m, w, ok)) && CanTurn(m, TurnOf(m, w, ok))
  {
    hide Inv, WorkerOk;
    WorkerAt(m.s.jobs, m.place, m.workers, w);
    BusyCan(m, w, ok);
  }

  lemma {:induction false} LoopCanHandle(m: Machine)
    requires MachineInv(m) && m.s.batch != []
    ensures CanTurn(m, HandleNext)
  {
    assert Outstanding(m.s, m.s.batch[0]) && JobOk(m.s, m.s.batch[0].job);
  }

  lemma {:induction false} LoopCanSwap(m: Machine, order: seq<Event>)
    requires MachineInv(m) && m.s.batch == [] && m.s.pending != {} && TickOrder(m.s.pending, order)
    ensures CanTurn(m, Tick(order))
  {
  }

  /** With no event on the way a job that is left is a worker's. */
  lemma {:induction false} SomeoneBusy(m: Machine)
    requires MachineInv(m) && m.s.running != {} && m.s.batch == [] && m.s.pending == {}
    ensures exists w :: 0 <= w < |m.workers| && m.workers[w] != IDLE_WORKER
  {
    hide Inv, WorkerOk;
    var id := SomeRunning(m.s);
    if m.s.jobs[id].phase.Executed? {
      var step := LoopGoesOn(m.s, id);
    }
    var w := m.place[id];
    WorkerAt(m.s.jobs, m.place, m.workers, w);
    NotIdle(m.s.jobs, m.place, w, m.workers[w], id);
  }

  // ----- the pool at work -----

  /** Workers go on for a while, and the event loop too if it may. */
  method GoOn(m: Machine, n: nat, ghost turns: seq<Turn>) returns (m': Machine, ghost turns': seq<Turn>)
    requires Reached(n, turns, m) && MachineInv(m)
    ensures Reached(n, turns', m') && MachineInv(m') && SameJobs(m.s, m'.s)
    ensures m'.s.cancelled == m.s.cancelled
  {
    hide Reached, MachineInv, CanTurn, SameJobs;
    m', turns' := m, turns;
    SameJobsItself(m.s);
    var again: bool := *;
    while again && m'.s.running != {}
      invariant Reached(n, turns', m') && MachineInv(m') && SameJobs(m.s, m'.s) && m'.s.cancelled == m.s.cancelled
      decreases Work(m'.s)
    {
      var turn := NextTurn(m');
      OneTurn(n, turns', m', turn);
      SameJobsOn(m.s, m'.s, After(m', turn).s);
      m', turns' := After(m', turn), turns' + [turn];
      again := *;
    }
  }

  lemma {:induction false} SameJobsItself(s: State)
    ensures SameJobs(s, s)
  {
  }

  lemma {:induction false} SameJobsOn(s: State, u: State, v: State)
    requires SameJobs(s, u) && SameJobs(u, v)
    ensures SameJobs(s, v)
  {
  }

  /** Until no job is left; the user may cancel meanwhile. */
  method Drain(m: Machine, n: nat, ghost turns: seq<Turn>) returns (m': Machine, cancelled: bool, ghost turns': seq<Turn>)
    requires Reached(n, turns, m) && MachineInv(m) && !m.s.cancelled
    ensures Reached(n, turns', m') && MachineInv(m') && SameJobs(m.s, m'.s) && m'.s.running == {}
    ensures cancelled <==> m'.s.cancelled
  {
    hide Reached, MachineInv, CanTurn, SameJobs;
    m', turns', cancelled := m, turns, false;
    SameJobsItself(m.s);
    while m'.s.running != {}
      invariant Reached(n, turns', m') && MachineInv(m') && SameJobs(m.s, m'.s)
      invariant cancelled <==> m'.s.cancelled
      decreases !cancelled, Work(m'.s)
    {
      var turn := NextTurn(m');
      var cancel: bool := *;
      if cancel && !cancelled {
        AbortCan(m');
        turn, cancelled := Abort, true;
      }
      OneTurn(n, turns', m', turn);
      SameJobsOn(m.s, m'.s, After(m', turn).s);
      m', turns' := After(m', turn), turns' + [turn];
    }
  }

  lemma {:induction false} AbortCan(m: Machine)
    requires MachineInv(m)
    ensures CanTurn(m, Abort)
  {
  }

  /** The files pushed so far: all of the tasks before `t`, the first `k` of `t`, none of those after. */
  function SoFar(texts: seq<seq<string>>, t: nat, k: nat, i: nat): seq<string>
    requires i < |texts| && (t < |texts| ==> k <= |texts[t]|)
  {
    if i < t then texts[i] else if i == t then texts[i][..k] else []
  }

  ghost predicate Pushed(s: State, texts: seq<seq<string>>, t: nat, k: nat, next: JobId) {
    && (t < |texts| ==> k <= |texts[t]|)
    && (forall id <- s.jobs :: id < next)
    && forall i :: 0 <= i < |texts| ==> JobsFor(s, i, SoFar(texts, t, k, i))
  }

  lemma {:induction false} PushedStill(s: State, u: State, texts: seq<seq<string>>, t: nat, k: nat, next: JobId)
    requires Pushed(s, texts, t, k, next) && SameJobs(s, u)
    ensures Pushed(u, texts, t, k, next)
  {
    hide JobsFor;
    forall i | 0 <= i < |texts|
      ensures JobsFor(u, i, SoFar(texts, t, k, i))
    {
      SameJobsFor(s, u, i, SoFar(texts, t, k, i));
    }
    assert forall id :: id in u.jobs ==> id in s.jobs;
  }

  lemma {:induction false} PushedOne(m: Machine, texts: seq<seq<string>>, t: nat, k: nat, next: JobId, turn: Turn)
    requires MachineInv(m) && Pushed(m.s, texts, t, k, next) && t < |texts| && k < |texts[t]|
    requires turn.Add? && turn.id == next && turn.task == t && turn.path == texts[t][k]
    ensures CanTurn(m, turn) && Pushed(After(m, turn).s, texts, t, k + 1, next + 1)
  {
    assert JobsFor(m.s, t, SoFar(texts, t, k, t));
    assert CanTurn(m, turn);
    AddedOne(m.s, StepOf(m, turn), texts, t, k, next);
  }

  lemma {:induction false} AddedOne(s: State, step: Step, texts: seq<seq<string>>, t: nat, k: nat, next: JobId)
    requires Pushed(s, texts, t, k, next) && t < |texts| && k < |texts[t]|
    requires Enabled(s, step) && step == Push(next, t, texts[t][k])
    ensures Pushed(Apply(s, step), texts, t, k + 1, next + 1)
  {
    hide JobsFor;
    var more := k + 1;
    forall i | 0 <= i < |texts|
      ensures JobsFor(Apply(s, step), i, SoFar(texts, t, more, i))
    {
      PushedFor(s, step, i, SoFar(texts, t, k, i));
      assert texts[t][..k] + [texts[t][k]] == texts[t][..k + 1];
    }
  }

  lemma {:induction false} PushedNext(s: State, texts: seq<seq<string>>, t: nat, next: JobId)
    requires t < |texts| && Pushed(s, texts, t, |texts[t]|, next)
    ensures Pushed(s, texts, t + 1, 0, next)
  {
    hide JobsFor;
    var later := t + 1;
    forall i | 0 <= i < |texts|
      ensures JobsFor(s, i, SoFar(texts, later, 0, i))
    {
      assert JobsFor(s, i, SoFar(texts, t, |texts[t]|, i));
      assert texts[t][..|texts[t]|] == texts[t];
      assert i == later ==> texts[i][..0] == [];
    }
  }

  lemma {:induction false} PushedNone(texts: seq<seq<string>>)
    ensures Pushed(InitialMachine(Ids(|texts|)).s, texts, 0, 0, 0)
  {
    forall i | 0 <= i < |texts|
      ensures SoFar(texts, 0, 0, i) == []
    {
    }
  }

  /**
   * Tasks push a job for each of their files, and the pool works until no job is left. What it ends in
   * is reached by the six workers, and every task is settled there.
   */
  method RunJobs(texts: seq<seq<string>>) returns (m: Machine, cancelled: bool, ghost turns: seq<Turn>)
    ensures Reached(|texts|, turns, m) && m.s.running == {} && (cancelled <==> m.s.cancelled)
    ensures forall t :: 0 <= t < |texts| ==> JobsFor(m.s, t, texts[t]) && Settled(m.s, t)
  {
    hide Reached, MachineInv, CanTurn, SameJobs, Pushed, JobsFor, Settled;
    var n, next: JobId := |texts|, 0;
    m, turns := InitialMachine(Ids(n)), [];
    ReachedFirst(n);
    PushedNone(texts);
    for t := 0 to |texts|
      invariant Reached(n, turns, m) && MachineInv(m) && Pushed(m.s, texts, t, 0, next) && !m.s.cancelled
    {
      for k := 0 to |texts[t]|
        invariant Reached(n, turns, m) && MachineInv(m) && Pushed(m.s, texts, t, k, next) && !m.s.cancelled
      {
        var concurrent: bool := *;
        var turn := Add(next, t, texts[t][k], concurrent);
        PushedOne(m, texts, t, k, next, turn);
        OneTurn(n, turns, m, turn);
        m, turns, next := After(m, turn), turns + [turn], next + 1;
        ghost var before := m;
        m, turns := GoOn(m, n, turns);
        PushedStill(before.s, m.s, texts, t, k + 1, next);
      }
      PushedNext(m.s, texts, t, next);
    }
    ghost var before := m;
    m, cancelled, turns := Drain(m, n, turns);
    PushedStill(before.s, m.s, texts, |texts|, 0, next);
    AllSettledThere(texts, m, turns, next);
  }

  lemma {:induction false} ReachedFirst(n: nat)
    ensures Reached(n, [], InitialMachine(Ids(n))) && MachineInv(InitialMachine(Ids(n)))
  {
    InitialMachineInv(Ids(n));
  }

  lemma {:induction false} AllSettledThere(texts: seq<seq<string>>, m: Machine, turns: seq<Turn>, next: JobId)
    requires Reached(|texts|, turns, m) && m.s.running == {} && Pushed(m.s, texts, |texts|, 0, next)
    ensures forall t :: 0 <= t < |texts| ==> JobsFor(m.s, t, texts[t]) && Settled(m.s, t)
  {
    hide MachineRun;
    forall t | 0 <= t < |texts|
      ensures JobsFor(m.s, t, texts[t]) && Settled(m.s, t)
    {
      assert JobsFor(m.s, t, SoFar(texts, |texts|, 0, t));
      WorkersSettle(Ids(|texts|), turns, t);
    }
  }
}
