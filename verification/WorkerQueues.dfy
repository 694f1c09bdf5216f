/**
 * The pool with its six workers (src/thread.cpp): every job is in the queue of one worker, which takes
 * its jobs one at a time and in order. Each run of this machine is a run of the one in `Pool`.
 */
module Workers {
  import opened Basics
  import opened Pool

  const POOL_SIZE: nat := 6

  datatype Worker = Worker(queue: seq<JobId>, current: Option<JobId>)

  /** `place` is the worker a job was pushed to. */
  datatype Machine = Machine(s: State, workers: seq<Worker>, place: map<JobId, nat>)

  const IDLE_WORKER := Worker([], None)

  function InitialMachine(ids: set<TaskId>): Machine {
    Machine(Initial(ids), seq(POOL_SIZE, i => IDLE_WORKER), map[])
  }

  /** `Take`: a worker that has no job takes the next of its queue, which an abort may have reached. */
  datatype Turn =
    | Add(id: JobId, task: TaskId, path: string, concurrent: bool)
    | Take(worker: nat)
    | Finish(worker: nat, ok: bool)
    | Tick(order: seq<Event>)
    | HandleNext
    | Abort

  /** `ThreadPool::push` counts the running jobs, the new one included, to choose a worker. */
  function WorkerFor(s: State, id: JobId, concurrent: bool): (w: nat)
    ensures w < POOL_SIZE
  {
    if concurrent then |s.running + {id}| % POOL_SIZE else 0
  }

  ghost predicate Possible(m: Machine, turn: Turn) {
    match turn
    case Take(w) => w < |m.workers| && m.workers[w].current == None && m.workers[w].queue != []
    case Finish(w, _) => w < |m.workers| && m.workers[w].current.Some?
    case _ => true
  }

  /** The step of the plain machine a turn takes. */
  function StepOf(m: Machine, turn: Turn): Step
    requires Possible(m, turn)
  {
    match turn
    case Add(id, task, path, _) => Push(id, task, path)
    case Take(w) =>
      var id := m.workers[w].queue[0];
      if id in m.s.jobs && m.s.jobs[id].abort then Skip(id) else Begin(id)
    case Finish(w, ok) => End(m.workers[w].current.value, ok)
    case Tick(order) => Swap(order)
    case HandleNext => Handle
    case Abort => AbortAll
  }

  ghost predicate CanTurn(m: Machine, turn: Turn) {
    |m.workers| == POOL_SIZE && Possible(m, turn) && Enabled(m.s, StepOf(m, turn))
  }

  function WorkersAfter(m: Machine, turn: Turn): seq<Worker>
    requires CanTurn(m, turn)
  {
    match turn
    case Add(id, _, _, concurrent) =>
      var w := WorkerFor(m.s, id, concurrent);
      m.workers[w := m.workers[w].(queue := m.workers[w].queue + [id])]
    case Take(w) =>
      var id, rest := m.workers[w].queue[0], m.workers[w].queue[1..];
      m.workers[w := Worker(rest, if m.s.jobs[id].abort then None else Some(id))]
    case Finish(w, _) => m.workers[w := m.workers[w].(current := None)]
    case _ => m.workers
  }

  function After(m: Machine, turn: Turn): Machine
    requires CanTurn(m, turn)
  {
    var place := if turn.Add? then m.place[turn.id := WorkerFor(m.s, turn.id, turn.concurrent)] else m.place;
    Machine(Apply(m.s, StepOf(m, turn)), WorkersAfter(m, turn), place)
  }

  // ----- the invariant -----

  /** A worker's queue holds the jobs pushed to it that wait, each once, and it executes the one that does. */
  ghost predicate WorkerOk(jobs: map<JobId, Job>, place: map<JobId, nat>, w: nat, worker: Worker) {
    && Distinct(worker.queue)
    && (forall id: JobId :: id in worker.queue <==> id in jobs && id in place && place[id] == w && jobs[id].phase.Queued?)
    && (forall id: JobId ::
          worker.current == Some(id) <==> id in jobs && id in place && place[id] == w && jobs[id].phase.Executing?)
  }

  ghost predicate Assigned(jobs: map<JobId, Job>, place: map<JobId, nat>, workers: seq<Worker>) {
    && |workers| == POOL_SIZE && place.Keys == jobs.Keys && (forall id <- place :: place[id] < POOL_SIZE)
    && forall w :: 0 <= w < POOL_SIZE ==> WorkerOk(jobs, place, w, workers[w])
  }

  ghost predicate MachineInv(m: Machine) {
    Inv(m.s) && Assigned(m.s.jobs, m.place, m.workers)
  }

  lemma {:induction false} InitialMachineInv(ids: set<TaskId>)
    ensures MachineInv(InitialMachine(ids))
  {
    InitialInv(ids);
  }

  /** Only who waits and who executes matters to the workers. */
  lemma {:induction false} AssignedStill(
    jobs: map<JobId, Job>, later: map<JobId, Job>, place: map<JobId, nat>, workers: seq<Worker>)
    requires Assigned(jobs, place, workers) && later.Keys == jobs.Keys
    requires forall id <- jobs ::
      (later[id].phase.Queued? <==> jobs[id].phase.Queued?) && (later[id].phase.Executing? <==> jobs[id].phase.Executing?)
    ensures Assigned(later, place, workers)
  {
    forall w | 0 <= w < POOL_SIZE
      ensures WorkerOk(later, place, w, workers[w])
    {
      assert WorkerOk(jobs, place, w, workers[w]);
    }
  }

  lemma {:induction false} AddAssigned(
    jobs: map<JobId, Job>, place: map<JobId, nat>, workers: seq<Worker>, id: JobId, job: Job, w: nat)
    requires Assigned(jobs, place, workers) && id !in jobs && job.phase.Queued? && w < POOL_SIZE
    ensures Assigned(jobs[id := job], place[id := w], workers[w := workers[w].(queue := workers[w].queue + [id])])
  {
    var after := workers[w := workers[w].(queue := workers[w].queue + [id])];
    forall v | 0 <= v < POOL_SIZE
      ensures WorkerOk(jobs[id := job], place[id := w], v, after[v])
    {
      assert WorkerOk(jobs, place, v, workers[v]);
      assert forall i: JobId :: i in workers[w].queue + [id] <==> i in workers[w].queue || i == id;
    }
  }

  lemma {:induction false} TakeAssigned(
    jobs: map<JobId, Job>, place: map<JobId, nat>, workers: seq<Worker>, w: nat, job: Job)
    requires Assigned(jobs, place, workers) && w < POOL_SIZE && workers[w].current == None && workers[w].queue != []
    requires job.phase.Executing? || job.phase.Executed?
    ensures var id := workers[w].queue[0];
      Assigned(jobs[id := job], place,
               workers[w := Worker(workers[w].queue[1..], if job.phase.Executing? then Some(id) else None)])
  {
    var id, rest := workers[w].queue[0], workers[w].queue[1..];
    var after := workers[w := Worker(rest, if job.phase.Executing? then Some(id) else None)];
    assert WorkerOk(jobs, place, w, workers[w]) && id in workers[w].queue;
    assert workers[w].queue == [id] + rest;
    assert id !in rest;
    forall v | 0 <= v < POOL_SIZE
      ensures WorkerOk(jobs[id := job], place, v, after[v])
    {
      assert WorkerOk(jobs, place, v, workers[v]);
    }
  }

  lemma {:induction false} FinishAssigned(
    jobs: map<JobId, Job>, place: map<JobId, nat>, workers: seq<Worker>, w: nat, job: Job)
    requires Assigned(jobs, place, workers) && w < POOL_SIZE && workers[w].current.Some? && job.phase.Executed?
    ensures Assigned(jobs[workers[w].current.value := job], place, workers[w := workers[w].(current := None)])
  {
    var id := workers[w].current.value;
    var after := workers[w := workers[w].(current := None)];
    assert WorkerOk(jobs, place, w, workers[w]);
    forall v | 0 <= v < POOL_SIZE
      ensures WorkerOk(jobs[id := job], place, v, after[v])
    {
      assert WorkerOk(jobs, place, v, workers[v]);
    }
  }

  lemma {:induction false} FinishExecuted(s: State)
    requires Inv(s) && Enabled(s, Handle) && s.batch[0].Finished?
    ensures s.jobs[s.batch[0].job].phase.Executed?
  {
    assert Outstanding(s, s.batch[0]) && JobOk(s, s.batch[0].job);
  }

  /** Handling an event changes no job that waits or executes. */
  lemma {:induction false} HandlePhases(s: State, k: JobId)
    requires Enabled(s, Handle) && k in s.jobs
    requires s.batch[0].Finished? ==> s.jobs[s.batch[0].job].phase.Executed?
    ensures var u := Apply(s, Handle);
      && u.jobs.Keys == s.jobs.Keys
      && (u.jobs[k].phase.Queued? <==> s.jobs[k].phase.Queued?)
      && (u.jobs[k].phase.Executing? <==> s.jobs[k].phase.Executing?)
  {
    if s.batch[0].Finished? {
      FinishedJobs(s, k);
    }
  }

  lemma {:induction false} TurnAssigned(m: Machine, turn: Turn)
    requires MachineInv(m) && CanTurn(m, turn)
    ensures var n := After(m, turn); Assigned(n.s.jobs, n.place, n.workers)
  {
    hide Inv, Assigned, WorkerOk;
    var jobs := Apply(m.s, StepOf(m, turn)).jobs;
    match turn
    case Add(id, _, _, concurrent) =>
      AddAssigned(m.s.jobs, m.place, m.workers, id, jobs[id], WorkerFor(m.s, id, concurrent));
    case Take(w) => TakeAssigned(m.s.jobs, m.place, m.workers, w, jobs[m.workers[w].queue[0]]);
    case Finish(w, _) => FinishAssigned(m.s.jobs, m.place, m.workers, w, jobs[m.workers[w].current.value]);
    case HandleNext =>
      if m.s.batch[0].Finished? {
        FinishExecuted(m.s);
      }
      forall k | k in m.s.jobs
        ensures (k in jobs && jobs.Keys == m.s.jobs.Keys
          && (jobs[k].phase.Queued? <==> m.s.jobs[k].phase.Queued?)
          && (jobs[k].phase.Executing? <==> m.s.jobs[k].phase.Executing?))
      {
        HandlePhases(m.s, k);
      }
      AssignedStill(m.s.jobs, jobs, m.place, m.workers);
    case Tick(_) =>
    case Abort => AssignedStill(m.s.jobs, jobs, m.place, m.workers);
  }

  lemma {:induction false} TurnInv(m: Machine, turn: Turn)
    requires MachineInv(m) && CanTurn(m, turn)
    ensures MachineInv(After(m, turn))
  {
    StepInv(m.s, StepOf(m, turn));
    TurnAssigned(m, turn);
  }

  // ----- runs -----

  ghost function MachineRun(m: Machine, turns: seq<Turn>): Option<Machine>
    decreases |turns|
  {
    if turns == [] then Some(m)
    else if CanTurn(m, turns[0]) then MachineRun(After(m, turns[0]), turns[1..])
    else None
  }

  /** Every run of the workers is a run of the plain machine. */
  lemma {:induction false} RunRefines(m: Machine, turns: seq<Turn>) returns (steps: seq<Step>)
    requires MachineRun(m, turns).Some?
    ensures Run(m.s, steps) == Some(MachineRun(m, turns).value.s)
    decreases |turns|
  {
    if turns == [] {
      steps := [];
    } else {
      var rest := RunRefines(After(m, turns[0]), turns[1..]);
      steps := [StepOf(m, turns[0])] + rest;
      assert steps[1..] == rest;
    }
  }

  lemma {:induction false} MachineRunInv(m: Machine, turns: seq<Turn>)
    requires MachineInv(m) && MachineRun(m, turns).Some?
    ensures MachineInv(MachineRun(m, turns).value)
    decreases |turns|
  {
    if turns != [] {
      TurnInv(m, turns[0]);
      MachineRunInv(After(m, turns[0]), turns[1..]);
    }
  }

  /** So the workers settle their tasks as the plain machine does. */
  lemma {:induction false} WorkersSettle(ids: set<TaskId>, turns: seq<Turn>, t: TaskId)
    requires MachineRun(InitialMachine(ids), turns).Some?
    requires var s := MachineRun(InitialMachine(ids), turns).value.s; t in s.tasks && s.running == {}
    ensures var m := MachineRun(InitialMachine(ids), turns).value;
      && Settled(m.s, t)
      && forall w :: 0 <= w < |m.workers| ==> m.workers[w] == IDLE_WORKER
  {
    var m := MachineRun(InitialMachine(ids), turns).value;
    var steps := RunRefines(InitialMachine(ids), turns);
    Settlement(ids, steps, t);
    InitialMachineInv(ids);
    MachineRunInv(InitialMachine(ids), turns);
    forall w | 0 <= w < |m.workers|
      ensures m.workers[w] == IDLE_WORKER
    {
      NothingLeft(m, w);
    }
  }

  /** A worker that is not idle has a job that waits or executes. */
  lemma {:induction false} HasJob(jobs: map<JobId, Job>, place: map<JobId, nat>, w: nat, worker: Worker)
    requires WorkerOk(jobs, place, w, worker) && worker != IDLE_WORKER
    ensures exists id <- jobs :: jobs[id].phase.Queued? || jobs[id].phase.Executing?
  {
    if worker.queue != [] {
      assert worker.queue[0] in worker.queue;
    } else {
      assert worker.current == Some(worker.current.value);
    }
  }

  lemma {:induction false} NothingLeft(m: Machine, w: nat)
    requires MachineInv(m) && m.s.running == {} && w < POOL_SIZE
    ensures m.workers[w] == IDLE_WORKER
  {
    hide Assigned, WorkerOk;
    forall id: JobId | id in m.s.jobs
      ensures m.s.jobs[id].phase.Deleted?
    {
      assert JobOk(m.s, id);
    }
    WorkerAt(m.s.jobs, m.place, m.workers, w);
    if m.workers[w] != IDLE_WORKER {
      HasJob(m.s.jobs, m.place, w, m.workers[w]);
    }
  }

  lemma {:induction false} WorkerAt(jobs: map<JobId, Job>, place: map<JobId, nat>, workers: seq<Worker>, w: nat)
    requires Assigned(jobs, place, workers) && w < POOL_SIZE
    ensures |workers| == POOL_SIZE && WorkerOk(jobs, place, w, workers[w])
  {
  }

  /** A step of a worker or of the event loop. */
  predicate Inner(turn: Turn) {
    !turn.Add? && !turn.Abort?
  }

  /** What a worker with a job does next: finish the one it executes, or take the next. */
  function TurnOf(m: Machine, w: nat, ok: bool): Turn
    requires w < |m.workers|
  {
    if m.workers[w].current.Some? then Finish(w, ok) else Take(w)
  }

  lemma {:induction false} BusyCan(m: Machine, w: nat, ok: bool)
    requires |m.workers| == POOL_SIZE && w < POOL_SIZE && WorkerOk(m.s.jobs, m.place, w, m.workers[w])
    requires m.workers[w] != IDLE_WORKER
    ensures Inner(TurnOf(m, w, ok)) && CanTurn(m, TurnOf(m, w, ok))
  {
    var worker := m.workers[w];
    if worker.current.None? {
      assert worker.queue[0] in worker.queue;
    }
  }

  lemma {:induction false} NotIdle(jobs: map<JobId, Job>, place: map<JobId, nat>, w: nat, worker: Worker, id: JobId)
    requires WorkerOk(jobs, place, w, worker) && id in jobs && id in place && place[id] == w
    requires jobs[id].phase.Queued? || jobs[id].phase.Executing?
    ensures worker != IDLE_WORKER
  {
  }

  /** While a job is left, a worker can take or finish one, or the event loop can go on. */
  lemma {:induction false} WorkersNeverStuck(m: Machine) returns (turn: Turn)
    requires MachineInv(m) && m.s.running != {}
    ensures Inner(turn) && CanTurn(m, turn)
  {
    hide Inv;
    var id := SomeRunning(m.s);
    if m.s.jobs[id].phase.Executed? {
      var step := LoopGoesOn(m.s, id);
      turn := if step.Handle? then HandleNext else Tick(step.order);
    } else {
      var w := m.place[id];
      WorkerAt(m.s.jobs, m.place, m.workers, w);
      NotIdle(m.s.jobs, m.place, w, m.workers[w], id);
      BusyCan(m, w, true);
      turn := TurnOf(m, w, true);
    }
  }

  lemma {:induction false} SomeRunning(s: State) returns (id: JobId)
    requires Inv(s) && s.running != {}
    ensures id in s.jobs && !s.jobs[id].phase.Deleted?
  {
    id :| id in s.running;
    assert JobOk(s, id);
  }

  lemma {:induction false} TurnDecreases(m: Machine, turn: Turn)
    requires MachineInv(m) && CanTurn(m, turn) && Inner(turn)
    ensures Work(After(m, turn).s) < Work(m.s)
  {
    InternalDecreases(m.s, StepOf(m, turn));
  }

  /** From any reachable state some run of workers and ticks alone empties the pool... */
  lemma {:induction false} WorkersCanDrain(m: Machine) returns (turns: seq<Turn>)
    requires MachineInv(m)
    ensures MachineRun(m, turns).Some? && MachineRun(m, turns).value.s.running == {}
    ensures forall turn <- turns :: Inner(turn)
    decreases Work(m.s)
  {
    hide MachineInv, Enabled, Apply, WorkersAfter, Possible, Work;
    if m.s.running == {} {
      turns := [];
    } else {
      var turn := WorkersNeverStuck(m);
      TurnInv(m, turn);
      TurnDecreases(m, turn);
      var rest := WorkersCanDrain(After(m, turn));
      turns := [turn] + rest;
      assert turns[1..] == rest;
    }
  }

  /** ...and every run of theirs is that short: whatever they do, they get there. */
  lemma {:induction false} WorkersMustDrain(m: Machine, turns: seq<Turn>)
    requires MachineInv(m) && (forall turn <- turns :: Inner(turn)) && MachineRun(m, turns).Some?
    ensures |turns| <= Work(m.s)
    ensures |turns| == Work(m.s) ==> MachineRun(m, turns).value.s.running == {}
    decreases |turns|
  {
    if turns == [] {
      if m.s.running != {} {
        var turn := WorkersNeverStuck(m);
        TurnDecreases(m, turn);
      }
    } else {
      assert turns[0] in turns;
      TurnInv(m, turns[0]);
      TurnDecreases(m, turns[0]);
      WorkersMustDrain(After(m, turns[0]), turns[1..]);
    }
  }

  // ----- which worker, and in which order -----

  ghost function Unfinished(s: State): set<JobId> {
    set id | id in s.jobs && !s.jobs[id].phase.Deleted?
  }

  lemma {:induction false} RunningAre(s: State)
    requires Inv(s)
    ensures s.running == Unfinished(s)
  {
    forall id | id in s.jobs
      ensures id in s.running <==> !s.jobs[id].phase.Deleted?
    {
      assert JobOk(s, id);
    }
  }

  /** A concurrent job goes to the worker numbered by the jobs there then are, any other to the first worker. */
  lemma {:induction false} PlacedBy(m: Machine, turn: Turn)
    requires MachineInv(m) && CanTurn(m, turn) && turn.Add?
    ensures var n := After(m, turn);
      n.place == m.place[turn.id := if turn.concurrent then |Unfinished(n.s)| % 6 else 0]
  {
    RunningAre(m.s);
    PushedUnfinished(m.s, StepOf(m, turn));
    hide MachineInv, Apply, Unfinished, WorkersAfter;
  }

  lemma {:induction false} PushedUnfinished(s: State, step: Step)
    requires Enabled(s, step) && step.Push?
    ensures Unfinished(Apply(s, step)) == Unfinished(s) + {step.id}
  {
  }

  /** While the later one of two jobs waits in a queue, the earlier one is before it there or has been taken. */
  ghost predicate Ahead(queue: seq<JobId>, a: JobId, b: JobId) {
    b in queue && a in queue ==> exists i, j :: 0 <= i < j < |queue| && queue[i] == a && queue[j] == b
  }

  ghost predicate InOrder(jobs: map<JobId, Job>, place: map<JobId, nat>, queue: seq<JobId>, w: nat, a: JobId, b: JobId) {
    && a in jobs && b in jobs && a in place && b in place && place[a] == place[b] == w
    && Ahead(queue, a, b) && (jobs[a].phase.Queued? ==> jobs[b].phase.Queued?)
  }

  lemma {:induction false} AheadLess(queue: seq<JobId>, a: JobId, b: JobId)
    requires Distinct(queue) && queue != [] && Ahead(queue, a, b)
    ensures Ahead(queue[1..], a, b)
    ensures a in queue && b in queue ==> queue[0] != b
  {
    if a in queue && b in queue {
      var i, j :| 0 <= i < j < |queue| && queue[i] == a && queue[j] == b;
      if i > 0 {
        assert queue[1..][i - 1] == a && queue[1..][j - 1] == b;
      }
    }
  }

  lemma {:induction false} AheadMore(queue: seq<JobId>, id: JobId, a: JobId, b: JobId)
    requires Ahead(queue, a, b) && a != id && b != id
    ensures Ahead(queue + [id], a, b)
  {
    if a in queue && b in queue {
      var i, j :| 0 <= i < j < |queue| && queue[i] == a && queue[j] == b;
      assert (queue + [id])[i] == a && (queue + [id])[j] == b;
    }
  }

  /** Only a worker's own take makes a job of its queue cease to wait. */
  lemma {:induction false} WaitsStill(m: Machine, turn: Turn, k: JobId)
    requires CanTurn(m, turn) && k in m.s.jobs && m.place.Keys == m.s.jobs.Keys
    requires turn.HandleNext? && m.s.batch[0].Finished? ==> m.s.jobs[m.s.batch[0].job].phase.Executed?
    ensures var n := After(m, turn);
      && k in n.s.jobs && k in m.place && k in n.place && n.place[k] == m.place[k]
      && (n.s.jobs[k].phase.Queued? <==>
          m.s.jobs[k].phase.Queued? && !(turn.Take? && m.workers[turn.worker].queue[0] == k))
  {
    assert turn.Add? ==> turn.id != k;
    StepQueued(m.s, StepOf(m, turn), k);
    hide Apply, WorkersAfter;
  }

  lemma {:induction false} StepQueued(s: State, step: Step, k: JobId)
    requires Enabled(s, step) && k in s.jobs
    requires step.Handle? && s.batch[0].Finished? ==> s.jobs[s.batch[0].job].phase.Executed?
    ensures var u := Apply(s, step);
      && k in u.jobs
      && (u.jobs[k].phase.Queued? <==> s.jobs[k].phase.Queued? && !((step.Begin? || step.Skip?) && step.id == k))
  {
    if step.Handle? {
      HandlePhases(s, k);
    }
  }

  /** What a turn does to the queue of a worker. */
  lemma {:induction false} QueueAfter(m: Machine, turn: Turn, w: nat)
    requires CanTurn(m, turn) && w < POOL_SIZE
    ensures var queue, n := m.workers[w].queue, After(m, turn);
      && |n.workers| == POOL_SIZE
      && n.workers[w].queue ==
         if turn == Take(w) then queue[1..]
         else if turn.Add? && n.place[turn.id] == w then queue + [turn.id]
         else queue
  {
    hide Apply;
  }

  lemma {:induction false} InOrderStays(m: Machine, turn: Turn, w: nat, a: JobId, b: JobId)
    requires MachineInv(m) && CanTurn(m, turn) && w < POOL_SIZE && InOrder(m.s.jobs, m.place, m.workers[w].queue, w, a, b)
    ensures var n := After(m, turn); |n.workers| == POOL_SIZE && InOrder(n.s.jobs, n.place, n.workers[w].queue, w, a, b)
  {
    if turn.HandleNext? && m.s.batch[0].Finished? {
      FinishExecuted(m.s);
    }
    hide Inv;
    InOrderNext(m, turn, w, a, b);
  }

  lemma {:induction false} InOrderNext(m: Machine, turn: Turn, w: nat, a: JobId, b: JobId)
    requires Assigned(m.s.jobs, m.place, m.workers) && CanTurn(m, turn)
    requires turn.HandleNext? && m.s.batch[0].Finished? ==> m.s.jobs[m.s.batch[0].job].phase.Executed?
    requires w < POOL_SIZE && InOrder(m.s.jobs, m.place, m.workers[w].queue, w, a, b)
    ensures var n := After(m, turn); |n.workers| == POOL_SIZE && InOrder(n.s.jobs, n.place, n.workers[w].queue, w, a, b)
  {
    WaitsStill(m, turn, a);
    WaitsStill(m, turn, b);
    QueueAfter(m, turn, w);
    WorkerAt(m.s.jobs, m.place, m.workers, w);
    if turn.Take? {
      TakeOrder(m, turn.worker, w, a, b);
    }
    hide Assigned, Ahead, After;
    if turn == Take(w) {
      AheadLess(m.workers[w].queue, a, b);
    } else if turn.Add? {
      AheadMore(m.workers[w].queue, turn.id, a, b);
    }
  }

  /** The later job is not taken while the earlier one waits. */
  lemma {:induction false} TakeOrder(m: Machine, v: nat, w: nat, a: JobId, b: JobId)
    requires Assigned(m.s.jobs, m.place, m.workers) && v < POOL_SIZE && m.workers[v].queue != []
    requires w < POOL_SIZE && InOrder(m.s.jobs, m.place, m.workers[w].queue, w, a, b)
    ensures m.s.jobs[a].phase.Queued? ==> m.workers[v].queue[0] != b
  {
    WorkerAt(m.s.jobs, m.place, m.workers, v);
    WorkerAt(m.s.jobs, m.place, m.workers, w);
    assert m.workers[v].queue[0] in m.workers[v].queue;
    hide Assigned, Ahead;
    AheadLess(m.workers[v].queue, a, b);
  }

  lemma {:induction false} InOrderAlways(m: Machine, turns: seq<Turn>, w: nat, a: JobId, b: JobId)
    requires MachineInv(m) && MachineRun(m, turns).Some?
    requires w < POOL_SIZE && InOrder(m.s.jobs, m.place, m.workers[w].queue, w, a, b)
    ensures var n := MachineRun(m, turns).value;
      |n.workers| == POOL_SIZE && InOrder(n.s.jobs, n.place, n.workers[w].queue, w, a, b)
    decreases |turns|
  {
    hide Inv, InOrder, After, WorkerOk;
    if turns == [] {
      assert Assigned(m.s.jobs, m.place, m.workers);
    } else {
      TurnInv(m, turns[0]);
      InOrderStays(m, turns[0], w, a, b);
      InOrderAlways(After(m, turns[0]), turns[1..], w, a, b);
    }
  }

  lemma {:induction false} PushedLast(m: Machine, push: Turn, earlier: JobId)
    requires MachineInv(m) && CanTurn(m, push) && push.Add?
    requires earlier in m.place && After(m, push).place[push.id] == m.place[earlier]
    ensures var n := After(m, push); var w := m.place[earlier];
      w < POOL_SIZE && |n.workers| == POOL_SIZE && InOrder(n.s.jobs, n.place, n.workers[w].queue, w, earlier, push.id)
  {
    var w := m.place[earlier];
    assert earlier in m.s.jobs && w < POOL_SIZE;
    WorkerAt(m.s.jobs, m.place, m.workers, w);
    WaitsStill(m, push, earlier);
    QueueAfter(m, push, w);
    var queue := m.workers[w].queue;
    assert push.id !in queue;
    assert push.id in After(m, push).s.jobs && After(m, push).s.jobs[push.id].phase.Queued?;
    hide MachineInv, After, WorkerOk;
    if earlier in queue {
      var i :| 0 <= i < |queue| && queue[i] == earlier;
      assert (queue + [push.id])[i] == earlier && (queue + [push.id])[|queue|] == push.id;
    }
  }

  /** A worker takes its jobs in the order in which they were pushed to it, whatever else goes on. */
  lemma {:induction false} TakenInOrder(m: Machine, push: Turn, turns: seq<Turn>, earlier: JobId)
    requires MachineInv(m) && CanTurn(m, push) && push.Add? && MachineRun(After(m, push), turns).Some?
    requires earlier in m.place && After(m, push).place[push.id] == m.place[earlier]
    ensures var s := MachineRun(After(m, push), turns).value.s;
      earlier in s.jobs && push.id in s.jobs && (s.jobs[earlier].phase.Queued? ==> s.jobs[push.id].phase.Queued?)
  {
    hide Inv, Assigned, Ahead;
    PushedLast(m, push, earlier);
    TurnInv(m, push);
    InOrderAlways(After(m, push), turns, m.place[earlier], earlier, push.id);
  }
}
