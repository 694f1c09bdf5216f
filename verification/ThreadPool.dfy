/**
 * Download jobs, worker threads and the main thread's event loop as one state machine
 * (src/thread.cpp, src/event.cpp, src/event.hpp, and the handlers of src/install.cpp).
 * Worker steps interleave freely with each other, with aborts and with the loop.
 */
module Pool {
  import opened Basics

  type JobId = nat
  type TaskId = nat

  datatype Phase = Queued | Executing | Executed | Deleted

  datatype Outcome = NoOutcome | Success | Failure | Aborted

  /** `began`: the start event was posted. `announced`: its handler has run. */
  datatype Job = Job(task: TaskId, path: string, abort: bool, phase: Phase, outcome: Outcome, began: bool, announced: bool)

  datatype Event = Started(job: JobId) | Finished(job: JobId)

  /** The fields of an install task; files are named by the job that fetches them. */
  datatype TaskState = TaskState(jobs: seq<JobId>, newFiles: seq<JobId>, waiting: set<JobId>, fail: bool)

  /** `pending` is the loop's queue, `batch` what the current tick has swapped out and not yet run. */
  datatype State = State(
    jobs: map<JobId, Job>, running: set<JobId>, tasks: map<TaskId, TaskState>,
    pending: set<Event>, batch: seq<Event>, cancelled: bool)

  function Initial(ids: set<TaskId>): State {
    State(map[], {}, map t | t in ids :: TaskState([], [], {}, false), {}, [], false)
  }

  datatype Step =
    | Push(id: JobId, task: TaskId, path: string)
    | Begin(id: JobId)
    | Skip(id: JobId)
    | End(id: JobId, ok: bool)
    | Swap(order: seq<Event>)
    | Handle
    | AbortAll

  /** An order in which a tick may run its events: by emitter address, a job's start before its finish. */
  ghost predicate TickOrder(events: set<Event>, order: seq<Event>) {
    && (forall e :: e in order <==> e in events)
    && Distinct(order)
    && (forall a, b :: 0 <= b < a < |order| && order[a].Started? ==> order[b] != Finished(order[a].job))
  }

  ghost predicate Enabled(s: State, step: Step) {
    match step
    case Push(id, task, _) => id !in s.jobs && task in s.tasks
    case Begin(id) => id in s.jobs && s.jobs[id].phase.Queued? && !s.jobs[id].abort
    case Skip(id) => id in s.jobs && s.jobs[id].phase.Queued? && s.jobs[id].abort
    case End(id, _) => id in s.jobs && s.jobs[id].phase.Executing?
    case Swap(order) => s.batch == [] && s.pending != {} && TickOrder(s.pending, order)
    case Handle => s.batch != [] && s.batch[0].job in s.jobs && s.jobs[s.batch[0].job].task in s.tasks
    case AbortAll => true
  }

  function AbortJobs(jobs: map<JobId, Job>, ids: set<JobId>): map<JobId, Job> {
    map j | j in jobs :: if j in ids then jobs[j].(abort := true) else jobs[j]
  }

  /** The handlers of a finish event: the install task's, then the pool's, which deletes the job. */
  function HandleFinished(s: State, id: JobId): State
    requires id in s.jobs && s.jobs[id].task in s.tasks
  {
    var t := s.jobs[id].task;
    var waiting := s.tasks[t].waiting - {id};
    var failed := !s.jobs[id].outcome.Success?;
    var jobs := if failed then AbortJobs(s.jobs, waiting) else s.jobs;
    s.(jobs := jobs[id := jobs[id].(phase := Deleted)],
       tasks := s.tasks[t := s.tasks[t].(waiting := waiting, fail := s.tasks[t].fail || failed)],
       running := s.running - {id},
       pending := s.pending - {Started(id), Finished(id)})
  }

  function Apply(s: State, step: Step): State
    requires Enabled(s, step)
  {
    match step
    case Push(id, task, path) =>
      s.(jobs := s.jobs[id := Job(task, path, false, Queued, NoOutcome, false, false)],
         running := s.running + {id},
         tasks := s.tasks[task := s.tasks[task].(jobs := s.tasks[task].jobs + [id], waiting := s.tasks[task].waiting + {id})])
    case Begin(id) =>
      s.(jobs := s.jobs[id := s.jobs[id].(phase := Executing, began := true)], pending := s.pending + {Started(id)})
    case Skip(id) =>
      s.(jobs := s.jobs[id := s.jobs[id].(phase := Executed, outcome := Aborted)], pending := s.pending + {Finished(id)})
    case End(id, ok) =>
      var outcome := if s.jobs[id].abort then Aborted else if ok then Success else Failure;
      s.(jobs := s.jobs[id := s.jobs[id].(phase := Executed, outcome := outcome)], pending := s.pending + {Finished(id)})
    case Swap(order) =>
      s.(pending := {}, batch := order)
    case Handle =>
      var rest := s.(batch := s.batch[1..]);
      var id := s.batch[0].job;
      if s.batch[0].Started? then
        var t := s.jobs[id].task;
        rest.(jobs := s.jobs[id := s.jobs[id].(announced := true)],
              tasks := s.tasks[t := s.tasks[t].(newFiles := s.tasks[t].newFiles + [id])])
      else
        HandleFinished(rest, id)
    case AbortAll =>
      s.(jobs := AbortJobs(s.jobs, s.running), cancelled := true)
  }

  // ----- the invariant -----

  ghost predicate Outstanding(s: State, e: Event) {
    e in s.pending || e in s.batch
  }

  /** What a job's fields say about its outstanding events. */
  ghost predicate JobOk(s: State, id: JobId)
    requires id in s.jobs
  {
    var j := s.jobs[id];
    && j.task in s.tasks
    && (id in s.running <==> !j.phase.Deleted?)
    && (j.announced ==> j.began)
    && (Outstanding(s, Started(id)) <==> j.began && !j.announced)
    && (Outstanding(s, Finished(id)) <==> j.phase.Executed?)
    && (j.phase.Queued? ==> !j.began)
    && (j.phase.Executing? ==> j.began)
    && (j.phase.Queued? || j.phase.Executing? <==> j.outcome.NoOutcome?)
    && (j.outcome.Success? || j.outcome.Failure? ==> j.began)
    && (j.phase.Deleted? && j.began ==> j.announced)
  }

  ghost predicate TaskOk(s: State, t: TaskId)
    requires t in s.tasks
  {
    var task := s.tasks[t];
    && (forall j :: j in task.jobs <==> j in s.jobs && s.jobs[j].task == t)
    && Distinct(task.jobs)
    && (forall j :: j in task.newFiles <==> j in s.jobs && s.jobs[j].task == t && s.jobs[j].announced)
    && Distinct(task.newFiles)
    && (forall j :: j in task.waiting <==> j in s.jobs && s.jobs[j].task == t && !s.jobs[j].phase.Deleted?)
    && (task.fail <==> exists j :: j in s.jobs && s.jobs[j].task == t && s.jobs[j].phase.Deleted? && !s.jobs[j].outcome.Success?)
  }

  ghost predicate EventsOk(s: State) {
    && (forall e :: Outstanding(s, e) ==> e.job in s.jobs)
    && (forall e :: e in s.pending ==> e !in s.batch)
    && Distinct(s.batch)
    && (forall id :: Started(id) in s.pending ==> Finished(id) !in s.batch)
    && (forall a, b :: 0 <= b < a < |s.batch| && s.batch[a].Started? ==> s.batch[b] != Finished(s.batch[a].job))
  }

  ghost predicate Inv(s: State) {
    && s.running <= s.jobs.Keys
    && (forall id <- s.jobs :: JobOk(s, id))
    && (forall t <- s.tasks :: TaskOk(s, t))
    && EventsOk(s)
  }

  lemma {:induction false} InitialInv(ids: set<TaskId>)
    ensures Inv(Initial(ids))
  {
  }

  lemma {:induction false} PushJob(s: State, step: Step, id: JobId)
    requires Inv(s) && Enabled(s, step) && step.Push? && (id in s.jobs || id == step.id)
    ensures JobOk(Apply(s, step), id)
  {
    assert !Outstanding(s, Started(step.id)) && !Outstanding(s, Finished(step.id));
    assert step.id !in s.running;
    if id in s.jobs {
      assert JobOk(s, id);
    }
  }

  lemma {:induction false} PushTask(s: State, step: Step, t: TaskId)
    requires Enabled(s, step) && step.Push? && t in s.tasks && TaskOk(s, t)
    ensures TaskOk(Apply(s, step), t)
  {
    var u := Apply(s, step);
    assert step.id !in s.tasks[t].jobs;
    forall j | j in s.jobs
      ensures u.jobs[j] == s.jobs[j]
    {
    }
    if t == step.task {
      assert forall j :: j in u.tasks[t].jobs <==> j in s.tasks[t].jobs || j == step.id;
      if j :| j in s.jobs && s.jobs[j].task == t && s.jobs[j].phase.Deleted? && !s.jobs[j].outcome.Success? {
        assert u.jobs[j].phase.Deleted?;
      }
    } else {
      assert u.tasks[t] == s.tasks[t];
      if j :| j in s.jobs && s.jobs[j].task == t && s.jobs[j].phase.Deleted? && !s.jobs[j].outcome.Success? {
        assert u.jobs[j].phase.Deleted?;
      }
    }
  }

  lemma {:induction false} PushInv(s: State, step: Step)
    requires Inv(s) && Enabled(s, step) && step.Push?
    ensures Inv(Apply(s, step))
  {
    var u := Apply(s, step);
    assert forall e :: Outstanding(u, e) == Outstanding(s, e);
    forall id | id in u.jobs ensures JobOk(u, id) { PushJob(s, step, id); }
    forall t | t in u.tasks ensures TaskOk(u, t) { PushTask(s, step, t); }
  }

  /** The event a worker step posts. */
  function Posted(step: Step): Event
    requires step.Begin? || step.Skip? || step.End?
  {
    if step.Begin? then Started(step.id) else Finished(step.id)
  }

  lemma {:induction false} WorkerEvents(s: State, step: Step)
    requires Enabled(s, step) && (step.Begin? || step.Skip? || step.End?)
    requires EventsOk(s) && JobOk(s, step.id)
    ensures EventsOk(Apply(s, step))
    ensures !Outstanding(s, Posted(step))
    ensures forall e :: Outstanding(Apply(s, step), e) <==> Outstanding(s, e) || e == Posted(step)
  {
    assert Apply(s, step).pending == s.pending + {Posted(step)};
    assert Apply(s, step).batch == s.batch;
    assert !Outstanding(s, Posted(step)) && !Outstanding(s, Finished(step.id));
  }

  lemma {:induction false} WorkerJob(s: State, step: Step, id: JobId)
    requires Enabled(s, step) && (step.Begin? || step.Skip? || step.End?)
    requires id in s.jobs && JobOk(s, id)
    requires forall e :: Outstanding(Apply(s, step), e) <==> Outstanding(s, e) || e == Posted(step)
    ensures JobOk(Apply(s, step), id)
  {
    var u := Apply(s, step);
    assert u.running == s.running && u.tasks == s.tasks;
    if id != step.id {
      assert u.jobs[id] == s.jobs[id];
    }
  }

  lemma {:induction false} WorkerTask(s: State, step: Step, t: TaskId)
    requires Enabled(s, step) && (step.Begin? || step.Skip? || step.End?)
    requires t in s.tasks && TaskOk(s, t)
    ensures TaskOk(Apply(s, step), t)
  {
    var u := Apply(s, step);
    assert u.jobs.Keys == s.jobs.Keys && u.tasks == s.tasks;
    TaskKept(s, u, t);
  }

  /** Two states of a job that its task, or another one, cannot tell apart. */
  ghost predicate SameToTask(j: Job, k: Job, t: TaskId) {
    && k.task == j.task
    && (j.task == t ==>
        && k.announced == j.announced && k.phase.Deleted? == j.phase.Deleted?
        && (j.phase.Deleted? ==> k.outcome == j.outcome))
  }

  /** A task stays in order while the fields of its jobs that it speaks of stay. */
  lemma {:induction false} TaskKept(s: State, u: State, t: TaskId)
    requires t in s.tasks && TaskOk(s, t)
    requires t in u.tasks && u.tasks[t] == s.tasks[t]
    requires u.jobs.Keys == s.jobs.Keys
    requires forall j <- s.jobs :: SameToTask(s.jobs[j], u.jobs[j], t)
    ensures TaskOk(u, t)
  {
  }

  lemma {:induction false} WorkerInv(s: State, step: Step)
    requires Inv(s) && Enabled(s, step) && (step.Begin? || step.Skip? || step.End?)
    ensures Inv(Apply(s, step))
  {
    assert JobOk(s, step.id);
    WorkerEvents(s, step);
    forall id | id in s.jobs ensures JobOk(Apply(s, step), id) { WorkerJob(s, step, id); }
    forall t | t in s.tasks ensures TaskOk(Apply(s, step), t) { WorkerTask(s, step, t); }
  }

  lemma {:induction false} SwapInv(s: State, step: Step)
    requires Inv(s) && Enabled(s, step) && step.Swap?
    ensures Inv(Apply(s, step))
  {
    var u := Apply(s, step);
    assert forall e :: Outstanding(u, e) <==> Outstanding(s, e) by {
      assert forall e :: e in step.order <==> e in (set e | e in step.order);
    }
    forall id | id in u.jobs
      ensures JobOk(u, id)
    {
      assert JobOk(s, id);
    }
    forall t | t in u.tasks
      ensures TaskOk(u, t)
    {
      assert TaskOk(s, t);
    }
  }

  lemma {:induction false} AbortInv(s: State)
    requires Inv(s)
    ensures Inv(Apply(s, AbortAll))
  {
    var u := Apply(s, AbortAll);
    forall id | id in s.jobs ensures JobOk(u, id) { AbortJob(s, id); }
    forall t | t in s.tasks ensures TaskOk(u, t) { AbortTask(s, t); }
  }

  lemma {:induction false} AbortTask(s: State, t: TaskId)
    requires t in s.tasks && TaskOk(s, t)
    ensures TaskOk(Apply(s, AbortAll), t)
  {
    var u := Apply(s, AbortAll);
    assert u.jobs.Keys == s.jobs.Keys && u.tasks == s.tasks;
    TaskKept(s, u, t);
  }

  lemma {:induction false} AbortJob(s: State, id: JobId)
    requires id in s.jobs && JobOk(s, id)
    ensures id in Apply(s, AbortAll).jobs && JobOk(Apply(s, AbortAll), id)
  {
    assert forall e :: Outstanding(Apply(s, AbortAll), e) == Outstanding(s, e);
  }

  /** Taking the first event of the batch leaves exactly the others outstanding. */
  lemma {:induction false} BatchTail(s: State, e: Event)
    requires EventsOk(s) && s.batch != []
    ensures e in s.batch[1..] <==> e in s.batch && e != s.batch[0]
  {
    if e in s.batch[1..] {
      var i :| 0 <= i < |s.batch[1..]| && s.batch[1..][i] == e;
      assert s.batch[i + 1] == e;
    }
  }

  /** A finish event is only handled when nothing of its job is left to handle. */
  lemma {:induction false} FinishIsLast(s: State)
    requires Inv(s) && Enabled(s, Handle) && s.batch[0].Finished?
    ensures !Outstanding(s, Started(s.batch[0].job))
    ensures Outstanding(s, Finished(s.batch[0].job))
  {
    var id := s.batch[0].job;
    assert s.batch[0] == Finished(id);
    assert Finished(id) in s.batch;
    forall a | 0 <= a < |s.batch|
      ensures s.batch[a] != Started(id)
    {
      assert a > 0 && s.batch[a].Started? ==> s.batch[0] != Finished(s.batch[a].job);
    }
  }

  lemma {:induction false} HandleEvents(s: State)
    requires EventsOk(s) && Enabled(s, Handle)
    requires s.batch[0].Finished? ==> !Outstanding(s, Started(s.batch[0].job))
    ensures forall e :: Outstanding(Apply(s, Handle), e) <==> Outstanding(s, e) && e != s.batch[0]
    ensures EventsOk(Apply(s, Handle))
  {
    var u := Apply(s, Handle);
    forall e
      ensures e in s.batch[1..] <==> e in s.batch && e != s.batch[0]
    {
      BatchTail(s, e);
    }
    assert u.batch == s.batch[1..] && u.pending == s.pending && u.jobs.Keys == s.jobs.Keys;
    assert forall a :: 0 <= a < |u.batch| ==> u.batch[a] == s.batch[a + 1];
  }

  lemma {:induction false} HandleStartedJob(s: State, id: JobId)
    requires Enabled(s, Handle) && s.batch[0].Started? && id in s.jobs && JobOk(s, id)
    requires forall e :: Outstanding(Apply(s, Handle), e) <==> Outstanding(s, e) && e != s.batch[0]
    ensures JobOk(Apply(s, Handle), id)
  {
    var u := Apply(s, Handle);
    assert Outstanding(s, s.batch[0]);
    assert u.running == s.running && u.tasks.Keys == s.tasks.Keys;
    if id != s.batch[0].job {
      assert u.jobs[id] == s.jobs[id];
    }
  }

  lemma {:induction false} HandleStartedTask(s: State, t: TaskId)
    requires Enabled(s, Handle) && s.batch[0].Started? && t in s.tasks && TaskOk(s, t)
    requires !s.jobs[s.batch[0].job].announced
    ensures TaskOk(Apply(s, Handle), t)
  {
    var u, id := Apply(s, Handle), s.batch[0].job;
    if t != s.jobs[id].task {
      TaskKept(s, u, t);
    } else {
      assert id !in s.tasks[t].newFiles;
      assert forall j :: j in u.tasks[t].newFiles <==> j in s.tasks[t].newFiles || j == id;
      assert u.jobs[id].phase == s.jobs[id].phase && u.jobs[id].outcome == s.jobs[id].outcome;
    }
  }

  lemma {:induction false} HandleStartedInv(s: State)
    requires Inv(s) && Enabled(s, Handle) && s.batch[0].Started?
    ensures Inv(Apply(s, Handle))
  {
    HandleEvents(s);
    assert JobOk(s, s.batch[0].job) && Outstanding(s, Started(s.batch[0].job));
    forall id | id in s.jobs ensures JobOk(Apply(s, Handle), id) { HandleStartedJob(s, id); }
    forall t | t in s.tasks ensures TaskOk(Apply(s, Handle), t) { HandleStartedTask(s, t); }
  }

  /** What handling a finish event does to the jobs: one is deleted, others may be told to abort. */
  lemma {:induction false} FinishedJobs(s: State, k: JobId)
    requires Enabled(s, Handle) && s.batch[0].Finished? && k in s.jobs
    ensures var u, id := Apply(s, Handle), s.batch[0].job;
      && u.jobs.Keys == s.jobs.Keys && u.running == s.running - {id}
      && u.jobs[k].(abort := s.jobs[k].abort) == if k == id then s.jobs[k].(phase := Deleted) else s.jobs[k]
  {
  }

  lemma {:induction false} HandleFinishedJob(s: State, k: JobId)
    requires Enabled(s, Handle) && s.batch[0].Finished? && k in s.jobs && JobOk(s, k)
    requires forall e :: Outstanding(Apply(s, Handle), e) <==> Outstanding(s, e) && e != s.batch[0]
    requires !Outstanding(s, Started(s.batch[0].job)) && Outstanding(s, Finished(s.batch[0].job))
    ensures k in Apply(s, Handle).jobs && JobOk(Apply(s, Handle), k)
  {
    FinishedJobs(s, k);
    assert Apply(s, Handle).tasks.Keys == s.tasks.Keys;
  }

  lemma {:induction false} HandleFinishedTask(s: State, t: TaskId)
    requires Enabled(s, Handle) && s.batch[0].Finished? && t in s.tasks && TaskOk(s, t)
    requires s.jobs[s.batch[0].job].phase.Executed?
    ensures TaskOk(Apply(s, Handle), t)
  {
    var u, id := Apply(s, Handle), s.batch[0].job;
    forall k | k in s.jobs
      ensures u.jobs.Keys == s.jobs.Keys
      ensures u.jobs[k].(abort := s.jobs[k].abort) == if k == id then s.jobs[k].(phase := Deleted) else s.jobs[k]
    {
      FinishedJobs(s, k);
    }
    if t != s.jobs[id].task {
      TaskKept(s, u, t);
    } else {
      FinishedOwnTask(s, u, id, t);
    }
  }

  /** The task of the deleted job: it no longer waits for it, and fails with it. */
  lemma {:induction false} FinishedOwnTask(s: State, u: State, id: JobId, t: TaskId)
    requires t in s.tasks && TaskOk(s, t) && t in u.tasks
    requires id in s.jobs && s.jobs[id].task == t && s.jobs[id].phase.Executed?
    requires u.tasks[t] == s.tasks[t].(waiting := s.tasks[t].waiting - {id},
                                       fail := s.tasks[t].fail || !s.jobs[id].outcome.Success?)
    requires u.jobs.Keys == s.jobs.Keys
    requires forall k <- s.jobs ::
      u.jobs[k].(abort := s.jobs[k].abort) == if k == id then s.jobs[k].(phase := Deleted) else s.jobs[k]
    ensures TaskOk(u, t)
  {
    forall k | k in s.jobs
      ensures u.jobs[k].task == s.jobs[k].task && u.jobs[k].announced == s.jobs[k].announced
      ensures u.jobs[k].outcome == s.jobs[k].outcome
      ensures u.jobs[k].phase == if k == id then Deleted else s.jobs[k].phase
    {
    }
    if k :| k in s.jobs && s.jobs[k].task == t && s.jobs[k].phase.Deleted? && !s.jobs[k].outcome.Success? {
      assert u.jobs[k].phase.Deleted?;
    }
    if !s.jobs[id].outcome.Success? {
      assert u.jobs[id].phase.Deleted?;
    }
  }

  lemma {:induction false} HandleFinishedInv(s: State)
    requires Inv(s) && Enabled(s, Handle) && s.batch[0].Finished?
    ensures Inv(Apply(s, Handle))
  {
    FinishIsLast(s);
    HandleEvents(s);
    var u, id := Apply(s, Handle), s.batch[0].job;
    FinishedJobs(s, id);
    assert JobOk(s, id);
    forall k | k in s.jobs ensures JobOk(u, k) { HandleFinishedJob(s, k); }
    forall t | t in s.tasks ensures TaskOk(u, t) { HandleFinishedTask(s, t); }
  }

  /** Every step keeps the invariant. */
  lemma {:induction false} StepInv(s: State, step: Step)
    requires Inv(s) && Enabled(s, step)
    ensures Inv(Apply(s, step))
  {
    match step
    case Push(_, _, _) => PushInv(s, step);
    case Swap(_) => SwapInv(s, step);
    case Handle => if s.batch[0].Started? { HandleStartedInv(s); } else { HandleFinishedInv(s); }
    case AbortAll => AbortInv(s);
    case _ => WorkerInv(s, step);
  }

  // ----- whole runs -----

  /** The state after a run, or None when some step was not enabled. */
  ghost function Run(s: State, steps: seq<Step>): Option<State>
    decreases |steps|
  {
    if steps == [] then Some(s)
    else if Enabled(s, steps[0]) then Run(Apply(s, steps[0]), steps[1..])
    else None
  }

  lemma {:induction false} RunInv(s: State, steps: seq<Step>)
    requires Inv(s) && Run(s, steps).Some?
    ensures Inv(Run(s, steps).value)
    decreases |steps|
  {
    if steps != [] {
      StepInv(s, steps[0]);
      RunInv(Apply(s, steps[0]), steps[1..]);
    }
  }

  function PathsOf(s: State, ids: seq<JobId>): seq<string>
    requires forall i <- ids :: i in s.jobs
  {
    Renamed(map id | id in s.jobs :: s.jobs[id].path, ids)
  }

  function Renamed(m: map<JobId, string>, ids: seq<JobId>): seq<string>
    requires forall i <- ids :: i in m
    decreases |ids|
  {
    if ids == [] then [] else [m[ids[0]]] + Renamed(m, ids[1..])
  }

  lemma {:induction false} RenamedFirst(m: map<JobId, string>, ids: seq<JobId>)
    requires ids != [] && forall i <- ids :: i in m
    ensures multiset(Renamed(m, ids)) == multiset(Renamed(m, ids[1..])) + multiset{m[ids[0]]}
  {
  }

  /** Taking one id out of a list takes its name out of the names. */
  lemma {:induction false} RenamedWithout(m: map<JobId, string>, ids: seq<JobId>, k: nat)
    requires forall i <- ids :: i in m
    requires k < |ids|
    ensures multiset(Renamed(m, ids)) == multiset(Renamed(m, ids[..k] + ids[k + 1..])) + multiset{m[ids[k]]}
    decreases |ids|
  {
    hide Renamed;
    var rest := ids[..k] + ids[k + 1..];
    RenamedFirst(m, ids);
    if k == 0 {
      assert rest == ids[1..];
    } else {
      RenamedWithout(m, ids[1..], k - 1);
      assert rest[1..] == ids[1..][..k - 1] + ids[1..][k..];
      RenamedFirst(m, rest);
    }
  }

  lemma {:induction false} SameWithout<T>(a: seq<T>, b: seq<T>, k: nat)
    requires multiset(a) == multiset(b) && a != [] && k < |b| && b[k] == a[0]
    ensures multiset(b[..k] + b[k + 1..]) == multiset(a[1..])
  {
    TakenOut(b, k);
    TakenOut(a, 0);
    assert a[..0] + a[1..] == a[1..];
    CancelOne(multiset(b[..k] + b[k + 1..]), multiset(a[1..]), a[0]);
  }

  lemma {:induction false} CancelOne<T>(y: multiset<T>, z: multiset<T>, x: T)
    requires y + multiset{x} == z + multiset{x}
    ensures y == z
  {
    forall e
      ensures y[e] == z[e]
    {
      assert (y + multiset{x})[e] == (z + multiset{x})[e];
    }
  }

  lemma {:induction false} RenamedSame(m: map<JobId, string>, a: seq<JobId>, b: seq<JobId>)
    requires forall i <- a :: i in m
    requires forall i <- b :: i in m
    requires multiset(a) == multiset(b)
    ensures multiset(Renamed(m, a)) == multiset(Renamed(m, b))
    decreases |a|
  {
    if a == [] {
      assert |multiset(b)| == 0;
    } else {
      assert a[0] in multiset(b);
      var k :| 0 <= k < |b| && b[k] == a[0];
      var rest := b[..k] + b[k + 1..];
      assert forall i <- rest :: i in b;
      SameWithout(a, b, k);
      RenamedWithout(m, b, k);
      RenamedSame(m, a[1..], rest);
      assert Renamed(m, a) == [m[a[0]]] + Renamed(m, a[1..]);
    }
  }

  lemma {:induction false} SameMembers(a: seq<JobId>, b: seq<JobId>)
    requires Distinct(a)
    requires Distinct(b)
    requires forall x :: x in a <==> x in b
    ensures multiset(a) == multiset(b)
  {
    forall x
      ensures multiset(a)[x] == multiset(b)[x]
    {
      OnceIn(a, x);
      OnceIn(b, x);
    }
  }

  /**
   * The task waits for nothing, has failed exactly when one of its jobs did not succeed, and otherwise
   * has collected the path of each of its jobs exactly once.
   */
  ghost predicate Settled(s: State, t: TaskId)
    requires t in s.tasks
  {
    var task := s.tasks[t];
    && task.waiting == {}
    && (forall j <- task.jobs :: j in s.jobs) && (forall j <- task.newFiles :: j in s.jobs)
    && (task.fail <==> exists j <- task.jobs :: !s.jobs[j].outcome.Success?)
    && (!task.fail ==> multiset(PathsOf(s, task.newFiles)) == multiset(PathsOf(s, task.jobs)))
  }

  /**
   * Download settlement: whatever the interleaving, once the pool has nothing left to run, every
   * install task is settled.
   */
  lemma {:induction false} Settlement(ids: set<TaskId>, steps: seq<Step>, t: TaskId)
    requires Run(Initial(ids), steps).Some? && t in Run(Initial(ids), steps).value.tasks
    requires Run(Initial(ids), steps).value.running == {}
    ensures Settled(Run(Initial(ids), steps).value, t)
  {
    InitialInv(ids);
    RunInv(Initial(ids), steps);
    var s := Run(Initial(ids), steps).value;
    var task := s.tasks[t];
    assert TaskOk(s, t);
    forall j | j in s.jobs
      ensures s.jobs[j].phase.Deleted?
      ensures s.jobs[j].outcome.Success? ==> s.jobs[j].announced
    {
      assert JobOk(s, j);
    }
    if !task.fail {
      SameMembers(task.newFiles, task.jobs);
      RenamedSame(map id | id in s.jobs :: s.jobs[id].path, task.newFiles, task.jobs);
    }
  }

  // ----- the pool drains -----

  /** A step of a worker or of the event loop, as opposed to new work or an abort. */
  predicate Internal(step: Step) {
    !step.Push? && !step.AbortAll?
  }

  ghost function InPhase(s: State, phase: Phase): set<JobId> {
    set id | id in s.jobs && s.jobs[id].phase == phase
  }

  ghost function Work(s: State): nat {
    6 * |InPhase(s, Queued)| + 3 * |InPhase(s, Executing)| + 2 * |s.pending| + |s.batch|
  }

  lemma {:induction false} OrderLength(events: set<Event>, order: seq<Event>)
    requires TickOrder(events, order)
    ensures |order| == |events|
    decreases |order|
  {
    if order == [] {
      assert events == {};
    } else {
      assert forall e :: e in order <==> e == order[0] || e in order[1..];
      assert order[0] !in order[1..];
      OrderLength(events - {order[0]}, order[1..]);
    }
  }

  lemma {:induction false} WorkerStepsDecrease(s: State, step: Step)
    requires Enabled(s, step) && (step.Begin? || step.Skip? || step.End?)
    requires Posted(step) !in s.pending
    ensures Work(Apply(s, step)) < Work(s)
  {
    var u, id := Apply(s, step), step.id;
    assert u.pending == s.pending + {Posted(step)};
    assert |u.pending| == |s.pending| + 1;
    PhaseMoved(s, u, id, Queued);
    PhaseMoved(s, u, id, Executing);
  }

  lemma {:induction false} PhaseMoved(s: State, u: State, id: JobId, phase: Phase)
    requires id in s.jobs && id in u.jobs && u.jobs == s.jobs[id := u.jobs[id]]
    ensures |InPhase(u, phase)| == |InPhase(s, phase)|
      - (if s.jobs[id].phase == phase then 1 else 0) + (if u.jobs[id].phase == phase then 1 else 0)
  {
    PhaseWithout(s, id, phase);
    PhaseWithout(u, id, phase);
    assert InPhase(s, phase) - {id} == InPhase(u, phase) - {id};
  }

  lemma {:induction false} PhaseWithout(s: State, id: JobId, phase: Phase)
    requires id in s.jobs
    ensures |InPhase(s, phase)| == |InPhase(s, phase) - {id}| + (if s.jobs[id].phase == phase then 1 else 0)
  {
    if s.jobs[id].phase == phase {
      assert InPhase(s, phase) == InPhase(s, phase) - {id} + {id};
    } else {
      assert InPhase(s, phase) - {id} == InPhase(s, phase);
    }
  }

  lemma {:induction false} HandleDecreases(s: State)
    requires Enabled(s, Handle)
    requires s.batch[0].Finished? ==> s.jobs[s.batch[0].job].phase.Executed?
    ensures Work(Apply(s, Handle)) < Work(s)
  {
    var u, id := Apply(s, Handle), s.batch[0].job;
    assert u.jobs.Keys == s.jobs.Keys;
    if s.batch[0].Finished? {
      forall k | k in s.jobs
        ensures u.jobs[k].phase == if k == id then Deleted else s.jobs[k].phase
      {
        FinishedJobs(s, k);
      }
    }
    assert InPhase(u, Queued) == InPhase(s, Queued) && InPhase(u, Executing) == InPhase(s, Executing);
    assert u.pending <= s.pending;
    Fewer(u.pending, s.pending);
  }

  /** Workers and ticks can only go on for so long... */
  lemma {:induction false} InternalDecreases(s: State, step: Step)
    requires Inv(s) && Enabled(s, step) && Internal(step)
    ensures Work(Apply(s, step)) < Work(s)
  {
    if step.Handle? {
      assert JobOk(s, s.batch[0].job);
      if s.batch[0].Finished? {
        FinishIsLast(s);
      }
      HandleDecreases(s);
    } else if step.Swap? {
      OrderLength(s.pending, step.order);
    } else {
      assert JobOk(s, step.id);
      WorkerEvents(s, step);
      WorkerStepsDecrease(s, step);
    }
  }

  lemma {:induction false} ListOf(events: set<Event>) returns (list: seq<Event>)
    ensures forall e :: e in list <==> e in events
    ensures Distinct(list)
    decreases |events|
  {
    if events == {} {
      list := [];
    } else {
      var e :| e in events;
      var rest := ListOf(events - {e});
      list := [e] + rest;
    }
  }

  lemma {:induction false} TickOrderExists(events: set<Event>) returns (order: seq<Event>)
    ensures TickOrder(events, order)
  {
    var starts := ListOf(set e | e in events && e.Started?);
    var finishes := ListOf(set e | e in events && e.Finished?);
    order := starts + finishes;
    assert forall i :: 0 <= i < |starts| ==> starts[i] in starts;
    assert forall i :: 0 <= i < |finishes| ==> finishes[i] in finishes;
  }

  /** A job that ended has its event on the way. */
  lemma {:induction false} LoopGoesOn(s: State, id: JobId) returns (step: Step)
    requires Inv(s) && id in s.jobs && s.jobs[id].phase.Executed?
    ensures (step.Handle? || step.Swap?) && Enabled(s, step)
  {
    assert JobOk(s, id) && Outstanding(s, Finished(id));
    if s.batch != [] {
      assert Outstanding(s, s.batch[0]) && JobOk(s, s.batch[0].job);
      step := Handle;
    } else {
      var order := TickOrderExists(s.pending);
      step := Swap(order);
    }
  }

  /** ...and while a job is left, one of them can go on: no interleaving keeps the pool from draining. */
  lemma {:induction false} NeverStuck(s: State) returns (step: Step)
    requires Inv(s) && s.running != {}
    ensures Internal(step) && Enabled(s, step)
  {
    var id :| id in s.running;
    assert JobOk(s, id);
    match s.jobs[id].phase
    case Queued => step := if s.jobs[id].abort then Skip(id) else Begin(id);
    case Executing => step := End(id, true);
    case Executed => step := LoopGoesOn(s, id);
    case Deleted =>
  }

  /** From any reachable state some run of workers and ticks alone empties the pool. */
  lemma {:induction false} CanDrain(s: State) returns (steps: seq<Step>)
    requires Inv(s)
    ensures Run(s, steps).Some? && Run(s, steps).value.running == {}
    ensures forall step <- steps :: Internal(step)
    decreases Work(s)
  {
    if s.running == {} {
      steps := [];
    } else {
      var step := NeverStuck(s);
      StepInv(s, step);
      InternalDecreases(s, step);
      var rest := CanDrain(Apply(s, step));
      steps := [step] + rest;
      assert steps[1..] == rest;
    }
  }

  /** An abort reaches every job that has not finished executing: none of those can succeed any more. */
  lemma {:induction false} AbortedCannotSucceed(s: State, steps: seq<Step>, id: JobId)
    requires Inv(s) && id in s.jobs && s.jobs[id].abort
    requires s.jobs[id].phase.Queued? || s.jobs[id].phase.Executing? || s.jobs[id].outcome.Aborted?
    requires Run(s, steps).Some?
    ensures var u := Run(s, steps).value; id in u.jobs && !u.jobs[id].outcome.Success? && !u.jobs[id].outcome.Failure?
    decreases |steps|
  {
    assert JobOk(s, id);
    if steps != [] {
      StepInv(s, steps[0]);
      if steps[0].Handle? && s.batch[0].Finished? {
        FinishIsLast(s);
        assert JobOk(s, s.batch[0].job);
      }
      AbortStays(s, steps[0], id);
      AbortedCannotSucceed(Apply(s, steps[0]), steps[1..], id);
    }
  }

  lemma {:induction false} AbortStays(s: State, step: Step, id: JobId)
    requires Enabled(s, step) && id in s.jobs && s.jobs[id].abort
    requires s.jobs[id].phase.Queued? || s.jobs[id].phase.Executing? || s.jobs[id].outcome.Aborted?
    requires step.Handle? && s.batch[0] == Finished(id) ==> s.jobs[id].phase.Executed?
    ensures var u := Apply(s, step);
      && id in u.jobs && u.jobs[id].abort
      && (u.jobs[id].phase.Queued? || u.jobs[id].phase.Executing? || u.jobs[id].outcome.Aborted?)
  {
    if step.Handle? && s.batch[0].Finished? {
      FinishedJobs(s, id);
    }
  }

  // ----- what an abort and a finished job do -----

  /** `ThreadPool::abort` tells every job that is left to abort, and does nothing else to any job. */
  lemma {:induction false} AbortReachesAll(s: State, id: JobId)
    requires Inv(s) && id in s.jobs
    ensures var u := Apply(s, AbortAll);
      && u == s.(jobs := u.jobs, cancelled := true) && u.jobs.Keys == s.jobs.Keys
      && u.jobs[id] == s.jobs[id].(abort := s.jobs[id].abort || !s.jobs[id].phase.Deleted?)
  {
    assert JobOk(s, id);
  }

  /** Whatever run follows an abort, a job that was queued or executing then ends neither in success nor in failure. */
  lemma {:induction false} CancelledCannotSucceed(s: State, steps: seq<Step>, id: JobId)
    requires Inv(s) && id in s.jobs && (s.jobs[id].phase.Queued? || s.jobs[id].phase.Executing?)
    requires Run(Apply(s, AbortAll), steps).Some?
    ensures var u := Run(Apply(s, AbortAll), steps).value;
      id in u.jobs && !u.jobs[id].outcome.Success? && !u.jobs[id].outcome.Failure?
  {
    AbortReachesAll(s, id);
    StepInv(s, AbortAll);
    AbortedCannotSucceed(Apply(s, AbortAll), steps, id);
  }

  /**
   * The handlers of a finish event: the job is deleted, its task no longer waits for it and fails when
   * the job did not succeed. Nothing of another task changes.
   */
  lemma {:induction false} FinishTells(s: State)
    requires Enabled(s, Handle) && s.batch[0].Finished?
    ensures var u, id := Apply(s, Handle), s.batch[0].job;
      var t, failed := s.jobs[id].task, !s.jobs[id].outcome.Success?;
      && u.cancelled == s.cancelled && u.batch == s.batch[1..]
      && u.jobs.Keys == s.jobs.Keys && u.jobs[id] == s.jobs[id].(phase := Deleted)
      && u.tasks == s.tasks[t := s.tasks[t].(waiting := s.tasks[t].waiting - {id}, fail := s.tasks[t].fail || failed)]
  {
  }

  /**
   * When the finished job did not succeed, exactly the other jobs its task still has at work are told to
   * abort; when it did, no job is. Nothing else about another job changes.
   */
  lemma {:induction false} FinishReaches(s: State, k: JobId)
    requires Enabled(s, Handle) && s.batch[0].Finished? && k in s.jobs && k != s.batch[0].job
    requires TaskOk(s, s.jobs[s.batch[0].job].task)
    ensures var u, id := Apply(s, Handle), s.batch[0].job;
      && k in u.jobs
      && u.jobs[k] == s.jobs[k].(abort := s.jobs[k].abort || (
           && !s.jobs[id].outcome.Success?
           && s.jobs[k].task == s.jobs[id].task && !s.jobs[k].phase.Deleted?))
  {
    var t := s.jobs[s.batch[0].job].task;
    assert k in s.tasks[t].waiting <==> s.jobs[k].task == t && !s.jobs[k].phase.Deleted?;
    hide TaskOk;
  }

  /** Once one job of a task is known not to have succeeded, no job of that task still at work can succeed. */
  lemma {:induction false} FailureStopsSiblings(s: State, steps: seq<Step>, k: JobId)
    requires Inv(s) && Enabled(s, Handle) && s.batch[0].Finished? && k in s.jobs
    requires !s.jobs[s.batch[0].job].outcome.Success? && s.jobs[k].task == s.jobs[s.batch[0].job].task
    requires s.jobs[k].phase.Queued? || s.jobs[k].phase.Executing?
    requires Run(Apply(s, Handle), steps).Some?
    ensures var u := Run(Apply(s, Handle), steps).value;
      k in u.jobs && !u.jobs[k].outcome.Success? && !u.jobs[k].outcome.Failure?
  {
    assert k != s.batch[0].job by {
      FinishIsLast(s);
      assert JobOk(s, s.batch[0].job);
    }
    assert TaskOk(s, s.jobs[k].task);
    FinishReaches(s, k);
    StepInv(s, Handle);
    AbortedCannotSucceed(Apply(s, Handle), steps, k);
  }

  /** A job told to abort before a worker has taken it is never begun. */
  lemma {:induction false} AbortedNeverBegins(s: State, steps: seq<Step>, id: JobId)
    requires Inv(s) && id in s.jobs && s.jobs[id].abort && !s.jobs[id].began
    requires Run(s, steps).Some?
    ensures var u := Run(s, steps).value; id in u.jobs && !u.jobs[id].began && !u.jobs[id].announced
    decreases |steps|
  {
    assert JobOk(s, id);
    if steps != [] {
      StepInv(s, steps[0]);
      UnbegunStays(s, steps[0], id);
      AbortedNeverBegins(Apply(s, steps[0]), steps[1..], id);
    }
  }

  lemma {:induction false} UnbegunStays(s: State, step: Step, id: JobId)
    requires Enabled(s, step) && id in s.jobs && s.jobs[id].abort && !s.jobs[id].began
    requires JobOk(s, id) && (step.Handle? ==> Outstanding(s, s.batch[0]))
    ensures var u := Apply(s, step); id in u.jobs && u.jobs[id].abort && !u.jobs[id].began
  {
    if step.Handle? && s.batch[0].Finished? {
      FinishedJobs(s, id);
    }
  }

  /** The pool counts as cancelled after an abort, and only then. */
  lemma {:induction false} CancelledWhen(s: State, steps: seq<Step>)
    requires Run(s, steps).Some?
    ensures Run(s, steps).value.cancelled <==> s.cancelled || AbortAll in steps
    decreases |steps|
  {
    if steps != [] {
      CancelledWhen(Apply(s, steps[0]), steps[1..]);
      assert steps == [steps[0]] + steps[1..];
    }
  }

  lemma {:induction false} NotYetCancelled(ids: set<TaskId>, steps: seq<Step>)
    requires Run(Initial(ids), steps).Some?
    ensures Run(Initial(ids), steps).value.cancelled <==> AbortAll in steps
  {
    CancelledWhen(Initial(ids), steps);
  }

  // ----- exactly when an install fails -----

  ghost predicate AtWork(j: Job) {
    j.phase.Queued? || j.phase.Executing?
  }

  /** A job that did not succeed, or no longer can. */
  ghost predicate Lost(j: Job) {
    j.outcome.Failure? || j.outcome.Aborted? || (j.abort && AtWork(j))
  }

  ghost predicate Troubled(s: State, t: TaskId) {
    exists j <- s.jobs :: s.jobs[j].task == t && Lost(s.jobs[j])
  }

  /** A step that costs the task a file: one of its jobs goes wrong, or an abort comes while one is at work. */
  ghost predicate Spoils(s: State, step: Step, t: TaskId) {
    || (step.End? && !step.ok && step.id in s.jobs && s.jobs[step.id].task == t)
    || (step.AbortAll? && exists j <- s.jobs :: s.jobs[j].task == t && AtWork(s.jobs[j]))
  }

  ghost predicate Spoiled(s: State, steps: seq<Step>, t: TaskId)
    requires Run(s, steps).Some?
    decreases |steps|
  {
    steps != [] && (Spoils(s, steps[0], t) || Spoiled(Apply(s, steps[0]), steps[1..], t))
  }

  /** What a step does to one job, as far as losing it goes. */
  lemma {:induction false} StepLoses(s: State, step: Step, j: JobId)
    requires Inv(s) && Enabled(s, step) && j in s.jobs
    ensures var u := Apply(s, step); j in u.jobs && u.jobs[j].task == s.jobs[j].task
    ensures Lost(s.jobs[j]) ==> Lost(Apply(s, step).jobs[j])
    ensures Spoils(s, step, s.jobs[j].task) && (step.End? ==> step.id == j) && AtWork(s.jobs[j])
      ==> Lost(Apply(s, step).jobs[j])
    ensures Lost(Apply(s, step).jobs[j]) ==> Spoils(s, step, s.jobs[j].task) || Troubled(s, s.jobs[j].task)
  {
    assert JobOk(s, j);
    if step.Handle? && s.batch[0].Finished? {
      HandleLoses(s, j);
    } else if step.AbortAll? {
      AbortLoses(s, j);
    } else {
      OtherLoses(s, step, j);
    }
  }

  lemma {:induction false} AbortLoses(s: State, j: JobId)
    requires j in s.jobs && JobOk(s, j)
    ensures var u := Apply(s, AbortAll);
      && j in u.jobs && u.jobs[j].task == s.jobs[j].task
      && (Lost(u.jobs[j]) <==> Lost(s.jobs[j]) || AtWork(s.jobs[j]))
  {
  }

  lemma {:induction false} OtherLoses(s: State, step: Step, j: JobId)
    requires Enabled(s, step) && !step.AbortAll? && (step.Handle? ==> s.batch[0].Started?)
    requires j in s.jobs && JobOk(s, j)
    ensures var u := Apply(s, step);
      && j in u.jobs && u.jobs[j].task == s.jobs[j].task
      && (Lost(u.jobs[j]) <==> Lost(s.jobs[j]) || (step.End? && step.id == j && !step.ok))
  {
  }

  lemma {:induction false} HandleLoses(s: State, j: JobId)
    requires Inv(s) && Enabled(s, Handle) && s.batch[0].Finished? && j in s.jobs
    ensures var u := Apply(s, Handle); j in u.jobs && u.jobs[j].task == s.jobs[j].task
    ensures Lost(s.jobs[j]) ==> Lost(Apply(s, Handle).jobs[j])
    ensures Lost(Apply(s, Handle).jobs[j]) ==> Troubled(s, s.jobs[j].task)
  {
    var id := s.batch[0].job;
    assert s.jobs[id].phase.Executed? && (Lost(s.jobs[id]) <==> !s.jobs[id].outcome.Success?) by {
      FinishIsLast(s);
      assert JobOk(s, id);
    }
    FinishTells(s);
    if j != id {
      assert TaskOk(s, s.jobs[id].task);
      FinishReaches(s, j);
    }
    hide Inv, Apply;
  }

  lemma {:induction false} StepTroubles(s: State, step: Step, t: TaskId)
    requires Inv(s) && Enabled(s, step)
    ensures Troubled(Apply(s, step), t) <==> Troubled(s, t) || Spoils(s, step, t)
  {
    var u := Apply(s, step);
    if Troubled(s, t) {
      var j :| j in s.jobs && s.jobs[j].task == t && Lost(s.jobs[j]);
      StepLoses(s, step, j);
    } else if Spoils(s, step, t) {
      var j :| j in s.jobs && s.jobs[j].task == t && AtWork(s.jobs[j]) && (step.End? ==> j == step.id);
      StepLoses(s, step, j);
    }
    if Troubled(u, t) {
      var j :| j in u.jobs && u.jobs[j].task == t && Lost(u.jobs[j]);
      if j in s.jobs {
        StepLoses(s, step, j);
      }
    }
  }

  lemma {:induction false} RunTroubles(s: State, steps: seq<Step>, t: TaskId)
    requires Inv(s) && Run(s, steps).Some?
    ensures Troubled(Run(s, steps).value, t) <==> Troubled(s, t) || Spoiled(s, steps, t)
    decreases |steps|
  {
    if steps != [] {
      StepInv(s, steps[0]);
      StepTroubles(s, steps[0], t);
      RunTroubles(Apply(s, steps[0]), steps[1..], t);
    }
  }

  /**
   * Over every interleaving: once nothing is left to run, an install task has failed exactly when one of
   * its downloads went wrong or an abort came while one of them was queued or executing.
   */
  lemma {:induction false} FailsExactlyWhen(ids: set<TaskId>, steps: seq<Step>, t: TaskId)
    requires Run(Initial(ids), steps).Some? && t in Run(Initial(ids), steps).value.tasks
    requires Run(Initial(ids), steps).value.running == {}
    ensures Run(Initial(ids), steps).value.tasks[t].fail <==> Spoiled(Initial(ids), steps, t)
  {
    InitialInv(ids);
    RunInv(Initial(ids), steps);
    RunTroubles(Initial(ids), steps, t);
    var s := Run(Initial(ids), steps).value;
    assert TaskOk(s, t);
    forall j | j in s.jobs
      ensures s.jobs[j].phase.Deleted? && (Lost(s.jobs[j]) <==> !s.jobs[j].outcome.Success?)
    {
      assert JobOk(s, j);
    }
  }
}
