/** Background tasks: a registry shared by worker threads and by callers that stop and delete. */
module TaskLifecycle {
  import opened Common

  datatype Status = Queued | Running | Success | Failed | Cancelled

  predicate Terminal(s: Status) {
    s == Success || s == Failed || s == Cancelled
  }

  datatype Task = Task(kind: string, status: Status, message: string, total: int, completed: int, success: int, failed: int,
                       progress: real, result: Option<string>, error: string, cancelRequested: bool, startedAt: int,
                       updatedAt: int, finishedAt: Option<int>)

  type Id = string

  /** What a runner reports: any of these keywords, and no status. */
  datatype Progress = Progress(message: Option<string>, total: Option<int>, completed: Option<int>, success: Option<int>,
                               failed: Option<int>)

  const NO_PROGRESS := Progress(None, None, None, None, None)

  /** The keyword arguments of one `_update` call. */
  datatype Fields = Fields(status: Option<Status>, progress: Progress, result: Option<string>, error: Option<string>,
                           finishedAt: Option<int>)

  const NO_FIELDS := Fields(None, NO_PROGRESS, None, None, None)

  function Percent(total: int, completed: int): real {
    if total <= 0 || completed >= total then 100.0 else completed as real / total as real * 100.0
  }

  function Applied(t: Task, f: Fields, now: int): Task {
    var p := f.progress;
    var total, completed := p.total.GetOr(t.total), p.completed.GetOr(t.completed);
    t.(status := f.status.GetOr(t.status), message := p.message.GetOr(t.message), total := total, completed := completed,
       success := p.success.GetOr(t.success), failed := p.failed.GetOr(t.failed),
       result := if f.result.Some? then f.result else t.result, error := f.error.GetOr(t.error),
       finishedAt := if f.finishedAt.Some? then f.finishedAt else t.finishedAt,
       progress := Percent(total, completed), updatedAt := now)
  }

  function AfterUpdate(tasks: map<Id, Task>, id: Id, f: Fields, now: int): map<Id, Task> {
    if id !in tasks then tasks
    else if Terminal(tasks[id].status) && (f.status.None? || !Terminal(f.status.value)) then tasks
    else tasks[id := Applied(tasks[id], f, now)]
  }

  function ShouldStop(tasks: map<Id, Task>, id: Id): bool {
    id in tasks ==> tasks[id].cancelRequested
  }

  predicate Stoppable(tasks: map<Id, Task>, id: Id) {
    id in tasks && !Terminal(tasks[id].status)
  }

  function AfterStop(tasks: map<Id, Task>, id: Id, now: int): map<Id, Task> {
    if !Stoppable(tasks, id) then tasks
    else
      var t := tasks[id].(cancelRequested := true, updatedAt := now, message := "cancel requested");
      tasks[id := if t.status == Queued
                  then t.(status := Cancelled, message := "cancelled", finishedAt := Some(now), progress := 100.0)
                  else t]
  }

  predicate Deletable(tasks: map<Id, Task>, id: Id) {
    id in tasks && Terminal(tasks[id].status)
  }

  function Present(tasks: map<Id, Task>): Id -> bool {
    (id: Id) => id in tasks
  }

  /** Python's `order[:n]`. */
  function Take(order: seq<Id>, n: int): seq<Id> {
    if n <= 0 then [] else if n >= |order| then order else order[..n]
  }

  function Evicted(tasks: map<Id, Task>, stale: seq<Id>): set<Id> {
    set id | id in stale && id in tasks && Terminal(tasks[id].status)
  }

  datatype Registry = Registry(tasks: map<Id, Task>, order: seq<Id>)

  function Trimmed(r: Registry, maxTasks: int): Registry {
    if |r.order| <= maxTasks then r
    else
      var tasks := r.tasks - Evicted(r.tasks, Take(r.order, |r.order| - maxTasks));
      Registry(tasks, Filter(r.order, Present(tasks)))
  }

  function NewTask(kind: string, now: int): Task {
    Task(kind, Queued, "queued", 0, 0, 0, 0, 0.0, None, "", false, now, now, None)
  }

  function AfterStart(r: Registry, maxTasks: int, id: Id, kind: string, now: int): Registry {
    Trimmed(Registry(r.tasks[id := NewTask(kind, now)], r.order + [id]), maxTasks)
  }

  function AfterDelete(r: Registry, id: Id): Registry {
    if Deletable(r.tasks, id) then Registry(r.tasks - {id}, Filter(r.order, (x: Id) => x != id)) else r
  }

  /** The registry behind the lock; every method is one critical section. */
  class TaskManager {
    const maxTasks: int
    var tasks: map<Id, Task>
    var order: seq<Id>

    constructor (maxTasks: int)
      ensures this.maxTasks == maxTasks && View() == Registry(map[], [])
    {
      this.maxTasks := maxTasks;
      tasks, order := map[], [];
    }

    function View(): Registry
      reads this
    {
      Registry(tasks, order)
    }

    method TrimUnlocked()
      modifies this
      ensures View() == Trimmed(old(View()), maxTasks)
    {
      if |order| <= maxTasks {
        return;
      }
      var stale := Take(order, |order| - maxTasks);
      for i := 0 to |stale|
        invariant order == old(order)
        invariant tasks == old(tasks) - Evicted(old(tasks), stale[..i])
      {
        assert stale[..i + 1] == stale[..i] + [stale[i]];
        if stale[i] in tasks && Terminal(tasks[stale[i]].status) {
          tasks := tasks - {stale[i]};
        }
      }
      assert stale[..|stale|] == stale;
      order := Filter(order, Present(tasks));
    }

    /** The fresh id stands for a new UUID. */
    method StartTask(id: Id, kind: string, now: int)
      modifies this
      ensures View() == AfterStart(old(View()), maxTasks, id, kind, now)
    {
      tasks := tasks[id := NewTask(kind, now)];
      order := order + [id];
      TrimUnlocked();
    }

    method Update(id: Id, f: Fields, now: int)
      modifies this`tasks
      ensures tasks == AfterUpdate(old(tasks), id, f, now)
    {
      if id !in tasks {
        return;
      }
      var task := tasks[id];
      if Terminal(task.status) && f == NO_FIELDS {
        return;
      }
      if Terminal(task.status) && f.status.Some? && !Terminal(f.status.value) {
        return;
      }
      if Terminal(task.status) && f.status.None? {
        return;
      }
      tasks := tasks[id := Applied(task, f, now)];
    }

    method StopTask(id: Id, now: int) returns (stopped: bool)
      modifies this`tasks
      ensures tasks == AfterStop(old(tasks), id, now) && stopped == Stoppable(old(tasks), id)
    {
      if id !in tasks {
        return false;
      }
      var task := tasks[id];
      if Terminal(task.status) {
        return false;
      }
      var next := task.(cancelRequested := true, updatedAt := now, message := "cancel requested");
      if task.status == Queued {
        next := next.(status := Cancelled, message := "cancelled", finishedAt := Some(now), progress := 100.0);
      }
      tasks := tasks[id := next];
      return true;
    }

    method DeleteTask(id: Id) returns (deleted: bool)
      modifies this
      ensures View() == AfterDelete(old(View()), id) && deleted == Deletable(old(tasks), id)
    {
      if id !in tasks || !Terminal(tasks[id].status) {
        return false;
      }
      tasks := tasks - {id};
      order := Filter(order, (x: Id) => x != id);
      return true;
    }
  }

  // ---------------------------------------------------------------------------------------------
  // Interleavings

  /** Where a worker stands between two critical sections of `_run`. */
  datatype Pc =
    | FirstCheck                // before the first should-stop test
    | WriteRunning              // before the update to running
    | InRunner                  // inside the runner
    | ReturnCheck               // the runner has returned; before the should-stop test
    | RaiseCheck                // the runner has raised; before the should-stop test
    | WriteFinal(status: Status) // before the last update
    | Done

  /** The registry, the worker of every task ever started, and the ids in the order they were started. */
  datatype System = System(registry: Registry, workers: map<Id, Pc>, started: seq<Id>)

  datatype Event =
    | Start(id: Id, kind: string, at: int)
    | Stop(id: Id, at: int)
    | Delete(id: Id)
    | Check(id: Id)                                                          // a should-stop test
    | Enter(id: Id, at: int)                                                 // the update to running
    | Report(id: Id, progress: Progress, at: int)                            // from the runner
    | Return(id: Id)
    | RaiseCancelled(id: Id)
    | Raise(id: Id)
    | Finish(id: Id, result: Option<string>, error: Option<string>, at: int) // the last update

  predicate WorkerAt(s: System, id: Id, pc: Pc) {
    id in s.workers && s.workers[id] == pc
  }

  predicate Enabled(s: System, e: Event) {
    match e
    case Start(id, _, _) => id !in s.workers
    case Stop(_, _) => true
    case Delete(_) => true
    case Check(id) => id in s.workers && s.workers[id] in {FirstCheck, ReturnCheck, RaiseCheck}
    case Enter(id, _) => WorkerAt(s, id, WriteRunning)
    case Report(id, _, _) => WorkerAt(s, id, InRunner)
    case Return(id) => WorkerAt(s, id, InRunner)
    case RaiseCancelled(id) => WorkerAt(s, id, InRunner)
    case Raise(id) => WorkerAt(s, id, InRunner)
    case Finish(id, _, _, _) => id in s.workers && s.workers[id].WriteFinal?
  }

  /** Where a should-stop test sends the worker. */
  function AfterCheck(pc: Pc, stop: bool): Pc {
    if stop then WriteFinal(Cancelled)
    else match pc
      case ReturnCheck => WriteFinal(Success)
      case RaiseCheck => WriteFinal(Failed)
      case _ => WriteRunning
  }

  function Saying(message: string): Progress {
    NO_PROGRESS.(message := Some(message))
  }

  function StatusName(s: Status): string {
    match s
    case Queued => "queued" case Running => "running" case Success => "success"
    case Failed => "failed" case Cancelled => "cancelled"
  }

  function WithTasks(s: System, tasks: map<Id, Task>): System {
    s.(registry := s.registry.(tasks := tasks))
  }

  function WithPc(s: System, id: Id, pc: Pc): System {
    s.(workers := s.workers[id := pc])
  }

  function Next(maxTasks: int, s: System, e: Event): System
    requires Enabled(s, e)
  {
    var r := s.registry;
    match e
    case Start(id, kind, at) => System(AfterStart(r, maxTasks, id, kind, at), s.workers[id := FirstCheck], s.started + [id])
    case Stop(id, at) => WithTasks(s, AfterStop(r.tasks, id, at))
    case Delete(id) => s.(registry := AfterDelete(r, id))
    case Check(id) => WithPc(s, id, AfterCheck(s.workers[id], ShouldStop(r.tasks, id)))
    case Enter(id, at) =>
      WithPc(WithTasks(s, AfterUpdate(r.tasks, id, Fields(Some(Running), Saying("running"), None, None, None), at)),
             id, InRunner)
    case Report(id, progress, at) => WithTasks(s, AfterUpdate(r.tasks, id, NO_FIELDS.(progress := progress), at))
    case Return(id) => WithPc(s, id, ReturnCheck)
    case RaiseCancelled(id) => WithPc(s, id, WriteFinal(Cancelled))
    case Raise(id) => WithPc(s, id, RaiseCheck)
    case Finish(id, result, error, at) =>
      var status := s.workers[id].status;
      var fields := Fields(Some(status), Saying(StatusName(status)), result, error, Some(at));
      WithPc(WithTasks(s, AfterUpdate(r.tasks, id, fields, at)), id, Done)
  }

  const START := System(Registry(map[], []), map[], [])

  ghost predicate StepAt(maxTasks: int, states: seq<System>, events: seq<Event>, i: nat)
    requires i < |events| && |states| == |events| + 1
  {
    Enabled(states[i], events[i]) && states[i + 1] == Next(maxTasks, states[i], events[i])
  }

  /** Any interleaving of any number of workers and callers. */
  ghost predicate Trace(maxTasks: int, states: seq<System>, events: seq<Event>) {
    && |states| == |events| + 1 && states[0] == START
    && forall i | 0 <= i < |events| :: StepAt(maxTasks, states, events, i)
  }

  // ---------------------------------------------------------------------------------------------
  // The invariant

  /** How a task's record and its worker's position fit together. */
  predicate Fits(t: Task, pc: Pc) {
    && (t.finishedAt.Some? <==> Terminal(t.status))
    && match pc
       case FirstCheck => t.status == Queued || (t.status == Cancelled && t.cancelRequested)
       case WriteRunning => t.status == Queued || (t.status == Cancelled && t.cancelRequested)
       case InRunner => t.status == Running || (t.status == Cancelled && t.cancelRequested)
       case ReturnCheck => t.status == Running || (t.status == Cancelled && t.cancelRequested)
       case RaiseCheck => t.status == Running || (t.status == Cancelled && t.cancelRequested)
       case WriteFinal(final) =>
         Terminal(final) && (t.status == Running || (t.status == Cancelled && t.cancelRequested && final == Cancelled))
       case Done => Terminal(t.status)
  }

  /** A queued task with a stop request would have been cancelled on the spot. */
  predicate QueuedUnstopped(t: Task) {
    t.status == Queued ==> !t.cancelRequested
  }

  predicate Sound(s: System, id: Id)
    requires id in s.registry.tasks && id in s.workers
  {
    Fits(s.registry.tasks[id], s.workers[id]) && QueuedUnstopped(s.registry.tasks[id])
  }

  /** Records and workers fit, ids are never reused, and the order lists the tasks present in the order
      they were started. */
  ghost predicate Inv(s: System) {
    && s.registry.order == Filter(s.started, Present(s.registry.tasks))
    && Distinct(s.started)
    && (forall id :: id in s.workers <==> id in s.started)
    && (forall id | id in s.registry.tasks :: id in s.workers && Sound(s, id))
  }

  lemma {:induction false} FilterSame(order: seq<Id>, p: Id -> bool, q: Id -> bool)
    requires forall x | x in order :: p(x) == q(x)
    ensures Filter(order, p) == Filter(order, q)
  {
    if order != [] {
      FilterSame(order[1..], p, q);
    }
  }

  lemma {:induction false} PresentAppend(started: seq<Id>, tasks: map<Id, Task>, id: Id, t: Task)
    requires id !in started
    ensures Filter(started + [id], Present(tasks[id := t])) == Filter(started, Present(tasks)) + [id]
  {
    FilterAppend(started, [id], Present(tasks[id := t]));
    FilterSame(started, Present(tasks), Present(tasks[id := t]));
  }

  /** Taking tasks away takes exactly their ids out of the order. */
  lemma {:induction false} PresentLess(started: seq<Id>, tasks: map<Id, Task>, gone: set<Id>)
    ensures Filter(Filter(started, Present(tasks)), Present(tasks - gone)) == Filter(started, Present(tasks - gone))
  {
    FilterFilter(started, Present(tasks), Present(tasks - gone), Present(tasks - gone));
  }

  lemma {:induction false} TrimKeepsOrder(r: Registry, maxTasks: int, started: seq<Id>)
    requires r.order == Filter(started, Present(r.tasks))
    ensures Trimmed(r, maxTasks).order == Filter(started, Present(Trimmed(r, maxTasks).tasks))
    ensures forall id | id in Trimmed(r, maxTasks).tasks :: id in r.tasks && Trimmed(r, maxTasks).tasks[id] == r.tasks[id]
    ensures forall id | id in r.tasks && id !in Trimmed(r, maxTasks).tasks :: Terminal(r.tasks[id].status)
  {
    if |r.order| > maxTasks {
      PresentLess(started, r.tasks, Evicted(r.tasks, Take(r.order, |r.order| - maxTasks)));
    }
  }

  /** What a start leaves in the registry: the new task and tasks that were there, all but some terminal ones. */
  lemma {:induction false} StartLeaves(maxTasks: int, s: System, e: Event)
    requires Inv(s) && e.Start? && Enabled(s, e)
    ensures var s' := Next(maxTasks, s, e);
            && s'.registry.order == Filter(s'.started, Present(s'.registry.tasks))
            && (forall id | id in s'.registry.tasks :: id == e.id || id in s.registry.tasks)
            && (forall id | id in s'.registry.tasks ::
                  s'.registry.tasks[id] == if id == e.id then NewTask(e.kind, e.at) else s.registry.tasks[id])
            && (forall id | id in s.registry.tasks && id !in s'.registry.tasks :: Terminal(s.registry.tasks[id].status))
  {
    var r := s.registry;
    PresentAppend(s.started, r.tasks, e.id, NewTask(e.kind, e.at));
    TrimKeepsOrder(Registry(r.tasks[e.id := NewTask(e.kind, e.at)], r.order + [e.id]), maxTasks, s.started + [e.id]);
  }

  lemma {:induction false} StartKeepsInv(maxTasks: int, s: System, e: Event)
    requires Inv(s) && e.Start? && Enabled(s, e)
    ensures Inv(Next(maxTasks, s, e))
  {
    StartLeaves(maxTasks, s, e);
    var s' := Next(maxTasks, s, e);
    forall id | id in s'.registry.tasks ensures id in s'.workers && Sound(s', id) {
      if id != e.id {
        assert Sound(s, id);
      }
    }
  }

  lemma {:induction false} DeleteKeepsOrder(r: Registry, id: Id, started: seq<Id>)
    requires r.order == Filter(started, Present(r.tasks))
    ensures var r' := AfterDelete(r, id);
            && r'.order == Filter(started, Present(r'.tasks))
            && forall x | x in r'.tasks :: x in r.tasks && r'.tasks[x] == r.tasks[x]
  {
    if Deletable(r.tasks, id) {
      PresentLess(started, r.tasks, {id});
      FilterSame(r.order, (x: Id) => x != id, Present(r.tasks - {id}));
    }
  }

  lemma {:induction false} DeleteKeepsInv(maxTasks: int, s: System, e: Event)
    requires Inv(s) && e.Delete?
    ensures Inv(Next(maxTasks, s, e))
  {
    DeleteKeepsOrder(s.registry, e.id, s.started);
    assert Next(maxTasks, s, e) == s.(registry := AfterDelete(s.registry, e.id));
  }

  /** The other steps touch at most one record and one position, and keep them fitting. */
  lemma {:induction false} WorkKeepsSound(maxTasks: int, s: System, e: Event, id: Id)
    requires !e.Start? && !e.Delete? && Enabled(s, e)
    requires id in s.registry.tasks && id in s.workers && Sound(s, id)
    ensures var s' := Next(maxTasks, s, e);
            id in s'.registry.tasks && id in s'.workers && Sound(s', id)
  {
  }

  lemma {:induction false} WorkKeepsIds(maxTasks: int, s: System, e: Event)
    requires Inv(s) && !e.Start? && !e.Delete? && Enabled(s, e)
    ensures var s' := Next(maxTasks, s, e);
            && s'.registry.tasks.Keys == s.registry.tasks.Keys && s'.workers.Keys == s.workers.Keys
            && s'.started == s.started && s'.registry.order == s.registry.order
  {
  }

  lemma {:induction false} WorkKeepsInv(maxTasks: int, s: System, e: Event)
    requires Inv(s) && !e.Start? && !e.Delete? && Enabled(s, e)
    ensures Inv(Next(maxTasks, s, e))
  {
    var s' := Next(maxTasks, s, e);
    WorkKeepsIds(maxTasks, s, e);
    forall id | id in s'.registry.tasks ensures id in s'.workers && Sound(s', id) {
      assert id in s.registry.tasks && id in s.workers;
      WorkKeepsSound(maxTasks, s, e, id);
    }
    FilterSame(s.started, Present(s.registry.tasks), Present(s'.registry.tasks));
  }

  lemma {:induction false} InvAlways(maxTasks: int, states: seq<System>, events: seq<Event>, i: nat)
    requires Trace(maxTasks, states, events) && i <= |events|
    ensures Inv(states[i])
  {
    if i > 0 {
      InvAlways(maxTasks, states, events, i - 1);
      assert StepAt(maxTasks, states, events, i - 1);
      var s, e := states[i - 1], events[i - 1];
      if e.Start? {
        StartKeepsInv(maxTasks, s, e);
      } else if e.Delete? {
        DeleteKeepsInv(maxTasks, s, e);
      } else {
        WorkKeepsInv(maxTasks, s, e);
      }
    }
  }

  // ---------------------------------------------------------------------------------------------
  // What holds of every interleaving

  /** `finished_at` is set exactly when the status is terminal. */
  lemma {:induction false} FinishedExactlyWhenTerminal(maxTasks: int, states: seq<System>, events: seq<Event>, i: nat, id: Id)
    requires Trace(maxTasks, states, events) && i <= |events| && id in states[i].registry.tasks
    ensures states[i].registry.tasks[id].finishedAt.Some? <==> Terminal(states[i].registry.tasks[id].status)
  {
    InvAlways(maxTasks, states, events, i);
  }

  /** What became of a task's status: a terminal one is kept, or the task is gone. */
  predicate TerminalKept(s: System, s': System, id: Id)
    requires id in s.registry.tasks
  {
    if id in s'.registry.tasks
    then Terminal(s.registry.tasks[id].status) ==> s'.registry.tasks[id].status == s.registry.tasks[id].status
    else Terminal(s.registry.tasks[id].status)
  }

  lemma {:induction false} WorkKeepsTerminal(maxTasks: int, s: System, e: Event, id: Id)
    requires !e.Start? && !e.Delete? && Enabled(s, e)
    requires id in s.registry.tasks && id in s.workers && Sound(s, id)
    ensures TerminalKept(s, Next(maxTasks, s, e), id)
  {
  }

  /** Every step leaves a terminal status alone, and takes away only terminal tasks. */
  lemma {:induction false} StepKeepsTerminal(maxTasks: int, s: System, e: Event, id: Id)
    requires Inv(s) && Enabled(s, e) && id in s.registry.tasks
    ensures TerminalKept(s, Next(maxTasks, s, e), id)
  {
    assert id in s.workers && Sound(s, id);
    if e.Start? {
      StartLeaves(maxTasks, s, e);
    } else if !e.Delete? {
      WorkKeepsTerminal(maxTasks, s, e, id);
    }
  }

  lemma {:induction false} StepBringsOnlyNewTasks(maxTasks: int, s: System, e: Event, id: Id)
    requires Inv(s) && Enabled(s, e) && id in s.workers && id !in s.registry.tasks
    ensures var s' := Next(maxTasks, s, e);
            id in s'.workers && id !in s'.registry.tasks
  {
    if e.Start? {
      StartLeaves(maxTasks, s, e);
    }
  }

  /** The task has been removed, or is there with the given terminal status. */
  predicate SettledAs(s: System, id: Id, status: Status) {
    id in s.workers && Terminal(status) && (id in s.registry.tasks ==> s.registry.tasks[id].status == status)
  }

  lemma {:induction false} WorkersRemain(maxTasks: int, s: System, e: Event, id: Id)
    requires Enabled(s, e) && id in s.workers
    ensures id in Next(maxTasks, s, e).workers
  {
  }

  lemma {:induction false} StepKeepsSettled(maxTasks: int, s: System, e: Event, id: Id, status: Status)
    requires Inv(s) && Enabled(s, e) && SettledAs(s, id, status)
    ensures SettledAs(Next(maxTasks, s, e), id, status)
    ensures id !in s.registry.tasks ==> id !in Next(maxTasks, s, e).registry.tasks
  {
    WorkersRemain(maxTasks, s, e, id);
    if id in s.registry.tasks {
      StepKeepsTerminal(maxTasks, s, e, id);
    } else {
      StepBringsOnlyNewTasks(maxTasks, s, e, id);
    }
  }

  lemma {:induction false} SettledForever(maxTasks: int, states: seq<System>, events: seq<Event>, i: nat, j: nat, id: Id,
                                          status: Status)
    requires Trace(maxTasks, states, events) && i <= j <= |events| && SettledAs(states[i], id, status)
    ensures SettledAs(states[j], id, status)
    ensures id !in states[i].registry.tasks ==> id !in states[j].registry.tasks
  {
    if i < j {
      var s, e := states[j - 1], events[j - 1];
      SettledForever(maxTasks, states, events, i, j - 1, id, status);
      assert Inv(s) by { InvAlways(maxTasks, states, events, j - 1); }
      assert StepAt(maxTasks, states, events, j - 1);
      assert SettledAs(Next(maxTasks, s, e), id, status) && (id !in s.registry.tasks ==> id !in Next(maxTasks, s, e).registry.tasks) by {
        StepKeepsSettled(maxTasks, s, e, id, status);
      }
    }
  }

  /** A task that was started and then removed never comes back. */
  lemma {:induction false} RemovedForever(maxTasks: int, states: seq<System>, events: seq<Event>, i: nat, j: nat, id: Id)
    requires Trace(maxTasks, states, events) && i <= j <= |events|
    requires id in states[i].workers && id !in states[i].registry.tasks
    ensures id in states[j].workers && id !in states[j].registry.tasks
  {
    SettledForever(maxTasks, states, events, i, j, id, Success);
  }

  /** Under every interleaving a terminal status never changes again. */
  lemma {:induction false} TerminalForever(maxTasks: int, states: seq<System>, events: seq<Event>, i: nat, j: nat, id: Id)
    requires Trace(maxTasks, states, events) && i <= j <= |events|
    requires id in states[i].registry.tasks && Terminal(states[i].registry.tasks[id].status)
    ensures id in states[j].workers
    ensures id in states[j].registry.tasks ==>
              states[j].registry.tasks[id].status == states[i].registry.tasks[id].status
  {
    InvAlways(maxTasks, states, events, i);
    assert Sound(states[i], id);
    SettledForever(maxTasks, states, events, i, j, id, states[i].registry.tasks[id].status);
  }

  /** A task leaves the registry only once it is terminal. */
  lemma {:induction false} OnlyTerminalRemoved(maxTasks: int, states: seq<System>, events: seq<Event>, i: nat, id: Id)
    requires Trace(maxTasks, states, events) && i < |events|
    requires id in states[i].registry.tasks && id !in states[i + 1].registry.tasks
    ensures Terminal(states[i].registry.tasks[id].status)
  {
    InvAlways(maxTasks, states, events, i);
    assert StepAt(maxTasks, states, events, i);
    StepKeepsTerminal(maxTasks, states[i], events[i], id);
  }

  /** What a trim takes away, by positions: the terminal tasks among those before the last `maxTasks`. */
  lemma {:induction false} TrimmedByPosition(r: Registry, maxTasks: int, k: nat)
    requires k < |r.order| && Distinct(r.order) && r.order[k] in r.tasks
    ensures r.order[k] !in Trimmed(r, maxTasks).tasks <==>
              Terminal(r.tasks[r.order[k]].status) && k < |r.order| - maxTasks
  {
    if |r.order| > maxTasks {
      var stale := Take(r.order, |r.order| - maxTasks);
      assert r.order[k] in stale <==> k < |stale| by {
        if k < |stale| {
          assert stale[k] == r.order[k];
        }
      }
    }
  }

  lemma {:induction false} LeavesAtStart(maxTasks: int, s: System, e: Event, k: nat)
    requires Inv(s) && e.Start? && Enabled(s, e) && k < |s.registry.order|
    ensures var id := s.registry.order[k];
            && id in s.registry.tasks
            && (id !in Next(maxTasks, s, e).registry.tasks <==>
                  Terminal(s.registry.tasks[id].status) && k < |s.registry.order| + 1 - maxTasks)
  {
    var r := s.registry;
    FilterDistinct(s.started, Present(r.tasks));
    var id := r.order[k];
    assert id in r.order && id in s.workers && e.id !in r.order;
    var full := Registry(r.tasks[e.id := NewTask(e.kind, e.at)], r.order + [e.id]);
    assert full.order[k] == id;
    TrimmedByPosition(full, maxTasks, k);
  }

  lemma {:induction false} LeavesByDelete(maxTasks: int, s: System, e: Event, id: Id)
    requires Inv(s) && !e.Start? && Enabled(s, e) && id in s.registry.tasks
    ensures id !in Next(maxTasks, s, e).registry.tasks <==> Terminal(s.registry.tasks[id].status) && e == Delete(id)
  {
    if !e.Delete? {
      WorkKeepsIds(maxTasks, s, e);
    }
  }

  /** Exactly when a task leaves, under every interleaving: once it is terminal, by its own deletion, or by
      a start that leaves at least `maxTasks` later tasks behind it. So a start removes nothing while
      everything fits, and never one of the last `maxTasks`. */
  lemma {:induction false} LeavesExactly(maxTasks: int, states: seq<System>, events: seq<Event>, i: nat, k: nat)
    requires Trace(maxTasks, states, events) && i < |events| && k < |states[i].registry.order|
    ensures var (r, id) := (states[i].registry, states[i].registry.order[k]);
            && id in r.tasks
            && (id !in states[i + 1].registry.tasks <==>
                  && Terminal(r.tasks[id].status)
                  && (events[i] == Delete(id) || (events[i].Start? && |r.order| - k >= maxTasks)))
  {
    InvAlways(maxTasks, states, events, i);
    assert StepAt(maxTasks, states, events, i);
    assert states[i].registry.order[k] in states[i].registry.order;
    if events[i].Start? {
      LeavesAtStart(maxTasks, states[i], events[i], k);
    } else {
      LeavesByDelete(maxTasks, states[i], events[i], states[i].registry.order[k]);
    }
  }

  /** A start puts the new task in, and it is the last of the order. */
  lemma {:induction false} NewcomerStays(maxTasks: int, states: seq<System>, events: seq<Event>, i: nat)
    requires Trace(maxTasks, states, events) && i < |events| && events[i].Start?
    ensures var (r, e) := (states[i + 1].registry, events[i]);
            && e.id in r.tasks && r.tasks[e.id] == NewTask(e.kind, e.at)
            && r.order != [] && r.order[|r.order| - 1] == e.id
  {
    InvAlways(maxTasks, states, events, i);
    assert StepAt(maxTasks, states, events, i);
    var s, e, s' := states[i], events[i], states[i + 1];
    var full := Registry(s.registry.tasks[e.id := NewTask(e.kind, e.at)], s.registry.order + [e.id]);
    assert s'.registry == Trimmed(full, maxTasks);
    assert e.id in s'.registry.tasks;
    FilterAppend(s.registry.order, [e.id], Present(s'.registry.tasks));
  }

  /** At every point the order lists exactly the tasks present, once each, in the order they were started. */
  lemma {:induction false} OrderIsStartOrder(maxTasks: int, states: seq<System>, events: seq<Event>, i: nat)
    requires Trace(maxTasks, states, events) && i <= |events|
    ensures var s := states[i];
            && s.registry.order == Filter(s.started, Present(s.registry.tasks))
            && Distinct(s.registry.order)
            && forall id :: id in s.registry.order <==> id in s.registry.tasks
  {
    InvAlways(maxTasks, states, events, i);
    FilterDistinct(states[i].started, Present(states[i].registry.tasks));
  }

  lemma {:induction false} FilterDistinct(order: seq<Id>, keep: Id -> bool)
    requires Distinct(order)
    ensures Distinct(Filter(order, keep))
  {
    if order != [] {
      assert Distinct(order[1..]);
      FilterDistinct(order[1..], keep);
      assert order[0] !in order[1..];
    }
  }

  // ---------------------------------------------------------------------------------------------
  // What a record tells

  /** The four numbers a runner can report. */
  datatype Counter = Total | Completed | Successes | Failures

  function Recorded(t: Task, c: Counter): int {
    match c
    case Total => t.total case Completed => t.completed case Successes => t.success case Failures => t.failed
  }

  function Said(p: Progress, c: Counter): Option<int> {
    match c
    case Total => p.total case Completed => p.completed case Successes => p.success case Failures => p.failed
  }

  /** A report that gives the counter of a task that is not terminal yet. */
  predicate Heard(s: System, e: Event, id: Id, c: Counter) {
    && e.Report? && e.id == id && Said(e.progress, c).Some?
    && id in s.registry.tasks && !Terminal(s.registry.tasks[id].status)
  }

  lemma {:induction false} CounterUpdated(tasks: map<Id, Task>, id: Id, f: Fields, now: int, c: Counter)
    requires id in tasks && !Terminal(tasks[id].status)
    ensures Recorded(AfterUpdate(tasks, id, f, now)[id], c) == Said(f.progress, c).GetOr(Recorded(tasks[id], c))
  {
  }

  lemma {:induction false} CounterStep(maxTasks: int, s: System, e: Event, id: Id, c: Counter)
    requires !e.Start? && Enabled(s, e) && id in s.registry.tasks && id in Next(maxTasks, s, e).registry.tasks
    ensures Recorded(Next(maxTasks, s, e).registry.tasks[id], c) ==
              if Heard(s, e, id, c) then Said(e.progress, c).value else Recorded(s.registry.tasks[id], c)
  {
    if e.Report? && e.id == id && !Terminal(s.registry.tasks[id].status) {
      CounterUpdated(s.registry.tasks, id, NO_FIELDS.(progress := e.progress), e.at, c);
    }
  }

  /** A task that is there at two points is there all the time between them. */
  lemma {:induction false} ThereBetween(maxTasks: int, states: seq<System>, events: seq<Event>, i: nat, k: nat, j: nat, id: Id)
    requires Trace(maxTasks, states, events) && i <= k <= j <= |events|
    requires id in states[i].registry.tasks && id in states[j].registry.tasks
    ensures id in states[k].registry.tasks
  {
    InvAlways(maxTasks, states, events, i);
    WorkersStay(maxTasks, states, events, i, k, id);
    if id !in states[k].registry.tasks {
      RemovedForever(maxTasks, states, events, k, j, id);
    }
  }

  lemma {:induction false} CounterKept(maxTasks: int, states: seq<System>, events: seq<Event>, i: nat, id: Id, c: Counter)
    requires Trace(maxTasks, states, events) && i < |events|
    requires id in states[i].registry.tasks && id in states[i + 1].registry.tasks
    ensures Recorded(states[i + 1].registry.tasks[id], c) ==
              if Heard(states[i], events[i], id, c) then Said(events[i].progress, c).value
              else Recorded(states[i].registry.tasks[id], c)
  {
    assert StepAt(maxTasks, states, events, i);
    if events[i].Start? {
      InvAlways(maxTasks, states, events, i);
      StartLeaves(maxTasks, states[i], events[i]);
    } else {
      CounterStep(maxTasks, states[i], events[i], id, c);
    }
  }

  /** Under every interleaving a task's record holds, counter by counter, what its runner last reported. */
  lemma {:induction false} CounterIsLastReported(maxTasks: int, states: seq<System>, events: seq<Event>, i: nat, j: nat,
                                                 id: Id, c: Counter)
    requires Trace(maxTasks, states, events) && i < j <= |events| && Heard(states[i], events[i], id, c)
    requires forall k | i < k < j :: !Heard(states[k], events[k], id, c)
    requires id in states[j].registry.tasks
    ensures Recorded(states[j].registry.tasks[id], c) == Said(events[i].progress, c).value
    decreases j
  {
    ThereBetween(maxTasks, states, events, i, j - 1, j, id);
    CounterKept(maxTasks, states, events, j - 1, id, c);
    if i < j - 1 {
      CounterIsLastReported(maxTasks, states, events, i, j - 1, id, c);
    }
  }

  lemma {:induction false} WorkersStay(maxTasks: int, states: seq<System>, events: seq<Event>, i: nat, j: nat, id: Id)
    requires Trace(maxTasks, states, events) && i <= j <= |events| && id in states[i].workers
    ensures id in states[j].workers
  {
    if i < j {
      WorkersStay(maxTasks, states, events, i, j - 1, id);
      assert StepAt(maxTasks, states, events, j - 1);
      WorkersRemain(maxTasks, states[j - 1], events[j - 1], id);
    }
  }

  /** A queued task is at nothing of nothing; any other shows the percentage its counters give. */
  predicate ProgressFits(t: Task) {
    if t.status == Queued then t.progress == 0.0 && t.total == 0 && t.completed == 0
    else if 0 < t.total && t.completed < t.total then t.progress * t.total as real == 100.0 * t.completed as real
    else t.progress == 100.0
  }

  lemma {:induction false} PercentFits(total: int, completed: int)
    ensures if 0 < total && completed < total then Percent(total, completed) * total as real == 100.0 * completed as real
            else Percent(total, completed) == 100.0
  {
  }

  lemma {:induction false} UpdateFits(tasks: map<Id, Task>, id: Id, f: Fields, now: int)
    requires id in tasks ==> ProgressFits(tasks[id])
    requires id in tasks ==> f.status.GetOr(tasks[id].status) != Queued
    ensures id in tasks ==> ProgressFits(AfterUpdate(tasks, id, f, now)[id])
  {
    if id in tasks {
      PercentFits(f.progress.total.GetOr(tasks[id].total), f.progress.completed.GetOr(tasks[id].completed));
    }
  }

  lemma {:induction false} WorkFits(maxTasks: int, s: System, e: Event, id: Id)
    requires !e.Start? && Enabled(s, e) && id in s.registry.tasks && id in Next(maxTasks, s, e).registry.tasks
    requires id in s.workers && Sound(s, id) && ProgressFits(s.registry.tasks[id])
    ensures ProgressFits(Next(maxTasks, s, e).registry.tasks[id])
  {
    var tasks := s.registry.tasks;
    match e
    case Enter(x, at) =>
      if x == id {
        UpdateFits(tasks, id, Fields(Some(Running), Saying("running"), None, None, None), at);
      }
    case Report(x, progress, at) =>
      if x == id {
        UpdateFits(tasks, id, NO_FIELDS.(progress := progress), at);
      }
    case Finish(x, result, error, at) =>
      if x == id {
        var status := s.workers[id].status;
        UpdateFits(tasks, id, Fields(Some(status), Saying(StatusName(status)), result, error, Some(at)), at);
      }
    case _ =>
  }

  lemma {:induction false} StartFits(maxTasks: int, s: System, e: Event, id: Id)
    requires Inv(s) && e.Start? && Enabled(s, e) && id in Next(maxTasks, s, e).registry.tasks
    requires id in s.registry.tasks ==> ProgressFits(s.registry.tasks[id])
    ensures ProgressFits(Next(maxTasks, s, e).registry.tasks[id])
  {
    StartLeaves(maxTasks, s, e);
  }

  lemma {:induction false} ProgressKept(maxTasks: int, s: System, e: Event, id: Id)
    requires Inv(s) && Enabled(s, e) && id in Next(maxTasks, s, e).registry.tasks
    requires id in s.registry.tasks ==> ProgressFits(s.registry.tasks[id])
    ensures ProgressFits(Next(maxTasks, s, e).registry.tasks[id])
  {
    if e.Start? {
      StartFits(maxTasks, s, e, id);
    } else {
      assert id in s.registry.tasks && Sound(s, id);
      WorkFits(maxTasks, s, e, id);
    }
  }

  /** The percentage of every task of every interleaving is that of its counters. */
  lemma {:induction false} ProgressTold(maxTasks: int, states: seq<System>, events: seq<Event>, i: nat, id: Id)
    requires Trace(maxTasks, states, events) && i <= |events| && id in states[i].registry.tasks
    ensures ProgressFits(states[i].registry.tasks[id])
  {
    if i > 0 {
      var s, e := states[i - 1], events[i - 1];
      assert Inv(s) by { InvAlways(maxTasks, states, events, i - 1); }
      assert StepAt(maxTasks, states, events, i - 1);
      if id in s.registry.tasks {
        ProgressTold(maxTasks, states, events, i - 1, id);
      }
      assert ProgressFits(Next(maxTasks, s, e).registry.tasks[id]) by { ProgressKept(maxTasks, s, e, id); }
    }
  }

  /** The worker is through, and its task is gone or has this record. */
  predicate Closed(s: System, id: Id, record: Task) {
    WorkerAt(s, id, Done) && Terminal(record.status) && (id in s.registry.tasks ==> s.registry.tasks[id] == record)
  }

  lemma {:induction false} StaysClosed(maxTasks: int, s: System, e: Event, id: Id, record: Task)
    requires Inv(s) && Enabled(s, e) && Closed(s, id, record)
    ensures Closed(Next(maxTasks, s, e), id, record)
  {
    if e.Start? {
      StartLeaves(maxTasks, s, e);
    }
  }

  /** Once a worker is through, its task's record never changes again. */
  lemma {:induction false} ClosedForever(maxTasks: int, states: seq<System>, events: seq<Event>, i: nat, j: nat, id: Id,
                                         record: Task)
    requires Trace(maxTasks, states, events) && i <= j <= |events| && Closed(states[i], id, record)
    ensures Closed(states[j], id, record)
  {
    if i < j {
      ClosedForever(maxTasks, states, events, i, j - 1, id, record);
      InvAlways(maxTasks, states, events, j - 1);
      assert StepAt(maxTasks, states, events, j - 1);
      StaysClosed(maxTasks, states[j - 1], events[j - 1], id, record);
    }
  }

  lemma {:induction false} FinishCloses(maxTasks: int, s: System, e: Event)
    requires e.Finish? && Enabled(s, e) && e.id in s.registry.tasks && Sound(s, e.id)
    ensures var s' := Next(maxTasks, s, e);
            && e.id in s'.registry.tasks && Closed(s', e.id, s'.registry.tasks[e.id])
            && var t := s'.registry.tasks[e.id];
               && t.status == s.workers[e.id].status && t.finishedAt == Some(e.at)
               && (e.result.Some? ==> t.result == e.result) && (e.error.Some? ==> t.error == e.error.value)
  {
  }

  /** The verdict, the result, the error and the time a worker ends with are what the record says for as
      long as it is kept. */
  lemma {:induction false} EndingRecorded(maxTasks: int, states: seq<System>, events: seq<Event>, i: nat, j: nat, id: Id)
    requires Trace(maxTasks, states, events) && i < j <= |events|
    requires events[i].Finish? && events[i].id == id && id in states[j].registry.tasks
    ensures id in states[i].workers && states[i].workers[id].WriteFinal?
    ensures var (t, e) := (states[j].registry.tasks[id], events[i]);
            && t.status == states[i].workers[id].status && t.finishedAt == Some(e.at)
            && (e.result.Some? ==> t.result == e.result) && (e.error.Some? ==> t.error == e.error.value)
  {
    InvAlways(maxTasks, states, events, i);
    assert StepAt(maxTasks, states, events, i);
    if id in states[i].registry.tasks {
      FinishCloses(maxTasks, states[i], events[i]);
      ClosedForever(maxTasks, states, events, i + 1, j, id, states[i + 1].registry.tasks[id]);
    } else {
      RemovedForever(maxTasks, states, events, i, j, id);
    }
  }

  predicate Unstopped(s: System, id: Id) {
    id in s.registry.tasks && !s.registry.tasks[id].cancelRequested
  }

  /** The runner is never entered. */
  predicate NeverRuns(s: System, id: Id) {
    && id in s.workers && !Unstopped(s, id)
    && s.workers[id] in {FirstCheck, WriteFinal(Cancelled), Done}
  }

  lemma {:induction false} StaysIdle(maxTasks: int, s: System, e: Event, id: Id)
    requires Inv(s) && Enabled(s, e) && NeverRuns(s, id)
    ensures NeverRuns(Next(maxTasks, s, e), id)
  {
    if e.Start? {
      StartLeaves(maxTasks, s, e);
    }
  }

  /** A task that is stopped, or removed, before its worker's first should-stop test is never run. */
  lemma {:induction false} StoppedNeverRuns(maxTasks: int, states: seq<System>, events: seq<Event>, i: nat, j: nat, id: Id)
    requires Trace(maxTasks, states, events) && i <= j <= |events|
    requires WorkerAt(states[i], id, FirstCheck) && !Unstopped(states[i], id)
    ensures NeverRuns(states[j], id)
  {
    if i < j {
      var s, e := states[j - 1], events[j - 1];
      StoppedNeverRuns(maxTasks, states, events, i, j - 1, id);
      assert Inv(s) by { InvAlways(maxTasks, states, events, j - 1); }
      assert StepAt(maxTasks, states, events, j - 1);
      assert NeverRuns(Next(maxTasks, s, e), id) by { StaysIdle(maxTasks, s, e, id); }
    }
  }

  // ---------------------------------------------------------------------------------------------
  // Verdicts

  /** What became of the task's runner in the first `n` events. */
  function Outcome(events: seq<Event>, id: Id, n: nat): Option<Event>
    requires n <= |events|
  {
    if n == 0 then None
    else if events[n - 1] in {Return(id), Raise(id), RaiseCancelled(id)} then Some(events[n - 1])
    else Outcome(events, id, n - 1)
  }

  /** Where the worker stands says what became of its runner; a verdict says so too, unless a stop came. */
  predicate PlaceTells(s: System, id: Id, outcome: Option<Event>) {
    if id !in s.workers then outcome == None
    else match s.workers[id]
         case FirstCheck => outcome == None
         case WriteRunning => outcome == None
         case InRunner => outcome == None
         case ReturnCheck => outcome == Some(Return(id))
         case RaiseCheck => outcome == Some(Raise(id))
         case WriteFinal(verdict) =>
           && (verdict == Success ==> outcome == Some(Return(id)))
           && (verdict == Failed ==> outcome == Some(Raise(id)))
           && (verdict == Cancelled && Unstopped(s, id) ==> outcome == Some(RaiseCancelled(id)))
         case Done => true
  }

  lemma {:induction false} WorkTellsPlace(maxTasks: int, s: System, e: Event, id: Id, outcome: Option<Event>)
    requires !e.Start? && Enabled(s, e) && PlaceTells(s, id, outcome)
    ensures PlaceTells(Next(maxTasks, s, e), id, if e in {Return(id), Raise(id), RaiseCancelled(id)} then Some(e) else outcome)
  {
  }

  lemma {:induction false} StartTellsPlace(maxTasks: int, s: System, e: Event, id: Id, outcome: Option<Event>)
    requires Inv(s) && e.Start? && Enabled(s, e) && PlaceTells(s, id, outcome)
    ensures PlaceTells(Next(maxTasks, s, e), id, outcome)
  {
    StartLeaves(maxTasks, s, e);
  }

  lemma {:induction false} StepTellsPlace(maxTasks: int, s: System, e: Event, id: Id, outcome: Option<Event>)
    requires Inv(s) && Enabled(s, e) && PlaceTells(s, id, outcome)
    ensures PlaceTells(Next(maxTasks, s, e), id, if e in {Return(id), Raise(id), RaiseCancelled(id)} then Some(e) else outcome)
  {
    if e.Start? {
      StartTellsPlace(maxTasks, s, e, id, outcome);
    } else {
      WorkTellsPlace(maxTasks, s, e, id, outcome);
    }
  }

  lemma {:induction false} PlacesTell(maxTasks: int, states: seq<System>, events: seq<Event>, n: nat, id: Id)
    requires Trace(maxTasks, states, events) && n <= |events|
    ensures PlaceTells(states[n], id, Outcome(events, id, n))
  {
    if n > 0 {
      var s, e := states[n - 1], events[n - 1];
      PlacesTell(maxTasks, states, events, n - 1, id);
      assert Inv(s) by { InvAlways(maxTasks, states, events, n - 1); }
      assert StepAt(maxTasks, states, events, n - 1);
      assert PlaceTells(Next(maxTasks, s, e), id, Outcome(events, id, n)) by {
        StepTellsPlace(maxTasks, s, e, id, Outcome(events, id, n - 1));
      }
    }
  }

  /** A worker's verdict is success only if its runner returned and failed only if it raised an error; and with
      no stop requested and the task not removed, it is success exactly then, failed exactly then, and
      cancelled exactly if the runner raised that it was cancelled. */
  lemma {:induction false} VerdictTold(maxTasks: int, states: seq<System>, events: seq<Event>, i: nat, id: Id)
    requires Trace(maxTasks, states, events) && i < |events| && events[i].Finish? && events[i].id == id
    ensures WorkerAt(states[i], id, WriteFinal(Success)) ==> Outcome(events, id, i) == Some(Return(id))
    ensures WorkerAt(states[i], id, WriteFinal(Failed)) ==> Outcome(events, id, i) == Some(Raise(id))
    ensures Unstopped(states[i], id) ==>
              && (WorkerAt(states[i], id, WriteFinal(Success)) <==> Outcome(events, id, i) == Some(Return(id)))
              && (WorkerAt(states[i], id, WriteFinal(Failed)) <==> Outcome(events, id, i) == Some(Raise(id)))
              && (WorkerAt(states[i], id, WriteFinal(Cancelled)) <==> Outcome(events, id, i) == Some(RaiseCancelled(id)))
  {
    PlacesTell(maxTasks, states, events, i, id);
    InvAlways(maxTasks, states, events, i);
    assert StepAt(maxTasks, states, events, i);
  }

  // ---------------------------------------------------------------------------------------------
  // Size

  function Active(tasks: map<Id, Task>): Id -> bool {
    (id: Id) => id in tasks && !Terminal(tasks[id].status)
  }

  /** What survives of the stale part is active; the rest fits the limit. */
  lemma {:induction false} TrimBounds(r: Registry, maxTasks: int)
    requires forall id | id in r.order :: id in r.tasks
    ensures var r' := Trimmed(r, maxTasks);
            |r'.order| <= Max(0, maxTasks) + |Filter(r'.order, Active(r'.tasks))|
  {
    if |r.order| > maxTasks {
      var r' := Trimmed(r, maxTasks);
      var stale := Take(r.order, |r.order| - maxTasks);
      var recent := r.order[|stale|..];
      assert r.order == stale + recent && |recent| <= Max(0, maxTasks);
      FilterAppend(stale, recent, Present(r'.tasks));
      var kept := Filter(stale, Present(r'.tasks));
      FilterAppend(kept, Filter(recent, Present(r'.tasks)), Active(r'.tasks));
      FilterAll(kept, Active(r'.tasks));
    }
  }

  /** Right after each start the registry holds at most the limit plus the tasks still active. */
  lemma {:induction false} SizeAfterStart(maxTasks: int, states: seq<System>, events: seq<Event>, i: nat)
    requires Trace(maxTasks, states, events) && i < |events| && events[i].Start?
    ensures var r := states[i + 1].registry;
            |r.order| <= Max(0, maxTasks) + |Filter(r.order, Active(r.tasks))|
  {
    InvAlways(maxTasks, states, events, i);
    assert StepAt(maxTasks, states, events, i);
    var r, e := states[i].registry, events[i];
    TrimBounds(Registry(r.tasks[e.id := NewTask(e.kind, e.at)], r.order + [e.id]), maxTasks);
  }

  // ---------------------------------------------------------------------------------------------
  // Stopping

  /** The worker's last should-stop test is still to come. */
  predicate BeforeLastCheck(pc: Pc) {
    pc in {FirstCheck, WriteRunning, InRunner, ReturnCheck, RaiseCheck}
  }

  /** A stop request that can no longer be missed. */
  predicate Doomed(s: System, id: Id) {
    && id in s.workers
    && (id in s.registry.tasks ==>
          && s.registry.tasks[id].cancelRequested
          && s.registry.tasks[id].status in {Running, Cancelled}
          && s.workers[id] !in {WriteFinal(Success), WriteFinal(Failed)})
  }

  /** A stop request that came too late: the worker is about to write, or has written, its own verdict. */
  predicate Decided(s: System, id: Id, verdict: Status) {
    && id in s.workers
    && (id in s.registry.tasks ==>
          || (s.workers[id] == WriteFinal(verdict) && s.registry.tasks[id].status == Running)
          || (s.workers[id] == Done && s.registry.tasks[id].status == verdict))
  }

  /** What becomes of the task, by where its worker stood when the stop was accepted. */
  predicate Fated(s: System, id: Id, at: Pc) {
    if at == WriteFinal(Success) then Decided(s, id, Success)
    else if at == WriteFinal(Failed) then Decided(s, id, Failed)
    else Doomed(s, id)
  }

  lemma {:induction false} StartKeepsFate(maxTasks: int, s: System, e: Event, id: Id, at: Pc)
    requires Inv(s) && e.Start? && Enabled(s, e) && Fated(s, id, at)
    ensures Fated(Next(maxTasks, s, e), id, at)
  {
    StartLeaves(maxTasks, s, e);
    var s' := Next(maxTasks, s, e);
    assert id != e.id && s'.workers[id] == s.workers[id];
    assert id in s'.registry.tasks ==> id in s.registry.tasks && s'.registry.tasks[id] == s.registry.tasks[id];
  }

  lemma {:induction false} WorkKeepsFate(maxTasks: int, s: System, e: Event, id: Id, at: Pc)
    requires !e.Start? && Enabled(s, e) && Fated(s, id, at)
    requires id in s.registry.tasks ==> id in s.workers && Sound(s, id)
    ensures Fated(Next(maxTasks, s, e), id, at)
  {
  }

  lemma {:induction false} StopSetsFate(maxTasks: int, s: System, e: Event)
    requires e.Stop? && Stoppable(s.registry.tasks, e.id) && e.id in s.workers && Sound(s, e.id)
    ensures Fated(Next(maxTasks, s, e), e.id, s.workers[e.id])
  {
  }

  lemma {:induction false} FateSealed(maxTasks: int, states: seq<System>, events: seq<Event>, i: nat)
    requires Trace(maxTasks, states, events) && i < |events|
    requires events[i].Stop? && Stoppable(states[i].registry.tasks, events[i].id)
    ensures events[i].id in states[i].workers
    ensures Fated(states[i + 1], events[i].id, states[i].workers[events[i].id])
  {
    InvAlways(maxTasks, states, events, i);
    assert StepAt(maxTasks, states, events, i);
    assert Sound(states[i], events[i].id);
    StopSetsFate(maxTasks, states[i], events[i]);
  }

  lemma {:induction false} FateKept(maxTasks: int, states: seq<System>, events: seq<Event>, i: nat, id: Id, at: Pc)
    requires Trace(maxTasks, states, events) && i < |events| && Fated(states[i], id, at)
    ensures Fated(states[i + 1], id, at)
  {
    InvAlways(maxTasks, states, events, i);
    assert StepAt(maxTasks, states, events, i);
    if events[i].Start? {
      StartKeepsFate(maxTasks, states[i], events[i], id, at);
    } else {
      WorkKeepsFate(maxTasks, states[i], events[i], id, at);
    }
  }

  lemma {:induction false} FateAfterStop(maxTasks: int, states: seq<System>, events: seq<Event>, i: nat, j: nat, id: Id)
    requires Trace(maxTasks, states, events) && i < j <= |events|
    requires events[i].Stop? && events[i].id == id && Stoppable(states[i].registry.tasks, id)
    ensures id in states[i].workers && Fated(states[j], id, states[i].workers[id])
    decreases j
  {
    FateSealed(maxTasks, states, events, i);
    if i < j - 1 {
      FateAfterStop(maxTasks, states, events, i, j - 1, id);
      FateKept(maxTasks, states, events, j - 1, id, states[i].workers[id]);
    }
  }

  /** A stop that is accepted before the worker's last should-stop test always ends in cancelled: from
      then on the task is never recorded with any other terminal status. */
  lemma {:induction false} StopEndsInCancelled(maxTasks: int, states: seq<System>, events: seq<Event>, i: nat, j: nat, id: Id)
    requires Trace(maxTasks, states, events) && i < j <= |events|
    requires events[i].Stop? && events[i].id == id && Stoppable(states[i].registry.tasks, id)
    requires id in states[i].workers && BeforeLastCheck(states[i].workers[id])
    requires id in states[j].registry.tasks
    ensures Terminal(states[j].registry.tasks[id].status) ==> states[j].registry.tasks[id].status == Cancelled
    ensures WorkerAt(states[j], id, Done) ==> states[j].registry.tasks[id].status == Cancelled
  {
    FateAfterStop(maxTasks, states, events, i, j, id);
    InvAlways(maxTasks, states, events, j);
    assert Sound(states[j], id);
  }

  /** Whatever the interleaving, an accepted stop of a task whose worker has finished and whose record is
      still there ended in cancelled exactly unless the worker had already decided otherwise. */
  lemma {:induction false} StopWinsExactly(maxTasks: int, states: seq<System>, events: seq<Event>, i: nat, j: nat, id: Id)
    requires Trace(maxTasks, states, events) && i < j <= |events|
    requires events[i].Stop? && events[i].id == id && Stoppable(states[i].registry.tasks, id)
    requires id in states[j].registry.tasks && WorkerAt(states[j], id, Done)
    ensures id in states[i].workers
    ensures states[j].registry.tasks[id].status == Cancelled <==>
              states[i].workers[id] !in {WriteFinal(Success), WriteFinal(Failed)}
  {
    FateAfterStop(maxTasks, states, events, i, j, id);
    InvAlways(maxTasks, states, events, j);
    assert Sound(states[j], id);
  }
}
