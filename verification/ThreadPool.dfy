/**
 The pool after start-up: one task queue per worker, `schedule` from any thread at any time (a running task
 included), and one thread inside `stop`, which cancels and joins the workers one after the other.
 */
module ThreadPool {

  type Tid = nat

  datatype Job = Task(id: nat) | Cancel

  datatype Worker = Worker(
    queue: seq<Job>,
    ran: seq<Job>,       // observer: tasks run, in order
    scheduled: seq<Job>, // observer: everything enqueued, in order
    done: bool           // the thread function has returned
  )

  /** Where `stop` is: about to cancel, or joining, the worker at `next` in the thread list. */
  datatype Stop = Running | Cancelling(next: nat) | Joining(next: nat) | Stopped

  datatype Pool = Pool(
    workers: map<Tid, Worker>,
    threads: seq<Tid>,
    index: set<Tid>, // keys of queues_index_
    stop: Stop
  )

  datatype Action =
    | Schedule(id: Tid, task: nat)
    | RunOne(id: Tid)
    | StopCall
    | StopCancel
    | StopJoin

  const Idle := Worker([], [], [], false)

  function Started(threads: seq<Tid>): Pool {
    Pool(map t | t in threads :: Idle, threads, (set t | t in threads), Running)
  }

  predicate Enabled(p: Pool, a: Action) {
    match a
    case Schedule(_, _) => true
    case RunOne(id) => id in p.workers && !p.workers[id].done && p.workers[id].queue != []
    case StopCall => p.stop.Running? || p.stop.Stopped?
    case StopCancel => p.stop.Cancelling? && p.stop.next < |p.threads|
    case StopJoin =>
      && p.stop.Joining? && p.stop.next < |p.threads|
      && p.threads[p.stop.next] in p.workers && p.workers[p.threads[p.stop.next]].done
  }

  function Enqueued(w: Worker, job: Job): Worker {
    w.(queue := w.queue + [job], scheduled := w.scheduled + [job])
  }

  function Put(p: Pool, id: Tid, job: Job): Pool {
    if id in p.index && id in p.workers then p.(workers := p.workers[id := Enqueued(p.workers[id], job)]) else p
  }

  /** One turn of the thread function: a task is run, a cancel task makes it return. */
  function Turn(w: Worker): Worker
    requires w.queue != []
  {
    match w.queue[0]
    case Task(_) => w.(queue := w.queue[1..], ran := w.ran + [w.queue[0]])
    case Cancel => w.(queue := w.queue[1..], done := true)
  }

  /** `schedule` throws for a thread without a queue; nothing changes then. */
  predicate ScheduleThrows(p: Pool, id: Tid) {
    id !in p.index
  }

  function Next(p: Pool, a: Action): Pool
    requires Enabled(p, a)
  {
    match a
    case Schedule(id, task) => Put(p, id, Task(task))
    case RunOne(id) => p.(workers := p.workers[id := Turn(p.workers[id])])
    case StopCall => if p.threads == [] || p.index == {} then p else p.(stop := Cancelling(0))
    case StopCancel => Put(p, p.threads[p.stop.next], Cancel).(stop := Joining(p.stop.next))
    case StopJoin =>
      if p.stop.next + 1 < |p.threads| then p.(stop := Cancelling(p.stop.next + 1))
      else p.(stop := Stopped, threads := [], index := {})
  }

  ghost predicate Path(p: Pool, actions: seq<Action>, p': Pool)
    decreases |actions|
  {
    if actions == [] then p == p'
    else Enabled(p, actions[0]) && Path(Next(p, actions[0]), actions[1..], p')
  }

  // ---------- invariants ----------

  predicate OnlyTasks(jobs: seq<Job>) {
    forall j <- jobs :: j.Task?
  }

  /** What was scheduled is what ran, the cancel task if it was taken, and what is still queued. */
  predicate InOrder(w: Worker) {
    && w.scheduled == w.ran + (if w.done then [Cancel] else []) + w.queue
    && OnlyTasks(w.ran)
  }

  /** No cancel task has been given to this worker. */
  predicate Uncancelled(w: Worker) {
    !w.done && OnlyTasks(w.queue)
  }

  predicate Distinct(ts: seq<Tid>) {
    forall i, j | 0 <= i < j < |ts| :: ts[i] != ts[j]
  }

  /** How far `stop` has come, worker by worker in the order of the original thread list. */
  predicate Progress(p: Pool, all: seq<Tid>)
    requires forall t <- all :: t in p.workers
  {
    match p.stop
    case Running => forall t <- all :: Uncancelled(p.workers[t])
    case Cancelling(k) =>
      && k < |all|
      && (forall i | 0 <= i < k :: p.workers[all[i]].done)
      && (forall i | k <= i < |all| :: Uncancelled(p.workers[all[i]]))
    case Joining(k) =>
      && k < |all|
      && (p.workers[all[k]].done || Cancel in p.workers[all[k]].queue)
      && (forall i | 0 <= i < k :: p.workers[all[i]].done)
      && (forall i | k < i < |all| :: Uncancelled(p.workers[all[i]]))
    case Stopped => forall t <- all :: p.workers[t].done
  }

  ghost predicate Inv(p: Pool, all: seq<Tid>) {
    && Distinct(all) && all != []
    && (forall t :: t in p.workers <==> t in all)
    && (forall t <- all :: InOrder(p.workers[t]))
    && (if p.stop.Stopped? then p.threads == [] && p.index == {}
        else p.threads == all && p.index == set t | t in all)
    && Progress(p, all)
  }

  lemma TurnInOrder(w: Worker)
    requires InOrder(w) && w.queue != [] && !w.done
    ensures InOrder(Turn(w)) && (Uncancelled(w) ==> Uncancelled(Turn(w)))
    ensures Cancel in w.queue ==> Turn(w).done || Cancel in Turn(w).queue
  {
  }

  lemma EnqueuedInOrder(w: Worker, job: Job)
    requires InOrder(w)
    ensures InOrder(Enqueued(w, job)) && Enqueued(w, job).done == w.done
    ensures Uncancelled(w) && job.Task? ==> Uncancelled(Enqueued(w, job))
  {
  }

  /** One worker changes; if it was uncancelled it still is, or it is the one `stop` is about to join. */
  lemma UpdateInv(p: Pool, all: seq<Tid>, id: Tid, w: Worker)
    requires Inv(p, all) && id in all && InOrder(w)
    requires p.workers[id].done ==> w.done
    requires Cancel in p.workers[id].queue ==> w.done || Cancel in w.queue
    requires Uncancelled(p.workers[id]) ==> Uncancelled(w)
    ensures Inv(p.(workers := p.workers[id := w]), all)
  {
  }

  lemma CancelInv(p: Pool, all: seq<Tid>)
    requires Inv(p, all) && Enabled(p, StopCancel)
    ensures Inv(Next(p, StopCancel), all)
  {
    EnqueuedInOrder(p.workers[p.threads[p.stop.next]], Cancel);
  }

  lemma StepInv(p: Pool, a: Action, all: seq<Tid>)
    requires Inv(p, all) && Enabled(p, a)
    ensures Inv(Next(p, a), all)
  {
    match a {
      case Schedule(id, task) =>
        if id in p.index {
          EnqueuedInOrder(p.workers[id], Task(task));
          UpdateInv(p, all, id, Enqueued(p.workers[id], Task(task)));
        }
      case RunOne(id) =>
        TurnInOrder(p.workers[id]);
        UpdateInv(p, all, id, Turn(p.workers[id]));
      case StopCall =>
      case StopCancel => CancelInv(p, all);
      case StopJoin =>
    }
  }

  lemma {:induction false} PathInv(p: Pool, actions: seq<Action>, p': Pool, all: seq<Tid>)
    requires Inv(p, all) && Path(p, actions, p')
    ensures Inv(p', all)
    decreases |actions|
  {
    if actions != [] {
      StepInv(p, actions[0], all);
      PathInv(Next(p, actions[0]), actions[1..], p', all);
    }
  }

  /** At any time each worker has run exactly the tasks scheduled to it first, in that order. */
  lemma RunsInScheduleOrder(all: seq<Tid>, actions: seq<Action>, p: Pool, t: Tid)
    requires Distinct(all) && Path(Started(all), actions, p) && t in all
    ensures t in p.workers && p.workers[t].ran <= p.workers[t].scheduled
  {
    PathInv(Started(all), actions, p, all);
  }

  /**
   When `stop` has returned, each worker has run every task scheduled to it before its cancel task, in order and
   once each, and none that was scheduled after it; and `schedule` is refused from then on.
   */
  lemma StopDrains(all: seq<Tid>, actions: seq<Action>, p: Pool, t: Tid)
    requires Distinct(all) && Path(Started(all), actions, p) && t in all
    requires p.stop.Stopped?
    ensures t in p.workers && ScheduleThrows(p, t)
    ensures var w := p.workers[t];
      w.done && OnlyTasks(w.ran) && w.scheduled == w.ran + [Cancel] + w.queue
  {
    PathInv(Started(all), actions, p, all);
  }

  // ---------- what the steps do, and that stop returns ----------

  /** schedule puts the task at the end of the worker's queue, or throws and does nothing. */
  lemma ScheduleDoes(p: Pool, all: seq<Tid>, id: Tid, task: nat)
    requires Inv(p, all)
    ensures var p' := Next(p, Schedule(id, task));
      if id in p.index then
        && p' == p.(workers := p'.workers) && p'.workers.Keys == p.workers.Keys
        && p'.workers[id].queue == p.workers[id].queue + [Task(task)]
        && p'.workers[id].scheduled == p.workers[id].scheduled + [Task(task)]
        && p'.workers[id].ran == p.workers[id].ran && p'.workers[id].done == p.workers[id].done
        && forall other | other in p.workers && other != id :: p'.workers[other] == p.workers[other]
      else p' == p
    ensures ScheduleThrows(p, id) <==> id !in all || p.stop.Stopped?
  {
  }

  /** A worker with something in its queue takes the first of it: it runs a task, and returns at a cancel task. */
  lemma WorkerDoes(p: Pool, all: seq<Tid>, id: Tid)
    requires Inv(p, all) && id in all && !p.workers[id].done && p.workers[id].queue != []
    ensures Enabled(p, RunOne(id))
    ensures var w, w' := p.workers[id], Next(p, RunOne(id)).workers[id];
      && w'.queue == w.queue[1..] && w'.scheduled == w.scheduled
      && if w.queue[0] == Cancel then w'.done && w'.ran == w.ran else !w'.done && w'.ran == w.ran + [w.queue[0]]
  {
  }

  /** stop begins with the first worker; a second call, after it has returned, does nothing. */
  lemma StopBegins(p: Pool, all: seq<Tid>)
    requires Inv(p, all)
    ensures p.stop.Running? ==> Next(p, StopCall) == p.(stop := Cancelling(0))
    ensures p.stop.Stopped? ==> Next(p, StopCall) == p
  {
    assert p.stop.Running? ==> all[0] in p.index;
  }

  lemma StepThenPath(p: Pool, a: Action, rest: seq<Action>, p': Pool)
    requires Enabled(p, a) && Path(Next(p, a), rest, p')
    ensures Path(p, [a] + rest, p')
  {
    assert ([a] + rest)[1..] == rest;
  }

  /** Whatever is queued before it, a worker gets to its cancel task and returns. */
  lemma {:induction false} WorkerReturns(p: Pool, all: seq<Tid>, id: Tid) returns (actions: seq<Action>, p': Pool)
    requires Inv(p, all) && id in all && (p.workers[id].done || Cancel in p.workers[id].queue)
    ensures Path(p, actions, p') && Inv(p', all)
    ensures id in p'.workers && p'.workers[id].done && p'.stop == p.stop && p'.threads == p.threads
    decreases |p.workers[id].queue|
  {
    if p.workers[id].done {
      return [], p;
    }
    var p1 := Next(p, RunOne(id));
    StepInv(p, RunOne(id), all);
    actions, p' := WorkerReturns(p1, all, id);
    StepThenPath(p, RunOne(id), actions, p');
    actions := [RunOne(id)] + actions;
  }

  /** How far stop still has to go. */
  function StopLeft(p: Pool, n: nat): nat {
    match p.stop
    case Running => 2 * n + 2
    case Cancelling(k) => if k <= n then 2 * (n - k) + 1 else 0
    case Joining(k) => if k <= n then 2 * (n - k) else 0
    case Stopped => 0
  }

  /** From wherever it stands stop can return: one after the other the workers get to their cancel tasks. */
  lemma {:induction false} StopReturns(p: Pool, all: seq<Tid>) returns (actions: seq<Action>, p': Pool)
    requires Inv(p, all)
    ensures Path(p, actions, p') && p'.stop.Stopped?
    decreases StopLeft(p, |all|)
  {
    match p.stop {
      case Stopped =>
        actions, p' := [], p;
      case Running =>
        StopBegins(p, all);
        StepInv(p, StopCall, all);
        actions, p' := StopReturns(Next(p, StopCall), all);
        StepThenPath(p, StopCall, actions, p');
        actions := [StopCall] + actions;
      case Cancelling(k) =>
        StepInv(p, StopCancel, all);
        actions, p' := StopReturns(Next(p, StopCancel), all);
        StepThenPath(p, StopCancel, actions, p');
        actions := [StopCancel] + actions;
      case Joining(k) =>
        var first, p1 := WorkerReturns(p, all, all[k]);
        StepInv(p1, StopJoin, all);
        var later;
        later, p' := StopReturns(Next(p1, StopJoin), all);
        StepThenPath(p1, StopJoin, later, p');
        PathJoin(p, first, p1, [StopJoin] + later, p');
        actions := first + ([StopJoin] + later);
    }
  }

  lemma {:induction false} PathJoin(p: Pool, first: seq<Action>, p': Pool, later: seq<Action>, p'': Pool)
    requires Path(p, first, p') && Path(p', later, p'')
    ensures Path(p, first + later, p'')
    decreases |first|
  {
    if first == [] {
      assert first + later == later;
    } else {
      assert (first + later)[1..] == first[1..] + later;
      PathJoin(Next(p, first[0]), first[1..], p', later, p'');
    }
  }
}
