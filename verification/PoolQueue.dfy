/**
 The pool over its real queues: each worker's queue is a monitor, entered by whoever schedules and left by the worker
 alone, one lock step at a time. Every run of it is a run of `ThreadPool`, and no worker sleeps beside a task.
 */
module PoolQueues {
  import opened ThreadPool
  import Mon = SynchronisedQueue

  type Queue = Mon.State<Job>

  datatype Low = Low(queues: map<Tid, Queue>, threads: seq<Tid>, index: set<Tid>, stop: Stop)

  datatype Act =
    | Call(id: Tid, caller: Tid, task: nat)  // schedule finds the worker's queue and enters enqueue
    | Fetch(id: Tid)                         // the worker enters dequeue
    | Inside(id: Tid, a: Mon.Action<Job>)    // one lock step of a thread that is inside the worker's queue
    | StopEnter                              // stop_thread enters enqueue with the cancel task
    | StopDoes(step: Action)                 // stop is called, or joins a worker

  predicate CallsOf(a: Mon.Action<Job>) {
    a.CallEnqueue? || a.CallDequeue?
  }

  /** What the pool sees of a queue: tasks count as run in the order the worker takes them. */
  function WorkerOf(q: Queue): Worker {
    var done := Cancel in q.dequeued;
    Worker(q.queue, if done then q.dequeued[..|q.dequeued| - 1] else q.dequeued, q.enqueued, done)
  }

  function AsPool(l: Low): Pool {
    Pool(map t | t in l.queues :: WorkerOf(l.queues[t]), l.threads, l.index, l.stop)
  }

  /** A thread about to push: it has entered enqueue and not yet appended its job. */
  predicate Pushing(pc: Mon.Pc<Job>) {
    pc.WantPush? || pc.HavePush?
  }

  predicate Fetching(pc: Mon.Pc<Job>) {
    pc.WantTest? || pc.HaveTest? || pc.HavePop? || pc.Waiting?
  }

  ghost predicate NoPushes(q: Queue) {
    forall t | t in q.pcs :: !Pushing(q.pcs[t])
  }

  ghost predicate Enters(l: Low, id: Tid, a: Mon.Action<Job>) {
    id in l.queues && Mon.Enabled(l.queues[id], a)
  }

  /**
   `stop` is one thread. It empties the index, which no lock protects, when nobody is inside `schedule`. A worker whose
   cancel task ran is joined when its thread has left the queue.
   */
  ghost predicate Can(l: Low, stopper: Tid, act: Act) {
    match act
    case Call(id, caller, task) =>
      id in l.index ==> Enters(l, id, Mon.CallEnqueue(caller, Task(task)))
    case Fetch(id) => Enters(l, id, Mon.CallDequeue(id)) && Cancel !in l.queues[id].dequeued
    case Inside(id, a) => Enters(l, id, a) && !CallsOf(a)
    case StopEnter =>
      && l.stop.Cancelling? && l.stop.next < |l.threads|
      && Enters(l, l.threads[l.stop.next], Mon.CallEnqueue(stopper, Cancel))
    case StopDoes(step) =>
      && (step.StopCall? || step.StopJoin?) && Enabled(AsPool(l), step)
      && (step.StopJoin? ==>
            && Mon.At(l.queues[l.threads[l.stop.next]], l.threads[l.stop.next]).Idle?
            && (l.stop.next + 1 < |l.threads| || forall t | t in l.queues :: NoPushes(l.queues[t])))
  }

  function Moved(l: Low, id: Tid, a: Mon.Action<Job>): Low
    requires id in l.queues && Mon.Enabled(l.queues[id], a)
  {
    l.(queues := l.queues[id := Mon.Next(l.queues[id], a)])
  }

  /** The push of the cancel task is what takes `stop` from cancelling to joining. */
  function Do(l: Low, stopper: Tid, act: Act): Low
    requires Can(l, stopper, act)
  {
    match act
    case Call(id, caller, task) => if id in l.index then Moved(l, id, Mon.CallEnqueue(caller, Task(task))) else l
    case Fetch(id) => Moved(l, id, Mon.CallDequeue(id))
    case Inside(id, a) =>
      var l' := Moved(l, id, a);
      if a.Push? && Mon.At(l.queues[id], a.t).x == Cancel && l.stop.Cancelling?
      then l'.(stop := Joining(l.stop.next)) else l'
    case StopEnter => Moved(l, l.threads[l.stop.next], Mon.CallEnqueue(stopper, Cancel))
    case StopDoes(step) =>
      var p := Next(AsPool(l), step);
      Low(l.queues, p.threads, p.index, p.stop)
  }

  ghost predicate Runs(l: Low, stopper: Tid, acts: seq<Act>, l': Low)
    decreases |acts|
  {
    if acts == [] then l == l'
    else Can(l, stopper, acts[0]) && Runs(Do(l, stopper, acts[0]), stopper, acts[1..], l')
  }

  // ---------- what holds of each queue ----------

  /** Cancel is taken last; only the worker fetches, and not after that. */
  ghost predicate QueueInv(q: Queue, id: Tid) {
    && Mon.Inv(q)
    && (forall i | 0 <= i < |q.dequeued| - 1 :: q.dequeued[i] != Cancel)
    && (forall t | t in q.pcs && Fetching(q.pcs[t]) :: t == id && Cancel !in q.dequeued)
  }

  /** Who is about to push: nobody once the index is empty; the cancel task only where `stop` is. */
  ghost predicate PushInv(l: Low, stopper: Tid, id: Tid)
    requires id in l.queues
  {
    forall t | t in l.queues[id].pcs && Pushing(l.queues[id].pcs[t]) ::
      && id in l.index
      && (l.queues[id].pcs[t].x == Cancel ==>
            t == stopper && l.stop.Cancelling? && l.stop.next < |l.threads| && l.threads[l.stop.next] == id)
  }

  ghost predicate LowInv(l: Low, stopper: Tid, all: seq<Tid>) {
    && Distinct(all) && all != []
    && (forall t :: t in l.queues <==> t in all)
    && (forall t | t in l.queues :: QueueInv(l.queues[t], t) && PushInv(l, stopper, t))
    && (if l.stop.Stopped? then l.threads == [] && l.index == {} else l.threads == all && l.index == set t | t in all)
  }

  lemma QueueStepInv(q: Queue, id: Tid, a: Mon.Action<Job>)
    requires QueueInv(q, id) && Mon.Enabled(q, a)
    requires a.CallDequeue? ==> a.t == id && Cancel !in q.dequeued
    ensures QueueInv(Mon.Next(q, a), id)
  {
    Mon.StepInv(q, a);
  }

  /** A push schedules, a pop by the worker is one turn of it, and nothing else can be seen. */
  lemma QueueStepSeen(q: Queue, id: Tid, a: Mon.Action<Job>)
    requires QueueInv(q, id) && Mon.Enabled(q, a)
    ensures var w, w' := WorkerOf(q), WorkerOf(Mon.Next(q, a));
      match a
      case Push(t) => w' == Enqueued(w, Mon.At(q, t).x)
      case Pop(t) => t == id && !w.done && w.queue != [] && w' == Turn(w)
      case _ => w' == w
  {
    if a.Pop? {
      assert a.t in q.pcs && Fetching(q.pcs[a.t]);
      var q' := Mon.Next(q, a);
      assert q'.dequeued == q.dequeued + [q.queue[0]];
      assert q'.dequeued[..|q'.dequeued| - 1] == q.dequeued;
    }
  }

  /** Who is about to push after a step inside a queue: nobody new, unless somebody just entered. */
  lemma QueueStepPushes(q: Queue, a: Mon.Action<Job>, t: Tid)
    requires Mon.Enabled(q, a) && Mon.Inv(q)
    requires var q' := Mon.Next(q, a); t in q'.pcs && Pushing(q'.pcs[t])
    ensures var q' := Mon.Next(q, a);
      || (a == Mon.CallEnqueue(t, q'.pcs[t].x))
      || (t in q.pcs && Pushing(q.pcs[t]) && q.pcs[t].x == q'.pcs[t].x && !(a.Push? && a.t == t))
  {
  }

  lemma PoolOf(l: Low, id: Tid, q': Queue)
    requires id in l.queues
    ensures var p := AsPool(l);
      AsPool(l.(queues := l.queues[id := q'])) == p.(workers := p.workers[id := WorkerOf(q')])
  {
  }

  lemma SameWorker(l: Low, id: Tid, q': Queue)
    requires id in l.queues && WorkerOf(q') == WorkerOf(l.queues[id])
    ensures AsPool(l.(queues := l.queues[id := q'])) == AsPool(l)
  {
  }

  lemma NoStep(p: Pool)
    ensures Path(p, [], p)
  {
  }

  lemma OneStep(p: Pool, a: Action)
    requires Enabled(p, a)
    ensures Path(p, [a], Next(p, a))
  {
    assert [a][1..] == [];
  }

  // ---------- every act keeps the invariant and is a step of the pool ----------

  /** `stop` moved on from pushing the cancel task, or did not move. */
  predicate StopAfter(l: Low, id: Tid, a: Mon.Action<Job>, stop': Stop)
    requires id in l.queues
  {
    if a.Push? && Mon.At(l.queues[id], a.t) == Mon.HavePush(Cancel) && l.stop.Cancelling?
    then stop' == Joining(l.stop.next) else stop' == l.stop
  }

  /** Only the worker fetches, not after its cancel task; only `stop` pushes one, to the worker it has come to. */
  predicate MayEnter(l: Low, stopper: Tid, id: Tid, a: Mon.Action<Job>)
    requires id in l.queues
  {
    && (a.CallDequeue? ==> a.t == id && Cancel !in l.queues[id].dequeued)
    && (a.CallEnqueue? ==> id in l.index)
    && (a.CallEnqueue? && a.x == Cancel ==>
          a.t == stopper && l.stop.Cancelling? && l.stop.next < |l.threads| && l.threads[l.stop.next] == id)
  }

  lemma PushesKept(l: Low, stopper: Tid, all: seq<Tid>, id: Tid, a: Mon.Action<Job>, stop': Stop, other: Tid)
    requires LowInv(l, stopper, all) && Enters(l, id, a) && StopAfter(l, id, a, stop')
    requires MayEnter(l, stopper, id, a)
    requires other in l.queues
    ensures PushInv(Moved(l, id, a).(stop := stop'), stopper, other)
  {
    var q := l.queues[id];
    var l' := Moved(l, id, a).(stop := stop');
    forall t | t in l'.queues[other].pcs && Pushing(l'.queues[other].pcs[t])
      ensures other in l'.index
      ensures l'.queues[other].pcs[t].x == Cancel ==>
        t == stopper && stop'.Cancelling? && stop'.next < |l'.threads| && l'.threads[stop'.next] == other
    {
      if other == id {
        QueueStepPushes(q, a, t);
      }
      if stop' != l.stop {
        assert a.t in q.pcs && Pushing(q.pcs[a.t]);
      }
    }
  }

  lemma MovedInv(l: Low, stopper: Tid, all: seq<Tid>, id: Tid, a: Mon.Action<Job>, stop': Stop)
    requires LowInv(l, stopper, all) && Enters(l, id, a) && StopAfter(l, id, a, stop')
    requires MayEnter(l, stopper, id, a)
    ensures LowInv(Moved(l, id, a).(stop := stop'), stopper, all)
  {
    QueueStepInv(l.queues[id], id, a);
    forall other | other in l.queues ensures PushInv(Moved(l, id, a).(stop := stop'), stopper, other) {
      PushesKept(l, stopper, all, id, a, stop', other);
    }
  }

  lemma PushRefines(l: Low, stopper: Tid, all: seq<Tid>, id: Tid, t: Tid) returns (step: Action)
    requires LowInv(l, stopper, all) && Can(l, stopper, Inside(id, Mon.Push(t)))
    ensures Enabled(AsPool(l), step)
    ensures AsPool(Do(l, stopper, Inside(id, Mon.Push(t)))) == Next(AsPool(l), step)
  {
    var q := l.queues[id];
    var q' := Mon.Next(q, Mon.Push(t));
    assert t in q.pcs && Pushing(q.pcs[t]);
    QueueStepSeen(q, id, Mon.Push(t));
    PoolOf(l, id, q');
    match q.pcs[t].x {
      case Task(n) => step := Schedule(id, n);
      case Cancel => step := StopCancel;
    }
  }

  lemma PopRefines(l: Low, stopper: Tid, all: seq<Tid>, id: Tid, t: Tid)
    requires LowInv(l, stopper, all) && Can(l, stopper, Inside(id, Mon.Pop(t)))
    ensures Enabled(AsPool(l), RunOne(id))
    ensures AsPool(Do(l, stopper, Inside(id, Mon.Pop(t)))) == Next(AsPool(l), RunOne(id))
  {
    QueueStepSeen(l.queues[id], id, Mon.Pop(t));
    PoolOf(l, id, Mon.Next(l.queues[id], Mon.Pop(t)));
  }

  lemma InsideRefines(l: Low, stopper: Tid, all: seq<Tid>, id: Tid, a: Mon.Action<Job>) returns (steps: seq<Action>)
    requires LowInv(l, stopper, all) && Can(l, stopper, Inside(id, a))
    ensures LowInv(Do(l, stopper, Inside(id, a)), stopper, all)
    ensures Path(AsPool(l), steps, AsPool(Do(l, stopper, Inside(id, a))))
  {
    MovedInv(l, stopper, all, id, a, Do(l, stopper, Inside(id, a)).stop);
    if a.Push? {
      var step := PushRefines(l, stopper, all, id, a.t);
      OneStep(AsPool(l), step);
      steps := [step];
    } else if a.Pop? {
      PopRefines(l, stopper, all, id, a.t);
      OneStep(AsPool(l), RunOne(id));
      steps := [RunOne(id)];
    } else {
      QueueStepSeen(l.queues[id], id, a);
      SameWorker(l, id, Mon.Next(l.queues[id], a));
      NoStep(AsPool(l));
      steps := [];
    }
  }

  lemma EnterRefines(l: Low, stopper: Tid, all: seq<Tid>, id: Tid, a: Mon.Action<Job>)
    requires LowInv(l, stopper, all) && Enters(l, id, a) && CallsOf(a)
    requires MayEnter(l, stopper, id, a)
    ensures LowInv(Moved(l, id, a), stopper, all) && Path(AsPool(l), [], AsPool(Moved(l, id, a)))
  {
    MovedInv(l, stopper, all, id, a, l.stop);
    assert Moved(l, id, a).(stop := l.stop) == Moved(l, id, a);
    QueueStepSeen(l.queues[id], id, a);
    SameWorker(l, id, Mon.Next(l.queues[id], a));
    NoStep(AsPool(l));
  }

  lemma StopRefines(l: Low, stopper: Tid, all: seq<Tid>, step: Action)
    requires LowInv(l, stopper, all) && Can(l, stopper, StopDoes(step))
    ensures LowInv(Do(l, stopper, StopDoes(step)), stopper, all)
    ensures Path(AsPool(l), [step], AsPool(Do(l, stopper, StopDoes(step))))
  {
    StopKeepsInv(l, stopper, all, step);
    OneStep(AsPool(l), step);
    assert AsPool(Do(l, stopper, StopDoes(step))) == Next(AsPool(l), step);
  }

  lemma StopKeepsInv(l: Low, stopper: Tid, all: seq<Tid>, step: Action)
    requires LowInv(l, stopper, all) && Can(l, stopper, StopDoes(step))
    ensures LowInv(Do(l, stopper, StopDoes(step)), stopper, all)
  {
    var l' := Do(l, stopper, StopDoes(step));
    forall id | id in l'.queues ensures PushInv(l', stopper, id) {
      assert PushInv(l, stopper, id);
    }
  }

  lemma ActRefines(l: Low, stopper: Tid, all: seq<Tid>, act: Act) returns (steps: seq<Action>)
    requires LowInv(l, stopper, all) && Can(l, stopper, act)
    ensures LowInv(Do(l, stopper, act), stopper, all) && Path(AsPool(l), steps, AsPool(Do(l, stopper, act)))
  {
    steps := [];
    match act {
      case Call(id, caller, task) =>
        if id in l.index {
          EnterRefines(l, stopper, all, id, Mon.CallEnqueue(caller, Task(task)));
        } else {
          NoStep(AsPool(l));
        }
      case Fetch(id) => EnterRefines(l, stopper, all, id, Mon.CallDequeue(id));
      case Inside(id, a) => steps := InsideRefines(l, stopper, all, id, a);
      case StopEnter => EnterRefines(l, stopper, all, l.threads[l.stop.next], Mon.CallEnqueue(stopper, Cancel));
      case StopDoes(step) =>
        StopRefines(l, stopper, all, step);
        steps := [step];
    }
  }

  // ---------- whole runs ----------

  /** Every run over real queues is a run of the pool. */
  lemma {:induction false} RunRefines(l: Low, stopper: Tid, all: seq<Tid>, acts: seq<Act>, l': Low)
    returns (steps: seq<Action>)
    requires LowInv(l, stopper, all) && Runs(l, stopper, acts, l')
    ensures LowInv(l', stopper, all) && Path(AsPool(l), steps, AsPool(l'))
    decreases |acts|
  {
    if acts == [] {
      steps := [];
    } else {
      var l1 := Do(l, stopper, acts[0]);
      var first := ActRefines(l, stopper, all, acts[0]);
      var later := RunRefines(l1, stopper, all, acts[1..], l');
      PathJoin(AsPool(l), first, AsPool(l1), later, AsPool(l'));
      steps := first + later;
    }
  }

  function StartedLow(threads: seq<Tid>): Low {
    Low(map t | t in threads :: Mon.Fresh(), threads, (set t | t in threads), Running)
  }

  /**
   After start-up, over any run of the pool on its real queues: it is a run of `ThreadPool`; each worker has taken
   the first of its jobs in schedule order, none after its cancel task, which it has taken when `stop` has returned;
   and with the mutex free a worker that waits has an empty queue.
   */
  lemma PoolRuns(all: seq<Tid>, stopper: Tid, acts: seq<Act>, l: Low, id: Tid) returns (steps: seq<Action>)
    requires Distinct(all) && Runs(StartedLow(all), stopper, acts, l) && id in all
    ensures Path(Started(all), steps, AsPool(l))
    ensures id in l.queues && var q := l.queues[id];
      && q.enqueued == q.dequeued + q.queue
      && (forall i | 0 <= i < |q.dequeued| - 1 :: q.dequeued[i] != Cancel)
      && (l.stop.Stopped? ==> Cancel in q.dequeued)
      && (q.holder.None? && Mon.At(q, id).Waiting? ==> q.queue == [])
  {
    var l0 := StartedLow(all);
    assert AsPool(l0) == Started(all);
    steps := RunRefines(l0, stopper, all, acts, l);
    if l.stop.Stopped? {
      StopDrains(all, steps, AsPool(l), id);
    }
    if l.queues[id].holder.None? && Mon.At(l.queues[id], id).Waiting? {
      NoSleepBesideJobs(l.queues[id], id);
    }
  }

  lemma NoSleepBesideJobs(q: Queue, id: Tid)
    requires QueueInv(q, id) && q.holder.None? && Mon.At(q, id).Waiting?
    ensures q.queue == []
  {
    assert id in Mon.WaitSet(q);
    assert Mon.ResumeSet(q) == {};
  }
}
