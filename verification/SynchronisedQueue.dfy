/**
 The monitor queue, one lock step at a time: any number of threads enqueue and dequeue, waiters may be woken
 spuriously, and a thread that just arrived may take the lock before one that was notified.
 */
module SynchronisedQueue {
  import opened Bytes

  type Tid = nat

  /** Where a thread is. The `Have` points hold the mutex. */
  datatype Pc<T> =
    | Idle
    | WantPush(x: T)
    | HavePush(x: T)
    | HaveNotify
    | WantTest(signalled: bool)  // entering dequeue, or woken and needing the mutex again
    | HaveTest(signalled: bool)
    | HavePop(signalled: bool)
    | Waiting
    | HaveUnlock

  datatype State<T> = State(
    queue: seq<T>,
    holder: Option<Tid>,
    pcs: map<Tid, Pc<T>>,
    enqueued: seq<T>,  // observer: everything pushed, in order
    dequeued: seq<T>   // observer: everything popped, in order
  )

  datatype Action<T> =
    | CallEnqueue(t: Tid, x: T)
    | CallDequeue(t: Tid)
    | Lock(t: Tid)
    | Push(t: Tid)
    | Notify(t: Tid, choice: Tid)  // `choice` is the waiter notify_one picks, if there is one
    | Test(t: Tid)
    | Pop(t: Tid)
    | Unlock(t: Tid)
    | Spurious(t: Tid)

  function At<T>(s: State<T>, t: Tid): Pc<T> {
    if t in s.pcs then s.pcs[t] else Idle
  }

  function WaitSet<T>(s: State<T>): set<Tid> {
    set t | t in s.pcs && s.pcs[t].Waiting?
  }

  predicate Wants<T>(pc: Pc<T>) {
    pc.WantPush? || pc.WantTest?
  }

  function Locked<T>(pc: Pc<T>): Pc<T> {
    match pc
    case WantPush(x) => HavePush(x)
    case WantTest(signalled) => HaveTest(signalled)
    case _ => pc
  }

  predicate Enabled<T>(s: State<T>, a: Action<T>) {
    match a
    case CallEnqueue(t, _) => At(s, t).Idle?
    case CallDequeue(t) => At(s, t).Idle?
    case Lock(t) => s.holder.None? && Wants(At(s, t))
    case Push(t) => At(s, t).HavePush?
    case Notify(t, choice) => At(s, t).HaveNotify? && (WaitSet(s) != {} ==> choice in WaitSet(s))
    case Test(t) => At(s, t).HaveTest?
    case Pop(t) => At(s, t).HavePop?
    case Unlock(t) => At(s, t).HaveUnlock?
    case Spurious(t) => At(s, t).Waiting?
  }

  function Goto<T>(s: State<T>, t: Tid, pc: Pc<T>): State<T> {
    s.(pcs := s.pcs[t := pc])
  }

  function Next<T>(s: State<T>, a: Action<T>): State<T>
    requires Enabled(s, a)
  {
    match a
    case CallEnqueue(t, x) => Goto(s, t, WantPush(x))
    case CallDequeue(t) => Goto(s, t, WantTest(false))
    case Lock(t) => Goto(s, t, Locked(At(s, t))).(holder := Some(t))
    case Push(t) =>
      var x := At(s, t).x;
      Goto(s, t, HaveNotify).(queue := s.queue + [x], enqueued := s.enqueued + [x])
    case Notify(t, choice) =>
      var s1 := Goto(s, t, HaveUnlock);
      if WaitSet(s) == {} then s1 else Goto(s1, choice, WantTest(true))
    case Test(t) =>
      if s.queue == [] then Goto(s, t, Waiting).(holder := None)  // wait() gives the mutex up
      else Goto(s, t, HavePop(At(s, t).signalled))
    case Pop(t) =>
      if s.queue == [] then s
      else Goto(s, t, HaveUnlock).(queue := s.queue[1..], dequeued := s.dequeued + [s.queue[0]])
    case Unlock(t) => Goto(s, t, Idle).(holder := None)
    case Spurious(t) => Goto(s, t, WantTest(false))
  }

  ghost predicate Path<T>(s: State<T>, actions: seq<Action<T>>, s': State<T>)
    decreases |actions|
  {
    if actions == [] then s == s'
    else Enabled(s, actions[0]) && Path(Next(s, actions[0]), actions[1..], s')
  }

  // ---------- invariants ----------

  predicate HoldsLock<T>(pc: Pc<T>) {
    pc.HavePush? || pc.HaveNotify? || pc.HaveTest? || pc.HavePop? || pc.HaveUnlock?
  }

  predicate Resuming<T>(pc: Pc<T>) {
    (pc.WantTest? || pc.HaveTest? || pc.HavePop?) && pc.signalled
  }

  /** The consumers that were notified and have neither popped nor gone back to waiting. */
  function ResumeSet<T>(s: State<T>): set<Tid> {
    set t | t in s.pcs && Resuming(s.pcs[t])
  }

  /** One for a push whose notification is still to come. */
  function Pending<T>(s: State<T>): nat {
    if s.holder.Some? && At(s, s.holder.value).HaveNotify? then 1 else 0
  }

  ghost predicate MutualExclusion<T>(s: State<T>) {
    && (forall t | t in s.pcs && HoldsLock(s.pcs[t]) :: s.holder == Some(t))
    && (s.holder.Some? ==> s.holder.value in s.pcs && HoldsLock(s.pcs[s.holder.value]))
  }

  /** While somebody waits unsignalled, every queued element has a notified consumer on its way. */
  ghost predicate NotStranded<T>(s: State<T>) {
    WaitSet(s) != {} ==> |s.queue| <= |ResumeSet(s)| + Pending(s)
  }

  ghost predicate Inv<T>(s: State<T>) {
    && MutualExclusion(s)
    && s.enqueued == s.dequeued + s.queue
    && (forall t | t in s.pcs && s.pcs[t].HavePop? :: s.queue != [])
    && NotStranded(s)
  }

  lemma ResumeAfterGoto<T>(s: State<T>, t: Tid, pc: Pc<T>)
    ensures var s' := Goto(s, t, pc);
      && ResumeSet(s') == (if Resuming(pc) then ResumeSet(s) + {t} else ResumeSet(s) - {t})
      && WaitSet(s') == (if pc.Waiting? then WaitSet(s) + {t} else WaitSet(s) - {t})
      && (t in ResumeSet(s) <==> Resuming(At(s, t)))
      && (t in WaitSet(s) <==> At(s, t).Waiting?)
  {
  }

  lemma StepKeepsQueue<T>(s: State<T>, a: Action<T>)
    requires Inv(s) && Enabled(s, a)
    ensures var s' := Next(s, a);
      && s'.enqueued == s'.dequeued + s'.queue
      && (forall t | t in s'.pcs && s'.pcs[t].HavePop? :: s'.queue != [])
  {
  }

  lemma PushKeeps<T>(s: State<T>, t: Tid)
    requires Inv(s) && Enabled(s, Push(t))
    ensures NotStranded(Next(s, Push(t)))
  {
    ResumeAfterGoto(s, t, HaveNotify);
  }

  /** Notifying turns the pending notification into a consumer on its way. */
  lemma NotifyKeeps<T>(s: State<T>, t: Tid, choice: Tid)
    requires Inv(s) && Enabled(s, Notify(t, choice))
    ensures NotStranded(Next(s, Notify(t, choice)))
  {
    var s1 := Goto(s, t, HaveUnlock);
    ResumeAfterGoto(s, t, HaveUnlock);
    if WaitSet(s) != {} {
      ResumeAfterGoto(s1, choice, WantTest(true));
      assert choice !in ResumeSet(s);
    }
  }

  lemma TestKeeps<T>(s: State<T>, t: Tid)
    requires Inv(s) && Enabled(s, Test(t))
    ensures NotStranded(Next(s, Test(t)))
  {
    if s.queue != [] {
      ResumeAfterGoto(s, t, HavePop(At(s, t).signalled));
      assert ResumeSet(Next(s, Test(t))) == ResumeSet(s);
    }
  }

  lemma PopKeeps<T>(s: State<T>, t: Tid)
    requires Inv(s) && Enabled(s, Pop(t))
    ensures NotStranded(Next(s, Pop(t)))
  {
    ResumeAfterGoto(s, t, HaveUnlock);
    assert ResumeSet(s) <= ResumeSet(Next(s, Pop(t))) + {t};
  }

  /** Moves of a thread that neither starts to wait, stops being on its way, nor touches the queue. */
  lemma MoveKeeps<T>(s: State<T>, t: Tid, pc: Pc<T>, s': State<T>)
    requires NotStranded(s) && s'.queue == s.queue && s'.pcs == Goto(s, t, pc).pcs
    requires !pc.Waiting? && Resuming(pc) == Resuming(At(s, t)) && Pending(s) <= Pending(s')
    ensures NotStranded(s')
  {
    ResumeAfterGoto(s, t, pc);
    assert ResumeSet(s') == ResumeSet(Goto(s, t, pc)) == ResumeSet(s);
    assert WaitSet(s') == WaitSet(Goto(s, t, pc));
  }

  lemma StepKeepsNotStranded<T>(s: State<T>, a: Action<T>)
    requires Inv(s) && Enabled(s, a)
    ensures NotStranded(Next(s, a))
  {
    match a {
      case Push(t) => PushKeeps(s, t);
      case Notify(t, choice) => NotifyKeeps(s, t, choice);
      case Test(t) => TestKeeps(s, t);
      case Pop(t) => PopKeeps(s, t);
      case Lock(t) => MoveKeeps(s, t, Locked(At(s, t)), Next(s, a));
      case Unlock(t) => MoveKeeps(s, t, Idle, Next(s, a));
      case CallEnqueue(t, x) => MoveKeeps(s, t, WantPush(x), Next(s, a));
      case CallDequeue(t) => MoveKeeps(s, t, WantTest(false), Next(s, a));
      case Spurious(t) => MoveKeeps(s, t, WantTest(false), Next(s, a));
    }
  }

  lemma StepInv<T>(s: State<T>, a: Action<T>)
    requires Inv(s) && Enabled(s, a)
    ensures Inv(Next(s, a))
  {
    StepKeepsQueue(s, a);
    StepKeepsNotStranded(s, a);
  }

  function Fresh<T>(): State<T> {
    State([], None, map[], [], [])
  }

  lemma {:induction false} PathInv<T>(s: State<T>, actions: seq<Action<T>>, s': State<T>)
    requires Inv(s) && Path(s, actions, s')
    ensures Inv(s')
    decreases |actions|
  {
    if actions != [] {
      StepInv(s, actions[0]);
      PathInv(Next(s, actions[0]), actions[1..], s');
    }
  }

  /**
   In every reachable state: elements leave in the order they came, nobody pops an empty queue, and with the
   mutex free a thread waits beside a non-empty queue only if at least that many notified consumers are about
   to take the mutex.
   */
  lemma NeverStranded<T>(actions: seq<Action<T>>, s: State<T>, t: Tid)
    requires Path(Fresh(), actions, s)
    ensures s.enqueued == s.dequeued + s.queue
    ensures At(s, t).HavePop? ==> s.queue != []
    ensures s.holder.None? && At(s, t).Waiting? ==>
      |s.queue| <= |set u | u in s.pcs && s.pcs[u] == WantTest(true)|
  {
    PathInv(Fresh(), actions, s);
    if s.holder.None? && At(s, t).Waiting? {
      assert t in WaitSet(s);
      assert ResumeSet(s) == set u | u in s.pcs && s.pcs[u] == WantTest(true);
    }
  }

  // ---------- what the two operations do, and that the mutex is always given back ----------

  lemma StepThenPath<T>(s: State<T>, a: Action<T>, rest: seq<Action<T>>, s': State<T>)
    requires Enabled(s, a) && Path(Next(s, a), rest, s')
    ensures Path(s, [a] + rest, s')
  {
    assert ([a] + rest)[1..] == rest;
  }

  lemma PathEnds<T>(s: State<T>)
    ensures Path(s, [], s)
  {
  }

  /**
   enqueue by a thread that finds the mutex free: the element is at the end of the queue, one of the waiting threads
   is on its way, the mutex is free again, and nobody else has moved.
   */
  lemma EnqueueDoes<T>(s: State<T>, t: Tid, x: T, choice: Tid) returns (actions: seq<Action<T>>, s': State<T>)
    requires s.holder.None? && At(s, t).Idle? && (WaitSet(s) != {} ==> choice in WaitSet(s))
    ensures Path(s, actions, s') && s'.holder.None? && At(s', t).Idle?
    ensures s'.queue == s.queue + [x] && s'.enqueued == s.enqueued + [x] && s'.dequeued == s.dequeued
    ensures WaitSet(s) != {} ==> At(s', choice) == WantTest(true)
    ensures forall u | u != t && (WaitSet(s) == {} || u != choice) :: At(s', u) == At(s, u)
  {
    var s1 := Next(s, CallEnqueue(t, x));
    var s2 := Next(s1, Lock(t));
    var s3 := Next(s2, Push(t));
    assert WaitSet(s3) == WaitSet(s);
    var s4 := Next(s3, Notify(t, choice));
    s' := Next(s4, Unlock(t));
    PathEnds(s');
    actions := [Unlock(t)];
    StepThenPath(s4, Unlock(t), [], s');
    StepThenPath(s3, Notify(t, choice), actions, s');
    actions := [Notify(t, choice)] + actions;
    StepThenPath(s2, Push(t), actions, s');
    actions := [Push(t)] + actions;
    StepThenPath(s1, Lock(t), actions, s');
    actions := [Lock(t)] + actions;
    StepThenPath(s, CallEnqueue(t, x), actions, s');
    actions := [CallEnqueue(t, x)] + actions;
  }

  /** dequeue beside a non-empty queue: its first element leaves, and the mutex is free again. */
  lemma DequeueDoes<T>(s: State<T>, t: Tid) returns (actions: seq<Action<T>>, s': State<T>)
    requires s.holder.None? && At(s, t).Idle? && s.queue != []
    ensures Path(s, actions, s') && s'.holder.None? && At(s', t).Idle?
    ensures s'.queue == s.queue[1..] && s'.dequeued == s.dequeued + [s.queue[0]] && s'.enqueued == s.enqueued
    ensures forall u | u != t :: At(s', u) == At(s, u)
  {
    var s1 := Next(s, CallDequeue(t));
    var s2 := Next(s1, Lock(t));
    var s3 := Next(s2, Test(t));
    var s4 := Next(s3, Pop(t));
    s' := Next(s4, Unlock(t));
    PathEnds(s');
    actions := [Unlock(t)];
    StepThenPath(s4, Unlock(t), [], s');
    StepThenPath(s3, Pop(t), actions, s');
    actions := [Pop(t)] + actions;
    StepThenPath(s2, Test(t), actions, s');
    actions := [Test(t)] + actions;
    StepThenPath(s1, Lock(t), actions, s');
    actions := [Lock(t)] + actions;
    StepThenPath(s, CallDequeue(t), actions, s');
    actions := [CallDequeue(t)] + actions;
  }

  /** dequeue beside an empty queue: the thread waits, and the mutex is free. */
  lemma DequeueWaits<T>(s: State<T>, t: Tid) returns (actions: seq<Action<T>>, s': State<T>)
    requires s.holder.None? && At(s, t).Idle? && s.queue == []
    ensures Path(s, actions, s') && s'.holder.None? && At(s', t).Waiting? && s'.queue == []
    ensures forall u | u != t :: At(s', u) == At(s, u)
  {
    var s1 := Next(s, CallDequeue(t));
    var s2 := Next(s1, Lock(t));
    s' := Next(s2, Test(t));
    PathEnds(s');
    actions := [Test(t)];
    StepThenPath(s2, Test(t), [], s');
    StepThenPath(s1, Lock(t), actions, s');
    actions := [Lock(t)] + actions;
    StepThenPath(s, CallDequeue(t), actions, s');
    actions := [CallDequeue(t)] + actions;
  }

  function StepsHeld<T>(pc: Pc<T>): nat {
    match pc
    case HavePush(_) => 3
    case HaveNotify => 2
    case HaveTest(_) => 3
    case HavePop(_) => 2
    case HaveUnlock => 1
    case _ => 0
  }

  /** Whoever holds the mutex gives it back by steps of its own. */
  lemma {:induction false} MutexComesFree<T>(s: State<T>) returns (actions: seq<Action<T>>, s': State<T>)
    requires Inv(s)
    ensures Path(s, actions, s') && s'.holder.None? && Inv(s')
    decreases if s.holder.Some? then StepsHeld(At(s, s.holder.value)) else 0
  {
    if s.holder.None? {
      PathEnds(s);
      return [], s;
    }
    var t := s.holder.value;
    var choice :| WaitSet(s) != {} ==> choice in WaitSet(s);
    var a := match At(s, t)
      case HavePush(_) => Push(t)
      case HaveNotify => Notify(t, choice)
      case HaveTest(_) => Test(t)
      case HavePop(_) => Pop(t)
      case _ => Unlock(t);
    StepInv(s, a);
    actions, s' := MutexComesFree(Next(s, a));
    StepThenPath(s, a, actions, s');
    actions := [a] + actions;
  }
}
