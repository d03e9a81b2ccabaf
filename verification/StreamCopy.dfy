/**
 `read_to_end`: copying a whole stream from one producer/consumer buffer to another through a 16K staging
 area, by callbacks that the worker runs one at a time. `Event` lets other tasks of the worker touch the
 two buffers between any two callbacks.
 */
module StreamCopy {
  import opened Bytes
  import opened BufferSpec
  import opened BufferProperties
  import opened BufferLaws
  import opened Pumps

  /** The pump's own tasks in the worker's queue. */
  datatype Task =
    | Read(count: nat)       // on_read: a block of `count` bytes is in the staging area
    | Put(data: seq<byte>)   // the target's write task, which then calls on_write
    | Refuse                 // on_write with 0: the target was closed for writing

  datatype Pump = Pump(
    src: State,
    dst: State,
    outbuf: seq<byte>,
    total: nat,
    tasks: seq<Task>,
    calls: seq<nat>,   // calls of the user's handler
    fed: seq<byte>,    // observer: what the source held at first and has accepted since
    taken: seq<byte>,  // observer: what the source has delivered to the staging area
    put: seq<byte>,    // observer: what the target's write has reported as written
    stored: seq<byte>  // observer: what of it the target has accepted
  )

  /** Completions of the pump's reads: the bytes land in the staging area, on_read goes to the worker. */
  function Absorb(p: Pump, done: seq<Completion>): Pump
    decreases |done|
  {
    if done == [] then p
    else
      var bytes := OutcomeBytes(done[0].outcome);
      Absorb(p.(outbuf := bytes + (if |bytes| <= |p.outbuf| then p.outbuf[|bytes|..] else []),
                taken := p.taken + bytes,
                tasks := p.tasks + [Read(|bytes|)]), done[1..])
  }

  function OnSource(p: Pump, op: Op): Pump {
    Absorb(p.(src := Step(p.src, op).0, fed := p.fed + Gave(p.src, op)), NewlyPosted(p.src, op))
  }

  function GetMore(p: Pump): Pump {
    OnSource(p, Getn(0, BUF_SIZE))
  }

  function OnRead(p: Pump, count: nat): Pump {
    if count == 0 then p.(calls := p.calls + [p.total])
    else if !p.dst.canWrite then p.(tasks := p.tasks + [Refuse])
    else p.(tasks := p.tasks + [Put(if count <= |p.outbuf| then p.outbuf[..count] else [])])
  }

  function OnWrite(p: Pump, count: nat): Pump {
    if count == 0 then p.(calls := p.calls + [p.total])
    else GetMore(p.(total := p.total + count, dst := Step(p.dst, Sync).0))
  }

  function RunPut(p: Pump, data: seq<byte>): Pump {
    var (dst', reply) := Step(p.dst, Write(data));
    var n := if reply.Count? then reply.n else 0;
    OnWrite(p.(dst := dst',
               put := p.put + (if n == |data| then data else []),
               stored := p.stored + Gave(p.dst, Write(data))), n)
  }

  function RunTask(p: Pump): Pump {
    if p.tasks == [] then p
    else
      var q := p.(tasks := p.tasks[1..]);
      match p.tasks[0]
      case Read(count) => OnRead(q, count)
      case Put(data) => RunPut(q, data)
      case Refuse => OnWrite(q, 0)
  }

  function StepPump(p: Pump, e: Event): Pump {
    match e
    case Source(op) => OnSource(p, op)
    case Target(op) => p.(dst := Step(p.dst, op).0)
    case Work => RunTask(p)
  }

  function RunPump(p: Pump, events: seq<Event>): Pump
    decreases |events|
  {
    if events == [] then p else RunPump(StepPump(p, events[0]), events[1..])
  }

  function Start(src: State, dst: State, outbuf: seq<byte>): Pump {
    GetMore(Pump(src, dst, outbuf, 0, [], [], src.unread, [], [], []))
  }

  // ---------- what every event keeps ----------

  /** The bytes on their way from source to target. */
  function InFlight(p: Pump): seq<byte> {
    if |p.tasks| != 1 then []
    else match p.tasks[0]
      case Read(count) => if count <= |p.outbuf| then p.outbuf[..count] else []
      case Put(data) => data
      case Refuse => []
  }

  /** Byte accounting, whatever is outstanding. */
  predicate Balanced(p: Pump, flying: seq<byte>) {
    && BufferInv(p.src)
    && |p.outbuf| == BUF_SIZE
    && p.total == |p.put|
    && p.taken + p.src.unread == p.fed
    && p.put <= p.taken
    && (p.dst.canWrite ==> p.taken == p.put + flying)
    && (p.dst.canWrite && p.dst.canRead ==> p.stored == p.put)
  }

  predicate TaskOk(p: Pump, task: Task) {
    match task
    case Read(count) => count <= BUF_SIZE && (count == 0 && p.dst.canWrite && p.src.canRead ==> Exhausted(p.src))
    case Put(data) => data != []
    case Refuse => !p.dst.canWrite
  }

  /** One read waits, or one callback is queued, or the handler has been called once: never two of these. */
  predicate OneOutstanding(p: Pump) {
    || (p.src.waiting == [BlockRequest(0, BUF_SIZE)] && p.tasks == [] && p.calls == [])
    || (p.src.waiting == [] && |p.tasks| == 1 && p.calls == [] && TaskOk(p, p.tasks[0]))
    || Finished(p)
  }

  predicate Finished(p: Pump) {
    && p.src.waiting == [] && p.tasks == [] && p.calls == [p.total]
    && (p.dst.canWrite && p.src.canRead ==> Exhausted(p.src))
  }

  predicate Inv(p: Pump) {
    Balanced(p, InFlight(p)) && OneOutstanding(p)
  }

  /** Between two callbacks: nothing outstanding, nothing in flight. */
  predicate Ready(p: Pump) {
    Balanced(p, []) && p.src.waiting == [] && p.tasks == [] && p.calls == []
  }

  lemma AbsorbOne(p: Pump, c: Completion)
    requires |p.outbuf| == BUF_SIZE && |OutcomeBytes(c.outcome)| <= BUF_SIZE
    ensures var bytes := OutcomeBytes(c.outcome);
      var q := Absorb(p, [c]);
      && q == p.(outbuf := q.outbuf, taken := p.taken + bytes, tasks := p.tasks + [Read(|bytes|)])
      && q.outbuf == bytes + p.outbuf[|bytes|..] && q.outbuf[..|bytes|] == bytes
      && Delivered([c]) == bytes
  {
  }

  /** The pump's one waiting read is answered: the bytes are staged and on_read is queued. */
  lemma DeliverOne(p: Pump, q: Pump, c: Completion)
    requires Balanced(p, []) && p.calls == [] && p.tasks == []
    requires q == p.(src := q.src, fed := q.fed)
    requires BufferInv(q.src) && q.src.waiting == []
    requires |OutcomeBytes(c.outcome)| <= BUF_SIZE
    requires p.taken + (OutcomeBytes(c.outcome) + q.src.unread) == q.fed
    requires OutcomeBytes(c.outcome) == [] && q.src.canRead ==> Exhausted(q.src)
    ensures Inv(Absorb(q, [c]))
  {
  }

  /** The pump asks for more: its read waits, or a callback with what it got is queued. */
  lemma GetMoreInv(p: Pump)
    requires Ready(p)
    ensures Inv(GetMore(p))
  {
    var op := Getn(0, BUF_SIZE);
    var r := BlockRequest(0, BUF_SIZE);
    var s' := Ask(p.src, r);
    var q := p.(src := s');
    AskInv(p.src, r);
    assert p.fed + Gave(p.src, op) == p.fed;
    assert GetMore(p) == Absorb(q, NewlyPosted(p.src, op));
    if !p.src.canRead {
      DeliverOne(p, q, Refused(r));
    } else if CanSatisfy(p.src, BUF_SIZE) {
      TakeJustified(p.src, BUF_SIZE);
      AnswerTakes(p.src, r);
      DeliverOne(p, q, Answer(p.src, r));
    }
  }

  lemma SourceStepInv(p: Pump, s': State, done: seq<Completion>, gave: seq<byte>)
    requires Inv(p) && QuietStep(p.src, s', done, gave)
    ensures Inv(Absorb(p.(src := s', fed := p.fed + gave), done))
  {
    var q := p.(src := s', fed := p.fed + gave);
    Carry(p.taken, Delivered(done), s'.unread, p.src.unread, gave, p.fed);
    if done != [] {
      assert |p.src.waiting| == |done| + |s'.waiting|;
      assert done == [done[0]];
      assert Delivered(done) == OutcomeBytes(done[0].outcome) + Delivered(done[1..]);
      assert Requests(done)[0] == p.src.waiting[0];
      assert p.taken + (OutcomeBytes(done[0].outcome) + s'.unread) == q.fed;
      DeliverOne(p, q, done[0]);
    }
  }

  // ---------- every event ----------

  lemma OnReadInv(p: Pump)
    requires Inv(p) && p.tasks != [] && p.tasks[0].Read?
    ensures Inv(RunTask(p))
  {
  }

  lemma RunPutInv(p: Pump)
    requires Inv(p) && p.tasks != [] && p.tasks[0].Put?
    ensures Inv(RunTask(p))
  {
    var data := p.tasks[0].data;
    var q := p.(tasks := []);
    var d := Step(p.dst, Write(data)).0;
    ClosedStays(p.dst, Write(data));
    if p.dst.canWrite {
      ClosedStays(d, Sync);
      GetMoreInv(q.(dst := Step(d, Sync).0, put := p.put + data, stored := p.stored + Gave(p.dst, Write(data)),
                    total := p.total + |data|));
    }
  }

  lemma EventInv(p: Pump, e: Event)
    requires Inv(p) && Allowed(e)
    ensures Inv(StepPump(p, e))
  {
    match e {
      case Source(op) =>
        NonReadingStep(p.src, op);
        SourceStepInv(p, Step(p.src, op).0, NewlyPosted(p.src, op), Gave(p.src, op));
      case Target(op) =>
        ClosedStays(p.dst, op);
      case Work =>
        if p.tasks != [] {
          match p.tasks[0] {
            case Read(count) => OnReadInv(p);
            case Put(data) => RunPutInv(p);
            case Refuse =>
          }
        }
    }
  }

  /** At every step of every run: one thing outstanding, and taken = put + in flight while the target is open. */
  lemma {:induction false} RunInv(p: Pump, events: seq<Event>)
    requires Inv(p) && forall e <- events :: Allowed(e)
    ensures Inv(RunPump(p, events))
    decreases |events|
  {
    if events != [] {
      EventInv(p, events[0]);
      RunInv(StepPump(p, events[0]), events[1..]);
    }
  }

  lemma StartInv(src: State, dst: State, outbuf: seq<byte>)
    requires BufferInv(src) && src.waiting == [] && |outbuf| == BUF_SIZE
    ensures Inv(Start(src, dst, outbuf))
  {
    GetMoreInv(Pump(src, dst, outbuf, 0, [], [], src.unread, [], [], []));
  }

  // ---------- reaching the end ----------

  /** How many callbacks are left at most once the source's writer is closed. */
  function Remaining(p: Pump): nat {
    if p.tasks == [] then 0
    else match p.tasks[0]
      case Read(count) => if count == 0 then 1 else 3 + 3 * |p.src.unread|
      case Put(_) => 2 + 3 * |p.src.unread|
      case Refuse => 1
  }

  predicate SameEnds(p: Pump, q: Pump) {
    && q.fed == p.fed
    && q.src.canWrite == p.src.canWrite && q.src.canRead == p.src.canRead
    && q.dst.canWrite == p.dst.canWrite && q.dst.canRead == p.dst.canRead
  }

  lemma GetMoreClosed(p: Pump)
    requires Ready(p) && !p.src.canWrite
    ensures SameEnds(p, GetMore(p)) && Remaining(GetMore(p)) < 2 + 3 * |p.src.unread|
  {
    var r := BlockRequest(0, BUF_SIZE);
    assert p.fed + Gave(p.src, Getn(0, BUF_SIZE)) == p.fed;
    var q := p.(src := Ask(p.src, r));
    AbsorbOne(q, if p.src.canRead then Answer(p.src, r) else Refused(r));
  }

  lemma WorkProgress(p: Pump)
    requires Inv(p) && !p.src.canWrite && p.tasks != []
    ensures SameEnds(p, RunTask(p)) && Remaining(RunTask(p)) < Remaining(p)
  {
    if p.tasks[0].Put? {
      var data := p.tasks[0].data;
      var d := Step(p.dst, Write(data)).0;
      WriteKeepsEnds(p.dst, Write(data));
      WriteKeepsEnds(d, Sync);
      if p.dst.canWrite {
        GetMoreClosed(p.(tasks := [], dst := Step(d, Sync).0, put := p.put + data,
                         stored := p.stored + Gave(p.dst, Write(data)), total := p.total + |data|));
      }
    }
  }

  /** How many callbacks of the pump are among the events. */
  function Turns(events: seq<Event>): nat {
    if events == [] then 0 else (if events[0] == Work then 1 else 0) + Turns(events[1..])
  }

  /** Once its writer is closed, other jobs can take nothing from the source nor give it anything. */
  lemma ClosedSourceKeeps(p: Pump, op: Op)
    requires Inv(p) && !p.src.canWrite && NonReading(op)
    ensures var q := OnSource(p, op);
      q == p.(src := q.src) && q.src.unread == p.src.unread && !q.src.canWrite
  {
    NonReadingConserves(p.src, op);
    ClosedStays(p.src, op);
    assert p.src.waiting == [];
    assert NewlyPosted(p.src, op) == [] && Gave(p.src, op) == [];
    assert p.fed + [] == p.fed;
  }

  /** No event sets the copy back, and each callback brings it closer to its end. */
  lemma EventProgress(p: Pump, e: Event)
    requires Inv(p) && !p.src.canWrite && Allowed(e)
    ensures var q := StepPump(p, e);
      && !q.src.canWrite && q.fed == p.fed
      && Remaining(q) <= Remaining(p) && (e == Work && Remaining(p) > 0 ==> Remaining(q) < Remaining(p))
  {
    match e {
      case Source(op) => ClosedSourceKeeps(p, op);
      case Target(op) =>
      case Work =>
        if p.tasks != [] {
          WorkProgress(p);
        }
    }
  }

  /**
   With the source's writer closed the copy comes to its end: it needs the worker to run `Remaining` callbacks,
   whatever other jobs do to both buffers between any two of them.
   */
  lemma {:induction false} WorkFinishes(p: Pump, events: seq<Event>)
    requires Inv(p) && !p.src.canWrite && Turns(events) >= Remaining(p)
    requires forall e <- events :: Allowed(e)
    ensures var q := RunPump(p, events);
      Inv(q) && Finished(q) && q.fed == p.fed
    decreases |events|
  {
    if events != [] {
      EventInv(p, events[0]);
      EventProgress(p, events[0]);
      WorkFinishes(StepPump(p, events[0]), events[1..]);
    }
  }

  /** A finished copy with both ends of the target, and the source's read end, still open is complete. */
  lemma FinishedMeans(q: Pump)
    requires Inv(q) && Finished(q) && q.src.canRead && q.dst.canWrite && q.dst.canRead
    ensures q.fed == q.put == q.stored && q.calls == [|q.fed|]
  {
    assert q.put + [] == q.put && q.taken + [] == q.taken;
  }

  /**
   The whole copy, over every schedule. Other jobs may act on both buffers between any two callbacks, before the
   source's writer is closed and after. Once it is closed, when the worker has run the callbacks that are left and
   both ends of the target and the source's read end are still open: the handler was called exactly once, with the
   number of bytes moved, and those are all the bytes the source held or accepted, all in the target.
   */
  lemma {:induction false} CopyToEnd(src: State, dst: State, outbuf: seq<byte>, before: seq<Event>, after: seq<Event>)
    requires BufferInv(src) && src.waiting == [] && |outbuf| == BUF_SIZE
    requires forall e <- before + after :: Allowed(e)
    requires var p := RunPump(Start(src, dst, outbuf), before);
      && !p.src.canWrite && Turns(after) >= Remaining(p)
      && var q := RunPump(p, after);
         q.src.canRead && q.dst.canWrite && q.dst.canRead
    ensures var p := RunPump(Start(src, dst, outbuf), before);
      var q := RunPump(p, after);
      q.fed == p.fed == q.put == q.stored && q.calls == [|q.fed|] && q.tasks == []
  {
    var p := RunPump(Start(src, dst, outbuf), before);
    StartInv(src, dst, outbuf);
    assert forall e <- before :: e in before + after;
    assert forall e <- after :: e in before + after;
    RunInv(Start(src, dst, outbuf), before);
    WorkFinishes(p, after);
    FinishedMeans(RunPump(p, after));
  }

  lemma {:induction false} WorksAlone(p: Pump, n: nat)
    requires Inv(p) && !p.src.canWrite
    ensures Turns(Works(n)) == n && (forall e <- Works(n) :: Allowed(e)) && SameEnds(p, RunPump(p, Works(n)))
    decreases n
  {
    if n > 0 {
      assert Works(n)[1..] == Works(n - 1);
      if p.tasks != [] {
        WorkProgress(p);
      }
      EventInv(p, Work);
      WorksAlone(RunTask(p), n - 1);
    }
  }

  /** In particular the worker alone brings the copy to its end, and closes nothing. */
  lemma {:induction false} CopyAlone(src: State, dst: State, outbuf: seq<byte>, before: seq<Event>, n: nat)
    requires BufferInv(src) && src.waiting == [] && |outbuf| == BUF_SIZE
    requires forall e <- before :: Allowed(e)
    requires var p := RunPump(Start(src, dst, outbuf), before);
      && !p.src.canWrite && p.src.canRead && p.dst.canWrite && p.dst.canRead
      && n >= Remaining(p)
    ensures var p := RunPump(Start(src, dst, outbuf), before);
      var q := RunPump(p, Works(n));
      q.fed == p.fed == q.put == q.stored && q.calls == [|q.fed|] && q.tasks == []
  {
    StartInv(src, dst, outbuf);
    RunInv(Start(src, dst, outbuf), before);
    WorksAlone(RunPump(Start(src, dst, outbuf), before), n);
    CopyToEnd(src, dst, outbuf, before, Works(n));
  }

  // ---------- readers of the target ----------

  lemma {:induction false} AbsorbKeepsTarget(p: Pump, done: seq<Completion>)
    ensures Absorb(p, done).dst == p.dst && Absorb(p, done).stored == p.stored
    decreases |done|
  {
    if done != [] {
      var bytes := OutcomeBytes(done[0].outcome);
      AbsorbKeepsTarget(p.(outbuf := bytes + (if |bytes| <= |p.outbuf| then p.outbuf[|bytes|..] else []),
                           taken := p.taken + bytes,
                           tasks := p.tasks + [Read(|bytes|)]), done[1..]);
    }
  }

  lemma GetMoreKeepsTarget(p: Pump)
    ensures GetMore(p).dst == p.dst && GetMore(p).stored == p.stored
  {
    var op := Getn(0, BUF_SIZE);
    AbsorbKeepsTarget(p.(src := Step(p.src, op).0, fed := p.fed + Gave(p.src, op)), NewlyPosted(p.src, op));
  }

  /** Other jobs may read from the target, ask to read, sync and close; they write nothing into it. */
  predicate OnlyReadsTarget(e: Event) {
    e.Target? ==> !e.op.Write? && !e.op.Commit?
  }

  lemma PutTarget(p: Pump)
    requires p.tasks != [] && p.tasks[0].Put? && p.tasks[0].data != []
    ensures var w := Step(p.dst, Write(p.tasks[0].data)).0;
      RunTask(p).dst == if p.dst.canWrite then Step(w, Sync).0 else p.dst
    ensures RunTask(p).stored == p.stored + Gave(p.dst, Write(p.tasks[0].data))
  {
    var data := p.tasks[0].data;
    var q := p.(tasks := p.tasks[1..], dst := Step(p.dst, Write(data)).0,
                stored := p.stored + Gave(p.dst, Write(data)));
    WriteReplies(p.dst, data);
    if p.dst.canWrite {
      GetMoreKeepsTarget(q.(put := p.put + data, total := p.total + |data|, dst := Step(q.dst, Sync).0));
    }
  }

  lemma NoPutTarget(p: Pump)
    requires p.tasks == [] || !p.tasks[0].Put?
    ensures RunTask(p).dst == p.dst && RunTask(p).stored == p.stored
  {
  }

  /**
   After every callback that wrote something: either nobody waits on the target or none of its bytes is unread, and
   what is unread can all be read without waiting.
   */
  lemma WrittenIsServed(p: Pump)
    requires BufferInv(p.dst) && p.dst.canWrite
    requires p.tasks != [] && p.tasks[0].Put? && p.tasks[0].data != []
    ensures var d := RunTask(p).dst;
      && (d.waiting == [] || d.unread == []) && d.synced == |d.unread|
      && BufferInv(d)
  {
    PutTarget(p);
    WriteAndSyncSettle(p.dst, p.tasks[0].data);
  }

  lemma EventKeepsSettled(p: Pump, e: Event)
    requires Inv(p) && BufferInv(p.dst) && Settled(p.dst) && OnlyReadsTarget(e)
    ensures BufferInv(StepPump(p, e).dst) && Settled(StepPump(p, e).dst)
  {
    match e {
      case Source(op) =>
        AbsorbKeepsTarget(p.(src := Step(p.src, op).0, fed := p.fed + Gave(p.src, op)), NewlyPosted(p.src, op));
      case Target(op) => OthersKeepSettled(p.dst, op);
      case Work =>
        if p.tasks != [] && p.tasks[0].Put? {
          PutTarget(p);
          if p.dst.canWrite {
            WrittenIsServed(p);
          }
        } else {
          NoPutTarget(p);
        }
    }
  }

  /** The same over every run: whoever reads from the target is served as soon as something is written. */
  lemma {:induction false} RunKeepsSettled(p: Pump, events: seq<Event>)
    requires Inv(p) && BufferInv(p.dst) && Settled(p.dst)
    requires forall e <- events :: Allowed(e) && OnlyReadsTarget(e)
    ensures var d := RunPump(p, events).dst;
      && (d.waiting == [] || d.unread == []) && d.synced == |d.unread|
      && BufferInv(d)
    decreases |events|
  {
    if events != [] {
      EventInv(p, events[0]);
      EventKeepsSettled(p, events[0]);
      RunKeepsSettled(StepPump(p, events[0]), events[1..]);
    }
  }

  lemma {:induction false} DeliveredAppend(a: seq<Completion>, b: seq<Completion>)
    ensures Delivered(a + b) == Delivered(a) + Delivered(b)
  {
    if a == [] {
      assert a + b == b;
    } else {
      assert (a + b)[1..] == a[1..] + b;
      DeliveredAppend(a[1..], b);
    }
  }

  /** What readers got since the completions `was`, and what is unread, is `total`. */
  predicate HandsOut(s: State, was: seq<Completion>, total: seq<byte>) {
    was <= s.posted && Delivered(s.posted[|was|..]) + s.unread == total
  }

  lemma HandsOutMore(s: State, s': State, was: seq<Completion>, cs: seq<Completion>,
                     total: seq<byte>, gave: seq<byte>)
    requires HandsOut(s, was, total)
    requires s'.posted == s.posted + cs && Delivered(cs) + s'.unread == s.unread + gave
    ensures HandsOut(s', was, total + gave)
  {
    var later := s.posted[|was|..];
    assert s'.posted[|was|..] == later + cs;
    DeliveredAppend(later, cs);
    Carry(Delivered(later), Delivered(cs), s'.unread, s.unread, gave, total);
  }

  lemma FeedHandsOut(s: State, op: Op, was: seq<Completion>, total: seq<byte>)
    requires (op.Write? || op.Sync?) && HandsOut(s, was, total)
    ensures HandsOut(Step(s, op).0, was, total + Gave(s, op))
  {
    StepPosts(s, op);
    StepConserves(s, op);
    HandsOutMore(s, Step(s, op).0, was, NewlyPosted(s, op), total, Gave(s, op));
  }

  lemma PutHandsOut(p: Pump, was: seq<Completion>, base: seq<byte>)
    requires p.tasks != [] && p.tasks[0].Put? && p.tasks[0].data != []
    requires HandsOut(p.dst, was, base + p.stored)
    ensures HandsOut(RunTask(p).dst, was, base + RunTask(p).stored)
  {
    var data := p.tasks[0].data;
    var gave := Gave(p.dst, Write(data));
    PutTarget(p);
    assert (base + p.stored) + gave == base + (p.stored + gave);
    if p.dst.canWrite {
      FeedHandsOut(p.dst, Write(data), was, base + p.stored);
      FeedHandsOut(Step(p.dst, Write(data)).0, Sync, was, base + (p.stored + gave));
      assert (base + (p.stored + gave)) + [] == base + (p.stored + gave);
    }
  }

  lemma EventHandsOut(p: Pump, e: Event, was: seq<Completion>, base: seq<byte>)
    requires Inv(p) && !e.Target? && HandsOut(p.dst, was, base + p.stored)
    ensures var q := StepPump(p, e);
      HandsOut(q.dst, was, base + q.stored)
  {
    if e.Source? {
      AbsorbKeepsTarget(p.(src := Step(p.src, e.op).0, fed := p.fed + Gave(p.src, e.op)), NewlyPosted(p.src, e.op));
    } else if p.tasks != [] && p.tasks[0].Put? {
      PutHandsOut(p, was, base);
    } else {
      NoPutTarget(p);
    }
  }

  /** Over every run: what the pump stored went to the target's readers, in order, and the rest is unread. */
  lemma {:induction false} RunHandsOut(p: Pump, events: seq<Event>, was: seq<Completion>, base: seq<byte>)
    requires Inv(p) && HandsOut(p.dst, was, base + p.stored)
    requires forall e <- events :: Allowed(e) && !e.Target?
    ensures var q := RunPump(p, events);
      HandsOut(q.dst, was, base + q.stored)
    decreases |events|
  {
    if events != [] {
      EventInv(p, events[0]);
      EventHandsOut(p, events[0], was, base);
      RunHandsOut(StepPump(p, events[0]), events[1..], was, base);
    }
  }

  /**
   A whole copy into a target with readers: at its end every byte the source held or accepted has been handed to
   them, in order behind what the target held, or is unread; and unread only if no reader is left waiting.
   */
  lemma {:induction false} CopyServesReaders(src: State, dst: State, outbuf: seq<byte>,
                                             before: seq<Event>, after: seq<Event>)
    requires BufferInv(src) && src.waiting == [] && |outbuf| == BUF_SIZE
    requires BufferInv(dst) && Settled(dst)
    requires forall e <- before + after :: Allowed(e) && !e.Target?
    requires var p := RunPump(Start(src, dst, outbuf), before);
      && !p.src.canWrite && Turns(after) >= Remaining(p)
      && var q := RunPump(p, after);
         q.src.canRead && q.dst.canWrite && q.dst.canRead
    ensures var q := RunPump(RunPump(Start(src, dst, outbuf), before), after);
      && dst.posted <= q.dst.posted
      && Delivered(q.dst.posted[|dst.posted|..]) + q.dst.unread == dst.unread + q.fed
      && (q.dst.waiting == [] || q.dst.unread == [])
      && q.calls == [|q.fed|]
  {
    var p := RunPump(Start(src, dst, outbuf), before);
    StartServes(src, dst, outbuf);
    assert forall e <- before :: e in before + after;
    assert forall e <- after :: e in before + after;
    RunServes(Start(src, dst, outbuf), before, dst.posted, dst.unread);
    RunServes(p, after, dst.posted, dst.unread);
    CopyToEnd(src, dst, outbuf, before, after);
  }

  predicate Serving(p: Pump, was: seq<Completion>, base: seq<byte>) {
    Inv(p) && BufferInv(p.dst) && Settled(p.dst) && HandsOut(p.dst, was, base + p.stored)
  }

  lemma StartServes(src: State, dst: State, outbuf: seq<byte>)
    requires BufferInv(src) && src.waiting == [] && |outbuf| == BUF_SIZE
    requires BufferInv(dst) && Settled(dst)
    ensures Serving(Start(src, dst, outbuf), dst.posted, dst.unread)
  {
    StartInv(src, dst, outbuf);
    GetMoreKeepsTarget(Pump(src, dst, outbuf, 0, [], [], src.unread, [], [], []));
    assert dst.unread + [] == [] + dst.unread;
  }

  lemma {:induction false} RunServes(p: Pump, events: seq<Event>, was: seq<Completion>, base: seq<byte>)
    requires Serving(p, was, base) && forall e <- events :: Allowed(e) && !e.Target?
    ensures Serving(RunPump(p, events), was, base)
  {
    RunInv(p, events);
    RunKeepsSettled(p, events);
    RunHandsOut(p, events, was, base);
  }

  /** The target's bytes are accounted for, and it is settled once it was, or once something was written. */
  predicate Attending(p: Pump, was: seq<Completion>, base: seq<byte>, settled: bool) {
    && BufferInv(p.dst) && HandsOut(p.dst, was, base + p.stored)
    && (settled || p.put != [] ==> Settled(p.dst))
  }

  lemma TaskAttends(p: Pump, was: seq<Completion>, base: seq<byte>, settled: bool)
    requires Inv(p) && Attending(p, was, base, settled)
    ensures Attending(RunTask(p), was, base, settled)
  {
    EventHandsOut(p, Work, was, base);
    if p.tasks != [] && p.tasks[0].Put? {
      PutTarget(p);
      if p.dst.canWrite {
        WrittenIsServed(p);
      } else {
        WriteReplies(p.dst, p.tasks[0].data);
        assert p.put + [] == p.put;
      }
    } else {
      NoPutTarget(p);
      NoPutWrites(p);
    }
  }

  lemma NoPutWrites(p: Pump)
    requires p.tasks == [] || !p.tasks[0].Put?
    ensures RunTask(p).put == p.put
  {
  }

  /** on_read gives the worker one write of what was read, refused by a closed target; nothing read ends the copy. */
  lemma ReadCallbackDoes(p: Pump, count: nat)
    requires p.tasks == [Read(count)] && count <= |p.outbuf|
    ensures RunTask(p) ==
      if count == 0 then p.(tasks := [], calls := p.calls + [p.total])
      else p.(tasks := [if p.dst.canWrite then Put(p.outbuf[..count]) else Refuse])
  {
  }

  /** A refused write ends the copy with what was written before. */
  lemma RefusedCallbackDoes(p: Pump)
    requires p.tasks == [Refuse]
    ensures RunTask(p) == p.(tasks := [], calls := p.calls + [p.total])
  {
  }

  /** How much one request moves: sixteen times 1024 bytes when the source has them. */
  lemma OneRequestTakes(p: Pump)
    requires Ready(p) && p.src.canRead && |p.src.unread| >= 16384
    ensures var q := GetMore(p);
      && q.taken == p.taken + p.src.unread[..16384] && q.src.unread == p.src.unread[16384..]
      && q.tasks == [Read(16384)] && q.outbuf == p.src.unread[..16384]
  {
    AbsorbOne(p.(src := Ask(p.src, BlockRequest(0, BUF_SIZE))), Answer(p.src, BlockRequest(0, BUF_SIZE)));
    assert p.fed + Gave(p.src, Getn(0, BUF_SIZE)) == p.fed;
  }
}
