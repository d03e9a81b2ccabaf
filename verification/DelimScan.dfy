/**
 `read_to_delim`: moving a stream's bytes up to a delimiter from one producer/consumer buffer to another,
 byte by byte through a 16K staging area, by callbacks of the worker. Other tasks may touch both buffers
 between any two callbacks.
 */
module DelimScan {
  import opened Bytes
  import opened BufferSpec
  import opened BufferProperties
  import opened Pumps

  /** The scan's own tasks; a write carries the eof_or_delim flag bound into its handler. */
  datatype Task =
    | GotChar(c: Option<byte>)
    | Put(data: seq<byte>, last: bool)
    | Refuse(last: bool)

  datatype Scan = Scan(
    src: State,
    dst: State,
    delim: int,
    outbuf: seq<byte>,
    writePos: nat,
    total: nat,
    tasks: seq<Task>,
    calls: seq<nat>,
    taken: seq<byte>, // observer: every byte the scan has consumed
    put: seq<byte>,   // observer: what the target's write has reported as written
    fed: seq<byte>    // observer: what the source held at first and has accepted since
  )

  function Staged(s: Scan): seq<byte> {
    if s.writePos <= |s.outbuf| then s.outbuf[..s.writePos] else []
  }

  /** The base class's putn: nothing at all happens for a count of zero. */
  function Putn(s: Scan, last: bool): Scan {
    if s.writePos == 0 then s
    else if !s.dst.canWrite then s.(tasks := s.tasks + [Refuse(last)])
    else s.(tasks := s.tasks + [Put(Staged(s), last)])
  }

  /** The byte goes to the next cell of the staging area. */
  function Store(s: Scan, b: byte): Scan {
    if s.writePos < |s.outbuf| then s.(outbuf := s.outbuf[s.writePos := b], writePos := s.writePos + 1) else s
  }

  predicate IsFull(s: Scan) {
    s.writePos == BUF_SIZE
  }

  function OnReads(done: seq<Completion>): (tasks: seq<Task>)
    ensures |tasks| == |done|
  {
    if done == [] then [] else [GotChar(FirstOf(OutcomeBytes(done[0].outcome)))] + OnReads(done[1..])
  }

  /** The source after a step of another task, and the callbacks that step makes due. */
  function Routed(s: Scan, src': State, done: seq<Completion>, gave: seq<byte>): Scan {
    s.(src := src', fed := s.fed + gave, taken := s.taken + Delivered(done), tasks := s.tasks + OnReads(done))
  }

  /** Completions of the scan's bumpc become on_read tasks. */
  function OnSource(s: Scan, op: Op): Scan {
    Routed(s, Step(s.src, op).0, NewlyPosted(s.src, op), Gave(s.src, op))
  }

  function AskChar(s: Scan): Scan {
    OnSource(s, Bumpc(0))
  }

  /** The loop of read_to_delim, taking bytes while some are available. */
  function ScanLoop(s: Scan): (r: Scan)
    ensures r.delim == s.delim
    decreases |s.src.unread|
  {
    if s.src.unread == [] then s
    else
      var (src', reply) := Step(s.src, Sbumpc);
      var s1 := s.(src := src');
      if reply == RequiresAsync then AskChar(s1)
      else if reply == Char(None) then Putn(s1, true)
      else if |src'.unread| >= |s.src.unread| || !reply.Char? then s1
      else
        var b := reply.c.value;
        var s2 := s1.(taken := s.taken + [b]);
        if b == s.delim then Putn(s2, true)
        else if IsFull(Store(s2, b)) then Putn(Store(s2, b), false)
        else ScanLoop(Store(s2, b))
  }

  /** A scan about to begin. */
  function Started(src: State, dst: State, delim: int, outbuf: seq<byte>): Scan {
    Scan(src, dst, delim, outbuf, 0, 0, [], [], [], [], src.unread)
  }

  function ReadToDelim(s: Scan): Scan {
    if s.src.unread == [] then AskChar(s) else ScanLoop(s)
  }

  function OnRead(s: Scan, c: Option<byte>): Scan {
    match c
    case None => Putn(s, true)
    case Some(b) =>
      if b == s.delim then Putn(s, true)
      else if IsFull(Store(s, b)) then Putn(Store(s, b), false)
      else ReadToDelim(Store(s, b))
  }

  function OnWrite(s: Scan, count: nat, last: bool): Scan {
    if count == 0 then s.(calls := s.calls + [s.total])
    else
      var s1 := s.(total := s.total + count, writePos := 0, dst := Step(s.dst, Sync).0);
      if last then s1.(calls := s1.calls + [count]) else ReadToDelim(s1)
  }

  function RunPut(s: Scan, data: seq<byte>, last: bool): Scan {
    var (dst', reply) := Step(s.dst, Write(data));
    var n := if reply.Count? then reply.n else 0;
    OnWrite(s.(dst := dst', put := s.put + (if n == |data| then data else [])), n, last)
  }

  function RunTask(s: Scan): Scan {
    if s.tasks == [] then s
    else
      var q := s.(tasks := s.tasks[1..]);
      match s.tasks[0]
      case GotChar(c) => OnRead(q, c)
      case Put(data, last) => RunPut(q, data, last)
      case Refuse(last) => OnWrite(q, 0, last)
  }

  function StepScan(s: Scan, e: Event): Scan {
    match e
    case Source(op) => OnSource(s, op)
    case Target(op) => s.(dst := Step(s.dst, op).0)
    case Work => RunTask(s)
  }

  function RunScan(s: Scan, events: seq<Event>): Scan
    decreases |events|
  {
    if events == [] then s else RunScan(StepScan(s, events[0]), events[1..])
  }

  /** The loop of the scan, unfolded once. */
  lemma LoopTurn(s: Scan)
    requires s.src.unread != []
    ensures var (src', r) := Direct(s.src, Sbumpc);
      && (r == RequiresAsync ==> ScanLoop(s) == AskChar(s.(src := src')))
      && (r == Char(None) ==> ScanLoop(s) == Putn(s.(src := src'), true))
      && (r == RequiresAsync || (r.Char? && (r.c.Some? ==>
            var s2 := s.(src := src', taken := s.taken + [r.c.value]);
            && |src'.unread| < |s.src.unread|
            && ScanLoop(s) ==
               if r.c.value == s.delim then Putn(s2, true)
               else if IsFull(Store(s2, r.c.value)) then Putn(Store(s2, r.c.value), false)
               else ScanLoop(Store(s2, r.c.value)))))
  {
  }

  lemma {:induction false} LoopKeepsTarget(s: Scan)
    ensures ScanLoop(s).dst == s.dst && ScanLoop(s).put == s.put
    decreases |s.src.unread|
  {
    if s.src.unread != [] {
      var (src', r) := Direct(s.src, Sbumpc);
      LoopTurn(s);
      if r.Char? && r.c.Some? {
        LoopKeepsTarget(Store(s.(src := src', taken := s.taken + [r.c.value]), r.c.value));
      }
    }
  }

  lemma TurnKeepsTarget(s: Scan)
    ensures ReadToDelim(s).dst == s.dst && ReadToDelim(s).put == s.put
  {
    LoopKeepsTarget(s);
  }

  // ---------- what every event keeps ----------

  predicate Free(bytes: seq<byte>, delim: int) {
    forall b <- bytes :: b != delim
  }

  /** `taken` is the part of the source consumed: what was written, what is staged, at most one more byte `extra`. */
  predicate Accounted(s: Scan, extra: seq<byte>) {
    && |s.outbuf| == BUF_SIZE && s.writePos <= BUF_SIZE
    && s.taken == s.put + Staged(s) + extra
    && Free(s.put, s.delim) && Free(Staged(s), s.delim)
    && s.taken + s.src.unread == s.fed
    && s.total == |s.put|
    && BufferInv(s.src)
  }

  /** Nothing outstanding: the scan has ended, or has stopped because the data ran out. */
  predicate Quiet(s: Scan) {
    && s.src.waiting == [] && s.tasks == [] && |s.calls| <= 1
    && (Accounted(s, []) || (0 <= s.delim < 256 && Accounted(s, [s.delim])))
  }

  predicate Waiting(s: Scan) {
    && s.src.waiting == [CharRequest(0)] && s.tasks == [] && s.calls == []
    && s.writePos < BUF_SIZE && Accounted(s, [])
  }

  function Extra(c: Option<byte>): seq<byte> {
    if c.Some? then [c.value] else []
  }

  predicate Holding(s: Scan) {
    && s.src.waiting == [] && s.calls == [] && |s.tasks| == 1 && s.tasks[0].GotChar?
    && s.writePos < BUF_SIZE
    && Accounted(s, Extra(s.tasks[0].c))
  }

  /** A flush is queued; the last one follows the delimiter or the end of the stream. */
  predicate Flushing(s: Scan) {
    && s.src.waiting == [] && s.calls == [] && |s.tasks| == 1 && !s.tasks[0].GotChar?
    && (s.tasks[0].Put? ==> s.tasks[0].data == Staged(s) != [])
    && (s.tasks[0].Refuse? ==> !s.dst.canWrite)
    && (Accounted(s, []) || (s.tasks[0].last && 0 <= s.delim < 256 && Accounted(s, [s.delim])))
  }

  predicate Inv(s: Scan) {
    Waiting(s) || Holding(s) || Flushing(s) || Quiet(s)
  }

  /** Between two callbacks of a scan that goes on. */
  predicate Between(s: Scan) {
    && s.src.waiting == [] && s.tasks == [] && s.calls == []
    && s.writePos < BUF_SIZE && Accounted(s, [])
  }

  lemma PutnInv(s: Scan, last: bool)
    requires s.src.waiting == [] && s.tasks == [] && s.calls == []
    requires Accounted(s, []) || (last && 0 <= s.delim < 256 && Accounted(s, [s.delim]))
    ensures Flushing(Putn(s, last)) || Quiet(Putn(s, last))
  {
  }

  lemma StoreInv(s: Scan, b: byte)
    requires s.writePos < BUF_SIZE && Accounted(s, [b]) && b != s.delim
    ensures Accounted(Store(s, b), []) && Store(s, b).writePos == s.writePos + 1
  {
    var s1 := Store(s, b);
    assert Staged(s1) == Staged(s) + [b];
    assert s1.put + (Staged(s) + [b]) + [] == s.put + Staged(s) + [b];
  }

  lemma OneCompletion(c: Completion)
    requires |OutcomeBytes(c.outcome)| <= 1
    ensures Delivered([c]) == OutcomeBytes(c.outcome) == Extra(FirstOf(OutcomeBytes(c.outcome)))
  {
  }

  lemma RoutedOne(s: Scan, src': State, c: Completion)
    requires |OutcomeBytes(c.outcome)| <= 1
    ensures var bytes := OutcomeBytes(c.outcome);
      && Routed(s, src', [c], []) ==
         s.(src := src', taken := s.taken + bytes, tasks := s.tasks + [GotChar(FirstOf(bytes))])
      && bytes == Extra(FirstOf(bytes))
  {
    OneCompletion(c);
    assert [c][1..] == [] && OnReads([c][1..]) == [] && s.fed + [] == s.fed;
  }

  lemma Received(s: Scan, src': State, c: Completion)
    requires Between(s) && BufferInv(src') && src'.waiting == []
    requires |OutcomeBytes(c.outcome)| <= 1 && OutcomeBytes(c.outcome) + src'.unread == s.src.unread
    ensures Inv(Routed(s, src', [c], []))
  {
    var bytes := OutcomeBytes(c.outcome);
    RoutedOne(s, src', c);
    assert s.put + Staged(s) + [] == s.put + Staged(s);
    assert (s.taken + bytes) + src'.unread == s.taken + (bytes + src'.unread);
    assert Holding(Routed(s, src', [c], []));
  }

  /** The scan asks for one character: it waits for it, or has it at once. */
  lemma AskCharInv(s: Scan)
    requires Between(s)
    ensures Inv(AskChar(s))
  {
    var r := CharRequest(0);
    var s' := Ask(s.src, r);
    AskInv(s.src, r);
    if !s.src.canRead {
      Received(s, s', Refused(r));
    } else if CanSatisfy(s.src, 1) {
      AnswerTakes(s.src, r);
      Received(s, s', Answer(s.src, r));
    } else {
      assert s.taken + [] == s.taken && s.fed + [] == s.fed;
      assert AskChar(s) == s.(src := s');
    }
  }

  /** The scan after sbumpc took the first byte at hand. */
  function ByteTaken(s: Scan): Scan
    requires s.src.unread != []
  {
    s.(src := Step(s.src, Sbumpc).0, taken := s.taken + [s.src.unread[0]])
  }

  lemma LoopUnfolds(s: Scan)
    requires s.src.canRead && s.src.unread != []
    ensures var q := ByteTaken(s);
      var b := s.src.unread[0];
      && q.src.unread == s.src.unread[1..] && q.src.canRead && q.src.canWrite == s.src.canWrite
      && q.src.waiting == s.src.waiting
      && ScanLoop(s) == if b == s.delim then Putn(q, true)
                        else if IsFull(Store(q, b)) then Putn(Store(q, b), false)
                        else ScanLoop(Store(q, b))
  {
  }

  lemma ByteTakenInv(s: Scan)
    requires Between(s) && s.src.canRead && s.src.unread != []
    ensures var q := ByteTaken(s);
      && Accounted(q, [s.src.unread[0]]) && q.src.waiting == []
      && q == s.(src := q.src, taken := q.taken)
  {
    DirectInv(s.src, Sbumpc);
  }

  lemma {:induction false} ScanLoopInv(s: Scan)
    requires Between(s)
    ensures Inv(ScanLoop(s))
    decreases |s.src.unread|
  {
    if s.src.unread != [] {
      if !s.src.canRead {
        PutnInv(s.(src := Step(s.src, Sbumpc).0), true);
      } else {
        var b := s.src.unread[0];
        var q := ByteTaken(s);
        ByteTakenInv(s);
        LoopUnfolds(s);
        if b == s.delim {
          PutnInv(q, true);
        } else {
          StoreInv(q, b);
          if IsFull(Store(q, b)) {
            PutnInv(Store(q, b), false);
          } else {
            ScanLoopInv(Store(q, b));
          }
        }
      }
    }
  }

  lemma ReadToDelimInv(s: Scan)
    requires Between(s)
    ensures Inv(ReadToDelim(s))
  {
    if s.src.unread == [] {
      AskCharInv(s);
    } else {
      ScanLoopInv(s);
    }
  }

  lemma OnReadInv(s: Scan)
    requires Holding(s)
    ensures Inv(RunTask(s))
  {
    var q := s.(tasks := []);
    assert s.tasks[1..] == [];
    match s.tasks[0].c {
      case None => PutnInv(q, true);
      case Some(b) =>
        if b == s.delim {
          PutnInv(q, true);
        } else {
          StoreInv(q, b);
          if IsFull(Store(q, b)) {
            PutnInv(Store(q, b), false);
          } else {
            ReadToDelimInv(Store(q, b));
          }
        }
    }
  }

  lemma RunPutInv(s: Scan, data: seq<byte>, last: bool)
    requires s.src.waiting == [] && s.tasks == [] && s.calls == [] && data == Staged(s) != []
    requires Accounted(s, []) || (last && 0 <= s.delim < 256 && Accounted(s, [s.delim]))
    ensures Inv(RunPut(s, data, last))
  {
    if s.dst.canWrite {
      var d := Step(s.dst, Write(data)).0;
      var q := s.(dst := Step(d, Sync).0, put := s.put + data, total := s.total + |data|, writePos := 0);
      assert Step(s.dst, Write(data)).1 == Count(|data|);
      assert RunPut(s, data, last) == if last then q.(calls := q.calls + [|data|]) else ReadToDelim(q);
      assert q.put + Staged(q) == s.put + Staged(s);
      if !last {
        ReadToDelimInv(q);
      }
    }
  }

  lemma OnWriteInv(s: Scan)
    requires Flushing(s)
    ensures Inv(RunTask(s))
  {
    assert s.tasks[1..] == [];
    if s.tasks[0].Put? {
      RunPutInv(s.(tasks := []), s.tasks[0].data, s.tasks[0].last);
    }
  }

  lemma OnSourceWaiting(s: Scan, src': State, done: seq<Completion>, gave: seq<byte>)
    requires Waiting(s) && QuietStep(s.src, src', done, gave)
    ensures Inv(Routed(s, src', done, gave))
  {
    assert |s.src.waiting| == |done| + |src'.waiting|;
    Carry(s.taken, Delivered(done), src'.unread, s.src.unread, gave, s.fed);
    if |done| == 1 {
      assert done == [done[0]];
      assert Requests(done)[0] == CharRequest(0);
      OneCompletion(done[0]);
      assert OnReads(done) == [GotChar(FirstOf(OutcomeBytes(done[0].outcome)))];
      assert Holding(Routed(s, src', done, gave));
    } else {
      assert s.taken + [] == s.taken;
      assert Waiting(Routed(s, src', done, gave));
    }
  }

  lemma OnSourceElse(s: Scan, src': State, done: seq<Completion>, gave: seq<byte>)
    requires Inv(s) && QuietStep(s.src, src', done, gave) && s.src.waiting == []
    ensures Inv(Routed(s, src', done, gave))
  {
    assert |s.src.waiting| == |done| + |src'.waiting|;
    Carry(s.taken, [], src'.unread, s.src.unread, gave, s.fed);
    assert s.taken + [] == s.taken && s.tasks + [] == s.tasks;
    assert Routed(s, src', done, gave) == s.(src := src', fed := s.fed + gave);
  }

  /**
   Every callback and every step of other tasks keeps this: the bytes handed to the target, then those staged,
   then at most one more (a character on its way, or the delimiter, which is never stored) are the bytes consumed;
   neither part holds the delimiter; and a byte is only ever stored below the end of the staging area.
   */
  lemma EventInv(s: Scan, e: Event)
    requires Inv(s) && Allowed(e)
    ensures Inv(StepScan(s, e))
  {
    match e {
      case Source(op) =>
        NonReadingStep(s.src, op);
        if s.src.waiting == [] {
          OnSourceElse(s, Step(s.src, op).0, NewlyPosted(s.src, op), Gave(s.src, op));
        } else {
          OnSourceWaiting(s, Step(s.src, op).0, NewlyPosted(s.src, op), Gave(s.src, op));
        }
      case Target(op) => ClosedStays(s.dst, op);
      case Work =>
        if s.tasks != [] {
          if Holding(s) {
            OnReadInv(s);
          } else {
            OnWriteInv(s);
          }
        }
    }
  }

  lemma {:induction false} RunInv(s: Scan, events: seq<Event>)
    requires Inv(s) && forall e <- events :: Allowed(e)
    ensures Inv(RunScan(s, events)) && RunScan(s, events).delim == s.delim
    decreases |events|
  {
    if events != [] {
      EventInv(s, events[0]);
      RunInv(StepScan(s, events[0]), events[1..]);
    }
  }

  /** What `Inv` says to somebody who watches the bytes only. */
  lemma InvMeans(s: Scan)
    requires Inv(s)
    ensures (|| s.taken == s.put + Staged(s)
             || (0 <= s.delim < 256 && s.taken == s.put + Staged(s) + [s.delim])
             || (Holding(s) && s.taken == s.put + Staged(s) + Extra(s.tasks[0].c)))
    ensures Free(s.put + Staged(s), s.delim) && s.taken + s.src.unread == s.fed
    ensures |s.calls| <= 1 && |s.tasks| + |s.src.waiting| <= 1
  {
  }

  /** Over every run from the start of a scan: what was written and what is staged is the source prefix consumed. */
  lemma ScanSafe(src: State, dst: State, delim: int, outbuf: seq<byte>, events: seq<Event>)
    requires BufferInv(src) && src.waiting == [] && |outbuf| == BUF_SIZE
    requires forall e <- events :: Allowed(e)
    ensures var s := RunScan(ReadToDelim(Started(src, dst, delim, outbuf)), events);
      && (|| s.taken == s.put + Staged(s)
          || (0 <= delim < 256 && s.taken == s.put + Staged(s) + [delim])
          || (Holding(s) && s.taken == s.put + Staged(s) + Extra(s.tasks[0].c)))
      && Free(s.put + Staged(s), delim) && s.taken + s.src.unread == s.fed
      && |s.calls| <= 1 && |s.tasks| + |s.src.waiting| <= 1
  {
    var s := Started(src, dst, delim, outbuf);
    assert Staged(s) == [];
    ReadToDelimInv(s);
    RunInv(ReadToDelim(s), events);
    InvMeans(RunScan(ReadToDelim(s), events));
  }

  // ---------- how far one turn gets ----------

  /** How many bytes come before the first delimiter. */
  function Ahead(bytes: seq<byte>, delim: int): (k: nat)
    ensures k <= |bytes| && (forall i | 0 <= i < k :: bytes[i] != delim) && (k < |bytes| ==> bytes[k] == delim)
  {
    if bytes == [] || bytes[0] == delim then 0 else 1 + Ahead(bytes[1..], delim)
  }

  lemma AheadIs(bytes: seq<byte>, delim: int, k: nat)
    requires k < |bytes| && bytes[k] == delim && forall i | 0 <= i < k :: bytes[i] != delim
    ensures Ahead(bytes, delim) == k
  {
  }

  /** How many bytes the loop stages: up to the delimiter, the end of what is there, or a full staging area. */
  function Reach(s: Scan): nat
    requires s.writePos <= BUF_SIZE
  {
    Min(Ahead(s.src.unread, s.delim), BUF_SIZE - s.writePos)
  }

  /** What the loop leaves to the worker: a flush of all that is staged, unless that is nothing or the bytes ran out. */
  function LoopTasks(s: Scan, staged: seq<byte>): seq<Task>
    requires s.writePos <= BUF_SIZE
  {
    var last := s.writePos + Reach(s) < BUF_SIZE;
    if staged == [] || (last && Reach(s) == |s.src.unread|) then []
    else if s.dst.canWrite then [Put(staged, last)]
    else [Refuse(last)]
  }

  /** What the loop leaves unread: the delimiter is consumed when the loop gets to it. */
  function LoopLeaves(s: Scan): seq<byte>
    requires s.writePos <= BUF_SIZE
  {
    var rest := s.src.unread[Reach(s)..];
    if s.writePos + Reach(s) < BUF_SIZE && rest != [] then rest[1..] else rest
  }

  /** The whole effect of the loop on an open source, in one stroke. */
  predicate LoopDone(s: Scan, r: Scan)
    requires s.writePos <= BUF_SIZE
  {
    && r.writePos == s.writePos + Reach(s)
    && Staged(r) == Staged(s) + s.src.unread[..Reach(s)]
    && r.src.unread == LoopLeaves(s) && r.src.waiting == s.src.waiting
    && r.src.canRead && r.src.canWrite == s.src.canWrite
    && r.tasks == LoopTasks(s, Staged(r))
    && r.dst == s.dst && r.put == s.put && r.total == s.total && r.calls == s.calls && r.fed == s.fed
  }

  lemma ReachStep(s: Scan, s1: Scan, staged: seq<byte>)
    requires s.src.unread != [] && s.src.unread[0] != s.delim && s1.delim == s.delim && s1.dst == s.dst
    requires s1.writePos == s.writePos + 1 <= BUF_SIZE && s1.src.unread == s.src.unread[1..]
    ensures Reach(s) == Reach(s1) + 1 && LoopLeaves(s) == LoopLeaves(s1)
    ensures s.src.unread[..Reach(s)] == [s.src.unread[0]] + s1.src.unread[..Reach(s1)]
    ensures LoopTasks(s, staged) == LoopTasks(s1, staged)
  {
  }

  lemma StoreStages(s: Scan, b: byte)
    requires s.writePos < |s.outbuf|
    ensures Staged(Store(s, b)) == Staged(s) + [b]
  {
  }

  /** `s1` is `s` with its first byte at hand staged. */
  predicate OneStaged(s: Scan, s1: Scan)
    requires s.src.unread != []
  {
    && s1.writePos == s.writePos + 1 <= BUF_SIZE && Staged(s1) == Staged(s) + [s.src.unread[0]]
    && s1.src.unread == s.src.unread[1..] && s1.src.waiting == s.src.waiting && s1.src.canWrite == s.src.canWrite
    && s1.delim == s.delim && s1.dst == s.dst && s1.put == s.put && s1.total == s.total
    && s1.calls == s.calls && s1.fed == s.fed
  }

  lemma LoopDoneStep(s: Scan, s1: Scan, r: Scan)
    requires s.src.unread != [] && s.src.unread[0] != s.delim && s.writePos < BUF_SIZE
    requires OneStaged(s, s1) && LoopDone(s1, r)
    ensures LoopDone(s, r)
  {
    ReachStep(s, s1, Staged(r));
    assert Staged(s1) + s1.src.unread[..Reach(s1)] == Staged(s) + ([s.src.unread[0]] + s1.src.unread[..Reach(s1)]);
  }

  lemma {:induction false} ScanLoopDoes(s: Scan)
    requires s.src.canRead && s.tasks == [] && |s.outbuf| == BUF_SIZE && s.writePos < BUF_SIZE
    ensures LoopDone(s, ScanLoop(s))
    decreases |s.src.unread|
  {
    if s.src.unread == [] {
      assert Staged(s) + [] == Staged(s);
    } else {
      var b := s.src.unread[0];
      var q := ByteTaken(s);
      LoopUnfolds(s);
      if b == s.delim {
        assert Staged(s) + [] == Staged(s) == Staged(q);
      } else {
        var s1 := Store(q, b);
        if IsFull(s1) {
          FullDone(s1);
        } else {
          ScanLoopDoes(s1);
        }
        StoreStages(q, b);
        LoopDoneStep(s, s1, ScanLoop(s));
      }
    }
  }

  lemma FullDone(s: Scan)
    requires s.src.canRead && s.tasks == [] && |s.outbuf| == s.writePos == BUF_SIZE
    ensures LoopDone(s, Putn(s, false))
  {
  }
}
