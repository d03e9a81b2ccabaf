/** What every operation of the buffer keeps, and what follows for whole runs. */
module BufferProperties {
  import opened Bytes
  import opened BufferSpec

  /** Watermark, byte counts, and: the reader at the head of the queue truly cannot be served. */
  predicate BufferInv(s: State) {
    && s.synced <= |s.unread|
    && s.totalWritten == s.totalRead + |s.unread|
    && (forall r <- s.waiting :: r.count > 0)
    && (s.waiting != [] ==> !CanSatisfy(s, s.waiting[0].count))
  }

  /** `BufferInv` without the clause about the head of the queue: what holds before `Fulfill` runs. */
  predicate Unserved(s: State) {
    && s.synced <= |s.unread|
    && s.totalWritten == s.totalRead + |s.unread|
    && (forall r <- s.waiting :: r.count > 0)
  }

  lemma {:induction false} FulfillInv(s: State)
    requires Unserved(s)
    ensures BufferInv(Fulfill(s))
    decreases |s.waiting|
  {
    if HeadReady(s) {
      FulfillInv(ServeHead(s));
    }
  }

  lemma AskInv(s: State, r: Request)
    requires BufferInv(s) && r.count > 0
    ensures BufferInv(Ask(s, r))
  {
  }

  lemma DirectInv(s: State, op: Op)
    requires BufferInv(s)
    ensures BufferInv(Direct(s, op).0)
  {
  }

  lemma StepInv(s: State, op: Op)
    requires BufferInv(s)
    ensures BufferInv(Step(s, op).0)
  {
    if Feeds(op) {
      FulfillInv(Fed(s, op));
    } else if Issued(op) != [] {
      AskInv(s, Issued(op)[0]);
    } else {
      DirectInv(s, op);
    }
  }

  /** No lost wakeup, the watermark and the counters, after any sequence of operations. */
  lemma {:induction false} RunInv(s: State, ops: seq<Op>)
    requires BufferInv(s)
    ensures BufferInv(Run(s, ops))
    decreases |ops|
  {
    if ops != [] {
      StepInv(s, ops[0]);
      RunInv(Step(s, ops[0]).0, ops[1..]);
    }
  }

  /** While a reader waits nothing is synced, the writer is open, and the bytes held are too few. */
  lemma WaitingMeansUnsatisfiable(ops: seq<Op>)
    ensures var s := Run(Initial, ops);
      s.waiting != [] ==> s.synced == 0 && s.canWrite && |s.unread| < s.waiting[0].count
  {
    RunInv(Initial, ops);
  }

  // ---------- every request is completed once or still waits ----------

  function Requests(cs: seq<Completion>): (rs: seq<Request>)
    ensures |rs| == |cs|
  {
    seq(|cs|, i requires 0 <= i < |cs| => cs[i].req)
  }

  function AllIssued(ops: seq<Op>): seq<Request> {
    if ops == [] then [] else Issued(ops[0]) + AllIssued(ops[1..])
  }

  /** The request that `op` issues and that has to wait, if any. */
  function Queued(s: State, op: Op): seq<Request> {
    if |Step(s, op).0.waiting| > |s.waiting| then Issued(op) else []
  }

  /** The waiting requests that `op` completes, in completion order. */
  function Woken(s: State, op: Op): seq<Request> {
    if op.Getn? || op.Bumpc? then [] else Requests(NewlyPosted(s, op))
  }

  function AllQueued(s: State, ops: seq<Op>): seq<Request>
    decreases |ops|
  {
    if ops == [] then [] else Queued(s, ops[0]) + AllQueued(Step(s, ops[0]).0, ops[1..])
  }

  function AllWoken(s: State, ops: seq<Op>): seq<Request>
    decreases |ops|
  {
    if ops == [] then [] else Woken(s, ops[0]) + AllWoken(Step(s, ops[0]).0, ops[1..])
  }

  lemma {:induction false} FulfillServesInOrder(s: State)
    ensures s.waiting == Requests(Served(s)) + Fulfill(s).waiting
    decreases |s.waiting|
  {
    if HeadReady(s) {
      FulfillServesInOrder(ServeHead(s));
    }
  }

  /** One step: the queue gains at its tail what has to wait and loses at its head what is completed. */
  lemma StepServesInOrder(s: State, op: Op)
    ensures s.waiting + Queued(s, op) == Woken(s, op) + Step(s, op).0.waiting
    ensures Issued(op) != [] ==> Woken(s, op) == [] && Issued(op) == Requests(NewlyPosted(s, op)) + Queued(s, op)
    ensures Issued(op) == [] ==> Queued(s, op) == [] && Woken(s, op) == Requests(NewlyPosted(s, op))
  {
    if Feeds(op) {
      FeedServesInOrder(s, op);
    } else if Issued(op) != [] {
      AskQueues(s, Issued(op)[0]);
    }
  }

  lemma FeedServesInOrder(s: State, op: Op)
    requires Feeds(op)
    ensures s.waiting == Requests(NewlyPosted(s, op)) + Feed(s, op).0.waiting
  {
    if Serves(s, op) {
      FulfillServesInOrder(Fed(s, op));
    }
  }

  lemma AskQueues(s: State, r: Request)
    ensures if s.canRead && !CanSatisfy(s, r.count) then Ask(s, r) == s.(waiting := s.waiting + [r])
            else Ask(s, r).waiting == s.waiting && |Ask(s, r).posted| == |s.posted| + 1
  {
  }

  /** Requests that had to wait complete in the order they were queued. */
  lemma {:induction false} WaitersServedInOrder(s: State, ops: seq<Op>)
    ensures s.waiting + AllQueued(s, ops) == AllWoken(s, ops) + Run(s, ops).waiting
    decreases |ops|
  {
    if ops != [] {
      var s1 := Step(s, ops[0]).0;
      StepServesInOrder(s, ops[0]);
      WaitersServedInOrder(s1, ops[1..]);
      SpliceQueues(s.waiting, Queued(s, ops[0]), AllQueued(s1, ops[1..]), Woken(s, ops[0]), s1.waiting,
                   AllWoken(s1, ops[1..]), Run(s1, ops[1..]).waiting);
    }
  }

  lemma SpliceQueues(w: seq<Request>, q: seq<Request>, later: seq<Request>, woken: seq<Request>,
                     w1: seq<Request>, wokenLater: seq<Request>, left: seq<Request>)
    requires w + q == woken + w1 && w1 + later == wokenLater + left
    ensures w + (q + later) == (woken + wokenLater) + left
  {
    assert w + (q + later) == (w + q) + later;
    assert woken + (w1 + later) == (woken + w1) + later;
    assert woken + (wokenLater + left) == (woken + wokenLater) + left;
  }

  /** How often `r` occurs in a list of requests. */
  function Times(r: Request, rs: seq<Request>): nat {
    multiset(rs)[r]
  }

  lemma TimesAppend(r: Request, a: seq<Request>, b: seq<Request>)
    ensures Times(r, a + b) == Times(r, a) + Times(r, b)
  {
  }

  lemma Balance(r: Request, posted: seq<Request>, done: seq<Request>, w: seq<Request>, q: seq<Request>,
                woken: seq<Request>, w1: seq<Request>, issued: seq<Request>)
    requires w + q == woken + w1 && issued + woken == done + q
    ensures Times(r, posted + done) + Times(r, w1) == Times(r, posted) + Times(r, w) + Times(r, issued)
  {
    TimesAppend(r, posted, done);
    TimesAppend(r, w, q);
    TimesAppend(r, woken, w1);
    TimesAppend(r, issued, woken);
    TimesAppend(r, done, q);
  }

  lemma StepAccounts(s: State, op: Op, r: Request)
    ensures var s' := Step(s, op).0;
      Times(r, Requests(s'.posted)) + Times(r, s'.waiting)
      == Times(r, Requests(s.posted)) + Times(r, s.waiting) + Times(r, Issued(op))
  {
    var done := Requests(NewlyPosted(s, op));
    StepServesInOrder(s, op);
    StepPosts(s, op);
    assert Requests(s.posted + NewlyPosted(s, op)) == Requests(s.posted) + done;
    assert Issued(op) + Woken(s, op) == done + Queued(s, op);
    Balance(r, Requests(s.posted), done, s.waiting, Queued(s, op), Woken(s, op), Step(s, op).0.waiting, Issued(op));
  }

  /** Every request issued is completed or still waits, as often as it was issued. */
  lemma {:induction false} RequestsAccounted(s: State, ops: seq<Op>, r: Request)
    ensures var s' := Run(s, ops);
      Times(r, Requests(s'.posted)) + Times(r, s'.waiting)
      == Times(r, Requests(s.posted)) + Times(r, s.waiting) + Times(r, AllIssued(ops))
    decreases |ops|
  {
    if ops != [] {
      StepAccounts(s, ops[0], r);
      RequestsAccounted(Step(s, ops[0]).0, ops[1..], r);
      TimesAppend(r, Issued(ops[0]), AllIssued(ops[1..]));
    }
  }

  /** A request issued once is completed exactly once, unless it still waits. */
  lemma NoneCompletedTwice(ops: seq<Op>, r: Request)
    requires Times(r, AllIssued(ops)) == 1
    ensures var s := Run(Initial, ops);
      Times(r, Requests(s.posted)) == (if r in s.waiting then 0 else 1)
  {
    RequestsAccounted(Initial, ops, r);
  }

  /** A new request passes waiting ones exactly when the bytes held suffice for it; it asks for less than their head. */
  lemma OvertakesExactly(s: State, r: Request)
    requires BufferInv(s) && s.canRead && s.waiting != [] && r.count > 0
    ensures Ask(s, r).posted != s.posted <==> r.count <= |s.unread|
    ensures Ask(s, r).posted != s.posted ==> Ask(s, r).waiting == s.waiting && r.count < s.waiting[0].count
  {
  }

  lemma RunThree(s: State, a: Op, b: Op, c: Op)
    ensures Run(s, [a, b, c]) == Step(Step(Step(s, a).0, b).0, c).0
  {
    assert [a, b, c][1..] == [b, c] && [b, c][1..] == [c] && [c][1..] == [];
    assert Run(Step(s, a).0, [b, c]) == Run(Step(Step(s, a).0, b).0, [c]);
  }

  /** So completions need not follow the order of requests: several bytes asked for, one written, one asked for. */
  lemma NotInRequestOrder(count: nat, b: byte)
    requires count > 1
    ensures var s := Run(Initial, [Getn(0, count), Write([b]), Bumpc(1)]);
      Requests(s.posted) == [CharRequest(1)] && s.waiting == [BlockRequest(0, count)]
  {
    RunThree(Initial, Getn(0, count), Write([b]), Bumpc(1));
    OneWaits(Initial, count);
    OneHeld(Initial.(waiting := [BlockRequest(0, count)]), b);
  }

  lemma OneWaits(s: State, count: nat)
    requires s == Initial && count > 1
    ensures Step(s, Getn(0, count)).0 == s.(waiting := [BlockRequest(0, count)])
  {
  }

  lemma OneHeld(s: State, b: byte)
    requires s.canRead && s.canWrite && s.unread == [] && s.synced == 0 && s.posted == []
    requires |s.waiting| == 1 && s.waiting[0].count > 1
    ensures var s' := Step(Step(s, Write([b])).0, Bumpc(1)).0;
      Requests(s'.posted) == [CharRequest(1)] && s'.waiting == s.waiting
  {
    var holds := Appended(s, [b]);
    assert Step(s, Write([b])).0 == holds;
    assert Ask(holds, CharRequest(1)).posted == [Answer(holds, CharRequest(1))];
  }

  // ---------- end of stream and short reads ----------

  /** What an answer of `got` bytes to a read of `want` may mean in state `s`. */
  predicate Justified(s: State, want: nat, got: seq<byte>) {
    && |got| <= want
    && (got == [] ==> s.unread == [] && !s.canWrite)
    && (|got| < want ==> s.synced > 0 || !s.canWrite)
  }

  lemma TakeJustified(s: State, count: nat)
    requires BufferInv(s) || Unserved(s)
    requires count > 0 && CanSatisfy(s, count)
    ensures Justified(s, count, Next(s, count))
  {
  }

  /** A synchronous read of at least one byte ends the stream only when the writer is closed and all is read. */
  lemma SyncReadJustified(s: State, count: nat)
    requires BufferInv(s) && s.canRead && count > 0
    ensures var reply := Step(s, Sgetn(count)).1;
      if CanSatisfy(s, count) then reply.Block? && Justified(s, count, reply.bytes) else reply == RequiresAsync
    ensures var reply := Step(s, Sbumpc).1;
      reply == Char(None) ==> s.unread == [] && !s.canWrite
  {
  }

  /** Completions made while serving the queue: empty ones only at the very end of a closed stream. */
  lemma {:induction false} ServedJustified(s: State)
    requires Unserved(s)
    ensures Fulfill(s).canWrite == s.canWrite
    ensures s.unread == [] ==> Fulfill(s).unread == []
    ensures forall c <- Served(s) ::
      && |OutcomeBytes(c.outcome)| <= Want(c.req)
      && (OutcomeBytes(c.outcome) == [] ==> !s.canWrite && Fulfill(s).unread == [])
      && (|OutcomeBytes(c.outcome)| < Want(c.req) ==> !s.canWrite || s.synced > 0)
    decreases |s.waiting|
  {
    if HeadReady(s) {
      var r := s.waiting[0];
      ServedJustified(ServeHead(s));
      AnswerTakes(s, r);
      assert OutcomeBytes(Answer(s, r).outcome) == Next(s, Want(r));
    }
  }

  /** No handler is told "end of stream" while the read end is open, unless the writer is closed and all is read. */
  lemma EndOfStreamOnlyAfterClose(s: State, op: Op, c: Completion)
    requires BufferInv(s) && s.canRead
    requires c in NewlyPosted(s, op) && OutcomeBytes(c.outcome) == []
    ensures !Step(s, op).0.canWrite && Step(s, op).0.unread == []
  {
    if Feeds(op) {
      ServedJustified(Fed(s, op));
    } else {
      AnswerTakes(s, Issued(op)[0]);
    }
  }

  // ---------- what sync and close settle ----------

  lemma {:induction false} FulfillSynced(s: State)
    requires Unserved(s) && s.synced == |s.unread|
    ensures Fulfill(s).waiting == [] || Fulfill(s).unread == []
    decreases |s.waiting|
  {
    if HeadReady(s) {
      FulfillSynced(ServeHead(s));
    }
  }

  /** After `sync` either no reader waits or no byte is left unread. */
  lemma SyncSettles(s: State)
    requires BufferInv(s) && s.canWrite
    ensures var s' := Step(s, Sync).0;
      s'.waiting == [] || s'.unread == []
  {
    FulfillSynced(s.(synced := |s.unread|));
  }

  lemma {:induction false} FulfillClosed(s: State)
    requires !s.canWrite
    ensures Fulfill(s).waiting == [] && !Fulfill(s).canWrite
    decreases |s.waiting|
  {
    if s.waiting != [] {
      FulfillClosed(ServeHead(s));
    }
  }

  /** Closing the write end empties the queue of readers. */
  lemma CloseSettles(s: State, input: bool)
    requires BufferInv(s)
    ensures var s' := Step(s, Close(input, true)).0;
      s'.waiting == [] && !s'.canWrite
  {
    FulfillClosed(Fed(s, Close(input, true)));
  }

  lemma StepAfterClose(s: State, op: Op)
    requires !s.canWrite && s.waiting == []
    ensures var s' := Step(s, op).0;
      && !s'.canWrite && s'.waiting == []
      && Gave(s, op) == []
      && Requests(s'.posted) == Requests(s.posted) + Issued(op)
  {
  }

  /** From then on nobody waits, nothing is accepted, and every request is completed in issue order. */
  lemma {:induction false} AfterClose(s: State, ops: seq<Op>)
    requires !s.canWrite && s.waiting == []
    ensures var s' := Run(s, ops);
      && !s'.canWrite && s'.waiting == []
      && AllGave(s, ops) == []
      && Requests(s'.posted) == Requests(s.posted) + AllIssued(ops)
    decreases |ops|
  {
    if ops != [] {
      var s1 := Step(s, ops[0]).0;
      StepAfterClose(s, ops[0]);
      AfterClose(s1, ops[1..]);
      SpliceIssued(Requests(s.posted), Issued(ops[0]), AllIssued(ops[1..]));
    }
  }

  lemma SpliceIssued(posted: seq<Request>, issued: seq<Request>, later: seq<Request>)
    ensures (posted + issued) + later == posted + (issued + later)
  {
  }

  // ---------- peeks ----------

  /** A peek changes nothing a reader can see and announces exactly what the matching read then takes. */
  lemma PeeksFaithful(s: State, count: nat)
    ensures Step(s, Scopy(count)).0 == s
    ensures count > 0 ==> Step(s, Scopy(count)).1 == Step(s, Sgetn(count)).1
    ensures Step(s, Sgetc).0 == s.(readEof := Step(s, Sgetc).0.readEof)
    ensures Step(Step(s, Sgetc).0, Sbumpc).1 == Step(s, Sgetc).1 == Step(s, Sbumpc).1
  {
  }

  // ---------- both ends ----------

  /** The source has nothing more to give and never will. */
  predicate Exhausted(s: State) {
    s.unread == [] && !s.canWrite
  }

  lemma StepKeepsExhausted(s: State, op: Op)
    requires Exhausted(s) && s.waiting == []
    ensures Exhausted(Step(s, op).0)
  {
  }

  lemma ClosedStays(s: State, op: Op)
    ensures !s.canWrite ==> !Step(s, op).0.canWrite
    ensures !s.canRead ==> !Step(s, op).0.canRead
  {
    if Feeds(op) {
      FulfillKeepsFlags(Fed(s, op));
    }
  }

  lemma {:induction false} FulfillKeepsFlags(s: State)
    ensures Fulfill(s).canWrite == s.canWrite && Fulfill(s).canRead == s.canRead
    decreases |s.waiting|
  {
    if HeadReady(s) {
      FulfillKeepsFlags(ServeHead(s));
    }
  }

  lemma WriteKeepsEnds(s: State, op: Op)
    requires op.Write? || op.Sync?
    ensures Step(s, op).0.canWrite == s.canWrite && Step(s, op).0.canRead == s.canRead
  {
    FulfillKeepsFlags(Fed(s, op));
  }

  // ---------- steps that only feed or peek ----------

  /** Operations that neither read nor ask to read. */
  predicate NonReading(op: Op) {
    !op.Getn? && !op.Bumpc? && !op.Sgetn? && !op.Sbumpc? && !op.Release?
  }

  /** What a non-reading step does, told without the operation. */
  predicate QuietStep(s: State, s': State, done: seq<Completion>, gave: seq<byte>) {
    && BufferInv(s')
    && Delivered(done) + s'.unread == s.unread + gave
    && s.waiting == Requests(done) + s'.waiting
    && (s'.canRead ==> s.canRead)
    && (s.waiting == [] && Exhausted(s) ==> Exhausted(s'))
    && forall c <- done :: |OutcomeBytes(c.outcome)| <= Want(c.req) &&
                           (OutcomeBytes(c.outcome) == [] && s'.canRead ==> Exhausted(s'))
  }

  lemma NonReadingEnds(s: State, op: Op)
    requires BufferInv(s) && NonReading(op)
    ensures forall c <- NewlyPosted(s, op) ::
      && |OutcomeBytes(c.outcome)| <= Want(c.req)
      && (OutcomeBytes(c.outcome) == [] ==> Exhausted(Step(s, op).0))
  {
    if Feeds(op) {
      ServedJustified(Fed(s, op));
    }
  }

  lemma NonReadingConserves(s: State, op: Op)
    requires NonReading(op)
    ensures Delivered(NewlyPosted(s, op)) + Step(s, op).0.unread == s.unread + Gave(s, op)
    ensures s.waiting == Requests(NewlyPosted(s, op)) + Step(s, op).0.waiting
  {
    StepConserves(s, op);
    StepServesInOrder(s, op);
    assert s.waiting + [] == s.waiting;
  }

  lemma NonReadingStep(s: State, op: Op)
    requires BufferInv(s) && NonReading(op)
    ensures QuietStep(s, Step(s, op).0, NewlyPosted(s, op), Gave(s, op))
  {
    StepInv(s, op);
    NonReadingConserves(s, op);
    NonReadingEnds(s, op);
    ClosedStays(s, op);
    if s.waiting == [] && Exhausted(s) {
      StepKeepsExhausted(s, op);
    }
  }
}
