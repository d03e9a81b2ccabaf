/**
 What each operation of the buffer does, said of bytes, counts and flags alone: how much a read takes, what sync
 makes readable and for how long, what every completion carries.
 */
module BufferLaws {
  import opened Bytes
  import opened BufferSpec
  import opened BufferProperties

  // ---------- synchronous reads ----------

  /** `bytes` is what a read of `count` gets of `unread`: that many, or all there is. */
  predicate Fills(bytes: seq<byte>, unread: seq<byte>, count: nat) {
    bytes <= unread && |bytes| <= count && (|bytes| < count ==> bytes == unread)
  }

  /** A read cannot be answered exactly when the writer is open, nothing is synced and too few bytes are held. */
  predicate MustWait(s: State, count: nat) {
    s.canWrite && s.synced == 0 && |s.unread| < count
  }

  /** What taking `n` bytes from the front changes, and that nothing else does. */
  predicate Takes(s: State, s': State, n: nat) {
    && n <= |s.unread| && s'.unread == s.unread[n..]
    && s'.totalRead == s.totalRead + n
    && s'.synced == (if n < s.synced then s.synced - n else 0)
    && s' == s.(unread := s'.unread, totalRead := s'.totalRead, synced := s'.synced, readEof := s'.readEof)
  }

  lemma SgetnReads(s: State, count: nat)
    requires s.canRead && count > 0
    ensures var (s', reply) := Step(s, Sgetn(count));
      if MustWait(s, count) then reply == RequiresAsync && s' == s
      else reply.Block? && Fills(reply.bytes, s.unread, count) && Takes(s, s', |reply.bytes|) && s'.readEof == s.readEof
  {
  }

  lemma ScopyReads(s: State, count: nat)
    requires s.canRead
    ensures var (s', reply) := Step(s, Scopy(count));
      && s' == s
      && if MustWait(s, count) then reply == RequiresAsync
         else reply.Block? && Fills(reply.bytes, s.unread, count)
  {
  }

  /** One character: the first one, the end of the stream, or a wait; the end-of-file flag remembers which. */
  lemma CharReads(s: State)
    requires s.canRead
    ensures var (s', reply) := Step(s, Sbumpc);
      && s'.readEof == (reply == Char(None))
      && if MustWait(s, 1) then reply == RequiresAsync && s' == s.(readEof := false)
         else if s.unread == [] then reply == Char(None) && Takes(s, s', 0)
         else reply == Char(Some(s.unread[0])) && Takes(s, s', 1)
    ensures var (s', reply) := Step(s, Sgetc);
      && s' == s.(readEof := reply == Char(None))
      && reply == (if MustWait(s, 1) then RequiresAsync
                   else if s.unread == [] then Char(None) else Char(Some(s.unread[0])))
  {
  }

  /** With the read end closed, or asked for nothing, a read gives nothing and changes nothing. */
  lemma ClosedReads(s: State, count: nat)
    ensures !s.canRead || count == 0 ==> Step(s, Sgetn(count)) == (s, Block([]))
    ensures !s.canRead ==> Step(s, Scopy(count)) == (s, Block([]))
    ensures !s.canRead ==> Step(s, Sbumpc) == (s, Char(None)) && Step(s, Sgetc) == (s, Char(None))
  {
  }

  lemma ReleaseTakes(s: State, count: nat)
    requires count <= |s.unread|
    ensures var (s', reply) := Step(s, Release(count));
      if s.canWrite then Takes(s, s', count) && s'.readEof == s.readEof else s' == s
  {
  }

  // ---------- completions ----------

  /** What a handler is told when its request is answered from `unread`. */
  predicate Answers(c: Completion, unread: seq<byte>) {
    if c.req.count > 1 && c.req.toMemory then
      c.outcome.Size? && Fills(c.outcome.bytes, unread, c.req.count)
    else
      c.outcome == Ch(if unread == [] then None else Some(unread[0]))
  }

  function Length(o: Outcome): nat {
    match o
    case Size(bytes) => |bytes|
    case Ch(c) => if c.Some? then 1 else 0
  }

  /** Completions in order, each answered from what those before it left of `unread`; `left` is left at the end. */
  predicate AnsweredFrom(cs: seq<Completion>, unread: seq<byte>, left: seq<byte>)
    decreases |cs|
  {
    if cs == [] then left == unread
    else
      && Answers(cs[0], unread) && Length(cs[0].outcome) <= |unread|
      && AnsweredFrom(cs[1..], unread[Length(cs[0].outcome)..], left)
  }

  lemma {:induction false} ServedAnswers(s: State)
    ensures AnsweredFrom(Served(s), s.unread, Fulfill(s).unread)
    decreases |s.waiting|
  {
    if HeadReady(s) {
      var c := Answer(s, s.waiting[0]);
      ServedAnswers(ServeHead(s));
      assert Served(s) == [c] + Served(ServeHead(s)) && Served(s)[1..] == Served(ServeHead(s));
      assert Length(c.outcome) == |Next(s, Want(c.req))|;
    }
  }

  /** The bytes a feeding operation adds before it serves. */
  function Added(s: State, op: Op): seq<byte> {
    match op
    case Write(data) => if s.canWrite && s.canRead then data else []
    case Commit(data) => if s.canWrite && s.alloced.Some? then data else []
    case _ => []
  }

  /** Every completion of waiting requests carries what its count asks for, from the front of the bytes held. */
  lemma FeedAnswers(s: State, op: Op) returns (cs: seq<Completion>)
    requires Feeds(op)
    ensures var s' := Step(s, op).0;
      s'.posted == s.posted + cs && AnsweredFrom(cs, s.unread + Added(s, op), s'.unread)
  {
    cs := NewlyPosted(s, op);
    StepPosts(s, op);
    if Serves(s, op) {
      ServedAnswers(Fed(s, op));
    }
    assert s.unread + [] == s.unread;
  }

  /** An asynchronous read: refused with the read end closed, queued when it must wait, otherwise answered at once. */
  lemma AskAnswers(s: State, op: Op)
    requires (op.Getn? && op.count > 0) || op.Bumpc?
    ensures var (s', reply) := Step(s, op);
      var r := if op.Getn? then Request(op.id, op.count, true) else Request(op.id, 1, false);
      && reply == Void
      && if !s.canRead then
           s' == s.(posted := s.posted + [Completion(r, if r.toMemory then Size([]) else Ch(None))])
         else if MustWait(s, r.count) then
           s' == s.(waiting := s.waiting + [r])
         else
           && |s'.posted| == |s.posted| + 1
           && var c := s'.posted[|s.posted|];
              && s'.posted == s.posted + [c] && c.req == r && Answers(c, s.unread)
              && Takes(s, s'.(posted := s.posted), Length(c.outcome))
  {
  }

  // ---------- what feeds the buffer ----------

  /** A write accepts all or nothing: only an open writer accepts, and with the reader gone the bytes are dropped. */
  lemma WriteReplies(s: State, data: seq<byte>)
    ensures Step(s, Write(data)).1 == Count(if s.canWrite then |data| else 0)
    ensures !s.canWrite || !s.canRead || data == [] ==> Step(s, Write(data)).0 == s
  {
  }

  lemma AllocGives(s: State, size: nat)
    ensures Step(s, Alloc(size)) ==
      if !s.canWrite then (s, NullBlock)
      else if s.alloced.Some? then (s, Threw)
      else (s.(alloced := Some(size)), Void)
  {
  }

  lemma {:induction false} FulfillKeeps(s: State)
    ensures var s' := Fulfill(s);
      && s'.canRead == s.canRead && s'.canWrite == s.canWrite && s'.readEof == s.readEof
      && s'.alloced == s.alloced && s'.totalWritten == s.totalWritten
    decreases |s.waiting|
  {
    if HeadReady(s) {
      FulfillKeeps(ServeHead(s));
    }
  }

  lemma CommitReplies(s: State, data: seq<byte>)
    ensures var (s', reply) := Step(s, Commit(data));
      if !s.canWrite then s' == s && reply == Void
      else if s.alloced.None? then s' == s && reply == Threw
      else s'.alloced == None && reply == Void
  {
    FulfillKeeps(Fed(s, Commit(data)));
  }

  /** Closing: the ends named are closed and stay closed, the others are as they were. */
  lemma CloseCloses(s: State, input: bool, output: bool)
    ensures var (s', reply) := Step(s, Close(input, output));
      && s'.canRead == (s.canRead && !input) && s'.canWrite == (s.canWrite && !output)
      && s'.alloced == s.alloced && s'.totalWritten == s.totalWritten
      && (!output || !s.canWrite ==> s' == s.(canRead := s.canRead && !input))
  {
    FulfillKeeps(Fed(s, Close(input, output)));
  }

  // ---------- sync ----------

  /** All that is unread is marked. */
  predicate Level(s: State) {
    s.synced == |s.unread|
  }

  lemma {:induction false} FulfillLevel(s: State)
    requires Level(s)
    ensures Level(Fulfill(s))
    decreases |s.waiting|
  {
    if HeadReady(s) {
      FulfillLevel(ServeHead(s));
    }
  }

  /** Sync marks everything unread; with nobody waiting it changes nothing else. With the writer closed it throws. */
  lemma SyncMarks(s: State)
    ensures var (s', reply) := Step(s, Sync);
      if !s.canWrite then s' == s && reply == Threw
      else reply == Void && Level(s') && (s.waiting == [] ==> s' == s.(synced := |s.unread|))
  {
    if s.canWrite {
      FulfillLevel(s.(synced := |s.unread|));
    }
  }

  lemma {:induction false} FulfillLowers(s: State)
    ensures var s' := Fulfill(s);
      && |s'.unread| <= |s.unread|
      && s'.synced == (if |s.unread| - |s'.unread| < s.synced then s.synced - (|s.unread| - |s'.unread|) else 0)
      && s'.totalRead == s.totalRead + (|s.unread| - |s'.unread|)
    decreases |s.waiting|
  {
    if HeadReady(s) {
      FulfillLowers(ServeHead(s));
    }
  }

  /** The mark, and both counters, after `n` bytes were read and `m` accepted. */
  predicate Counted(s: State, s': State, n: nat, m: nat) {
    && s'.totalRead == s.totalRead + n && s'.totalWritten == s.totalWritten + m
    && s'.synced == if n < s.synced then s.synced - n else 0
  }

  lemma FeedLowers(s: State, op: Op)
    requires Feeds(op) && !op.Sync?
    ensures Counted(s, Feed(s, op).0, |Took(s, op)|, |Gave(s, op)|)
  {
    FulfillLowers(Fed(s, op));
    FulfillKeeps(Fed(s, op));
    FulfillTakes(Fed(s, op));
  }

  lemma SyncLowers(s: State)
    requires s.synced <= |s.unread|
    ensures var s' := Step(s, Sync).0;
      var n := |Took(s, Sync)|;
      Counted(s, s'.(synced := if n < s.synced then s.synced - n else 0), n, 0) && s'.synced + n >= s.synced
  {
    FulfillLowers(Fed(s, Sync));
    FulfillKeeps(Fed(s, Sync));
    FulfillTakes(Fed(s, Sync));
  }

  lemma AskCounts(s: State, r: Request)
    ensures var s' := Ask(s, r);
      |s'.unread| <= |s.unread| && Counted(s, s', |s.unread| - |s'.unread|, 0)
  {
  }

  lemma AskLowers(s: State, op: Op)
    requires Issued(op) != []
    ensures Counted(s, Step(s, op).0, |Took(s, op)|, 0)
  {
    var s' := Ask(s, Issued(op)[0]);
    AskCounts(s, Issued(op)[0]);
    StepConserves(s, op);
    assert |Took(s, op)| + |s'.unread| == |s.unread|;
  }

  lemma DirectLowers(s: State, op: Op)
    requires !Feeds(op) && Issued(op) == [] && (op.Release? ==> op.count <= |s.unread|)
    ensures Counted(s, Direct(s, op).0, |Took(s, op)|, 0)
  {
  }

  /** Every step but a sync lowers the mark by exactly what is read; a sync never lowers it further. */
  lemma StepLowers(s: State, op: Op)
    requires s.synced <= |s.unread| && Legal(s, op)
    ensures var s' := Step(s, op).0;
      var n, m := |Took(s, op)|, |Gave(s, op)|;
      if op.Sync? then
        Counted(s, s'.(synced := if n < s.synced then s.synced - n else 0), n, m) && s'.synced + n >= s.synced
      else Counted(s, s', n, m)
  {
    if op.Sync? {
      SyncLowers(s);
    } else if Feeds(op) {
      FeedLowers(s, op);
    } else if Issued(op) != [] {
      AskLowers(s, op);
    } else {
      DirectLowers(s, op);
    }
  }

  /** Over every run the counters are the bytes read and accepted, and the mark is lowered by reads alone. */
  lemma {:induction false} RunLowers(s: State, ops: seq<Op>)
    requires BufferInv(s) && LegalRun(s, ops)
    ensures var s' := Run(s, ops);
      var left := if |AllTook(s, ops)| < s.synced then s.synced - |AllTook(s, ops)| else 0;
      && s'.synced >= left && (Sync !in ops ==> s'.synced == left)
      && s'.totalRead == s.totalRead + |AllTook(s, ops)|
      && s'.totalWritten == s.totalWritten + |AllGave(s, ops)|
    decreases |ops|
  {
    if ops != [] {
      StepInv(s, ops[0]);
      StepLowers(s, ops[0]);
      RunLowers(Step(s, ops[0]).0, ops[1..]);
    }
  }

  /** A read of at least one byte is answered without waiting, and with at least one byte. */
  predicate Prompt(s: State, n: nat, id: nat) {
    && Step(s, Sgetn(n)).1.Block? && Step(s, Sgetn(n)).1.bytes != []
    && Step(s, Scopy(n)).1.Block? && Step(s, Scopy(n)).1.bytes != []
    && Step(s, Sbumpc).1.Char? && Step(s, Sbumpc).1.c.Some?
    && Step(s, Sgetc).1.Char? && Step(s, Sgetc).1.c.Some?
    && Step(s, Getn(id, n)).0.waiting == s.waiting && |Step(s, Getn(id, n)).0.posted| == |s.posted| + 1
    && Step(s, Bumpc(id)).0.waiting == s.waiting && |Step(s, Bumpc(id)).0.posted| == |s.posted| + 1
  }

  lemma PromptWhenSynced(s: State, n: nat, id: nat)
    requires s.canRead && 0 < s.synced <= |s.unread| && n > 0
    ensures Prompt(s, n, id)
  {
  }

  /**
   What sync is for: as many bytes as were unread when it returned can be read without waiting, whatever is asked for
   at a time and whatever else happens to the buffer in between.
   */
  lemma PromptAfterSync(s: State, ops: seq<Op>, n: nat, id: nat)
    requires BufferInv(s) && s.canWrite && n > 0
    requires var s1 := Step(s, Sync).0;
      LegalRun(s1, ops) && |AllTook(s1, ops)| < |s1.unread| && Run(s1, ops).canRead
    ensures Prompt(Run(Step(s, Sync).0, ops), n, id)
  {
    var s1 := Step(s, Sync).0;
    StepInv(s, Sync);
    SyncMarks(s);
    RunLowers(s1, ops);
    RunInv(s1, ops);
    PromptWhenSynced(Run(s1, ops), n, id);
  }

  // ---------- a target that is synced after every write ----------

  /** Nobody waits beside bytes, and all bytes can be read at once. */
  predicate Settled(s: State) {
    (s.waiting == [] || s.unread == []) && Level(s)
  }

  /** A write and its sync leave the buffer so, whatever it was like before. */
  lemma WriteAndSyncSettle(s: State, data: seq<byte>)
    requires BufferInv(s) && (s.canWrite || Settled(s))
    ensures var d := Step(Step(s, Write(data)).0, Sync).0;
      BufferInv(d) && Settled(d)
  {
    var w := Step(s, Write(data)).0;
    StepInv(s, Write(data));
    StepInv(w, Sync);
    WriteKeepsEnds(s, Write(data));
    if s.canWrite {
      SyncMarks(w);
      SyncSettles(w);
    }
  }

  /** Reading, asking, syncing and closing keep it so. */
  lemma OthersKeepSettled(s: State, op: Op)
    requires BufferInv(s) && Settled(s) && !op.Write? && !op.Commit?
    ensures BufferInv(Step(s, op).0) && Settled(Step(s, op).0)
  {
    StepInv(s, op);
    match op {
      case Sync =>
        SyncMarks(s);
        if s.canWrite {
          SyncSettles(s);
        }
      case Close(input, output) =>
        FulfillLevel(Fed(s, op));
        if output {
          CloseSettles(s, input);
        }
      case _ =>
    }
  }
}
