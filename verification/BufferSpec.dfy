/**
 What a producer/consumer buffer means, with its block layout forgotten: the bytes not yet read, the
 watermark left by `sync`, the two open flags, and the readers that wait. `Step` gives every operation
 as its callers see it through the stream buffer's base class; `ProducerConsumerBuffer` is proved to
 compute it, and the theorems about whole runs are proved here.
 */
module BufferSpec {
  import opened Bytes

  /** A queued read. `toMemory` tells whether it carries a destination pointer. */
  datatype Request = Request(id: nat, count: nat, toMemory: bool)

  function BlockRequest(id: nat, count: nat): Request {
    Request(id, count, true)
  }

  function CharRequest(id: nat): Request {
    Request(id, 1, false)
  }

  /** What a completion handler is called with: a block of bytes, or one character (None is EOF). */
  datatype Outcome = Size(bytes: seq<byte>) | Ch(c: Option<byte>)

  datatype Completion = Completion(req: Request, outcome: Outcome)

  datatype State = State(
    canRead: bool,
    canWrite: bool,
    readEof: bool,
    unread: seq<byte>,
    synced: nat,
    totalRead: nat,
    totalWritten: nat,
    waiting: seq<Request>,
    posted: seq<Completion>,  // handler calls given to the worker, oldest first
    alloced: Option<nat>      // size of the block handed out by alloc and not yet committed
  )

  datatype Op =
    | Write(data: seq<byte>)  // what putc and putn schedule on the worker
    | Alloc(size: nat)
    | Commit(data: seq<byte>) // the bytes the caller left at the start of the allocated block
    | Release(count: nat)
    | Sync
    | Sgetn(count: nat)
    | Scopy(count: nat)
    | Sbumpc
    | Sgetc
    | Getn(id: nat, count: nat)
    | Bumpc(id: nat)
    | Close(input: bool, output: bool)

  datatype Reply =
    | Void
    | Threw
    | NullBlock
    | Count(n: nat)
    | Block(bytes: seq<byte>)
    | Char(c: Option<byte>)
    | RequiresAsync

  const Initial := State(true, true, false, [], 0, 0, 0, [], [], None)

  predicate CanSatisfy(s: State, count: nat) {
    s.synced > 0 || |s.unread| >= count || !s.canWrite
  }

  function Consume(s: State, n: nat): State
    requires n <= |s.unread|
  {
    s.(unread := s.unread[n..],
       totalRead := s.totalRead + n,
       synced := if s.synced > n then s.synced - n else 0)
  }

  function Next(s: State, count: nat): seq<byte> {
    s.unread[..Min(count, |s.unread|)]
  }

  function FirstOf(bytes: seq<byte>): Option<byte> {
    if bytes == [] then None else Some(bytes[0])
  }

  predicate ReadsBlock(r: Request) {
    r.count > 1 && r.toMemory
  }

  /** How many bytes a request takes when it completes. */
  function Want(r: Request): nat {
    if ReadsBlock(r) then r.count else 1
  }

  function OutcomeOf(r: Request, bytes: seq<byte>): Outcome {
    if ReadsBlock(r) then Size(bytes) else Ch(FirstOf(bytes))
  }

  function Answer(s: State, r: Request): Completion {
    Completion(r, OutcomeOf(r, Next(s, Want(r))))
  }

  function Complete(s: State, r: Request): State {
    Consume(s, |Next(s, Want(r))|).(posted := s.posted + [Answer(s, r)])
  }

  /** The state after the first waiting request completes and leaves the queue. */
  function ServeHead(s: State): State
    requires s.waiting != []
  {
    Complete(s, s.waiting[0]).(waiting := s.waiting[1..])
  }

  predicate HeadReady(s: State) {
    s.waiting != [] && CanSatisfy(s, s.waiting[0].count)
  }

  function Fulfill(s: State): State
    decreases |s.waiting|
  {
    if HeadReady(s) then Fulfill(ServeHead(s)) else s
  }

  /** The completions `Fulfill` makes. */
  function Served(s: State): seq<Completion>
    decreases |s.waiting|
  {
    if HeadReady(s) then [Answer(s, s.waiting[0])] + Served(ServeHead(s)) else []
  }

  function Enqueue(s: State, r: Request): State {
    if CanSatisfy(s, r.count) then Complete(s, r) else s.(waiting := s.waiting + [r])
  }

  function Appended(s: State, data: seq<byte>): State {
    s.(unread := s.unread + data, totalWritten := s.totalWritten + |data|)
  }

  /** The operations that can end in `fulfill_outstanding`. */
  predicate Feeds(op: Op) {
    op.Write? || op.Commit? || op.Sync? || op.Close?
  }

  /** Whether such an operation reaches `fulfill_outstanding`. */
  predicate Serves(s: State, op: Op)
    requires Feeds(op)
  {
    match op
    case Write(data) => s.canWrite && s.canRead && data != []
    case Commit(_) => s.canWrite && s.alloced.Some?
    case Sync => s.canWrite
    case Close(_, output) => output && s.canWrite
  }

  /** The state such an operation leaves, or hands to `fulfill_outstanding`. */
  function Fed(s: State, op: Op): State
    requires Feeds(op)
  {
    match op
    case Write(data) => if Serves(s, op) then Appended(s, data) else s
    case Commit(data) => if Serves(s, op) then Appended(s.(alloced := None), data) else s
    case Sync => if Serves(s, op) then s.(synced := |s.unread|) else s
    case Close(input, output) => s.(canRead := s.canRead && !input, canWrite := s.canWrite && !output)
  }

  function FeedReply(s: State, op: Op): Reply
    requires Feeds(op)
  {
    match op
    case Write(data) => Count(if s.canWrite then |data| else 0)
    case Commit(_) => if s.canWrite && s.alloced.None? then Threw else Void
    case Sync => if s.canWrite then Void else Threw
    case Close(_, _) => Void
  }

  function Feed(s: State, op: Op): (State, Reply)
    requires Feeds(op)
  {
    (if Serves(s, op) then Fulfill(Fed(s, op)) else Fed(s, op), FeedReply(s, op))
  }

  /** The request an asynchronous read makes; a block read of nothing makes none. */
  function Issued(op: Op): seq<Request> {
    match op
    case Getn(id, count) => if count > 0 then [BlockRequest(id, count)] else []
    case Bumpc(id) => [CharRequest(id)]
    case _ => []
  }

  /** What a reader is told when the read end is closed. */
  function Refused(r: Request): Completion {
    Completion(r, if r.toMemory then Size([]) else Ch(None))
  }

  function Ask(s: State, r: Request): State {
    if s.canRead then Enqueue(s, r) else s.(posted := s.posted + [Refused(r)])
  }

  /** One operation: the new state and what the caller gets back. */
  function Step(s: State, op: Op): (State, Reply) {
    if Feeds(op) then
      Feed(s, op)
    else if Issued(op) != [] then
      (Ask(s, Issued(op)[0]), Void)
    else
      Direct(s, op)
  }

  /** The operations that neither queue nor complete requests. */
  function Direct(s: State, op: Op): (State, Reply) {
    match op
    case Alloc(size) =>
      if !s.canWrite then (s, NullBlock)
      else if s.alloced.Some? then (s, Threw)
      else (s.(alloced := Some(size)), Void)
    case Release(count) =>
      if s.canWrite && count <= |s.unread| then (Consume(s, count), Void) else (s, Void)
    case Sgetn(count) =>
      if count == 0 || !s.canRead then (s, Block([]))
      else if !CanSatisfy(s, count) then (s, RequiresAsync)
      else (Consume(s, |Next(s, count)|), Block(Next(s, count)))
    case Scopy(count) =>
      if !s.canRead then (s, Block([]))
      else if !CanSatisfy(s, count) then (s, RequiresAsync)
      else (s, Block(Next(s, count)))
    case Sbumpc =>
      if !s.canRead then (s, Char(None))
      else if !CanSatisfy(s, 1) then (s.(readEof := false), RequiresAsync)
      else (Consume(s, |Next(s, 1)|).(readEof := s.unread == []), Char(FirstOf(s.unread)))
    case Sgetc =>
      if !s.canRead then (s, Char(None))
      else if !CanSatisfy(s, 1) then (s.(readEof := false), RequiresAsync)
      else (s.(readEof := s.unread == []), Char(FirstOf(s.unread)))
    case _ => (s, Void)
  }

  function Run(s: State, ops: seq<Op>): State
    decreases |ops|
  {
    if ops == [] then s else Run(Step(s, ops[0]).0, ops[1..])
  }

  function Replies(s: State, ops: seq<Op>): seq<Reply>
    decreases |ops|
  {
    if ops == [] then [] else [Step(s, ops[0]).1] + Replies(Step(s, ops[0]).0, ops[1..])
  }

  // ---------- what an outside observer records of a run ----------

  function OutcomeBytes(o: Outcome): seq<byte> {
    match o
    case Size(bytes) => bytes
    case Ch(None) => []
    case Ch(Some(b)) => [b]
  }

  function Delivered(cs: seq<Completion>): seq<byte> {
    if cs == [] then [] else OutcomeBytes(cs[0].outcome) + Delivered(cs[1..])
  }

  /** The handler calls `op` gives to the worker. */
  function NewlyPosted(s: State, op: Op): seq<Completion> {
    if Feeds(op) then
      (if Serves(s, op) then Served(Fed(s, op)) else [])
    else if Issued(op) == [] then []
    else
      var r := Issued(op)[0];
      if !s.canRead then [Refused(r)] else if CanSatisfy(s, r.count) then [Answer(s, r)] else []
  }

  /** The bytes readers take away during `op`, in the order they take them. */
  function Took(s: State, op: Op): seq<byte> {
    match op
    case Sgetn(_) => (match Step(s, op).1 case Block(bytes) => bytes case _ => [])
    case Sbumpc => (match Step(s, op).1 case Char(Some(b)) => [b] case _ => [])
    case Release(count) => if s.canWrite then Next(s, count) else []
    case _ => Delivered(NewlyPosted(s, op))
  }

  /** The bytes `op` makes the buffer accept: written while both ends are open, or committed. */
  function Gave(s: State, op: Op): seq<byte> {
    match op
    case Write(data) => if s.canRead && s.canWrite then data else []
    case Commit(data) => if s.canWrite && s.alloced.Some? then data else []
    case _ => []
  }

  function AllTook(s: State, ops: seq<Op>): seq<byte>
    decreases |ops|
  {
    if ops == [] then [] else Took(s, ops[0]) + AllTook(Step(s, ops[0]).0, ops[1..])
  }

  function AllGave(s: State, ops: seq<Op>): seq<byte>
    decreases |ops|
  {
    if ops == [] then [] else Gave(s, ops[0]) + AllGave(Step(s, ops[0]).0, ops[1..])
  }

  /** What callers promise: commits stay in the allocated block, releases in the acquired bytes. */
  predicate Legal(s: State, op: Op) {
    match op
    case Commit(data) => s.alloced.Some? ==> |data| <= s.alloced.value
    case Release(count) => count <= |s.unread|
    case _ => true
  }

  predicate LegalRun(s: State, ops: seq<Op>)
    decreases |ops|
  {
    ops == [] || (Legal(s, ops[0]) && LegalRun(Step(s, ops[0]).0, ops[1..]))
  }

  // ---------- conservation ----------

  lemma {:induction false} FulfillPosts(s: State)
    ensures Fulfill(s).posted == s.posted + Served(s)
    decreases |s.waiting|
  {
    if HeadReady(s) {
      FulfillPosts(ServeHead(s));
    }
  }

  lemma StepPosts(s: State, op: Op)
    ensures Step(s, op).0.posted == s.posted + NewlyPosted(s, op)
  {
    if Feeds(op) {
      FulfillPosts(Fed(s, op));
    }
  }

  lemma AnswerTakes(s: State, r: Request)
    ensures OutcomeBytes(Answer(s, r).outcome) + Complete(s, r).unread == s.unread
  {
  }

  lemma {:induction false} FulfillTakes(s: State)
    ensures Delivered(Served(s)) + Fulfill(s).unread == s.unread
    decreases |s.waiting|
  {
    if HeadReady(s) {
      var s1 := ServeHead(s);
      AnswerTakes(s, s.waiting[0]);
      FulfillTakes(s1);
      assert ([Answer(s, s.waiting[0])] + Served(s1))[1..] == Served(s1);
    }
  }

  lemma DirectConserves(s: State, op: Op)
    requires op.Release? ==> Legal(s, op)
    requires !Feeds(op) && Issued(op) == []
    ensures Took(s, op) + Direct(s, op).0.unread == s.unread
  {
  }

  lemma AskConserves(s: State, r: Request)
    ensures var posted :=
      if !s.canRead then [Refused(r)] else if CanSatisfy(s, r.count) then [Answer(s, r)] else [];
      Delivered(posted) + Ask(s, r).unread == s.unread
  {
  }

  lemma StepConserves(s: State, op: Op)
    requires op.Release? ==> Legal(s, op)
    ensures Took(s, op) + Step(s, op).0.unread == s.unread + Gave(s, op)
  {
    if Feeds(op) {
      FulfillTakes(Fed(s, op));
    } else if Issued(op) != [] {
      AskConserves(s, Issued(op)[0]);
    } else {
      DirectConserves(s, op);
    }
  }

  lemma Splice(took: seq<byte>, later: seq<byte>, left: seq<byte>, between: seq<byte>,
               unread: seq<byte>, gave: seq<byte>, after: seq<byte>)
    requires later + left == between + after
    requires took + between == unread + gave
    ensures (took + later) + left == unread + (gave + after)
  {
    assert (took + later) + left == took + (later + left);
    assert took + (between + after) == (took + between) + after;
    assert (unread + gave) + after == unread + (gave + after);
  }

  /** Over every run, bytes taken followed by bytes unread are the bytes held at first plus those accepted. */
  lemma {:induction false} StreamConservation(s: State, ops: seq<Op>)
    requires LegalRun(s, ops)
    ensures AllTook(s, ops) + Run(s, ops).unread == s.unread + AllGave(s, ops)
    decreases |ops|
  {
    if ops != [] {
      var s1 := Step(s, ops[0]).0;
      StepConserves(s, ops[0]);
      StreamConservation(s1, ops[1..]);
      Splice(Took(s, ops[0]), AllTook(s1, ops[1..]), Run(s1, ops[1..]).unread, s1.unread,
             s.unread, Gave(s, ops[0]), AllGave(s1, ops[1..]));
    }
  }
}
