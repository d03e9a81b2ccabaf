/**
 The producer/consumer buffer: a deque of memory blocks, an allocated block not yet committed, running
 totals, the synced watermark and the queue of waiting reads. Every method is proved to change the
 abstract state exactly as `BufferSpec.Step` says, whatever the block layout.
 */
module ProducerConsumerBuffers {
  import opened Bytes
  import opened BufferSpec
  import opened MemBlocks
  import opened BlockDeques

  class ProducerConsumerBuffer {
    const allocSize: nat
    var allocBlock: MemBlock?
    var total: nat
    var totalRead: nat
    var totalWritten: nat
    var synced: nat
    const blocks: BlockDeque
    var requests: seq<Request>
    var streamCanRead: bool
    var streamCanWrite: bool
    var streamReadEof: bool
    var alloced: bool
    var posted: seq<Completion>  // what was given to async_task::connect, oldest first
    ghost var Repr: set<object>

    /** The blocks hold exactly `total` unread bytes, and only the front one is partly read. */
    ghost predicate Stored()
      reads this, blocks, blocks.Repr
    {
      && this !in blocks.Repr && blocks.Valid()
      && total == |blocks.bytes| && OnlyFrontRead(blocks.layout)
    }

    /** The block handed out by alloc is empty and apart from the deque. */
    ghost predicate AllocApart()
      reads this, blocks, allocBlock
    {
      allocBlock != null ==>
        && allocBlock in Repr && allocBlock.data in Repr
        && allocBlock !in blocks.Repr && allocBlock.data !in blocks.Repr
        && allocBlock.read == allocBlock.pos == 0
    }

    ghost predicate Sound()
      reads this, Repr
    {
      && this in Repr && blocks in Repr && blocks.Repr <= Repr
      && (allocBlock != null ==> allocBlock in Repr)
      && Stored() && AllocApart()
      && forall r <- requests :: r.count > 0
    }

    ghost predicate Valid()
      reads this, Repr
    {
      Sound() && alloced == (allocBlock != null)
    }

    ghost function Abs(): State
      reads this, blocks
    {
      State(streamCanRead, streamCanWrite, streamReadEof, blocks.bytes, synced, totalRead, totalWritten,
            requests, posted, if allocBlock == null then None else Some(allocBlock.data.Length))
    }

    constructor (allocSize: nat)
      ensures Valid() && fresh(Repr)
      ensures Abs() == Initial && Packed(blocks.layout) && this.allocSize == allocSize
    {
      this.allocSize := allocSize;
      allocBlock := null;
      total, totalRead, totalWritten, synced := 0, 0, 0, 0;
      requests, posted := [], [];
      streamCanRead, streamCanWrite, streamReadEof, alloced := true, true, false, false;
      var deque := new BlockDeque();
      blocks := deque;
      Repr := {this} + deque.Repr;
    }

    // ---------- the buffer's own operations ----------

    method UpdateReadHead(count: nat)
      requires blocks.Valid() && this !in blocks.Repr && Staggered(blocks.layout)
      requires total == |blocks.bytes| + count
      modifies this`total, this`totalRead, this`synced, blocks
      ensures Stored() && blocks.Repr == old(blocks.Repr) && blocks.bytes == old(blocks.bytes)
      ensures totalRead == old(totalRead) + count
      ensures synced == if old(synced) > count then old(synced) - count else 0
      ensures Packed(old(blocks.layout)) ==> Packed(blocks.layout)
    {
      total := total - count;
      totalRead := totalRead + count;
      if synced > 0 {
        synced := if synced > count then synced - count else 0;
      }
      blocks.Purge();
    }

    predicate CanSatisfyNow(count: nat)
      reads this
    {
      synced > 0 || total >= count || !streamCanWrite
    }

    /** The loop over the blocks, with `total` not yet brought up to date. */
    method ScanBlocks(count: nat, advance: bool) returns (out: seq<byte>)
      requires Stored()
      modifies blocks.Repr
      ensures blocks.Valid() && this !in blocks.Repr && blocks.Repr == old(blocks.Repr)
      ensures if advance then Staggered(blocks.layout) else Stored()
      ensures out == Next(old(Abs()), count) && |out| <= old(total)
      ensures Abs() == old(Abs()).(unread := if advance then old(Abs()).unread[|out|..] else old(Abs()).unread)
      ensures Packed(old(blocks.layout)) ==> Packed(blocks.layout)
    {
      out := blocks.Scan(count, advance);
    }

    /** Takes, or without `advance` only looks at, up to `count` bytes. */
    method Read(count: nat, advance: bool) returns (out: seq<byte>)
      requires Stored() && CanSatisfyNow(count)
      modifies this`total, this`totalRead, this`synced, blocks.Repr
      ensures Stored() && blocks.Repr == old(blocks.Repr)
      ensures out == Next(old(Abs()), count)
      ensures Abs() == if advance then Consume(old(Abs()), |out|) else old(Abs())
      ensures Packed(old(blocks.layout)) ==> Packed(blocks.layout)
    {
      out := ScanBlocks(count, advance);
      if advance {
        UpdateReadHead(|out|);
      }
    }

    method ReadByte(advance: bool) returns (c: Option<byte>)
      requires Stored() && CanSatisfyNow(1)
      modifies this`total, this`totalRead, this`synced, blocks.Repr
      ensures Stored() && blocks.Repr == old(blocks.Repr)
      ensures c == FirstOf(Next(old(Abs()), 1)) == FirstOf(old(Abs()).unread)
      ensures Abs() == if advance then Consume(old(Abs()), |Next(old(Abs()), 1)|) else old(Abs())
      ensures Packed(old(blocks.layout)) ==> Packed(blocks.layout)
    {
      var bytes := Read(1, advance);
      c := if |bytes| == 1 then Some(bytes[0]) else None;
    }

    /** Completes a request: a block read, or one character. */
    method CompleteRequest(req: Request)
      requires Stored() && CanSatisfyNow(Want(req))
      modifies this`total, this`totalRead, this`synced, this`posted, blocks.Repr
      ensures Stored() && blocks.Repr == old(blocks.Repr)
      ensures Abs() == Complete(old(Abs()), req)
      ensures Packed(old(blocks.layout)) ==> Packed(blocks.layout)
    {
      if req.count > 1 && req.toMemory {
        var bytes := Read(req.count, true);
        posted := posted + [Completion(req, Size(bytes))];
      } else {
        var value := ReadByte(true);
        posted := posted + [Completion(req, Ch(value))];
      }
    }

    /** One turn of the loop below: the oldest waiting request is answered and leaves the queue. */
    method ServeFront()
      requires Stored() && requests != [] && CanSatisfyNow(Want(requests[0]))
      modifies this`total, this`totalRead, this`synced, this`posted, this`requests, blocks.Repr
      ensures Stored() && blocks.Repr == old(blocks.Repr) && requests == old(requests)[1..]
      ensures Abs() == ServeHead(old(Abs()))
      ensures Packed(old(blocks.layout)) ==> Packed(blocks.layout)
    {
      CompleteRequest(requests[0]);
      requests := requests[1..];
    }

    method FulfillOutstanding()
      requires Stored() && forall r <- requests :: r.count > 0
      modifies this`total, this`totalRead, this`synced, this`posted, this`requests, blocks.Repr
      ensures Stored() && blocks.Repr == old(blocks.Repr) && forall r <- requests :: r.count > 0
      ensures Abs() == Fulfill(old(Abs()))
      ensures Packed(old(blocks.layout)) ==> Packed(blocks.layout)
    {
      while requests != []
        invariant Stored() && blocks.Repr == old(blocks.Repr) && forall r <- requests :: r.count > 0
        invariant Fulfill(Abs()) == Fulfill(old(Abs()))
        invariant Packed(old(blocks.layout)) ==> Packed(blocks.layout)
        decreases |requests|
      {
        ghost var s := Abs();
        if !CanSatisfyNow(requests[0].count) {
          return;
        }
        assert HeadReady(s);
        ServeFront();
      }
    }

    /** Opens a new block when the last one has no room for `count` bytes. */
    method EnsureRoom(count: nat)
      requires blocks.Valid()
      modifies blocks
      ensures blocks.Valid() && fresh(blocks.Repr - old(blocks.Repr))
      ensures Opened(old(blocks.layout), blocks.layout, count)
      ensures |blocks.layout| > |old(blocks.layout)| ==>
        |blocks.layout[|old(blocks.layout)|].data| == if count < allocSize then allocSize else count
    {
      var room := 0;
      if blocks.blocks != [] {
        room := blocks.BackRoom();
      }
      if blocks.blocks == [] || room < count {
        var block := new MemBlock(if count < allocSize then allocSize else count);
        blocks.PushBack(block);
      }
    }

    /** Puts the bytes into the last block, or into a new one when they do not fit. */
    method StoreBytes(data: seq<byte>)
      requires blocks.Valid() && OnlyFrontRead(blocks.layout)
      modifies blocks.Repr
      ensures blocks.Valid() && fresh(blocks.Repr - old(blocks.Repr))
      ensures blocks.bytes == old(blocks.bytes) + data && OnlyFrontRead(blocks.layout)
      ensures Packed(old(blocks.layout)) ==> Packed(blocks.layout)
    {
      ghost var vs := blocks.layout;
      EnsureRoom(|data|);
      StoreKeeps(vs, blocks.layout, data);
      var written := blocks.WriteBack(data);
      assert written == |data|;
    }

    method UpdateWriteHead(count: nat)
      requires blocks.Valid() && this !in blocks.Repr && OnlyFrontRead(blocks.layout)
      requires total + count == |blocks.bytes| && forall r <- requests :: r.count > 0
      modifies this`total, this`totalRead, this`totalWritten, this`synced, this`posted, this`requests, blocks.Repr
      ensures Stored() && blocks.Repr == old(blocks.Repr) && forall r <- requests :: r.count > 0
      ensures Abs() == Fulfill(old(Abs().(totalWritten := totalWritten + count)))
      ensures Packed(old(blocks.layout)) ==> Packed(blocks.layout)
    {
      ghost var s := Abs().(totalWritten := totalWritten + count);
      total, totalWritten := total + count, totalWritten + count;
      assert Abs() == s;
      FulfillOutstanding();
    }

    /** Stores the bytes and serves whoever waits for them. */
    method Accept(data: seq<byte>)
      requires Stored() && forall r <- requests :: r.count > 0
      modifies this`total, this`totalRead, this`totalWritten, this`synced, this`posted, this`requests, blocks.Repr
      ensures Stored() && fresh(blocks.Repr - old(blocks.Repr)) && forall r <- requests :: r.count > 0
      ensures Abs() == Fulfill(Appended(old(Abs()), data))
      ensures Packed(old(blocks.layout)) ==> Packed(blocks.layout)
    {
      ghost var s := Abs();
      StoreBytes(data);
      StoreMeans(s, Abs(), data);
      UpdateWriteHead(|data|);
    }

    // ---------- what callers use ----------

    /** What putc and putn schedule on the worker. */
    method Write(data: seq<byte>) returns (n: nat)
      requires Valid()
      modifies Repr
      ensures Valid() && fresh(Repr - old(Repr))
      ensures (Abs(), Count(n)) == Feed(old(Abs()), Op.Write(data))
      ensures Packed(old(blocks.layout)) ==> Packed(blocks.layout)
    {
      if !streamCanWrite || |data| == 0 {
        return 0;
      }
      if !streamCanRead {
        return |data|;
      }
      Accept(data);
      Repr := Repr + blocks.Repr;
      n := |data|;
    }

    method Alloc(size: nat) returns (block: MemBlock?, reply: Reply)
      requires Valid()
      modifies this
      ensures Valid() && fresh(Repr - old(Repr))
      ensures (Abs(), reply) == Direct(old(Abs()), Op.Alloc(size))
      ensures block == (if reply == Void then allocBlock else null)
      ensures reply == Void ==> block != null && block.data.Length == size && block.pos == 0
      ensures blocks.layout == old(blocks.layout)
    {
      if !streamCanWrite {
        return null, NullBlock;
      }
      if alloced {
        return null, Threw;
      }
      allocBlock := new MemBlock(size);
      alloced := true;
      Repr := Repr + {allocBlock, allocBlock.data};
      return allocBlock, Void;
    }

    /** Appends the allocated block, holding its first `count` cells, to the deque. */
    method PushAllocated(count: nat)
      requires Sound() && allocBlock != null && count <= allocBlock.data.Length
      modifies this`allocBlock, allocBlock`pos, blocks
      ensures blocks.Valid() && blocks.Repr <= Repr && this !in blocks.Repr && OnlyFrontRead(blocks.layout)
      ensures allocBlock == null && blocks.bytes == old(blocks.bytes) + old(allocBlock.data[..count])
    {
      allocBlock.pos := allocBlock.pos + count;
      assert Unread(allocBlock.AsView()) == allocBlock.data[..count];
      AppendUntouched(blocks.layout, allocBlock.AsView());
      blocks.PushBack(allocBlock);
      allocBlock := null;
    }

    method CommitAllocated(count: nat)
      requires Sound() && allocBlock != null && count <= allocBlock.data.Length
      modifies Repr
      ensures Sound() && Repr == old(Repr) && unchanged(`alloced) && allocBlock == null
      ensures Abs() == Fulfill(old(Appended(Abs().(alloced := None), allocBlock.data[..count])))
    {
      ghost var s := Appended(Abs().(alloced := None), allocBlock.data[..count]);
      PushAllocated(count);
      assert Abs().(totalWritten := totalWritten + count) == s;
      UpdateWriteHead(count);
    }

    /** Submits the first `count` cells of the allocated block, as the caller filled them. */
    method Commit(count: nat) returns (reply: Reply)
      requires Valid()
      requires streamCanWrite && alloced ==> count <= allocBlock.data.Length
      modifies Repr
      ensures Valid() && Repr == old(Repr)
      ensures var data := if old(streamCanWrite && alloced) then old(allocBlock.data[..count]) else [];
        (Abs(), reply) == Feed(old(Abs()), Op.Commit(data))
    {
      if !streamCanWrite {
        return Void;
      }
      if !alloced {
        return Threw;
      }
      CommitAllocated(count);
      alloced := false;
      reply := Void;
    }

    /** The unread part of the front block, without taking it. The base class tests the writer first. */
    method Acquire() returns (ok: bool, block: MemBlock?, count: nat)
      requires Valid()
      ensures ok == (streamCanWrite && streamCanRead && blocks.layout != [])
      ensures ok ==> block != null && block == blocks.blocks[0] && count == |Unread(blocks.layout[0])|
      ensures ok ==> block.data[block.read..block.pos] == Abs().unread[..count]
      ensures !ok ==> block == null && count == 0
    {
      if !streamCanWrite || !streamCanRead || |blocks.blocks| == 0 {
        return false, null, 0;
      }
      block := blocks.blocks[0];
      count := blocks.FrontUnread();
      ok := true;
    }

    /** Moves the read head over `count` bytes of the acquired front block. */
    method Release(block: MemBlock?, count: nat)
      requires Valid()
      requires streamCanWrite && block != null ==> blocks.layout != [] && count <= |Unread(blocks.layout[0])|
      modifies Repr
      ensures Valid() && Repr == old(Repr)
      ensures block != null ==> Abs() == Direct(old(Abs()), Op.Release(count)).0
      ensures block == null ==> Abs() == old(Abs())
      ensures Packed(old(blocks.layout)) ==> Packed(blocks.layout)
    {
      if !streamCanWrite || block == null {
        return;
      }
      blocks.AdvanceFront(count);
      UpdateReadHead(count);
    }

    method Sync() returns (reply: Reply)
      requires Valid()
      modifies Repr
      ensures Valid() && Repr == old(Repr)
      ensures (Abs(), reply) == Feed(old(Abs()), Op.Sync)
      ensures Packed(old(blocks.layout)) ==> Packed(blocks.layout)
    {
      if !streamCanWrite {
        return Threw;
      }
      ghost var s := Abs().(synced := total);
      synced := total;
      assert Abs() == s;
      FulfillOutstanding();
      reply := Void;
    }

    method Sgetn(count: nat) returns (reply: Reply)
      requires Valid()
      modifies Repr
      ensures Valid() && Repr == old(Repr)
      ensures (Abs(), reply) == Direct(old(Abs()), Op.Sgetn(count))
      ensures Packed(old(blocks.layout)) ==> Packed(blocks.layout)
    {
      if count == 0 || !streamCanRead {
        return Block([]);
      }
      if !CanSatisfyNow(count) {
        return RequiresAsync;
      }
      var bytes := Read(count, true);
      reply := Block(bytes);
    }

    method Scopy(count: nat) returns (reply: Reply)
      requires Valid()
      modifies Repr
      ensures Valid() && Repr == old(Repr)
      ensures (Abs(), reply) == Direct(old(Abs()), Op.Scopy(count))
      ensures Packed(old(blocks.layout)) ==> Packed(blocks.layout)
    {
      if !streamCanRead {
        return Block([]);
      }
      if !CanSatisfyNow(count) {
        return RequiresAsync;
      }
      var bytes := Read(count, false);
      reply := Block(bytes);
    }

    method Sbumpc() returns (reply: Reply)
      requires Valid()
      modifies Repr
      ensures Valid() && Repr == old(Repr)
      ensures (Abs(), reply) == Direct(old(Abs()), Op.Sbumpc)
      ensures Packed(old(blocks.layout)) ==> Packed(blocks.layout)
    {
      if !streamCanRead {
        return Char(None);
      }
      if !CanSatisfyNow(1) {
        streamReadEof := false;
        return RequiresAsync;
      }
      var c := ReadByte(true);
      streamReadEof := c == None;
      reply := Char(c);
    }

    method Sgetc() returns (reply: Reply)
      requires Valid()
      modifies Repr
      ensures Valid() && Repr == old(Repr)
      ensures (Abs(), reply) == Direct(old(Abs()), Op.Sgetc)
      ensures Packed(old(blocks.layout)) ==> Packed(blocks.layout)
    {
      if !streamCanRead {
        return Char(None);
      }
      if !CanSatisfyNow(1) {
        streamReadEof := false;
        return RequiresAsync;
      }
      var c := ReadByte(false);
      streamReadEof := c == None;
      reply := Char(c);
    }

    /** getn and bumpc: answered at once when possible, queued otherwise. */
    method EnqueueRequest(req: Request)
      requires Valid() && req.count > 0
      modifies Repr
      ensures Valid() && Repr == old(Repr)
      ensures Abs() == Ask(old(Abs()), req)
      ensures Packed(old(blocks.layout)) ==> Packed(blocks.layout)
    {
      if !streamCanRead {
        posted := posted + [Completion(req, if req.toMemory then Size([]) else Ch(None))];
      } else if CanSatisfyNow(req.count) {
        CompleteRequest(req);
      } else {
        requests := requests + [req];
      }
    }

    method CloseWrite()
      requires Sound() && streamCanWrite
      modifies Repr
      ensures Sound() && Repr == old(Repr) && unchanged(`alloced, `allocBlock)
      ensures Abs() == Fulfill(old(Abs()).(canWrite := false))
      ensures Packed(old(blocks.layout)) ==> Packed(blocks.layout)
    {
      streamCanWrite := false;
      FulfillOutstanding();
    }

    method Close(input: bool, output: bool)
      requires Valid()
      modifies Repr
      ensures Valid() && Repr == old(Repr)
      ensures Abs() == Feed(old(Abs()), Op.Close(input, output)).0
      ensures Packed(old(blocks.layout)) ==> Packed(blocks.layout)
    {
      if input && streamCanRead {
        streamCanRead := false;
      }
      if output && streamCanWrite {
        CloseWrite();
      }
    }
  }

  lemma StoreMeans(s: State, s': State, data: seq<byte>)
    requires s' == s.(unread := s'.unread) && s'.unread == s.unread + data
    ensures s'.(totalWritten := s'.totalWritten + |data|) == Appended(s, data)
  {
  }

  // ---------- whole runs on the class ----------

  /**
   What callers promise: a commit stays in the allocated block, a release in the block acquire shows. An operation
   that asks for more stands here for the one that keeps the promise.
   */
  function Kept(op: Op, s: State, layout: seq<Block>): Op {
    match op
    case Commit(data) =>
      if s.alloced.Some? && s.alloced.value < |data| then Op.Commit(data[..s.alloced.value]) else op
    case Release(count) => Op.Release(if layout == [] then 0 else Min(count, |Unread(layout[0])|))
    case _ => op
  }

  lemma KeptIsLegal(op: Op, s: State, layout: seq<Block>)
    requires s.unread == Flat(layout)
    ensures Legal(s, Kept(op, s, layout))
    ensures !op.Release? && Legal(s, op) ==> Kept(op, s, layout) == op
    ensures op.Release? && layout != [] && op.count <= |Unread(layout[0])| ==> Kept(op, s, layout) == op
    ensures op.Release? && layout != [] && op.count > |Unread(layout[0])| ==>
      Kept(op, s, layout) == Op.Release(|Unread(layout[0])|)
    ensures CutFrom([Kept(op, s, layout)], [op])
  {
  }

  /** A caller that commits `data` copies it into the block it was given, then submits it. */
  method FillAndCommit(buffer: ProducerConsumerBuffer, data: seq<byte>) returns (reply: Reply)
    requires buffer.Valid() && Legal(buffer.Abs(), Op.Commit(data))
    modifies buffer.Repr
    ensures buffer.Valid() && buffer.Repr == old(buffer.Repr)
    ensures (buffer.Abs(), reply) == Feed(old(buffer.Abs()), Op.Commit(data))
  {
    if buffer.streamCanWrite && buffer.alloced {
      ghost var s := buffer.Abs();
      var cells := buffer.allocBlock.data;
      forall i | 0 <= i < |data| {
        cells[i] := data[i];
      }
      assert cells[..|data|] == data;
      reply := buffer.Commit(|data|);
    } else {
      reply := buffer.Commit(0);
    }
  }

  lemma ReleaseNothing(s: State)
    ensures Direct(s, Op.Release(0)).0 == s
  {
  }

  /** A caller that releases part of the front block, which it acquired now or, if the reader closed since, earlier. */
  method ReleaseFront(buffer: ProducerConsumerBuffer, count: nat)
    requires buffer.Valid()
    modifies buffer.Repr
    ensures buffer.Valid() && buffer.Repr == old(buffer.Repr)
    ensures buffer.Abs() ==
      Direct(old(buffer.Abs()), Kept(Op.Release(count), old(buffer.Abs()), old(buffer.blocks.layout))).0
    ensures Packed(old(buffer.blocks.layout)) ==> Packed(buffer.blocks.layout)
  {
    var ok, block, n := buffer.Acquire();
    if !ok && buffer.blocks.blocks != [] {
      block := buffer.blocks.blocks[0];
      n := buffer.blocks.FrontUnread();
    }
    ReleaseNothing(buffer.Abs());
    buffer.Release(block, Min(count, n));
  }

  /** Any operation, as callers may ask for it, is a step of the specification. */
  method Perform(buffer: ProducerConsumerBuffer, op: Op) returns (reply: Reply)
    requires buffer.Valid()
    modifies buffer.Repr
    ensures buffer.Valid() && fresh(buffer.Repr - old(buffer.Repr))
    ensures (buffer.Abs(), reply) == Step(old(buffer.Abs()), Kept(op, old(buffer.Abs()), old(buffer.blocks.layout)))
    ensures !op.Commit? && Packed(old(buffer.blocks.layout)) ==> Packed(buffer.blocks.layout)
  {
    reply := Void;
    match op {
      case Write(data) =>
        var n := buffer.Write(data);
        reply := Count(n);
      case Alloc(size) =>
        var block, r := buffer.Alloc(size);
        reply := r;
      case Commit(data) =>
        var size := if buffer.allocBlock == null then |data| else Min(|data|, buffer.allocBlock.data.Length);
        assert data[..size] == Kept(op, buffer.Abs(), buffer.blocks.layout).data;
        reply := FillAndCommit(buffer, data[..size]);
      case Release(count) => ReleaseFront(buffer, count);
      case Sync => reply := buffer.Sync();
      case Close(input, output) => buffer.Close(input, output);
      case _ => reply := PerformRead(buffer, op);
    }
  }

  predicate Reads(op: Op) {
    op.Sgetn? || op.Scopy? || op.Sbumpc? || op.Sgetc? || op.Getn? || op.Bumpc?
  }

  method PerformRead(buffer: ProducerConsumerBuffer, op: Op) returns (reply: Reply)
    requires buffer.Valid() && Reads(op)
    modifies buffer.Repr
    ensures buffer.Valid() && buffer.Repr == old(buffer.Repr)
    ensures (buffer.Abs(), reply) == Step(old(buffer.Abs()), op)
    ensures Packed(old(buffer.blocks.layout)) ==> Packed(buffer.blocks.layout)
  {
    reply := Void;
    match op {
      case Sgetn(count) => reply := buffer.Sgetn(count);
      case Scopy(count) => reply := buffer.Scopy(count);
      case Sbumpc => reply := buffer.Sbumpc();
      case Sgetc => reply := buffer.Sgetc();
      case Getn(id, count) =>
        if count > 0 {
          buffer.EnqueueRequest(BlockRequest(id, count));
        }
      case Bumpc(id) => buffer.EnqueueRequest(CharRequest(id));
    }
  }

  /** The operations a caller can name without looking at a block's boundaries. */
  predicate LayoutFree(op: Op) {
    !op.Release?
  }

  /** A run that needs no cutting. */
  predicate Obedient(s: State, ops: seq<Op>) {
    LegalRun(s, ops) && forall op <- ops :: LayoutFree(op)
  }

  lemma ObedientRest(s: State, ops: seq<Op>)
    requires ops != [] && Obedient(s, ops)
    ensures Legal(s, ops[0]) && LayoutFree(ops[0]) && Obedient(Step(s, ops[0]).0, ops[1..])
  {
  }

  /** `done` is `ops` with each commit and each release cut to what the caller was given. */
  predicate CutFrom(done: seq<Op>, ops: seq<Op>) {
    |done| == |ops| && forall i | 0 <= i < |ops| ::
      match ops[i]
      case Commit(data) => done[i].Commit? && done[i].data <= data
      case Release(count) => done[i].Release? && done[i].count <= count
      case _ => done[i] == ops[i]
  }

  lemma FirstAndRest(s: State, ops: seq<Op>, first: Op, rest: seq<Op>)
    requires ops != [] && CutFrom([first], [ops[0]]) && CutFrom(rest, ops[1..])
    ensures var done := [first] + rest;
      && CutFrom(done, ops) && (first == ops[0] && rest == ops[1..] ==> done == ops)
      && Run(s, done) == Run(Step(s, first).0, rest)
      && Replies(s, done) == [Step(s, first).1] + Replies(Step(s, first).0, rest)
      && (LegalRun(s, done) <==> Legal(s, first) && LegalRun(Step(s, first).0, rest))
  {
    assert ([first] + rest)[1..] == rest;
    assert forall i | 0 < i < |ops| :: ops[i] == ops[1..][i - 1] && ([first] + rest)[i] == rest[i - 1];
    assert ops == [ops[0]] + ops[1..];
  }

  /** Any run is a legal run of the specification; the only cuts are to what the caller was given. */
  method PerformAll(buffer: ProducerConsumerBuffer, ops: seq<Op>) returns (replies: seq<Reply>, ghost done: seq<Op>)
    requires buffer.Valid()
    modifies buffer.Repr
    ensures buffer.Valid() && fresh(buffer.Repr - old(buffer.Repr))
    ensures CutFrom(done, ops) && LegalRun(old(buffer.Abs()), done)
    ensures buffer.Abs() == Run(old(buffer.Abs()), done) && replies == Replies(old(buffer.Abs()), done)
    ensures Obedient(old(buffer.Abs()), ops) ==> done == ops
    ensures (forall op <- ops :: !op.Commit?) && Packed(old(buffer.blocks.layout)) ==> Packed(buffer.blocks.layout)
    decreases |ops|
  {
    if ops == [] {
      return [], [];
    }
    ghost var first := Kept(ops[0], buffer.Abs(), buffer.blocks.layout);
    if Obedient(buffer.Abs(), ops) {
      ObedientRest(buffer.Abs(), ops);
    }
    KeptIsLegal(ops[0], buffer.Abs(), buffer.blocks.layout);
    var reply := Perform(buffer, ops[0]);
    var later;
    ghost var rest;
    later, rest := PerformAll(buffer, ops[1..]);
    replies, done := [reply] + later, [first] + rest;
    FirstAndRest(old(buffer.Abs()), ops, first, rest);
  }

  /** Block sizes cannot be observed: the same operations give the same replies, completions, contents and counters. */
  method LayoutUnobservable(size1: nat, size2: nat, ops: seq<Op>)
    returns (b1: ProducerConsumerBuffer, b2: ProducerConsumerBuffer, replies1: seq<Reply>, replies2: seq<Reply>)
    requires Obedient(Initial, ops)
    ensures b1.Valid() && b2.Valid() && b1.allocSize == size1 && b2.allocSize == size2
    ensures replies1 == replies2 && b1.Abs() == b2.Abs()
  {
    b1 := new ProducerConsumerBuffer(size1);
    ghost var done;
    replies1, done := PerformAll(b1, ops);
    b2 := new ProducerConsumerBuffer(size2);
    replies2, done := PerformAll(b2, ops);
  }

  /** Space: after any run without commits, the blocks between first and last hold at most twice the unread bytes. */
  method SpaceBounded(size: nat, ops: seq<Op>) returns (buffer: ProducerConsumerBuffer, ghost done: seq<Op>)
    requires forall op <- ops :: !op.Commit?
    ensures buffer.Valid() && CutFrom(done, ops) && LegalRun(Initial, done) && buffer.Abs() == Run(Initial, done)
    ensures var vs := buffer.blocks.layout;
      |vs| >= 2 ==> Capacity(vs[1..|vs| - 1]) <= 2 * buffer.total
  {
    buffer := new ProducerConsumerBuffer(size);
    var replies;
    replies, done := PerformAll(buffer, ops);
    if |buffer.blocks.layout| >= 2 {
      SpaceBound(buffer.blocks.layout);
    }
  }
}
