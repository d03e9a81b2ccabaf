/** The pump of `StreamCopy` as the object it is: two buffers, a staging array, and callbacks that update them. */
module EndReads {
  import opened Bytes
  import opened BufferSpec
  import opened BufferProperties
  import opened BufferLaws
  import opened ProducerConsumerBuffers
  import opened Pumps
  import SC = StreamCopy

  class EndRead {
    const source: ProducerConsumerBuffer
    const target: ProducerConsumerBuffer
    const outbuf: array<byte>
    var total: nat
    var tasks: seq<SC.Task>
    var calls: seq<nat>
    var routed: nat  // how many completions of the source have been handed to the worker as callbacks
    ghost var fed: seq<byte>
    ghost var taken: seq<byte>
    ghost var put: seq<byte>
    ghost var stored: seq<byte>

    ghost predicate Valid()
      reads this, outbuf, source, source.Repr, target, target.Repr
    {
      && source.Repr !! target.Repr
      && source in source.Repr && target in target.Repr
      && this !in source.Repr && this !in target.Repr
      && outbuf !in source.Repr && outbuf !in target.Repr
      && outbuf.Length == BUF_SIZE
      && source.Valid() && target.Valid()
      && routed == |source.posted|
    }

    ghost function AsPump(): SC.Pump
      reads this, outbuf, source, source.blocks, target, target.blocks
    {
      SC.Pump(source.Abs(), target.Abs(), outbuf[..], total, tasks, calls, fed, taken, put, stored)
    }

    constructor (source: ProducerConsumerBuffer, target: ProducerConsumerBuffer)
      requires source.Valid() && target.Valid() && source.Repr !! target.Repr
      ensures Valid() && this.source == source && this.target == target && fresh(outbuf)
      ensures AsPump() == SC.Pump(source.Abs(), target.Abs(), outbuf[..], 0, [], [], source.Abs().unread, [], [], [])
    {
      this.source, this.target := source, target;
      outbuf := new byte[BUF_SIZE](_ => 0);
      total, tasks, calls, routed := 0, [], [], |source.posted|;
      fed, taken, put, stored := source.Abs().unread, [], [], [];
    }

    /** Puts one block that the source delivered into the staging area and hands on_read to the worker. */
    method Deliver(bytes: seq<byte>)
      requires |bytes| <= outbuf.Length
      modifies this`tasks, this`taken, this`routed, outbuf
      ensures outbuf[..] == bytes + old(outbuf[..])[|bytes|..]
      ensures tasks == old(tasks) + [SC.Read(|bytes|)] && taken == old(taken) + bytes && routed == old(routed) + 1
    {
      forall i | 0 <= i < |bytes| {
        outbuf[i] := bytes[i];
      }
      tasks := tasks + [SC.Read(|bytes|)];
      taken := taken + bytes;
      routed := routed + 1;
    }

    /** getn on the source, and the routing of what it completes at once. */
    method GetMore()
      requires Valid()
      modifies this`tasks, this`taken, this`routed, outbuf, source.Repr
      ensures Valid() && source.Repr == old(source.Repr) && AsPump() == SC.GetMore(old(AsPump()))
    {
      ghost var p := AsPump();
      source.EnqueueRequest(BlockRequest(0, BUF_SIZE));
      GetMoreRoutes(p);
      if routed < |source.posted| {
        Deliver(OutcomeBytes(source.posted[routed].outcome));
      }
    }

    /** read_to_end. */
    method ReadToEnd()
      requires Valid()
      modifies this`tasks, this`taken, this`routed, outbuf, source.Repr
      ensures Valid() && source.Repr == old(source.Repr) && AsPump() == SC.GetMore(old(AsPump()))
    {
      GetMore();
    }

    /** on_read: `tasks` no longer holds the callback. */
    method OnRead(count: nat)
      requires Valid() && count <= BUF_SIZE
      modifies this`tasks, this`calls
      ensures Valid() && AsPump() == SC.OnRead(old(AsPump()), count)
    {
      if count > 0 {
        if !target.streamCanWrite {
          tasks := tasks + [SC.Refuse];
        } else {
          tasks := tasks + [SC.Put(outbuf[..count])];
          assert outbuf[..count] == outbuf[..][..count];
        }
      } else {
        calls := calls + [total];
      }
    }

    method FlushTarget(count: nat)
      requires Valid()
      modifies this`total, target.Repr
      ensures Valid() && target.Repr == old(target.Repr)
      ensures AsPump() == old(AsPump().(total := total + count, dst := Step(target.Abs(), Op.Sync).0))
    {
      total := total + count;
      var reply := target.Sync();
    }

    /** on_write: flush the target and ask the source for more, or report. */
    method OnWrite(count: nat)
      requires Valid()
      modifies this`total, this`tasks, this`taken, this`routed, this`calls, outbuf, source.Repr, target.Repr
      ensures Valid() && source.Repr == old(source.Repr) && target.Repr == old(target.Repr)
      ensures AsPump() == SC.OnWrite(old(AsPump()), count)
    {
      if count > 0 {
        FlushTarget(count);
        GetMore();
      } else {
        calls := calls + [total];
      }
    }

    method StoreInTarget(data: seq<byte>) returns (n: nat)
      requires Valid()
      modifies target.Repr
      ensures Valid() && fresh(target.Repr - old(target.Repr))
      ensures Step(old(target.Abs()), Op.Write(data)).1 == Count(n)
      ensures AsPump() == old(AsPump().(dst := Step(target.Abs(), Op.Write(data)).0))
    {
      n := target.Write(data);
    }

    /** The target's write task: the bytes are stored, then on_write is called with their number. */
    method RunPut(data: seq<byte>)
      requires Valid()
      modifies this, outbuf, source.Repr, target.Repr
      ensures Valid() && source.Repr == old(source.Repr) && fresh(target.Repr - old(target.Repr))
      ensures AsPump() == SC.RunPut(old(AsPump()), data)
    {
      ghost var gave := Gave(target.Abs(), Op.Write(data));
      var n := StoreInTarget(data);
      put, stored := put + (if n == |data| then data else []), stored + gave;
      OnWrite(n);
    }

    /** The worker takes the pump's next callback. */
    method RunTask()
      requires Valid() && tasks != []
      requires tasks[0].Read? ==> tasks[0].count <= BUF_SIZE
      modifies this, outbuf, source.Repr, target.Repr
      ensures Valid() && source.Repr == old(source.Repr) && fresh(target.Repr - old(target.Repr))
      ensures AsPump() == SC.RunTask(old(AsPump()))
    {
      var task := tasks[0];
      tasks := tasks[1..];
      match task {
        case Read(count) => OnRead(count);
        case Put(data) => RunPut(data);
        case Refuse => OnWrite(0);
      }
    }
  }

  /** What the pump's getn leaves to route: nothing, or one completed block. */
  lemma GetMoreRoutes(p: SC.Pump)
    requires |p.outbuf| == BUF_SIZE
    ensures var s' := Ask(p.src, BlockRequest(0, BUF_SIZE));
      var n := |p.src.posted|;
      if |s'.posted| == n then SC.GetMore(p) == p.(src := s')
      else
        && |s'.posted| == n + 1
        && (var bytes := OutcomeBytes(s'.posted[n].outcome);
            && |bytes| <= BUF_SIZE
            && SC.GetMore(p) == p.(src := s', outbuf := bytes + p.outbuf[|bytes|..], taken := p.taken + bytes,
                                   tasks := p.tasks + [SC.Read(|bytes|)]))
  {
    var op := Getn(0, BUF_SIZE);
    var s' := Ask(p.src, BlockRequest(0, BUF_SIZE));
    var done := NewlyPosted(p.src, op);
    StepPosts(p.src, op);
    assert p.fed + Gave(p.src, op) == p.fed;
    if done != [] {
      assert done == [done[0]];
      assert s'.posted[|p.src.posted|] == done[0];
      SC.AbsorbOne(p.(src := s'), done[0]);
    }
  }

  /** The worker runs until the pump has nothing left to do; the source's writer is closed. */
  method Drain(pump: EndRead, ghost was: seq<Completion>, ghost base: seq<byte>, ghost settled: bool)
    requires pump.Valid() && SC.Inv(pump.AsPump()) && !pump.source.streamCanWrite
    requires SC.Attending(pump.AsPump(), was, base, settled)
    modifies pump, pump.outbuf, pump.source.Repr, pump.target.Repr
    ensures pump.Valid() && SC.Finished(pump.AsPump()) && SC.Inv(pump.AsPump())
    ensures SC.SameEnds(old(pump.AsPump()), pump.AsPump())
    ensures SC.Attending(pump.AsPump(), was, base, settled)
  {
    while pump.tasks != []
      invariant pump.Valid() && pump.source.Repr == old(pump.source.Repr)
      invariant fresh(pump.target.Repr - old(pump.target.Repr))
      invariant SC.Inv(pump.AsPump()) && SC.SameEnds(old(pump.AsPump()), pump.AsPump())
      invariant SC.Attending(pump.AsPump(), was, base, settled)
      decreases SC.Remaining(pump.AsPump())
    {
      ghost var p := pump.AsPump();
      SC.WorkProgress(p);
      SC.EventInv(p, Work);
      SC.TaskAttends(p, was, base, settled);
      pump.RunTask();
    }
  }

  /** Creates the pump over an idle source and makes its first request. */
  method Launch(source: ProducerConsumerBuffer, target: ProducerConsumerBuffer) returns (pump: EndRead)
    requires source.Valid() && target.Valid() && source.Repr !! target.Repr
    requires BufferInv(source.Abs()) && source.Abs().waiting == [] && !source.streamCanWrite
    modifies source.Repr
    ensures pump.Valid() && fresh(pump) && fresh(pump.outbuf) && pump.source == source && pump.target == target
    ensures source.Repr == old(source.Repr) && target.Repr == old(target.Repr)
    ensures SC.Inv(pump.AsPump()) && pump.fed == old(source.Abs().unread) && pump.stored == [] && pump.put == []
    ensures source.streamCanRead == old(source.streamCanRead) && !source.streamCanWrite
  {
    pump := new EndRead(source, target);
    ghost var p := pump.AsPump();
    SC.StartInv(source.Abs(), target.Abs(), pump.outbuf[..]);
    SC.GetMoreKeepsTarget(p);
    SC.GetMoreClosed(p);
    pump.ReadToEnd();
    assert pump.AsPump() == SC.GetMore(p);
  }

  /**
   Copying a finished source: every byte moves, in order, behind what the target held; their number is reported.
   Readers waiting on the target are served: what they get and what is left unread is all there was, and nobody
   waits beside it once something was moved.
   */
  method CopyStream(source: ProducerConsumerBuffer, target: ProducerConsumerBuffer) returns (count: nat)
    requires source.Valid() && target.Valid() && source.Repr !! target.Repr
    requires BufferInv(source.Abs()) && source.Abs().waiting == [] && BufferInv(target.Abs())
    requires !source.streamCanWrite && source.streamCanRead && target.streamCanWrite && target.streamCanRead
    modifies source.Repr, target.Repr
    ensures source.Valid() && target.Valid()
    ensures SC.HandsOut(target.Abs(), old(target.posted), old(target.Abs().unread) + old(source.Abs().unread))
    ensures old(source.Abs().unread) != [] || old(Settled(target.Abs())) ==> Settled(target.Abs())
    ensures source.Abs().unread == [] && count == |old(source.Abs().unread)|
  {
    ghost var base, was, settled := target.Abs().unread, target.posted, Settled(target.Abs());
    assert [] + base == base + [];
    var pump := Launch(source, target);
    Drain(pump, was, base, settled);
    SC.FinishedMeans(pump.AsPump());
    count := pump.calls[0];
  }
}
