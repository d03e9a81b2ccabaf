/** The scan of `DelimScan` as the object it is: two buffers, a staging array with its write position, and callbacks. */
module DelimReads {
  import opened Bytes
  import opened BufferSpec
  import opened BufferProperties
  import opened ProducerConsumerBuffers
  import opened Pumps
  import DS = DelimScan
  import DE = DelimEnds

  class DelimRead {
    const source: ProducerConsumerBuffer
    const target: ProducerConsumerBuffer
    const delim: int
    const outbuf: array<byte>
    var writePos: nat
    var total: nat
    var tasks: seq<DS.Task>
    var calls: seq<nat>
    var routed: nat  // how many completions of the source have been handed to the worker as callbacks
    ghost var taken: seq<byte>
    ghost var put: seq<byte>
    ghost var fed: seq<byte>

    ghost predicate Valid()
      reads this, outbuf, source, source.Repr, target, target.Repr
    {
      && source.Repr !! target.Repr
      && source in source.Repr && target in target.Repr
      && this !in source.Repr && this !in target.Repr
      && outbuf !in source.Repr && outbuf !in target.Repr
      && outbuf.Length == BUF_SIZE
      && source.Valid() && target.Valid()
      && routed == |source.posted|
    }

    ghost function AsScan(): DS.Scan
      reads this, outbuf, source, source.blocks, target, target.blocks
    {
      DS.Scan(source.Abs(), target.Abs(), delim, outbuf[..], writePos, total, tasks, calls, taken, put, fed)
    }

    constructor (source: ProducerConsumerBuffer, target: ProducerConsumerBuffer, delim: int)
      requires source.Valid() && target.Valid() && source.Repr !! target.Repr
      ensures Valid() && this.source == source && this.target == target && fresh(outbuf)
      ensures AsScan() == DS.Started(source.Abs(), target.Abs(), delim, outbuf[..])
    {
      this.source, this.target, this.delim := source, target, delim;
      outbuf := new byte[BUF_SIZE](_ => 0);
      writePos, total, tasks, calls, routed := 0, 0, [], [], |source.posted|;
      taken, put, fed := [], [], source.Abs().unread;
    }

    /** bumpc on the source, and the routing of what it completes at once. */
    method AskChar()
      requires Valid()
      modifies this`tasks, this`taken, this`routed, source.Repr
      ensures Valid() && source.Repr == old(source.Repr) && AsScan() == DS.AskChar(old(AsScan()))
    {
      ghost var s := AsScan();
      source.EnqueueRequest(CharRequest(0));
      AskCharRoutes(s);
      if routed < |source.posted| {
        Deliver(OutcomeBytes(source.posted[routed].outcome));
      }
    }

    /** Hands on_read with what the source delivered to the worker. */
    method Deliver(bytes: seq<byte>)
      modifies this`tasks, this`taken, this`routed
      ensures tasks == old(tasks) + [DS.GotChar(FirstOf(bytes))] && taken == old(taken) + bytes
      ensures routed == old(routed) + 1
    {
      tasks := tasks + [DS.GotChar(FirstOf(bytes))];
      taken := taken + bytes;
      routed := routed + 1;
    }

    /** putn of the staged bytes: nothing happens when there are none. */
    method PutStaged(last: bool)
      requires Valid() && writePos <= BUF_SIZE
      modifies this`tasks
      ensures Valid() && AsScan() == DS.Putn(old(AsScan()), last)
    {
      if writePos > 0 {
        if !target.streamCanWrite {
          tasks := tasks + [DS.Refuse(last)];
        } else {
          assert outbuf[..writePos] == outbuf[..][..writePos];
          tasks := tasks + [DS.Put(outbuf[..writePos], last)];
        }
      }
    }

    /** Stores one byte below the end of the staging area. */
    method StoreByte(b: byte)
      requires Valid() && writePos < BUF_SIZE
      modifies this`writePos, outbuf
      ensures Valid() && writePos == old(writePos) + 1 && AsScan() == DS.Store(old(AsScan()), b)
    {
      outbuf[writePos] := b;
      writePos := writePos + 1;
    }

    /** sbumpc, recorded as taken. */
    method TakeByte() returns (reply: Reply)
      requires Valid()
      modifies this`taken, source.Repr
      ensures Valid() && source.Repr == old(source.Repr)
      ensures var (src', r) := Direct(old(source.Abs()), Sbumpc);
        && reply == r
        && AsScan() == old(AsScan()).(src := src',
             taken := old(taken) + (if r.Char? && r.c.Some? then [r.c.value] else []))
    {
      reply := source.Sbumpc();
      taken := taken + (if reply.Char? && reply.c.Some? then [reply.c.value] else []);
    }

    /** The delimiter ends the scan; another byte is staged, and flushed when the area is full. */
    method UseByte(b: byte) returns (more: bool)
      requires Valid() && writePos < BUF_SIZE
      modifies this`tasks, this`writePos, outbuf
      ensures Valid() && (more ==> writePos < BUF_SIZE)
      ensures var s := old(AsScan());
        if b == delim then !more && AsScan() == DS.Putn(s, true)
        else if DS.IsFull(DS.Store(s, b)) then !more && AsScan() == DS.Putn(DS.Store(s, b), false)
        else more && AsScan() == DS.Store(s, b)
    {
      if b == delim {
        PutStaged(true);
        more := false;
      } else {
        StoreByte(b);
        more := writePos != BUF_SIZE;
        if !more {
          PutStaged(false);
        }
      }
    }

    /** One turn of the loop in read_to_delim; `more` tells that the loop goes on. */
    method ScanByte() returns (more: bool)
      requires Valid() && writePos < BUF_SIZE && source.total > 0
      modifies this`tasks, this`taken, this`routed, this`writePos, outbuf, source.Repr
      ensures Valid() && source.Repr == old(source.Repr)
      ensures more ==> writePos < BUF_SIZE && source.total < old(source.total)
      ensures (if more then DS.ScanLoop(AsScan()) else AsScan()) == DS.ScanLoop(old(AsScan()))
    {
      ghost var s := AsScan();
      DS.LoopTurn(s);
      assert s.taken + [] == s.taken;
      var ch := TakeByte();
      if ch == RequiresAsync {
        AskChar();
        more := false;
      } else if ch == Char(None) {
        PutStaged(true);
        more := false;
      } else {
        more := UseByte(ch.c.value);
      }
    }

    /** read_to_delim. */
    method ReadToDelim()
      requires Valid() && writePos < BUF_SIZE
      modifies this`tasks, this`taken, this`routed, this`writePos, outbuf, source.Repr
      ensures Valid() && source.Repr == old(source.Repr) && AsScan() == DS.ReadToDelim(old(AsScan()))
    {
      if source.total == 0 {
        AskChar();
        return;
      }
      while source.total > 0
        invariant Valid() && source.Repr == old(source.Repr) && writePos < BUF_SIZE
        invariant DS.ScanLoop(AsScan()) == DS.ScanLoop(old(AsScan()))
        decreases source.total
      {
        var more := ScanByte();
        if !more {
          return;
        }
      }
    }

    /** on_read: one character, or the end of the stream. */
    method OnRead(c: Option<byte>)
      requires Valid() && writePos < BUF_SIZE
      modifies this`tasks, this`taken, this`routed, this`writePos, outbuf, source.Repr
      ensures Valid() && source.Repr == old(source.Repr) && AsScan() == DS.OnRead(old(AsScan()), c)
    {
      if c.None? {
        PutStaged(true);
      } else {
        var more := UseByte(c.value);
        if more {
          ReadToDelim();
        }
      }
    }

    method SyncTarget()
      requires Valid()
      modifies target.Repr
      ensures Valid() && target.Repr == old(target.Repr)
      ensures AsScan() == old(AsScan().(dst := Step(target.Abs(), Op.Sync).0))
    {
      var reply := target.Sync();
    }

    /** The staging area is empty again: the last flush is reported, after another the scan goes on. */
    method AfterSync(count: nat, last: bool)
      requires Valid()
      modifies this`total, this`writePos, this`tasks, this`taken, this`routed, this`calls, outbuf, source.Repr
      ensures Valid() && source.Repr == old(source.Repr)
      ensures var s := old(AsScan()).(total := old(total) + count, writePos := 0);
        AsScan() == if last then s.(calls := s.calls + [count]) else DS.ReadToDelim(s)
    {
      total, writePos := total + count, 0;
      if last {
        calls := calls + [count];
      } else {
        ghost var s := AsScan();
        ReadToDelim();
        assert AsScan() == DS.ReadToDelim(s);
      }
    }

    /** on_write, with the eof_or_delim flag bound into it. */
    method OnWrite(count: nat, last: bool)
      requires Valid()
      modifies this`total, this`writePos, this`tasks, this`taken, this`routed, this`calls
      modifies outbuf, source.Repr, target.Repr
      ensures Valid() && source.Repr == old(source.Repr) && target.Repr == old(target.Repr)
      ensures AsScan() == DS.OnWrite(old(AsScan()), count, last)
    {
      if count == 0 {
        calls := calls + [total];
        return;
      }
      SyncTarget();
      AfterSync(count, last);
    }

    /** The target's write task: the bytes are stored, then on_write is called with their number. */
    method WriteToTarget(data: seq<byte>) returns (n: nat)
      requires Valid()
      modifies this`put, target.Repr
      ensures Valid() && fresh(target.Repr - old(target.Repr))
      ensures var (dst', reply) := Feed(old(target.Abs()), Op.Write(data));
        && reply == Count(n)
        && AsScan() == old(AsScan()).(dst := dst', put := old(put) + (if n == |data| then data else []))
    {
      n := target.Write(data);
      put := put + (if n == |data| then data else []);
    }

    method RunPut(data: seq<byte>, last: bool)
      requires Valid()
      modifies this, outbuf, source.Repr, target.Repr
      ensures Valid() && source.Repr == old(source.Repr) && fresh(target.Repr - old(target.Repr))
      ensures AsScan() == DS.RunPut(old(AsScan()), data, last)
    {
      var n := WriteToTarget(data);
      OnWrite(n, last);
    }

    /** The worker takes the scan's next callback; a store below the end of the staging area is all it needs. */
    method RunTask()
      requires Valid() && tasks != [] && (tasks[0].GotChar? ==> writePos < BUF_SIZE)
      modifies this, outbuf, source.Repr, target.Repr
      ensures Valid() && source.Repr == old(source.Repr) && fresh(target.Repr - old(target.Repr))
      ensures AsScan() == DS.RunTask(old(AsScan()))
    {
      var task := tasks[0];
      tasks := tasks[1..];
      match task {
        case GotChar(c) => OnRead(c);
        case Put(data, last) => RunPut(data, last);
        case Refuse(last) => OnWrite(0, last);
      }
    }
  }

  /** What the scan's bumpc leaves to route: nothing, or one character. */
  lemma AskCharRoutes(s: DS.Scan)
    ensures var s' := Ask(s.src, CharRequest(0));
      var n := |s.src.posted|;
      if |s'.posted| == n then DS.AskChar(s) == s.(src := s')
      else
        && |s'.posted| == n + 1
        && (var bytes := OutcomeBytes(s'.posted[n].outcome);
            DS.AskChar(s) == s.(src := s', taken := s.taken + bytes, tasks := s.tasks + [DS.GotChar(FirstOf(bytes))]))
  {
    var r := CharRequest(0);
    var s' := Ask(s.src, r);
    assert Gave(s.src, Bumpc(0)) == [];
    if !s.src.canRead {
      DS.RoutedOne(s, s', Refused(r));
    } else if CanSatisfy(s.src, 1) {
      DS.RoutedOne(s, s', Answer(s.src, r));
    } else {
      assert s.taken + [] == s.taken && s.tasks + [] == s.tasks && s.fed + [] == s.fed;
    }
  }

  // ---------- a whole scan on two buffers ----------

  /** The target holds what it held at first and all that was written to it; nobody waits there. */
  predicate Stores(s: DS.Scan, base: seq<byte>) {
    s.dst.waiting == [] && s.dst.canRead && s.dst.unread == base + s.put
  }

  lemma PutStays(s: DS.Scan, base: seq<byte>, data: seq<byte>, last: bool)
    requires Stores(s, base)
    ensures Stores(DS.RunPut(s, data, last), base)
  {
    var (d, reply) := Step(s.dst, Write(data));
    var s1 := s.(dst := d, put := s.put + (if reply.n == |data| then data else []));
    assert base + (s.put + data) == (base + s.put) + data && base + (s.put + []) == base + s.put;
    assert Stores(s1, base);
    DS.TurnKeepsTarget(s1.(total := s1.total + reply.n, writePos := 0, dst := Step(d, Sync).0));
  }

  lemma CallbackStays(s: DS.Scan, base: seq<byte>)
    requires Stores(s, base)
    ensures Stores(DS.RunTask(s), base)
  {
    if s.tasks != [] {
      var q := s.(tasks := s.tasks[1..]);
      match s.tasks[0] {
        case GotChar(c) =>
          if c.Some? {
            DS.TurnKeepsTarget(DS.Store(q, c.value));
          }
        case Put(data, last) => PutStays(q, base, data, last);
        case Refuse(_) =>
      }
    }
  }

  lemma {:induction false} WorksStay(s: DS.Scan, base: seq<byte>, n: nat)
    requires Stores(s, base)
    ensures Stores(DS.RunScan(s, Works(n)), base)
    decreases n
  {
    if n > 0 {
      DE.OneTurn(s, n);
      CallbackStays(s, base);
      WorksStay(DS.RunTask(s), base, n - 1);
    }
  }

  /** `s` is `m` callbacks away from `end`, where none is left. */
  predicate Heading(s: DS.Scan, m: nat, end: DS.Scan) {
    DS.Inv(s) && DS.RunScan(s, Works(m)) == end && end.tasks == []
  }

  lemma OneCloser(s: DS.Scan, m: nat, end: DS.Scan)
    requires Heading(s, m, end)
    ensures if s.tasks == [] then s == end else
      && m > 0 && Heading(DS.RunTask(s), m - 1, end)
      && (s.tasks[0].GotChar? ==> s.writePos < BUF_SIZE)
  {
    if s.tasks == [] {
      DE.IdleStays(s, m);
    } else {
      assert m > 0;
      DE.OneTurn(s, m);
      DS.EventInv(s, Work);
    }
  }

  /** The worker runs one callback of the scan, if there is one. */
  method RunCallback(scan: DelimRead, ghost m: nat, ghost end: DS.Scan) returns (more: bool)
    requires scan.Valid() && Heading(scan.AsScan(), m, end)
    modifies scan, scan.outbuf, scan.source.Repr, scan.target.Repr
    ensures scan.Valid() && scan.source.Repr == old(scan.source.Repr) && fresh(scan.target.Repr - old(scan.target.Repr))
    ensures if more then m > 0 && Heading(scan.AsScan(), m - 1, end) else scan.AsScan() == end
  {
    OneCloser(scan.AsScan(), m, end);
    more := scan.tasks != [];
    if more {
      scan.RunTask();
    }
  }

  /** The worker runs the scan's callbacks until none is left. */
  method Drain(scan: DelimRead, ghost m: nat, ghost end: DS.Scan)
    requires scan.Valid() && Heading(scan.AsScan(), m, end)
    modifies scan, scan.outbuf, scan.source.Repr, scan.target.Repr
    ensures scan.Valid() && scan.AsScan() == end
    decreases m
  {
    var more := RunCallback(scan, m, end);
    if more {
      Drain(scan, m - 1, end);
    }
  }

  lemma FirstTurn(s: DS.Scan)
    requires BufferInv(s.src) && s.src.waiting == [] && |s.outbuf| == BUF_SIZE
    requires s.dst.waiting == [] && s.dst.canRead
    requires s == DS.Started(s.src, s.dst, s.delim, s.outbuf)
    ensures DS.Inv(DS.ReadToDelim(s)) && Stores(DS.ReadToDelim(s), s.dst.unread)
  {
    DE.StartsBetween(s);
    DS.ReadToDelimInv(s);
    DS.TurnKeepsTarget(s);
    assert s.dst.unread + [] == s.dst.unread;
  }

  /** Where a scan of a readable source into an open target ends, and that the worker gets there. */
  lemma WholeScan(s: DS.Scan) returns (n: nat, end: DS.Scan)
    requires BufferInv(s.src) && s.src.waiting == [] && s.src.canRead && |s.outbuf| == BUF_SIZE
    requires s.dst.waiting == [] && s.dst.canRead && s.dst.canWrite
    requires s == DS.Started(s.src, s.dst, s.delim, s.outbuf)
    ensures Heading(DS.ReadToDelim(s), n, end)
    ensures DE.Scanned(s, end) && Stores(end, s.dst.unread)
  {
    n := |s.src.unread| + 2;
    end := DS.RunScan(DS.ReadToDelim(s), Works(n));
    FirstTurn(s);
    DE.ScanResult(s, n);
    WorksStay(DS.ReadToDelim(s), s.dst.unread, n);
  }

  /** Creates the scan and lets it take its first turn. */
  method Launch(source: ProducerConsumerBuffer, target: ProducerConsumerBuffer, delim: int)
    returns (scan: DelimRead, ghost s: DS.Scan)
    requires source.Valid() && target.Valid() && source.Repr !! target.Repr
    modifies source.Repr
    ensures scan.Valid() && fresh(scan) && fresh(scan.outbuf) && scan.source == source && scan.target == target
    ensures source.Repr == old(source.Repr) && target.Repr == old(target.Repr)
    ensures s == DS.Started(old(source.Abs()), old(target.Abs()), delim, s.outbuf) && |s.outbuf| == BUF_SIZE
    ensures scan.AsScan() == DS.ReadToDelim(s)
  {
    scan := new DelimRead(source, target, delim);
    s := scan.AsScan();
    scan.ReadToDelim();
  }

  /**
   A scan of a readable source into an open target: what comes before the delimiter is moved, or only whole staging
   areas when there is none; the handler is told the length of the last flush, if there was one.
   */
  method ScanLine(source: ProducerConsumerBuffer, target: ProducerConsumerBuffer, delim: int)
    returns (calls: seq<nat>, ghost moved: seq<byte>)
    requires source.Valid() && target.Valid() && source.Repr !! target.Repr
    requires BufferInv(source.Abs()) && source.Abs().waiting == [] && target.Abs().waiting == []
    requires source.streamCanRead && target.streamCanWrite && target.streamCanRead
    modifies source.Repr, target.Repr
    ensures source.Valid() && target.Valid() && target.Abs().unread == old(target.Abs().unread) + moved
    ensures DE.Outcome(old(source.Abs().unread), delim, moved, source.Abs().unread, calls)
  {
    var scan, s := Launch(source, target, delim);
    ghost var n, end := WholeScan(s);
    Drain(scan, n, end);
    calls, moved := scan.calls, scan.put;
  }
}
