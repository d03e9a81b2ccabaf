/**
 The connection object whose handlers read a request body into a producer/consumer buffer. Every handler is proved
 to be the step of `HttpBody`, with the buffer's contents for the body received; whole transfers are then executed
 on the object.
 */
module HttpConnections {
  import opened Bytes
  import opened ChunkedEncoding
  import opened HttpBody
  import PCB = ProducerConsumerBuffers

  const BODY_BLOCK: nat := 512

  class HttpConnection {
    var requestBuf: seq<byte>
    var read: nat
    var readSize: nat
    var pending: Phase       // the operation in progress, with what is bound into its handler
    var wire: seq<byte>      // what the peer has sent and the socket has not yet handed over
    const bodyStream: PCB.ProducerConsumerBuffer

    /** Nobody reads from the body stream yet; it is open for writing until the body is complete. */
    ghost predicate StreamReady()
      reads this, bodyStream, bodyStream.Repr
    {
      && bodyStream in bodyStream.Repr && this !in bodyStream.Repr
      && bodyStream.Valid()
      && bodyStream.requests == [] && bodyStream.streamCanRead
    }

    ghost predicate Valid()
      reads this, bodyStream, bodyStream.Repr
    {
      && StreamReady()
      && Sensible(AsConn())
      && bodyStream.streamCanWrite == !pending.Complete?
    }

    ghost function AsConn(): Conn
      reads this, bodyStream, bodyStream.blocks
    {
      Conn(requestBuf, pending, read, readSize, bodyStream.Abs().unread, wire)
    }

    /** The end of handle_headers: by chunks, or by the announced length. */
    constructor (buffered: seq<byte>, chunked: bool, contentLength: nat, wire: seq<byte>)
      ensures Valid() && fresh(bodyStream.Repr)
      ensures AsConn() == if chunked then StartChunked(buffered, wire) else StartBody(buffered, wire, contentLength)
    {
      requestBuf := buffered;
      read, readSize := 0, if chunked then 0 else contentLength;
      pending := if chunked then AwaitLine else AwaitBody(Min(CHUNK_SIZE, contentLength));
      this.wire := wire;
      bodyStream := new PCB.ProducerConsumerBuffer(BODY_BLOCK);
      new;
      if !chunked && readSize == 0 {
        CompleteBody(0);
      }
    }

    /** The body ends here, with its size or with 0 for an error: the stream is closed for writing. */
    method CompleteBody(size: nat)
      requires StreamReady()
      modifies this`pending, bodyStream.Repr
      ensures StreamReady() && bodyStream.Repr == old(bodyStream.Repr) && !bodyStream.streamCanWrite
      ensures AsConn() == old(AsConn()).(phase := Complete(size))
    {
      pending := Complete(size);
      bodyStream.Close(false, true);
    }

    method ConsumeRequest(n: nat)
      modifies this`requestBuf
      ensures requestBuf == Consume(old(requestBuf), n)
    {
      requestBuf := requestBuf[if n <= |requestBuf| then n else |requestBuf|..];
    }

    method OnChunkedHeader(ec: bool)
      requires Valid() && pending.AwaitLine?
      modifies this, bodyStream.Repr
      ensures Valid() && bodyStream.Repr == old(bodyStream.Repr)
      ensures AsConn() == HandleChunkedHeader(old(AsConn()), ec)
    {
      if ec {
        CompleteBody(0);
        return;
      }
      var (len, rest) := SizeLine(requestBuf);
      requestBuf := rest;
      ConsumeRequest(2);
      read := read + len;
      if len == 0 {
        CompleteBody(read);
      } else {
        pending := AwaitChunk(len);
      }
    }

    method OnChunkedBody(ec: bool)
      requires Valid() && pending.AwaitChunk? && (!ec ==> |requestBuf| >= WaitFor(pending.len))
      modifies this, bodyStream.Repr
      ensures Valid() && bodyStream.Repr == old(bodyStream.Repr)
      ensures AsConn() == HandleChunkedBody(old(AsConn()), ec, old(pending.len))
    {
      if ec {
        CompleteBody(0);
      } else {
        pending := PutChunk(pending.len);
      }
    }

    method OnChunkedBodyBuffWrite(count: nat)
      requires Valid() && pending.PutChunk?
      modifies this, bodyStream.Repr
      ensures Valid() && bodyStream.Repr == old(bodyStream.Repr)
      ensures AsConn() == HandleChunkedBodyBuffWrite(old(AsConn()), count)
    {
      if count > 0 {
        ConsumeRequest(2 + count);
        pending := AwaitLine;
      } else {
        CompleteBody(0);
      }
    }

    method OnBody(ec: bool)
      requires Valid() && pending.AwaitBody? && (!ec ==> |requestBuf| >= pending.size)
      modifies this, bodyStream.Repr
      ensures Valid() && bodyStream.Repr == old(bodyStream.Repr)
      ensures AsConn() == HandleBody(old(AsConn()), ec)
    {
      if ec {
        CompleteBody(0);
      } else if read < readSize {
        pending := PutBody(Min(|requestBuf|, readSize - read));
      } else {
        CompleteBody(read);
      }
    }

    method OnBodyBuffWrite(count: nat)
      requires Valid() && pending.PutBody?
      modifies this, bodyStream.Repr
      ensures Valid() && bodyStream.Repr == old(bodyStream.Repr)
      ensures AsConn() == HandleBodyBuffWrite(old(AsConn()), count)
    {
      if count > 0 {
        read := read + count;
        ConsumeRequest(count);
        pending := AwaitBody(Min(CHUNK_SIZE, SizeMinus(readSize, read)));
      } else {
        CompleteBody(0);
      }
    }

    /** The write on the body stream: the buffer takes the bytes and tells how many. */
    method WriteToStream(count: nat) returns (n: nat)
      requires Valid() && !pending.Complete? && 0 < count <= |requestBuf|
      modifies bodyStream.Repr
      ensures Valid() && fresh(bodyStream.Repr - old(bodyStream.Repr))
      ensures n == count && AsConn() == Received(old(AsConn()), count)
    {
      n := bodyStream.Write(requestBuf[..count]);
    }

    /** The body stream's write runs, and then its handler. */
    method BodyStreamWrites()
      requires Valid() && (pending.PutChunk? || pending.PutBody?)
      modifies this, bodyStream.Repr
      ensures Valid() && fresh(bodyStream.Repr - old(bodyStream.Repr))
      ensures AsConn() == Step(old(AsConn()), Due)
    {
      match pending {
        case PutChunk(len) =>
          var n := WriteToStream(len);
          OnChunkedBodyBuffWrite(n);
        case PutBody(count) =>
          var n := WriteToStream(count);
          OnBodyBuffWrite(n);
      }
    }

    /** A read on the socket completes, when the request buffer holds what it waits for. */
    method ReadCompletes()
      requires Valid() && (pending.AwaitLine? || pending.AwaitChunk? || pending.AwaitBody?)
      modifies this, bodyStream.Repr
      ensures Valid() && bodyStream.Repr == old(bodyStream.Repr)
      ensures AsConn() == Step(old(AsConn()), Due)
    {
      match pending {
        case AwaitLine =>
          var found := FindLine(requestBuf);
          if found {
            OnChunkedHeader(false);
          }
        case AwaitChunk(len) =>
          if |requestBuf| >= WaitFor(len) {
            OnChunkedBody(false);
          }
        case AwaitBody(size) =>
          if |requestBuf| >= size {
            OnBody(false);
          }
      }
    }

    /** A read on the socket fails. */
    method ReadFails()
      requires Valid() && (pending.AwaitLine? || pending.AwaitChunk? || pending.AwaitBody?)
      modifies this, bodyStream.Repr
      ensures Valid() && bodyStream.Repr == old(bodyStream.Repr)
      ensures AsConn() == Step(old(AsConn()), Broken)
    {
      match pending {
        case AwaitLine => OnChunkedHeader(true);
        case AwaitChunk(_) => OnChunkedBody(true);
        case AwaitBody(_) => OnBody(true);
      }
    }

    method Arrives(n: nat)
      requires Valid()
      modifies this
      ensures Valid() && AsConn() == Step(old(AsConn()), Arrive(n))
    {
      if pending.AwaitLine? || pending.AwaitChunk? || pending.AwaitBody? {
        var k := Min(n, |wire|);
        requestBuf, wire := requestBuf + wire[..k], wire[k..];
      }
    }

    /** One event. The body stream is open, so it refuses no write: only a read can fail. */
    method Take(e: Event)
      requires Valid() && (e == Broken ==> !pending.PutChunk? && !pending.PutBody?)
      modifies this, bodyStream.Repr
      ensures Valid() && fresh(bodyStream.Repr - old(bodyStream.Repr))
      ensures AsConn() == Step(old(AsConn()), e)
    {
      match e {
        case Arrive(n) => Arrives(n);
        case Due =>
          if pending.PutChunk? || pending.PutBody? {
            BodyStreamWrites();
          } else if !pending.Complete? {
            ReadCompletes();
          }
        case Broken =>
          if !pending.Complete? {
            ReadFails();
          }
      }
    }
  }

  /** What the handlers leave pending can be carried out. */
  predicate Sensible(c: Conn) {
    match c.phase
    case AwaitChunk(len) => len > 0
    case PutChunk(len) => 0 < len <= |c.buf|
    case AwaitBody(size) => c.read < c.readSize ==> size > 0
    case PutBody(count) => 0 < count <= |c.buf|
    case _ => true
  }

  /** Whether a line has ended in `buf`. */
  method FindLine(buf: seq<byte>) returns (found: bool)
    ensures found <==> HasLine(buf)
  {
    var i := 0;
    while i + 1 < |buf|
      invariant 0 <= i && forall k | 0 <= k < i && k + 1 < |buf| :: !(buf[k] == CR && buf[k + 1] == LF)
    {
      if buf[i] == CR && buf[i + 1] == LF {
        return true;
      }
      i := i + 1;
    }
    found := false;
  }

  /** Encodes each body at `DATA_OFFSET` of a fresh buffer, sent from the returned offset; then the last chunk. */
  method EncodeBodies(bodies: seq<seq<byte>>) returns (sent: seq<byte>)
    requires forall b <- bodies :: 0 < |b| < 0x1_0000_0000
    ensures sent == Stream(bodies)
  {
    sent := [];
    var i := 0;
    while i < |bodies|
      invariant 0 <= i <= |bodies| && sent + Stream(bodies[i..]) == Stream(bodies)
    {
      var chunk := EncodeOne(bodies[i]);
      assert bodies[i..][1..] == bodies[i + 1..];
      assert sent + (Chunk(bodies[i]) + Stream(bodies[i + 1..])) == (sent + Chunk(bodies[i])) + Stream(bodies[i + 1..]);
      sent := sent + chunk;
      i := i + 1;
    }
    assert bodies[i..] == [];
    var last := EncodeOne([]);
    sent := sent + last;
  }

  method EncodeOne(body: seq<byte>) returns (sent: seq<byte>)
    requires |body| < 0x1_0000_0000
    ensures sent == if body == [] then LastChunk else Chunk(body)
  {
    var size := |body| + ADDITIONAL_ENCODING_SPACE;
    var buffer := new byte[size](_ => 0);
    forall i | 0 <= i < |body| {
      buffer[DATA_OFFSET + i] := body[i];
    }
    assert buffer[DATA_OFFSET..DATA_OFFSET + |body|] == body;
    var r := AddChunkedDelimiters(buffer, size, |body|);
    sent := buffer[r.offset..size];
  }

  // ---------- whole transfers on the object ----------

  /** The connection lives through a list of events. */
  method Live(conn: HttpConnection, events: seq<Event>)
    requires conn.Valid() && Broken !in events
    modifies conn, conn.bodyStream.Repr
    ensures conn.Valid() && fresh(conn.bodyStream.Repr - old(conn.bodyStream.Repr))
    ensures conn.AsConn() == Run(old(conn.AsConn()), events)
    decreases |events|
  {
    if events != [] {
      conn.Take(events[0]);
      Live(conn, events[1..]);
    }
  }

  /** `c` is at most `n` rounds away from `end`, where the body is complete. */
  ghost predicate Heading(c: Conn, n: nat, all: nat, end: Conn) {
    all >= |c.wire| && Run(c, Rounds(n, all)) == end && end.phase.Complete?
  }

  lemma OneCloser(c: Conn, n: nat, all: nat, end: Conn)
    requires Heading(c, n, all, end)
    ensures if c.phase.Complete? then c == end
            else n > 0 && Heading(Step(Step(c, Arrive(|c.wire|)), Due), n - 1, all, end)
  {
    if c.phase.Complete? {
      CompleteStays(c, n, all);
    } else {
      assert n > 0;
      RoundsUnfold(c, n, all);
      assert Step(c, Arrive(all)) == Step(c, Arrive(|c.wire|));
    }
  }

  /** All that the peer has sent arrives, and the pending operation completes. */
  method OneRound(conn: HttpConnection, ghost n: nat, ghost all: nat, ghost end: Conn) returns (more: bool)
    requires conn.Valid() && Heading(conn.AsConn(), n, all, end)
    modifies conn, conn.bodyStream.Repr
    ensures conn.Valid() && fresh(conn.bodyStream.Repr - old(conn.bodyStream.Repr))
    ensures if more then n > 0 && Heading(conn.AsConn(), n - 1, all, end) else conn.AsConn() == end
  {
    OneCloser(conn.AsConn(), n, all, end);
    more := !conn.pending.Complete?;
    if more {
      conn.Take(Arrive(|conn.wire|));
      conn.Take(Due);
    }
  }

  /** The connection works until the body is complete. */
  method ReadOut(conn: HttpConnection, ghost n: nat, ghost all: nat, ghost end: Conn)
    requires conn.Valid() && Heading(conn.AsConn(), n, all, end)
    modifies conn, conn.bodyStream.Repr
    ensures conn.Valid() && conn.AsConn() == end
  {
    ghost var m: nat := n;
    var more := true;
    while more
      invariant conn.Valid() && fresh(conn.bodyStream.Repr - old(conn.bodyStream.Repr))
      invariant if more then Heading(conn.AsConn(), m, all, end) else conn.AsConn() == end
      decreases more, m
    {
      more := OneRound(conn, m, all, end);
      if more {
        m := m - 1;
      }
    }
  }

  /**
   A chunked request body from its first byte to its end, whoever sent it: its bodies, cut anywhere on their way, are
   what the body stream holds when it is closed.
   */
  method ReceiveChunked(buffered: seq<byte>, wire: seq<byte>, ghost parts: seq<Part>, ghost end: Ending,
                        events: seq<Event>) returns (conn: HttpConnection)
    requires buffered + wire == Wire(parts, end) && WellSized(parts, end) && PartsFit(parts)
    requires Broken !in events
    ensures conn.Valid() && conn.pending == Complete(|Bodies(parts)|)
    ensures conn.bodyStream.Abs().unread == Bodies(parts) && !conn.bodyStream.streamCanWrite
  {
    conn := new HttpConnection(buffered, true, 0, wire);
    Live(conn, events);
    ghost var c, n := conn.AsConn(), 3 * |parts| + 1;
    ChunkedDecodes(buffered, wire, parts, end, events, n);
    ReadOut(conn, n, |c.wire|, Run(c, Rounds(n, |c.wire|)));
  }

  /** A request body of announced length: the body stream holds exactly that many bytes when it is closed. */
  method ReceiveAnnounced(buffered: seq<byte>, wire: seq<byte>, length: nat, events: seq<Event>)
    returns (conn: HttpConnection)
    requires length <= |buffered + wire| && Broken !in events
    ensures conn.Valid() && conn.pending == Complete(length)
    ensures conn.bodyStream.Abs().unread == (buffered + wire)[..length] && !conn.bodyStream.streamCanWrite
  {
    ghost var content, tail := (buffered + wire)[..length], (buffered + wire)[length..];
    conn := new HttpConnection(buffered, false, length, wire);
    Live(conn, events);
    ghost var c, n := conn.AsConn(), 2 * length + 1;
    ContentLengthRead(buffered, wire, content, tail, events, n);
    ReadOut(conn, n, |c.wire|, Run(c, Rounds(n, |c.wire|)));
  }

  /** Encoder and connection back to back: the body stream ends up with the bodies that were encoded. */
  method RoundTrip(bodies: seq<seq<byte>>, tail: seq<byte>, buffered: nat, events: seq<Event>)
    returns (sent: seq<byte>, conn: HttpConnection)
    requires (forall b <- bodies :: 0 < |b|) && Fits(bodies) && Broken !in events
    ensures sent == Stream(bodies)
    ensures conn.Valid() && conn.pending == Complete(|Concat(bodies)|)
    ensures conn.bodyStream.Abs().unread == Concat(bodies) && !conn.bodyStream.streamCanWrite
  {
    sent := EncodeBodies(bodies);
    var all := sent + tail;
    var k := Min(buffered, |all|);
    assert all[..k] + all[k..] == all;
    PrintedWire(bodies, tail);
    PrintedSized(bodies, tail);
    PrintedFit(bodies);
    conn := ReceiveChunked(all[..k], all[k..], Printed(bodies), Ending([48], tail), events);
  }
}
