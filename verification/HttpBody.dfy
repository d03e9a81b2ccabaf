/**
 Reading a request body: the chunked decoder and the Content-Length pump, as the chain of handlers of one
 connection. The peer's bytes arrive in any pieces; each handler runs when the operation it waits for completes.
 */
module HttpBody {
  import opened Bytes
  import opened ChunkedEncoding

  const CHUNK_SIZE: nat := 4 * 1024
  const INT_MAX: nat := 0x7FFF_FFFF
  const SIZE_RANGE: nat := 0x1_0000_0000_0000_0000 // how many values a size has

  /** The longest chunk whose length plus its line end is still an int. */
  const MAX_CHUNK: nat := INT_MAX - 2

  /** What the connection waits for. */
  datatype Phase =
    | AwaitLine              // a line of the request buffer: handle_chunked_header
    | AwaitChunk(len: nat)   // WaitFor(len) buffered bytes: handle_chunked_body
    | PutChunk(len: nat)     // the body stream's write: handle_chunked_body_buff_write
    | AwaitBody(size: nat)   // size buffered bytes: handle_body
    | PutBody(count: nat)    // the body stream's write: handle_body_buff_write
    | Complete(size: nat)    // complete(size) was called

  datatype Conn = Conn(
    buf: seq<byte>,
    phase: Phase,
    read: nat,
    readSize: nat,
    body: seq<byte>, // what the body stream has received
    wire: seq<byte>  // what the peer has sent and the connection has not yet read
  )

  datatype Event =
    | Arrive(n: nat)
    | Due     // the pending operation completes normally, if it can
    | Broken  // it completes with an error, or the body stream refuses the bytes

  // ---------- the size line ----------

  function SkipBlanks(s: seq<byte>): seq<byte> {
    if s != [] && IsSpace(s[0]) then SkipBlanks(s[1..]) else s
  }

  /** How many hexadecimal digits `s` starts with. */
  function DigitRun(s: seq<byte>): (k: nat)
    ensures k <= |s| && forall i | 0 <= i < k :: IsHexDigit(s[i])
    ensures k < |s| ==> !IsHexDigit(s[k])
  {
    if s != [] && IsHexDigit(s[0]) then 1 + DigitRun(s[1..]) else 0
  }

  /** `is >> std::hex >> len` into an int: no digits give 0, too large a number gives INT_MAX. */
  function SizeLine(buf: seq<byte>): (nat, seq<byte>) {
    var s := SkipBlanks(buf);
    var k := DigitRun(s);
    (Min(Value(s[..k]), INT_MAX), s[k..])
  }

  function Consume(buf: seq<byte>, n: nat): seq<byte> {
    buf[Min(n, |buf|)..]
  }

  /** Subtraction of sizes as the machine does it: below zero it wraps around. */
  function SizeMinus(a: nat, b: nat): nat {
    if b <= a then a - b else (a - b) % SIZE_RANGE
  }

  /**
   How many bytes a chunk of `len` bytes is waited for: the int sum `len + 2`, converted to a size. The sum overflows
   for the two largest lengths; the language leaves that undefined, here it wraps to a negative int.
   */
  function WaitFor(len: nat): nat {
    if len <= MAX_CHUNK then len + 2 else SIZE_RANGE + len + 2 - 0x1_0000_0000
  }

  /** Adding back what was subtracted gives what there was, as far as a size can tell. */
  lemma SizeMinusIsMinus(a: nat, b: nat)
    requires a < 0x1_0000_0000_0000_0000
    ensures SizeMinus(a, b) < 0x1_0000_0000_0000_0000
    ensures (SizeMinus(a, b) + b - a) % 0x1_0000_0000_0000_0000 == 0
  {
    if a < b {
      assert (SizeMinus(a, b) - (a - b)) % SIZE_RANGE == 0;
    }
  }

  /** The wait is `len + 2` as an int, made a size: a negative int is as far below the range's end as it is below 0. */
  lemma WaitForIsSum(len: nat)
    requires len <= 0x7FFF_FFFF
    ensures len + 2 <= 0x7FFF_FFFF ==> WaitFor(len) == len + 2
    ensures len + 2 > 0x7FFF_FFFF ==>
      WaitFor(len) - 0x1_0000_0000_0000_0000 == (len + 2) - 0x1_0000_0000
  {
  }

  // ---------- the handlers ----------

  function HandleChunkedHeader(c: Conn, ec: bool): Conn {
    if ec then c.(phase := Complete(0))
    else
      var (len, rest) := SizeLine(c.buf);
      var c1 := c.(buf := Consume(rest, 2), read := c.read + len);
      if len == 0 then c1.(phase := Complete(c1.read)) else c1.(phase := AwaitChunk(len))
  }

  function HandleChunkedBody(c: Conn, ec: bool, len: nat): Conn {
    c.(phase := if ec then Complete(0) else PutChunk(len))
  }

  function HandleChunkedBodyBuffWrite(c: Conn, count: nat): Conn {
    if count > 0 then c.(buf := Consume(c.buf, 2 + count), phase := AwaitLine) else c.(phase := Complete(0))
  }

  function HandleBody(c: Conn, ec: bool): Conn {
    if ec then c.(phase := Complete(0))
    else if c.read < c.readSize then c.(phase := PutBody(Min(|c.buf|, c.readSize - c.read)))
    else c.(phase := Complete(c.read))
  }

  function HandleBodyBuffWrite(c: Conn, count: nat): Conn {
    if count > 0 then
      c.(read := c.read + count, buf := Consume(c.buf, count),
         phase := AwaitBody(Min(CHUNK_SIZE, SizeMinus(c.readSize, c.read + count))))
    else c.(phase := Complete(0))
  }

  /** The end of handle_headers for a body announced by its length. */
  function StartBody(buf: seq<byte>, wire: seq<byte>, readSize: nat): Conn {
    Conn(buf, if readSize == 0 then Complete(0) else AwaitBody(Min(CHUNK_SIZE, readSize)), 0, readSize, [], wire)
  }

  function StartChunked(buf: seq<byte>, wire: seq<byte>): Conn {
    Conn(buf, AwaitLine, 0, 0, [], wire)
  }

  ghost predicate HasLine(buf: seq<byte>) {
    exists i :: 0 <= i < |buf| - 1 && buf[i] == CR && buf[i + 1] == LF
  }

  /** Whether the pending operation can complete normally. */
  ghost predicate CanComplete(c: Conn) {
    match c.phase
    case AwaitLine => HasLine(c.buf)
    case AwaitChunk(len) => |c.buf| >= WaitFor(len)
    case AwaitBody(size) => |c.buf| >= size
    case Complete(_) => false
    case _ => true
  }

  /** The body stream's write takes the announced bytes from the front of the request buffer. */
  function Received(c: Conn, n: nat): Conn {
    c.(body := c.body + c.buf[..Min(n, |c.buf|)])
  }

  ghost function Step(c: Conn, e: Event): Conn {
    match e
    case Arrive(n) =>
      if c.phase.AwaitLine? || c.phase.AwaitChunk? || c.phase.AwaitBody? then
        var k := Min(n, |c.wire|);
        c.(buf := c.buf + c.wire[..k], wire := c.wire[k..])
      else c
    case Due =>
      if !CanComplete(c) then c
      else (match c.phase
        case AwaitLine => HandleChunkedHeader(c, false)
        case AwaitChunk(len) => HandleChunkedBody(c, false, len)
        case PutChunk(len) => HandleChunkedBodyBuffWrite(Received(c, len), len)
        case AwaitBody(_) => HandleBody(c, false)
        case PutBody(count) => HandleBodyBuffWrite(Received(c, count), count)
        case Complete(_) => c)
    case Broken =>
      (match c.phase
        case AwaitLine => HandleChunkedHeader(c, true)
        case AwaitChunk(len) => HandleChunkedBody(c, true, len)
        case PutChunk(_) => HandleChunkedBodyBuffWrite(c, 0)
        case AwaitBody(_) => HandleBody(c, true)
        case PutBody(_) => HandleBodyBuffWrite(c, 0)
        case Complete(_) => c)
  }

  ghost function Run(c: Conn, events: seq<Event>): Conn
    decreases |events|
  {
    if events == [] then c else Run(Step(c, events[0]), events[1..])
  }

  // ---------- the chunked decoder ----------

  lemma DigitRunStops(digits: seq<byte>, rest: seq<byte>)
    requires (forall c <- digits :: IsHexDigit(c)) && (rest == [] || !IsHexDigit(rest[0]))
    ensures DigitRun(digits + rest) == |digits|
  {
    var k := DigitRun(digits + rest);
    assert forall i | 0 <= i < |digits| :: (digits + rest)[i] == digits[i] && digits[i] in digits;
    assert rest != [] ==> (digits + rest)[|digits|] == rest[0];
  }

  lemma {:induction false} SkipsBlanks(blanks: seq<byte>, rest: seq<byte>)
    requires (forall c <- blanks :: c in [9, 10, 11, 12, 13, 32])
    requires rest == [] || rest[0] !in [9, 10, 11, 12, 13, 32]
    ensures SkipBlanks(blanks + rest) == rest
  {
    if blanks == [] {
      assert blanks + rest == rest;
      if rest != [] {
        SpacesAre(rest[0]);
      }
    } else {
      assert (blanks + rest)[1..] == blanks[1..] + rest;
      SpacesAre(blanks[0]);
      SkipsBlanks(blanks[1..], rest);
    }
  }

  /**
   Reading a size, whoever wrote it: white space before it is skipped, its digits may be large or small and stand
   behind zeros, and reading stops at the first byte that is no digit. Above the largest int, that is what is read.
   */
  lemma SizeLineReads(blanks: seq<byte>, h: seq<byte>, n: nat, rest: seq<byte>)
    requires (forall c <- blanks :: c in [9, 10, 11, 12, 13, 32]) && Spells(h, n)
    requires rest == [] || (rest[0] !in CAPITALS && rest[0] !in SMALLS)
    ensures SizeLine(blanks + (h + rest)) == (Min(n, INT_MAX), rest)
  {
    SpelledValue(h, n);
    assert IsHexDigit(h[0]);
    SkipsBlanks(blanks, h + rest);
    if rest != [] {
      OnlyDigitsAre(rest[0]);
    }
    DigitRunStops(h, rest);
    assert (h + rest)[..|h|] == h && (h + rest)[|h|..] == rest;
  }

  /** Without a digit to read, the size is 0. */
  lemma NoSizeReadsZero(buf: seq<byte>)
    requires buf == [] || (buf[0] !in [9, 10, 11, 12, 13, 32] && buf[0] !in CAPITALS && buf[0] !in SMALLS)
    ensures SizeLine(buf) == (0, buf)
  {
    if buf != [] {
      OnlyDigitsAre(buf[0]);
    }
  }

  /** The decoder reads back the size the encoder wrote, as far as an int goes. */
  lemma SizeLineOfHex(n: nat, rest: seq<byte>)
    requires rest != [] && rest[0] == CR
    ensures SizeLine(Hex(n) + rest) == (Min(n, INT_MAX), rest)
  {
    PrintedSpells(n);
    SizeLineReads([], Hex(n), n, rest);
    assert [] + (Hex(n) + rest) == Hex(n) + rest;
  }

  // ---------- what peers send ----------

  /** A chunk with its size as the peer spells it. */
  datatype Part = Part(line: seq<byte>, body: seq<byte>)

  /** The size line of the last chunk, and what follows the transfer. */
  datatype Ending = Ending(line: seq<byte>, tail: seq<byte>)

  function Wire(parts: seq<Part>, end: Ending): seq<byte> {
    if parts == [] then end.line + (Crlf + (Crlf + end.tail))
    else parts[0].line + (Crlf + (parts[0].body + (Crlf + Wire(parts[1..], end))))
  }

  function Bodies(parts: seq<Part>): seq<byte> {
    if parts == [] then [] else parts[0].body + Bodies(parts[1..])
  }

  /** Each size line spells its chunk's size, and the last one zero. */
  predicate WellSized(parts: seq<Part>, end: Ending) {
    (forall p <- parts :: p.body != [] && Spells(p.line, |p.body|)) && Spells(end.line, 0)
  }

  /** What the encoder makes of bodies. */
  function Printed(bodies: seq<seq<byte>>): (parts: seq<Part>)
    ensures |parts| == |bodies| && forall i | 0 <= i < |bodies| :: parts[i] == Part(Hex(|bodies[i]|), bodies[i])
  {
    seq(|bodies|, i requires 0 <= i < |bodies| => Part(Hex(|bodies[i]|), bodies[i]))
  }

  lemma {:induction false} PrintedWire(bodies: seq<seq<byte>>, tail: seq<byte>)
    ensures Wire(Printed(bodies), Ending([48], tail)) == Stream(bodies) + tail
    ensures Bodies(Printed(bodies)) == Concat(bodies)
  {
    if bodies != [] {
      PrintedWire(bodies[1..], tail);
      assert Printed(bodies)[1..] == Printed(bodies[1..]);
    }
  }

  lemma PrintedSized(bodies: seq<seq<byte>>, tail: seq<byte>)
    requires forall b <- bodies :: b != []
    ensures WellSized(Printed(bodies), Ending([48], tail))
  {
    PrintedSpells(0);
    assert Hex(0) == [48];
    forall p | p in Printed(bodies) ensures p.body != [] && Spells(p.line, |p.body|) {
      var i :| 0 <= i < |bodies| && Printed(bodies)[i] == p;
      assert bodies[i] in bodies;
      PrintedSpells(|p.body|);
    }
  }

  /** Every chunk is short enough to be waited for properly. */
  predicate Fits(bodies: seq<seq<byte>>) {
    forall b <- bodies :: |b| <= MAX_CHUNK
  }

  predicate PartsFit(parts: seq<Part>) {
    forall p <- parts :: |p.body| <= MAX_CHUNK
  }

  lemma PrintedFit(bodies: seq<seq<byte>>)
    ensures PartsFit(Printed(bodies)) <==> Fits(bodies)
  {
    forall b | b in bodies && PartsFit(Printed(bodies)) ensures |b| <= MAX_CHUNK {
      var i :| 0 <= i < |bodies| && bodies[i] == b;
      assert Printed(bodies)[i] in Printed(bodies);
    }
  }

  // ---------- the decoder, chunk by chunk ----------

  /** A buffer that holds a line end holds the whole size line it starts with. */
  lemma LineIsWhole(buf: seq<byte>, wire: seq<byte>, h: seq<byte>, rest: seq<byte>)
    requires buf + wire == h + (Crlf + rest) && HasLine(buf) && forall c <- h :: IsHexDigit(c)
    ensures |buf| >= |h| + 2
  {
    var i :| 0 <= i < |buf| - 1 && buf[i] == CR && buf[i + 1] == LF;
    assert (buf + wire)[i] == CR;
    assert i < |h| ==> (buf + wire)[i] == h[i] && IsHexDigit(h[i]);
  }

  /** So few bytes that no read for an overflowed length can complete. */
  predicate Finite(buf: seq<byte>, wire: seq<byte>) {
    |buf| + |wire| < WaitFor(MAX_CHUNK + 1)
  }

  /** How far the decoder has come: `done` decoded, `todo` still in buffer and wire, then the ending.
      `clean` says that no operation has failed. */
  predicate Decoding(c: Conn, done: seq<byte>, todo: seq<Part>, end: Ending, clean: bool) {
    && WellSized(todo, end)
    && (PartsFit(todo) || Finite(c.buf, c.wire))
    && c.body == done
    && match c.phase
       case AwaitLine => c.read == |done| && c.buf + c.wire == Wire(todo, end)
       case AwaitChunk(len) => InChunk(c, done, todo, end, len)
       case PutChunk(len) => InChunk(c, done, todo, end, len) && len <= MAX_CHUNK && |c.buf| >= len + 2
       case Complete(size) => (todo == [] && size == c.read == |done|) || (!clean && size == 0)
       case _ => false
  }

  predicate InChunk(c: Conn, done: seq<byte>, todo: seq<Part>, end: Ending, len: nat) {
    && todo != [] && len == Min(|todo[0].body|, INT_MAX) && c.read == |done| + len
    && c.buf + c.wire == todo[0].body + (Crlf + Wire(todo[1..], end))
  }

  lemma SplitAt(buf: seq<byte>, wire: seq<byte>, a: seq<byte>, rest: seq<byte>)
    requires |buf| >= |a| && buf + wire == a + rest
    ensures buf == a + buf[|a|..] && buf[|a|..] + wire == rest
  {
    assert (buf + wire)[..|a|] == buf[..|a|] && (a + rest)[..|a|] == a;
    assert (buf + wire)[|a|..] == buf[|a|..] + wire && (a + rest)[|a|..] == rest;
  }

  /** The bytes after the size line, whoever holds them. */
  lemma AfterLine(buf: seq<byte>, wire: seq<byte>, h: seq<byte>, n: nat, rest: seq<byte>)
    requires buf + wire == h + (Crlf + rest) && HasLine(buf) && Spells(h, n)
    ensures SizeLine(buf).0 == Min(n, INT_MAX) && Consume(SizeLine(buf).1, 2) + wire == rest
  {
    SpelledValue(h, n);
    LineIsWhole(buf, wire, h, rest);
    SplitAt(buf, wire, h, Crlf + rest);
    var after := buf[|h|..];
    SplitAt(after, wire, Crlf, rest);
    SizeLineReads([], h, n, after);
    assert [] + (h + after) == buf;
  }

  lemma HeaderDecodes(c: Conn, done: seq<byte>, todo: seq<Part>, end: Ending, clean: bool)
    requires Decoding(c, done, todo, end, clean) && c.phase.AwaitLine? && HasLine(c.buf)
    ensures Decoding(HandleChunkedHeader(c, false), done, todo, end, clean)
  {
    if todo == [] {
      AfterLine(c.buf, c.wire, end.line, 0, Crlf + end.tail);
    } else {
      AfterLine(c.buf, c.wire, todo[0].line, |todo[0].body|, todo[0].body + (Crlf + Wire(todo[1..], end)));
    }
  }

  lemma ChunkDecodes(c: Conn, done: seq<byte>, todo: seq<Part>, end: Ending, clean: bool)
    requires Decoding(c, done, todo, end, clean) && c.phase.PutChunk?
    ensures todo != [] && |todo[0].body| <= MAX_CHUNK
    ensures Decoding(Step(c, Due), done + todo[0].body, todo[1..], end, clean)
  {
    var len := c.phase.len;
    assert (c.buf + c.wire)[..len] == c.buf[..len] == todo[0].body;
    assert (c.buf + c.wire)[len + 2..] == c.buf[len + 2..] + c.wire == Wire(todo[1..], end);
  }

  lemma ArriveKeeps(buf: seq<byte>, wire: seq<byte>, k: nat)
    requires k <= |wire|
    ensures (buf + wire[..k]) + wire[k..] == buf + wire
  {
  }

  /** One event: nothing is lost, and a chunk passes from `todo` to `done` when the body stream has taken it. */
  lemma ChunkStep(c: Conn, e: Event, done: seq<byte>, todo: seq<Part>, end: Ending, clean: bool)
    returns (done': seq<byte>, todo': seq<Part>)
    requires Decoding(c, done, todo, end, clean) && (clean ==> e != Broken)
    ensures Decoding(Step(c, e), done', todo', end, clean) && done' + Bodies(todo') == done + Bodies(todo)
    ensures todo' == todo ||
      (todo != [] && |todo[0].body| <= MAX_CHUNK && done' == done + todo[0].body && todo' == todo[1..])
  {
    done', todo' := done, todo;
    match e {
      case Arrive(n) => ArriveKeeps(c.buf, c.wire, Min(n, |c.wire|));
      case Due =>
        if CanComplete(c) {
          if c.phase.AwaitLine? {
            HeaderDecodes(c, done, todo, end, clean);
          } else if c.phase.PutChunk? {
            ChunkDecodes(c, done, todo, end, clean);
            done', todo' := done + todo[0].body, todo[1..];
            assert done + (todo[0].body + Bodies(todo[1..])) == done' + Bodies(todo');
          }
        }
      case Broken =>
    }
  }

  /** Over any run: what the body stream has received is always a whole number of the first chunks. */
  lemma {:induction false} ChunkRun(c: Conn, events: seq<Event>, done: seq<byte>, todo: seq<Part>,
                                    end: Ending, clean: bool)
    returns (done': seq<byte>, todo': seq<Part>)
    requires Decoding(c, done, todo, end, clean) && (clean ==> Broken !in events)
    ensures Decoding(Run(c, events), done', todo', end, clean) && done' + Bodies(todo') == done + Bodies(todo)
    ensures |todo'| <= |todo| && (PartsFit(todo') <==> PartsFit(todo))
    decreases |events|
  {
    done', todo' := done, todo;
    if events != [] {
      done', todo' := ChunkStep(c, events[0], done, todo, end, clean);
      done', todo' := ChunkRun(Step(c, events[0]), events[1..], done', todo', end, clean);
    }
  }

  /** Fair continuation: `n` times, everything sent so far arrives and the pending operation completes. */
  function Rounds(n: nat, all: nat): seq<Event> {
    if n == 0 then [] else [Arrive(all), Due] + Rounds(n - 1, all)
  }

  lemma RoundsUnfold(c: Conn, n: nat, all: nat)
    requires n > 0
    ensures Run(c, Rounds(n, all)) == Run(Step(Step(c, Arrive(all)), Due), Rounds(n - 1, all))
  {
  }

  /** Operations still to complete when all has arrived. */
  function TurnsLeft(c: Conn, todo: seq<Part>): int {
    match c.phase
    case AwaitLine => 3 * |todo| + 1
    case AwaitChunk(_) => 3 * |todo|
    case PutChunk(_) => 3 * |todo| - 1
    case _ => 0
  }

  lemma LineArrived(c: Conn, done: seq<byte>, todo: seq<Part>, end: Ending)
    requires Decoding(c, done, todo, end, true) && c.phase.AwaitLine? && c.wire == []
    ensures HasLine(c.buf)
  {
    assert c.buf + c.wire == c.buf;
    var i := if todo == [] then |end.line| else |todo[0].line|;
    assert c.buf[i] == CR && c.buf[i + 1] == LF;
  }

  lemma ChunkProgress(c: Conn, done: seq<byte>, todo: seq<Part>, end: Ending)
    returns (done': seq<byte>, todo': seq<Part>)
    requires Decoding(c, done, todo, end, true) && PartsFit(todo)
    requires (c.wire == [] || c.phase.PutChunk?) && !c.phase.Complete?
    ensures CanComplete(c) && Step(c, Due).wire == c.wire
    ensures Decoding(Step(c, Due), done', todo', end, true) && done' + Bodies(todo') == done + Bodies(todo)
    ensures TurnsLeft(Step(c, Due), todo') < TurnsLeft(c, todo) && PartsFit(todo')
  {
    done', todo' := done, todo;
    match c.phase {
      case AwaitLine =>
        LineArrived(c, done, todo, end);
        HeaderDecodes(c, done, todo, end, true);
      case AwaitChunk(len) => assert |c.buf + c.wire| >= len + 2;
      case PutChunk(_) =>
        ChunkDecodes(c, done, todo, end, true);
        done', todo' := done + todo[0].body, todo[1..];
        assert done + (todo[0].body + Bodies(todo[1..])) == done' + Bodies(todo');
    }
  }

  lemma {:induction false} CompleteStays(c: Conn, n: nat, all: nat)
    requires c.phase.Complete? || n == 0
    ensures Run(c, Rounds(n, all)) == c
  {
    if n > 0 {
      RoundsUnfold(c, n, all);
      CompleteStays(c, n - 1, all);
    }
  }

  /** The decoder ends by itself with all the bodies. */
  lemma {:induction false} ChunkFinish(c: Conn, done: seq<byte>, todo: seq<Part>, end: Ending, n: nat, all: nat)
    requires Decoding(c, done, todo, end, true) && PartsFit(todo) && all >= |c.wire| && n >= TurnsLeft(c, todo)
    ensures var c' := Run(c, Rounds(n, all));
      c'.body == done + Bodies(todo) && c'.phase == Complete(|c'.body|) && c'.read == |c'.body|
    decreases n
  {
    if n == 0 || c.phase.Complete? {
      CompleteStays(c, n, all);
      assert done + Bodies(todo) == done;
    } else {
      var c1 := Step(c, Arrive(all));
      ArriveKeeps(c.buf, c.wire, Min(all, |c.wire|));
      assert TurnsLeft(c1, todo) == TurnsLeft(c, todo);
      var done', todo' := ChunkProgress(c1, done, todo, end);
      RoundsUnfold(c, n, all);
      ChunkFinish(Step(c1, Due), done', todo', end, n - 1, all);
    }
  }

  /**
   Decoding a chunked transfer, whoever sent it. Its sizes may be spelled in any way, its bytes arrive in pieces cut
   anywhere, some of them perhaps already buffered behind the headers. Then the decoder completes with the total
   length and the body stream has received exactly the concatenated bodies.
   */
  lemma ChunkedDecodes(buf: seq<byte>, wire: seq<byte>, parts: seq<Part>, end: Ending, events: seq<Event>, n: nat)
    requires buf + wire == Wire(parts, end) && WellSized(parts, end) && PartsFit(parts)
    requires Broken !in events && n >= 3 * |parts| + 1
    ensures var c := Run(StartChunked(buf, wire), events);
      var c' := Run(c, Rounds(n, |c.wire|));
      c'.body == Bodies(parts) && c'.phase == Complete(|Bodies(parts)|) && c'.read == |Bodies(parts)|
  {
    var c0 := StartChunked(buf, wire);
    var done, todo := ChunkRun(c0, events, [], parts, end, true);
    var c := Run(c0, events);
    ChunkFinish(c, done, todo, end, n, |c.wire|);
  }

  /** Chunked round trip: what the encoder makes of bodies, and whatever follows it, decodes to their concatenation. */
  lemma ChunkedRoundTrip(buf: seq<byte>, wire: seq<byte>, bodies: seq<seq<byte>>, tail: seq<byte>,
                         events: seq<Event>, n: nat)
    requires buf + wire == Stream(bodies) + tail && (forall b <- bodies :: 0 < |b|) && Fits(bodies)
    requires Broken !in events && n >= 3 * |bodies| + 1
    ensures var c := Run(StartChunked(buf, wire), events);
      var c' := Run(c, Rounds(n, |c.wire|));
      c'.body == Concat(bodies) && c'.phase == Complete(|Concat(bodies)|) && c'.read == |Concat(bodies)|
  {
    PrintedWire(bodies, tail);
    PrintedSized(bodies, tail);
    PrintedFit(bodies);
    ChunkedDecodes(buf, wire, Printed(bodies), Ending([48], tail), events, n);
  }

  lemma {:induction false} RoundsUnbroken(n: nat, all: nat)
    ensures Broken !in Rounds(n, all)
  {
    if n > 0 {
      RoundsUnbroken(n - 1, all);
    }
  }

  /**
   The decoder's limit, exactly: of all non-empty bodies, those are delivered whose length plus two is an int. With a
   longer one among them the decoder does not even complete, however long everything sent is worked on.
   */
  lemma DeliveredExactly(buf: seq<byte>, wire: seq<byte>, parts: seq<Part>, end: Ending, events: seq<Event>, n: nat)
    requires buf + wire == Wire(parts, end) && WellSized(parts, end) && Finite(buf, wire)
    requires Broken !in events && n >= 3 * |parts| + 1
    ensures var c := Run(StartChunked(buf, wire), events);
      var c' := Run(c, Rounds(n, |c.wire|));
      && (c'.phase.Complete? <==> forall p <- parts :: |p.body| + 2 <= INT_MAX)
      && (c'.phase.Complete? <==> c'.body == Bodies(parts) && c'.phase == Complete(|Bodies(parts)|))
  {
    var c0 := StartChunked(buf, wire);
    var c := Run(c0, events);
    if PartsFit(parts) {
      ChunkedDecodes(buf, wire, parts, end, events, n);
    } else {
      var done, todo := ChunkRun(c0, events, [], parts, end, true);
      RoundsUnbroken(n, |c.wire|);
      done, todo := ChunkRun(c, Rounds(n, |c.wire|), done, todo, end, true);
    }
  }

  /** The same of what the encoder prints. */
  lemma ChunkedDeliveredExactly(buf: seq<byte>, wire: seq<byte>, bodies: seq<seq<byte>>, tail: seq<byte>,
                                events: seq<Event>, n: nat)
    requires buf + wire == Stream(bodies) + tail && (forall b <- bodies :: 0 < |b|) && Finite(buf, wire)
    requires Broken !in events && n >= 3 * |bodies| + 1
    ensures var c := Run(StartChunked(buf, wire), events);
      var c' := Run(c, Rounds(n, |c.wire|));
      && (c'.phase.Complete? <==> forall b <- bodies :: |b| + 2 <= INT_MAX)
      && (c'.phase.Complete? <==> c'.body == Concat(bodies) && c'.phase == Complete(|Concat(bodies)|))
  {
    PrintedWire(bodies, tail);
    PrintedSized(bodies, tail);
    PrintedFit(bodies);
    DeliveredExactly(buf, wire, Printed(bodies), Ending([48], tail), events, n);
  }

  lemma FirstBodies(done: seq<byte>, todo: seq<Part>, i: nat)
    requires 0 < i <= |todo|
    ensures (done + todo[0].body) + Bodies(todo[1..][..i - 1]) == done + Bodies(todo[..i])
  {
    assert todo[..i][1..] == todo[1..][..i - 1];
    assert (done + todo[0].body) + Bodies(todo[1..][..i - 1]) == done + (todo[0].body + Bodies(todo[1..][..i - 1]));
  }

  /** Nothing from a chunk on that is too long ever reaches the body stream. */
  lemma {:induction false} StopsBefore(c: Conn, events: seq<Event>, done: seq<byte>, todo: seq<Part>,
                                       end: Ending, i: nat)
    requires Decoding(c, done, todo, end, false) && i < |todo| && |todo[i].body| > MAX_CHUNK
    ensures var c' := Run(c, events);
      c'.body <= done + Bodies(todo[..i]) && (c'.phase.Complete? ==> c'.phase.size == 0)
    decreases |events|
  {
    assert todo[i] in todo;
    if events == [] {
      assert c.body <= done + Bodies(todo[..i]);
    } else {
      var done', todo' := ChunkStep(c, events[0], done, todo, end, false);
      if todo' == todo {
        StopsBefore(Step(c, events[0]), events[1..], done', todo', end, i);
      } else {
        StopsBefore(Step(c, events[0]), events[1..], done', todo', end, i - 1);
        FirstBodies(done, todo, i);
      }
    }
  }

  /** One byte too many: the body is never delivered, and the connection's end completes it with 0. */
  lemma OneByteTooLong(buf: seq<byte>, wire: seq<byte>, body: seq<byte>, tail: seq<byte>, events: seq<Event>)
    requires buf + wire == Stream([body]) + tail && |body| == INT_MAX - 1 && Finite(buf, wire)
    ensures var c := Run(StartChunked(buf, wire), events);
      c.body == [] && (c.phase.Complete? ==> c.phase.size == 0)
  {
    PrintedWire([body], tail);
    PrintedSized([body], tail);
    StopsBefore(StartChunked(buf, wire), events, [], Printed([body]), Ending([48], tail), 0);
  }

  /** Under any failures too: the body stream holds a prefix of the bodies, and a failed body completes with 0. */
  lemma ChunkedPrefix(buf: seq<byte>, wire: seq<byte>, parts: seq<Part>, end: Ending, events: seq<Event>)
    requires buf + wire == Wire(parts, end) && WellSized(parts, end) && (PartsFit(parts) || Finite(buf, wire))
    ensures var c := Run(StartChunked(buf, wire), events);
      && c.body <= Bodies(parts)
      && (c.phase.Complete? ==> c.phase.size == 0 || (c.phase.size == |c.body| && c.body == Bodies(parts)))
  {
    var done, todo := ChunkRun(StartChunked(buf, wire), events, [], parts, end, false);
    assert done <= done + Bodies(todo);
  }

  // ---------- one event at a time ----------

  /** Any failure, of a read or of the body stream, ends the body with 0; what was received stays. */
  lemma FailureEnds(c: Conn)
    ensures Step(c, Broken) == if c.phase.Complete? then c else c.(phase := Complete(0))
  {
  }

  /** While a read is pending, what arrives goes behind what is buffered; nothing else changes. */
  lemma ArrivalBuffers(c: Conn, n: nat)
    ensures var c' := Step(c, Arrive(n));
      if c.phase.AwaitLine? || c.phase.AwaitChunk? || c.phase.AwaitBody? then
        var k := if n < |c.wire| then n else |c.wire|;
        c' == c.(buf := c.buf + c.wire[..k], wire := c.wire[k..])
      else c' == c
  {
  }

  /** A part of a body of announced length is waited for until 4096 bytes, or the rest of it, are buffered. */
  lemma WaitsForPart(buf: seq<byte>, wire: seq<byte>, length: nat)
    requires length > 0
    ensures var c := StartBody(buf, wire, length);
      var part := if length < 4096 then length else 4096;
      Step(c, Due) == if |buf| < part then c
                      else c.(phase := PutBody(if |buf| < length then |buf| else length))
  {
  }

  /** Then everything buffered that belongs to the body is written at once, and the next part waited for. */
  lemma WritesAllBuffered(c: Conn)
    requires c.read < c.readSize && c.phase == AwaitBody(Min(CHUNK_SIZE, c.readSize - c.read))
    requires |c.buf| >= Min(CHUNK_SIZE, c.readSize - c.read)
    ensures var c' := Step(Step(c, Due), Due);
      var n := if |c.buf| < c.readSize - c.read then |c.buf| else c.readSize - c.read;
      && c'.body == c.body + c.buf[..n] && c'.buf == c.buf[n..] && c'.read == c.read + n
      && c'.phase == AwaitBody(if c'.readSize - c'.read < 4096 then c'.readSize - c'.read else 4096)
      && c'.wire == c.wire && c'.readSize == c.readSize
  {
  }

  // ---------- the Content-Length pump ----------

  /** `content` is the announced body, `tail` what follows it. */
  predicate Pumping(c: Conn, content: seq<byte>, tail: seq<byte>, clean: bool) {
    && c.readSize == |content| && c.read == |c.body| <= c.readSize
    && c.body + (c.buf + c.wire) == content + tail
    && match c.phase
       case AwaitBody(size) => size == Min(CHUNK_SIZE, c.readSize - c.read)
       case PutBody(count) => 1 <= count <= c.readSize - c.read && count <= |c.buf|
       case Complete(size) => (size == c.read == c.readSize) || (!clean && size == 0)
       case _ => false
  }

  lemma PumpArrive(c: Conn, n: nat, content: seq<byte>, tail: seq<byte>, clean: bool)
    requires Pumping(c, content, tail, clean)
    ensures Pumping(Step(c, Arrive(n)), content, tail, clean)
  {
  }

  /** A write moves its bytes from buffer to body, and brings the end strictly nearer. */
  lemma PumpWrite(c: Conn, content: seq<byte>, tail: seq<byte>, clean: bool)
    requires Pumping(c, content, tail, clean) && c.phase.PutBody?
    ensures Pumping(Step(c, Due), content, tail, clean)
    ensures Step(c, Due).readSize - Step(c, Due).read < c.readSize - c.read && Step(c, Due).phase.AwaitBody?
  {
  }

  lemma PumpStep(c: Conn, e: Event, content: seq<byte>, tail: seq<byte>, clean: bool)
    requires Pumping(c, content, tail, clean) && (clean ==> e != Broken)
    ensures Pumping(Step(c, e), content, tail, clean)
  {
  }

  lemma {:induction false} PumpRun(c: Conn, events: seq<Event>, content: seq<byte>, tail: seq<byte>, clean: bool)
    requires Pumping(c, content, tail, clean) && (clean ==> Broken !in events)
    ensures Pumping(Run(c, events), content, tail, clean)
    decreases |events|
  {
    if events != [] {
      PumpStep(c, events[0], content, tail, clean);
      PumpRun(Step(c, events[0]), events[1..], content, tail, clean);
    }
  }

  function PumpLeft(c: Conn): int {
    match c.phase
    case AwaitBody(_) => 2 * (c.readSize - c.read) + 1
    case PutBody(_) => 2 * (c.readSize - c.read)
    case _ => 0
  }

  lemma {:induction false} PumpFinish(c: Conn, content: seq<byte>, tail: seq<byte>, n: nat, all: nat)
    requires Pumping(c, content, tail, true) && all >= |c.wire| && n >= PumpLeft(c)
    ensures var c' := Run(c, Rounds(n, all));
      c'.body == content && c'.phase == Complete(|content|)
    decreases n
  {
    if n == 0 || c.phase.Complete? {
      CompleteStays(c, n, all);
      assert c.body == (c.body + (c.buf + c.wire))[..|content|];
    } else {
      var c1 := Step(c, Arrive(all));
      PumpArrive(c, all, content, tail, true);
      PumpStep(c1, Due, content, tail, true);
      if c1.phase.PutBody? {
        PumpWrite(c1, content, tail, true);
      } else {
        assert |c1.body + (c1.buf + c1.wire)| == |content + tail|;
      }
      RoundsUnfold(c, n, all);
      PumpFinish(Step(c1, Due), content, tail, n - 1, all);
    }
  }

  /**
   A body of announced length, arriving in pieces cut anywhere: the pump completes with the announced length and
   the body stream has received exactly the first `|content|` bytes after the headers.
   */
  lemma ContentLengthRead(buf: seq<byte>, wire: seq<byte>, content: seq<byte>, tail: seq<byte>,
                          events: seq<Event>, n: nat)
    requires buf + wire == content + tail && Broken !in events && n >= 2 * |content| + 1
    ensures var c := Run(StartBody(buf, wire, |content|), events);
      var c' := Run(c, Rounds(n, |c.wire|));
      c'.body == content && c'.phase == Complete(|content|)
  {
    var c0 := StartBody(buf, wire, |content|);
    assert c0.body + (buf + wire) == content + tail;
    PumpRun(c0, events, content, tail, true);
    PumpFinish(Run(c0, events), content, tail, n, |Run(c0, events).wire|);
  }

  /** At every moment of every run, failures included: never too much, never a write of nothing. */
  lemma ContentLengthSafe(buf: seq<byte>, wire: seq<byte>, content: seq<byte>, tail: seq<byte>, events: seq<Event>)
    requires buf + wire == content + tail
    ensures var c := Run(StartBody(buf, wire, |content|), events);
      && c.read <= c.readSize == |content| && c.body == content[..c.read]
      && (c.phase.PutBody? ==> c.phase.count >= 1)
      && (c.phase.Complete? && c.phase.size != 0 ==> c.body == content && c.phase.size == |content|)
  {
    var c0 := StartBody(buf, wire, |content|);
    assert c0.body + (buf + wire) == content + tail;
    PumpRun(c0, events, content, tail, false);
    var c := Run(c0, events);
    assert c.body == (c.body + (c.buf + c.wire))[..c.read] == (content + tail)[..c.read];
  }
}
