/**
 How a scan ends when the worker is left alone with it: which bytes reach the target, what the handler is told,
 and when it is never called.
 */
module DelimEnds {
  import opened Bytes
  import opened BufferSpec
  import opened BufferProperties
  import opened BufferLaws
  import opened Pumps
  import opened DelimScan

  // ---------- scans that nothing can wake ----------

  predicate Stalled(s: Scan) {
    s.src.waiting == [] && s.tasks == [] && s.calls == []
  }

  /**
   One turn of read_to_delim leaves nothing behind that could wake the scan, exactly when it finds the read end
   closed with nothing staged, or the bytes at hand end before a delimiter and before the staging area is full,
   or the delimiter is met with nothing staged.
   */
  lemma StallsExactly(s: Scan)
    requires Between(s)
    ensures Stalled(ReadToDelim(s)) <==>
      && s.src.unread != []
      && if !s.src.canRead then s.writePos == 0
         else
           var k := Ahead(s.src.unread, s.delim);
           s.writePos + k < BUF_SIZE && (k == |s.src.unread| || s.writePos + k == 0)
  {
    if s.src.unread == [] {
      AskedOutcome(s);
    } else if s.src.canRead {
      ScanLoopDoes(s);
    }
  }

  /** What bumpc leaves: one queued callback, or a request that waits because the writer is still open. */
  lemma AskedOutcome(s: Scan)
    requires Between(s) && s.src.unread == []
    ensures var r := AskChar(s);
      if s.src.canRead && s.src.canWrite then r == s.(src := s.src.(waiting := [CharRequest(0)]))
      else r == s.(src := r.src, tasks := [GotChar(None)]) && r.src.unread == [] && r.src.waiting == []
  {
    var q := CharRequest(0);
    assert s.taken + [] == s.taken && s.fed + [] == s.fed;
    if !s.src.canRead {
      RoutedOne(s, Ask(s.src, q), Refused(q));
    } else if !s.src.canWrite {
      RoutedOne(s, Ask(s.src, q), Answer(s.src, q));
    }
  }

  /** One turn of on_read stalls exactly when it ends the scan with nothing staged, or the next bytes run out. */
  lemma HeldStallsExactly(s: Scan)
    requires Holding(s)
    ensures Stalled(RunTask(s)) <==>
      match s.tasks[0].c
      case None => s.writePos == 0
      case Some(b) =>
        if b == s.delim then s.writePos == 0
        else
          && s.src.canRead && s.src.unread != []
          && Ahead(s.src.unread, s.delim) == |s.src.unread| < BUF_SIZE - s.writePos - 1
  {
    var q := s.(tasks := []);
    assert s.tasks[1..] == [];
    if s.tasks[0].c.Some? && s.tasks[0].c.value != s.delim {
      var b := s.tasks[0].c.value;
      StoreInv(q, b);
      if !IsFull(Store(q, b)) {
        StallsExactly(Store(q, b));
      }
    }
  }

  /** From then on the handler is never called, whatever the writer and the worker still do. */
  lemma {:induction false} StalledForever(s: Scan, events: seq<Event>)
    requires Stalled(s) && forall e <- events :: Allowed(e)
    ensures Stalled(RunScan(s, events)) && RunScan(s, events).put == s.put
    decreases |events|
  {
    if events != [] {
      if events[0].Source? {
        assert Allowed(events[0]);
        NonReadingConserves(s.src, events[0].op);
        assert NewlyPosted(s.src, events[0].op) == [];
      }
      StalledForever(StepScan(s, events[0]), events[1..]);
    }
  }

  // ---------- the whole scan ----------

  /** The scan after the target took `data` and was synced. */
  function Flushed(s: Scan, data: seq<byte>): Scan {
    s.(tasks := [], dst := Step(Step(s.dst, Write(data)).0, Sync).0, put := s.put + data,
       total := s.total + |data|, writePos := 0)
  }

  lemma FlushThenScan(s: Scan, data: seq<byte>)
    requires s.tasks == [Put(data, false)] && data != [] && s.dst.canWrite
    ensures RunTask(s) == ReadToDelim(Flushed(s, data)) && Flushed(s, data).dst.canWrite
  {
    assert s.tasks[1..] == [];
    WriteKeepsEnds(s.dst, Write(data));
    WriteKeepsEnds(Step(s.dst, Write(data)).0, Sync);
  }

  lemma FlushedLast(s: Scan, data: seq<byte>)
    requires s.tasks == [Put(data, true)] && data != [] && s.dst.canWrite
    ensures RunTask(s).put == s.put + data && RunTask(s).calls == s.calls + [|data|]
  {
  }

  /** What is staged, and what follows it up to the delimiter or to the end of what is there. */
  function Line(s: Scan): seq<byte> {
    Staged(s) + (if s.src.canRead then s.src.unread[..Ahead(s.src.unread, s.delim)] else [])
  }

  /** The scan will find that the line is complete: by its delimiter, or because nothing can follow. */
  predicate AtEnd(s: Scan) {
    || !s.src.canRead
    || Ahead(s.src.unread, s.delim) < |s.src.unread|
    || (s.src.unread == [] && !s.src.canWrite)
  }

  /** How much of a line is left over after whole staging areas. */
  function Spill(line: seq<byte>): nat {
    |line| % BUF_SIZE
  }

  /** What the handler is told about a line. */
  function Reported(line: seq<byte>, atEnd: bool): seq<nat> {
    if atEnd && Spill(line) != 0 then [Spill(line)] else []
  }

  /** What reaches the target of a line: all of it at its end, only whole staging areas before. */
  function Moved(line: seq<byte>, atEnd: bool): seq<byte> {
    if atEnd then line else line[..|line| - Spill(line)]
  }

  lemma ShortLine(line: seq<byte>, atEnd: bool)
    requires |line| < BUF_SIZE
    ensures Reported(line, atEnd) == if atEnd && line != [] then [|line|] else []
    ensures Moved(line, atEnd) == if atEnd then line else []
  {
  }

  lemma WholeLine(line: seq<byte>)
    ensures Moved(line, true) == line && Reported(line, true) == (if Spill(line) == 0 then [] else [Spill(line)])
    ensures Reported(line, true) == [|line|] <==> 0 < |line| < BUF_SIZE
  {
  }

  lemma LongerLine(first: seq<byte>, line: seq<byte>, atEnd: bool, atEnd': bool)
    requires |first| == BUF_SIZE && (atEnd == atEnd' || line == [])
    ensures Reported(first + line, atEnd) == Reported(line, atEnd')
    ensures Moved(first + line, atEnd) == first + Moved(line, atEnd')
    ensures Spill(first + line) == Spill(line)
  {
  }

  /** The scan will be left waiting for the writer. */
  predicate AsksOn(s: Scan) {
    !AtEnd(s) && s.src.canWrite && (s.src.unread == [] || Spill(Line(s)) == 0)
  }

  /** The bytes the scan does not get to. */
  function Beyond(s: Scan): seq<byte> {
    var k := Ahead(s.src.unread, s.delim);
    if !s.src.canRead then s.src.unread
    else if k < |s.src.unread| then s.src.unread[k + 1..]
    else []
  }

  predicate RanDown(s: Scan, r: Scan) {
    && r.tasks == [] && r.calls == Reported(Line(s), AtEnd(s)) && r.put == s.put + Moved(Line(s), AtEnd(s))
    && r.src.unread == Beyond(s)
    && r.src.waiting == if AsksOn(s) then [CharRequest(0)] else []
  }

  lemma {:induction false} IdleStays(s: Scan, n: nat)
    requires s.tasks == []
    ensures RunScan(s, Works(n)) == s
  {
    if n > 0 {
      assert Works(n)[1..] == Works(n - 1);
      IdleStays(s, n - 1);
    }
  }

  lemma OneTurn(s: Scan, n: nat)
    requires n > 0
    ensures RunScan(s, Works(n)) == RunScan(RunTask(s), Works(n - 1))
  {
    assert Works(n)[1..] == Works(n - 1);
  }

  /** The last flush of a scan, from putn to the handler; nothing happens with nothing staged. */
  lemma FlushEnds(q: Scan, n: nat)
    requires q.tasks == [] && q.calls == [] && q.dst.canWrite && q.writePos <= |q.outbuf| && n > 0
    ensures var r := RunScan(Putn(q, true), Works(n));
      && r.tasks == [] && r.put == q.put + Staged(q) && r.src == q.src
      && r.calls == if q.writePos > 0 then [q.writePos] else []
  {
    if q.writePos == 0 {
      assert q.put + Staged(q) == q.put;
      IdleStays(q, n);
    } else {
      var f := Putn(q, true);
      assert f.tasks == [Put(Staged(q), true)] && f.tasks[1..] == [];
      OneTurn(f, n);
      IdleStays(RunTask(f), n - 1);
    }
  }

  /** on_read, or the loop, met the end of the stream: what is staged is flushed. */
  lemma EofEnds(s: Scan, q: Scan, n: nat)
    requires Between(s) && s.dst.canWrite && n >= 1
    requires !s.src.canRead || (s.src.unread == [] && !s.src.canWrite)
    requires q == s.(src := q.src) && q.src.unread == s.src.unread && q.src.waiting == []
    ensures RanDown(s, RunScan(Putn(q, true), Works(n)))
  {
    assert Line(s) == Staged(s) == Staged(q);
    ShortLine(Line(s), true);
    FlushEnds(q, n);
  }

  /** Nothing more can be read: what is staged is flushed. */
  lemma EndsEmpty(s: Scan, n: nat)
    requires Between(s) && s.dst.canWrite && n >= 2
    requires !s.src.canRead || (s.src.unread == [] && !s.src.canWrite)
    ensures RanDown(s, RunScan(ReadToDelim(s), Works(n)))
  {
    if s.src.unread == [] {
      AskedOutcome(s);
      var r := AskChar(s);
      assert r.tasks[1..] == [];
      OneTurn(r, n);
      EofEnds(s, r.(tasks := []), n - 1);
    } else {
      EofEnds(s, s.(src := Step(s.src, Sbumpc).0), n);
    }
  }

  lemma LoopMeetsDelimiter(s: Scan)
    requires Between(s) && s.dst.canWrite && s.src.canRead
    requires Ahead(s.src.unread, s.delim) < |s.src.unread| && |Line(s)| < BUF_SIZE
    ensures var r := ReadToDelim(s);
      && r.tasks == (if Line(s) == [] then [] else [Put(Line(s), true)])
      && r.src.unread == Beyond(s) && r.src.waiting == []
      && r.calls == [] && r.put == s.put && r.dst.canWrite
  {
    ScanLoopDoes(s);
    assert Reach(s) == Ahead(s.src.unread, s.delim);
    assert Staged(ReadToDelim(s)) == Line(s);
  }

  lemma LastTurn(r: Scan, line: seq<byte>, n: nat)
    requires r.tasks == (if line == [] then [] else [Put(line, true)]) && r.calls == [] && r.dst.canWrite && n > 0
    ensures var r' := RunScan(r, Works(n));
      && r'.tasks == [] && r'.src == r.src && r'.put == r.put + line
      && r'.calls == if line == [] then [] else [|line|]
  {
    if line == [] {
      IdleStays(r, n);
      assert r.put + line == r.put;
    } else {
      OneTurn(r, n);
      FlushedLast(r, line);
      IdleStays(RunTask(r), n - 1);
    }
  }

  /** The delimiter is in reach: what comes before it is flushed, and reported if there is anything. */
  lemma EndsAtDelimiter(s: Scan, n: nat)
    requires Between(s) && s.dst.canWrite && s.src.canRead && n >= 1
    requires Ahead(s.src.unread, s.delim) < |s.src.unread| && |Line(s)| < BUF_SIZE
    ensures RanDown(s, RunScan(ReadToDelim(s), Works(n)))
  {
    LoopMeetsDelimiter(s);
    ShortLine(Line(s), true);
    LastTurn(ReadToDelim(s), Line(s), n);
  }

  lemma AheadLater(bytes: seq<byte>, delim: int, n: nat)
    requires n <= Ahead(bytes, delim)
    ensures Ahead(bytes[n..], delim) == Ahead(bytes, delim) - n
  {
    var k := Ahead(bytes, delim);
    var rest := bytes[n..];
    assert forall i | 0 <= i < |rest| :: rest[i] == bytes[n + i];
    if k < |bytes| {
      AheadIs(rest, delim, k - n);
    }
  }

  /** The scan after its next turn filled the staging area and the target took it. */
  function NextFill(s: Scan): Scan {
    var r := ReadToDelim(s);
    Flushed(r, Staged(r))
  }

  /** The staging area fills up: it is flushed, and the scan goes on with an empty one. */
  lemma FillsUp(s: Scan)
    requires Between(s) && s.dst.canWrite && s.src.canRead && |Line(s)| >= BUF_SIZE
    ensures var r := ReadToDelim(s);
      var q := NextFill(s);
      && RunTask(r) == ReadToDelim(q) && Between(q) && q.dst.canWrite
      && Staged(r) == Staged(s) + s.src.unread[..Reach(s)]
      && FollowsOn(s, q) && q.put == s.put + Staged(r) && |q.src.unread| < |s.src.unread|
  {
    var r := ScanLoop(s);
    ScanLoopDoes(s);
    ScanLoopInv(s);
    assert Staged(r) != [];
    FlushThenScan(r, Staged(r));
    FlushedBetween(r);
  }

  lemma FlushedBetween(r: Scan)
    requires Accounted(r, []) && r.src.waiting == [] && r.calls == []
    ensures Between(Flushed(r, Staged(r)))
  {
    var q := Flushed(r, Staged(r));
    assert Staged(q) == [];
    assert r.put + Staged(r) + [] == (r.put + Staged(r)) + [] + [];
  }

  /** `q` is where `s` gets by filling the staging area and having it flushed. */
  predicate FollowsOn(s: Scan, q: Scan)
    requires s.writePos <= BUF_SIZE
  {
    && q.writePos == 0 && q.delim == s.delim
    && q.src.canRead == s.src.canRead && q.src.canWrite == s.src.canWrite
    && q.src.unread == s.src.unread[Reach(s)..]
  }

  lemma FillsUpLine(s: Scan, q: Scan)
    requires |s.outbuf| == BUF_SIZE && s.writePos < BUF_SIZE && s.src.canRead && |Line(s)| >= BUF_SIZE
    requires FollowsOn(s, q)
    ensures Ahead(q.src.unread, s.delim) == Ahead(s.src.unread, s.delim) - Reach(s)
    ensures var first := Staged(s) + s.src.unread[..Reach(s)];
      Line(s) == first + Line(q) && |first| == BUF_SIZE && Reach(s) > 0
  {
    var reach := Reach(s);
    var k := Ahead(s.src.unread, s.delim);
    AheadLater(s.src.unread, s.delim, reach);
    CutTwice(Staged(s), s.src.unread, reach, k);
    assert Line(q) == q.src.unread[..k - reach];
  }

  lemma CutTwice(a: seq<byte>, u: seq<byte>, n: nat, k: nat)
    requires n <= k <= |u|
    ensures a + u[..k] == (a + u[..n]) + u[n..][..k - n]
  {
  }

  lemma FillsUpEnd(s: Scan, q: Scan)
    requires |s.outbuf| == BUF_SIZE && s.writePos < BUF_SIZE && s.src.canRead && |Line(s)| >= BUF_SIZE
    requires FollowsOn(s, q)
    ensures (AtEnd(s) ==> AtEnd(q)) && (AtEnd(q) && !AtEnd(s) ==> Line(q) == [])
    ensures (AsksOn(s) <==> AsksOn(q)) && Beyond(s) == Beyond(q)
  {
    FillsUpLine(s, q);
    LongerLine(Staged(s) + s.src.unread[..Reach(s)], Line(q), AtEnd(q), AtEnd(q));
    if Ahead(s.src.unread, s.delim) < |s.src.unread| {
      assert s.src.unread[Ahead(s.src.unread, s.delim) + 1..] == q.src.unread[Ahead(q.src.unread, q.delim) + 1..];
    }
  }

  lemma RanDownStep(s: Scan, q: Scan, first: seq<byte>, r: Scan)
    requires Line(s) == first + Line(q) && |first| == BUF_SIZE && q.put == s.put + first
    requires (AtEnd(s) ==> AtEnd(q)) && (AtEnd(q) && !AtEnd(s) ==> Line(q) == [])
    requires (AsksOn(s) <==> AsksOn(q)) && Beyond(s) == Beyond(q)
    requires RanDown(q, r)
    ensures RanDown(s, r)
  {
    LongerLine(first, Line(q), AtEnd(s), AtEnd(q));
    var moved := Moved(Line(q), AtEnd(q));
    assert s.put + (first + moved) == q.put + moved;
  }

  lemma FullTurn(s: Scan, n: nat, r: Scan)
    requires Between(s) && s.dst.canWrite && s.src.canRead && |Line(s)| >= BUF_SIZE && n > 0
    requires r == RunScan(ReadToDelim(NextFill(s)), Works(n - 1)) && RanDown(NextFill(s), r)
    ensures RanDown(s, RunScan(ReadToDelim(s), Works(n)))
  {
    var q := NextFill(s);
    FillsUp(s);
    FillsUpLine(s, q);
    FillsUpEnd(s, q);
    OneTurn(ReadToDelim(s), n);
    RanDownStep(s, q, Staged(ReadToDelim(s)), r);
  }

  /**
   A scan with the target open and nobody else at work, from any point between two callbacks: which bytes are moved,
   what the handler is told if it is called at all, where the source is left, and whether the scan waits for more.
   */
  lemma {:induction false} ScanRunsDown(s: Scan, n: nat)
    requires Between(s) && s.dst.canWrite && n >= |s.src.unread| + 2
    ensures RanDown(s, RunScan(ReadToDelim(s), Works(n)))
    decreases n
  {
    if !s.src.canRead || (s.src.unread == [] && !s.src.canWrite) {
      EndsEmpty(s, n);
    } else if |Line(s)| >= BUF_SIZE {
      var q := NextFill(s);
      FillsUp(s);
      ScanRunsDown(q, n - 1);
      FullTurn(s, n, RunScan(ReadToDelim(q), Works(n - 1)));
    } else if AtEnd(s) {
      EndsAtDelimiter(s, n);
    } else {
      EndsWithoutDelimiter(s, n);
    }
  }

  lemma EndsWithoutDelimiter(s: Scan, n: nat)
    requires Between(s) && s.dst.canWrite && !AtEnd(s) && |Line(s)| < BUF_SIZE
    ensures RanDown(s, RunScan(ReadToDelim(s), Works(n)))
  {
    if s.src.unread == [] {
      AskedOutcome(s);
    } else {
      ScanLoopDoes(s);
    }
    IdleStays(ReadToDelim(s), n);
    ShortLine(Line(s), false);
    assert s.put + [] == s.put;
  }

  /** A full staging area and the empty one after its flush stand before the same bytes. */
  lemma FullLine(h: Scan, q: Scan)
    requires h.writePos == BUF_SIZE == |h.outbuf| && q.writePos == 0 && q.src == h.src && q.delim == h.delim
    ensures Line(h) == Staged(h) + Line(q) && |Staged(h)| == BUF_SIZE
    ensures AtEnd(h) == AtEnd(q) && AsksOn(h) == AsksOn(q) && Beyond(h) == Beyond(q)
  {
    var ahead := if h.src.canRead then h.src.unread[..Ahead(h.src.unread, h.delim)] else [];
    assert Staged(q) + ahead == ahead;
    LongerLine(Staged(h), ahead, AtEnd(q), AtEnd(q));
  }

  /** A full staging area is flushed before anything else is read. */
  lemma FullRunsDown(h: Scan, n: nat)
    requires Accounted(h, []) && h.writePos == BUF_SIZE && h.dst.canWrite && n >= |h.src.unread| + 3
    requires h.src.waiting == [] && h.tasks == [] && h.calls == []
    ensures RanDown(h, RunScan(Putn(h, false), Works(n)))
  {
    var f := Putn(h, false);
    var q := Flushed(f, Staged(h));
    OneTurn(f, n);
    FlushThenScan(f, Staged(h));
    FlushedBetween(f);
    ScanRunsDown(q, n - 1);
    FullLine(h, q);
    RanDownStep(h, q, Staged(h), RunScan(f, Works(n)));
  }

  /** The held character ends the scan. */
  predicate HoldsLast(s: Scan) {
    s.tasks != [] && s.tasks[0].GotChar? && (s.tasks[0].c.None? || s.tasks[0].c.value == s.delim)
  }

  /** The scan with the character it holds staged. */
  function HeldStored(s: Scan): Scan {
    if s.tasks != [] && s.tasks[0].GotChar? && s.tasks[0].c.Some? then Store(s.(tasks := []), s.tasks[0].c.value)
    else s.(tasks := [])
  }

  lemma HeldTurn(s: Scan)
    requires Holding(s)
    ensures var h := HeldStored(s);
      if HoldsLast(s) then RunTask(s) == Putn(s.(tasks := []), true)
      else
        && Accounted(h, []) && h.writePos == s.writePos + 1 && h.tasks == [] && h.src == s.src
        && h.dst == s.dst && h.calls == []
        && RunTask(s) == if h.writePos == BUF_SIZE then Putn(h, false) else ReadToDelim(h)
  {
    assert s.tasks[1..] == [];
    if !HoldsLast(s) {
      StoreInv(s.(tasks := []), s.tasks[0].c.value);
    }
  }

  /** The end of the stream or the delimiter on its way to on_read: what is staged is flushed, and nothing else read. */
  lemma HeldEnds(s: Scan, n: nat)
    requires Holding(s) && HoldsLast(s) && s.dst.canWrite && n >= 2
    ensures var r := RunScan(s, Works(n));
      && r.tasks == [] && r.put == s.put + Staged(s) && r.src == s.src
      && r.calls == if s.writePos > 0 then [s.writePos] else []
  {
    HeldTurn(s);
    OneTurn(s, n);
    FlushEnds(s.(tasks := []), n - 1);
  }

  /** Any other byte on its way to on_read: it is staged, and the scan runs down from there. */
  lemma HeldRunsDown(s: Scan, n: nat)
    requires Holding(s) && !HoldsLast(s) && s.dst.canWrite && n >= |s.src.unread| + 4
    ensures RanDown(HeldStored(s), RunScan(s, Works(n)))
  {
    OneTurn(s, n);
    HeldTurn(s);
    StoredRunsDown(s, HeldStored(s), n - 1);
  }

  lemma StoredRunsDown(s: Scan, h: Scan, n: nat)
    requires Accounted(h, []) && h.dst.canWrite && n >= |h.src.unread| + 3
    requires h.src.waiting == [] && h.tasks == [] && h.calls == []
    requires s.tasks != [] && RunTask(s) == if h.writePos == BUF_SIZE then Putn(h, false) else ReadToDelim(h)
    ensures RanDown(h, RunScan(RunTask(s), Works(n)))
  {
    if h.writePos == BUF_SIZE {
      FullRunsDown(h, n);
    } else {
      ScanRunsDown(h, n);
    }
  }

  lemma RefusedEnds(r: Scan, n: nat)
    requires r.calls == [] && n > 0 && (r.tasks == [] || r.tasks == [Refuse(true)] || r.tasks == [Refuse(false)])
    ensures var r' := RunScan(r, Works(n));
      r'.tasks == [] && r'.put == r.put && r'.calls == if r.tasks == [] then [] else [r.total]
  {
    if r.tasks == [] {
      IdleStays(r, n);
    } else {
      assert r.tasks[1..] == [];
      OneTurn(r, n);
      IdleStays(RunTask(r), n - 1);
    }
  }

  /** Whether the scan will try to flush something. */
  predicate Flushes(s: Scan) {
    |Line(s)| >= BUF_SIZE || (AtEnd(s) && Line(s) != [])
  }

  predicate RefusedAfter(s: Scan, r: Scan) {
    r.tasks == [] && r.put == s.put && r.calls == if Flushes(s) then [|s.put|] else []
  }

  lemma LoopRefused(s: Scan, n: nat)
    requires Between(s) && !s.dst.canWrite && s.src.canRead && s.src.unread != [] && n > 0
    ensures RefusedAfter(s, RunScan(ScanLoop(s), Works(n)))
  {
    var r := ScanLoop(s);
    ScanLoopDoes(s);
    assert Staged(r) == [] <==> s.writePos + Reach(s) == 0;
    RefusedEnds(r, n);
  }

  lemma EofRefused(s: Scan, q: Scan, n: nat)
    requires Between(s) && !s.dst.canWrite && n > 0
    requires !s.src.canRead || (s.src.unread == [] && !s.src.canWrite)
    requires q == s.(src := q.src)
    ensures RefusedAfter(s, RunScan(Putn(q, true), Works(n)))
  {
    assert Line(s) == Staged(s);
    RefusedEnds(Putn(q, true), n);
  }

  /**
   A scan whose target has been closed: the handler is called exactly when there is something to flush, and is told
   how many bytes were moved before.
   */
  lemma ClosedTarget(s: Scan, n: nat)
    requires Between(s) && !s.dst.canWrite && n >= 2
    ensures RefusedAfter(s, RunScan(ReadToDelim(s), Works(n)))
  {
    if s.src.unread != [] {
      if s.src.canRead {
        LoopRefused(s, n);
      } else {
        EofRefused(s, s.(src := Step(s.src, Sbumpc).0), n);
      }
    } else {
      var r := AskChar(s);
      AskedOutcome(s);
      if r.tasks == [] {
        assert Line(s) == Staged(s);
        IdleStays(r, n);
      } else {
        assert r.tasks[1..] == [];
        OneTurn(r, n);
        EofRefused(s, r.(tasks := []), n - 1);
      }
    }
  }

  /**
   The handler is called if and only if the source can be read and holds the delimiter, at a distance that is not
   a multiple of the staging area's size. If it is not, either the scan waits for the writer, or nothing will ever
   wake it again.
   */
  lemma HandlerCalledExactly(src: State, dst: State, delim: int, outbuf: seq<byte>, n: nat)
    requires BufferInv(src) && src.waiting == [] && |outbuf| == BUF_SIZE && dst.canWrite
    requires n >= |src.unread| + 2
    ensures var r := RunScan(ReadToDelim(Started(src, dst, delim, outbuf)), Works(n));
      var k := Ahead(src.unread, delim);
      && (r.calls != [] <==> src.canRead && k < |src.unread| && k % BUF_SIZE != 0)
      && (Stalled(r) <==> r.calls == [] && !(src.canRead && src.canWrite && k == |src.unread| && k % BUF_SIZE == 0))
  {
    var s := Started(src, dst, delim, outbuf);
    StartsBetween(s);
    ScanRunsDown(s, n);
  }

  /** A last line without its delimiter, if it finds room in the staging area, is lost: nobody is ever told of it. */
  lemma UnendedLineLost(src: State, dst: State, delim: byte, outbuf: seq<byte>, events: seq<Event>)
    requires BufferInv(src) && src.waiting == [] && src.canRead && |outbuf| == BUF_SIZE
    requires 0 < |src.unread| < BUF_SIZE && delim !in src.unread
    requires forall e <- events :: Allowed(e)
    ensures var r := RunScan(ReadToDelim(Started(src, dst, delim, outbuf)), events);
      r.calls == [] && r.put == []
  {
    var s := Started(src, dst, delim, outbuf);
    StartsBetween(s);
    NoDelimiter(src.unread, delim);
    StallsExactly(s);
    TurnKeepsPut(s);
    StalledForever(ReadToDelim(s), events);
  }

  /** For example a single byte, its writer closed behind it. */
  lemma OneByteLost(src: State, dst: State, outbuf: seq<byte>, events: seq<Event>)
    requires BufferInv(src) && src.waiting == [] && src.canRead && !src.canWrite && |outbuf| == BUF_SIZE
    requires src.unread == [97]
    requires forall e <- events :: Allowed(e)
    ensures RunScan(ReadToDelim(Started(src, dst, LF as int, outbuf)), events).calls == []
  {
    UnendedLineLost(src, dst, LF, outbuf, events);
  }

  lemma NoDelimiter(bytes: seq<byte>, delim: byte)
    requires delim !in bytes
    ensures Ahead(bytes, delim) == |bytes|
  {
    assert forall i | 0 <= i < |bytes| :: bytes[i] in bytes;
  }

  lemma TurnKeepsPut(s: Scan)
    requires Between(s) && s.src.canRead && s.src.unread != []
    ensures ReadToDelim(s).put == s.put
  {
    ScanLoopDoes(s);
  }

  lemma StartsBetween(s: Scan)
    requires BufferInv(s.src) && s.src.waiting == [] && |s.outbuf| == BUF_SIZE
    requires s == Started(s.src, s.dst, s.delim, s.outbuf)
    ensures Between(s) && Line(s) == if s.src.canRead then s.src.unread[..Ahead(s.src.unread, s.delim)] else []
  {
    assert Staged(s) == [] && s.put + Staged(s) + [] == [];
  }

  /** What a scan comes to, by the bytes `u` a readable source held: bytes moved, bytes left, the handler's calls. */
  predicate Outcome(u: seq<byte>, delim: int, moved: seq<byte>, left: seq<byte>, calls: seq<nat>) {
    var k := Ahead(u, delim);
    && moved == (if k < |u| then u[..k] else u[..k - k % BUF_SIZE])
    && left == (if k < |u| then u[k + 1..] else [])
    && calls == if k < |u| && k % BUF_SIZE != 0 then [k % BUF_SIZE] else []
  }

  predicate Scanned(s: Scan, r: Scan) {
    r.tasks == [] && Outcome(s.src.unread, s.delim, r.put, r.src.unread, r.calls)
  }

  lemma ScanResult(s: Scan, n: nat)
    requires BufferInv(s.src) && s.src.waiting == [] && s.src.canRead && s.dst.canWrite && |s.outbuf| == BUF_SIZE
    requires s == Started(s.src, s.dst, s.delim, s.outbuf) && n >= |s.src.unread| + 2
    ensures Scanned(s, RunScan(ReadToDelim(s), Works(n)))
  {
    StartsBetween(s);
    ScanRunsDown(s, n);
    ScanMeans(s, RunScan(ReadToDelim(s), Works(n)));
  }

  lemma ScanMeans(s: Scan, r: Scan)
    requires s.src.canRead && s.put == [] && Line(s) == s.src.unread[..Ahead(s.src.unread, s.delim)]
    ensures RanDown(s, r) ==> Scanned(s, r)
  {
    MovedPart(s.src.unread, Ahead(s.src.unread, s.delim), AtEnd(s));
  }

  lemma MovedPart(u: seq<byte>, k: nat, atEnd: bool)
    requires k <= |u| && if k < |u| then atEnd else atEnd ==> u == []
    ensures [] + Moved(u[..k], atEnd) == if k < |u| then u[..k] else u[..k - k % BUF_SIZE]
    ensures Reported(u[..k], atEnd) == if k < |u| && k % BUF_SIZE != 0 then [k % BUF_SIZE] else []
  {
  }

  /**
   A source that holds a delimiter: everything before it is moved, the delimiter is consumed, and the number reported
   is that of the bytes moved if and only if the delimiter comes within the first staging area, and not first.
   */
  lemma CountsExactly(src: State, dst: State, delim: int, outbuf: seq<byte>, n: nat)
    requires BufferInv(src) && src.waiting == [] && src.canRead && |outbuf| == BUF_SIZE && dst.canWrite
    requires n >= |src.unread| + 2
    requires Ahead(src.unread, delim) < |src.unread|
    ensures var r := RunScan(ReadToDelim(Started(src, dst, delim, outbuf)), Works(n));
      var k := Ahead(src.unread, delim);
      && r.put == src.unread[..k] && r.src.unread == src.unread[k + 1..]
      && r.calls == (if k % BUF_SIZE == 0 then [] else [k % BUF_SIZE])
      && (r.calls == [|r.put|] <==> 0 < k < BUF_SIZE)
  {
    ScanResult(Started(src, dst, delim, outbuf), n);
    WholeLine(src.unread[..Ahead(src.unread, delim)]);
  }

  lemma LineEnds(line: seq<byte>, delim: byte)
    requires delim !in line
    ensures Ahead(line + [delim], delim) == |line| && (line + [delim])[..|line|] == line
  {
    assert forall i | 0 <= i < |line| :: (line + [delim])[i] in line;
    AheadIs(line + [delim], delim, |line|);
  }

  /** A line one byte longer than the staging area: all of it is moved, and the handler is told 1. */
  lemma LongLineMiscounted(src: State, dst: State, delim: byte, outbuf: seq<byte>, line: seq<byte>, n: nat)
    requires BufferInv(src) && src.canRead && src.waiting == [] && src.unread == line + [delim]
    requires |line| == 16385 && delim !in line
    requires dst.canWrite && |outbuf| == BUF_SIZE && n >= |line| + 3
    ensures var r := RunScan(ReadToDelim(Started(src, dst, delim, outbuf)), Works(n));
      r.put == line && r.calls == [1]
  {
    LineEnds(line, delim);
    CountsExactly(src, dst, delim, outbuf, n);
  }

  // ---------- readers of the target ----------

  lemma PutTarget(s: Scan)
    requires s.tasks != [] && s.tasks[0].Put? && s.tasks[0].data != []
    ensures var w := Step(s.dst, Write(s.tasks[0].data)).0;
      RunTask(s).dst == if s.dst.canWrite then Step(w, Sync).0 else s.dst
    ensures s.dst.canWrite ==> RunTask(s).put == s.put + s.tasks[0].data
  {
    var data := s.tasks[0].data;
    var w := Step(s.dst, Write(data)).0;
    WriteReplies(s.dst, data);
    if s.dst.canWrite {
      TurnKeepsTarget(s.(tasks := s.tasks[1..], dst := Step(w, Sync).0, put := s.put + data,
                         total := s.total + |data|, writePos := 0));
    }
  }

  lemma NoPutTarget(s: Scan)
    requires s.tasks == [] || !s.tasks[0].Put?
    ensures RunTask(s).dst == s.dst
  {
    if s.tasks != [] && s.tasks[0].GotChar? && s.tasks[0].c.Some? {
      TurnKeepsTarget(Store(s.(tasks := s.tasks[1..]), s.tasks[0].c.value));
    }
  }

  /** After every flush into an open target: all was written, nobody waits beside bytes, all can be read at once. */
  lemma FlushedIsServed(s: Scan)
    requires BufferInv(s.dst) && s.dst.canWrite
    requires s.tasks != [] && s.tasks[0].Put? && s.tasks[0].data != []
    ensures var d := RunTask(s).dst;
      && (d.waiting == [] || d.unread == []) && d.synced == |d.unread|
      && BufferInv(d)
    ensures RunTask(s).put == s.put + s.tasks[0].data
  {
    PutTarget(s);
    WriteAndSyncSettle(s.dst, s.tasks[0].data);
  }

  lemma EventKeepsSettled(s: Scan, e: Event)
    requires Inv(s) && BufferInv(s.dst) && Settled(s.dst)
    requires e.Target? ==> !e.op.Write? && !e.op.Commit?
    ensures BufferInv(StepScan(s, e).dst) && Settled(StepScan(s, e).dst)
  {
    match e {
      case Source(op) =>
      case Target(op) => OthersKeepSettled(s.dst, op);
      case Work =>
        if s.tasks != [] && s.tasks[0].Put? {
          PutTarget(s);
          if s.dst.canWrite {
            FlushedIsServed(s);
          }
        } else {
          NoPutTarget(s);
        }
    }
  }

  /** The same over every run in which nobody else writes into the target. */
  lemma {:induction false} RunKeepsSettled(s: Scan, events: seq<Event>)
    requires Inv(s) && BufferInv(s.dst) && Settled(s.dst)
    requires forall e <- events :: Allowed(e) && (e.Target? ==> !e.op.Write? && !e.op.Commit?)
    ensures var d := RunScan(s, events).dst;
      && (d.waiting == [] || d.unread == []) && d.synced == |d.unread|
      && BufferInv(d)
    decreases |events|
  {
    if events != [] {
      DelimScan.EventInv(s, events[0]);
      EventKeepsSettled(s, events[0]);
      RunKeepsSettled(StepScan(s, events[0]), events[1..]);
    }
  }
}
