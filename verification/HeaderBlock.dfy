/** Printing a header map as lines, and reading header lines back into a map. */
module HeaderBlock {
  import opened Bytes
  import opened HttpHeaders

  const COLON: byte := 58
  const Separator: Text := [COLON, 32]
  const Eol: Text := [CR, LF]
  // "content-length" in lower case
  const ContentLength: Text := [99, 111, 110, 116, 101, 110, 116, 45, 108, 101, 110, 103, 116, 104]

  // ---------- trimming ----------

  function TrimLeft(s: Text): (r: Text)
    ensures r == [] || !IsSpace(r[0])
    ensures |r| <= |s| && r == s[|s| - |r|..] && forall i | 0 <= i < |s| - |r| :: IsSpace(s[i])
  {
    if s != [] && IsSpace(s[0]) then TrimLeft(s[1..]) else s
  }

  function TrimRight(s: Text): (r: Text)
    ensures r == [] || !IsSpace(r[|r| - 1])
    ensures |r| <= |s| && r == s[..|r|] && forall i | |r| <= i < |s| :: IsSpace(s[i])
  {
    if s != [] && IsSpace(s[|s| - 1]) then TrimRight(s[..|s| - 1]) else s
  }

  function Trim(s: Text): Text {
    TrimRight(TrimLeft(s))
  }

  predicate Blank(s: Text) {
    forall i | 0 <= i < |s| :: IsSpace(s[i])
  }

  predicate Trimmed(s: Text) {
    s == [] || (!IsSpace(s[0]) && !IsSpace(s[|s| - 1]))
  }

  /** Trimming leaves no blank at either end, and changes nothing exactly when there was none. */
  lemma TrimTrims(s: Text)
    ensures Trimmed(Trim(s)) && (Trim(s) == s <==> Trimmed(s))
  {
  }

  lemma LeftPart(s: Text, left: Text)
    requires |left| <= |s| && left == s[|s| - |left|..] && forall i | 0 <= i < |s| - |left| :: IsSpace(s[i])
    ensures s == s[..|s| - |left|] + left && Blank(s[..|s| - |left|])
  {
  }

  lemma RightPart(s: Text, right: Text)
    requires |right| <= |s| && right == s[..|right|] && forall i | |right| <= i < |s| :: IsSpace(s[i])
    ensures s == right + s[|right|..] && Blank(s[|right|..])
  {
  }

  /** What trimming takes away, before and after, is blank. */
  lemma TrimDropsBlanks(s: Text)
    ensures var left := TrimLeft(s);
      var before, after := s[..|s| - |left|], left[|TrimRight(left)|..];
      s == before + (Trim(s) + after) && Blank(before) && Blank(after)
  {
    var left := TrimLeft(s);
    LeftPart(s, left);
    RightPart(left, TrimRight(left));
  }

  method LtrimWhitespace(str: Text) returns (r: Text)
    ensures r == TrimLeft(str)
  {
    var index := 0;
    while index < |str| && IsSpace(str[index])
      invariant 0 <= index <= |str| && TrimLeft(str[index..]) == TrimLeft(str)
    {
      assert str[index..][1..] == str[index + 1..];
      index := index + 1;
    }
    r := str[index..];
  }

  method RtrimWhitespace(str: Text) returns (r: Text)
    ensures r == TrimRight(str)
  {
    var index := |str|;
    assert str[..index] == str;
    while index > 0 && IsSpace(str[index - 1])
      invariant 0 <= index <= |str| && TrimRight(str[..index]) == TrimRight(str)
    {
      assert str[..index][..index - 1] == str[..index - 1];
      index := index - 1;
    }
    r := str[..index];
  }

  method TrimWhitespace(str: Text) returns (r: Text)
    ensures r == Trim(str)
  {
    r := LtrimWhitespace(str);
    r := RtrimWhitespace(r);
  }

  // ---------- lines ----------

  /** The position of the first `c`, or the length of `s`. */
  function Find(s: Text, c: byte): (k: nat)
    ensures k <= |s| && c !in s[..k] && (k < |s| ==> s[k] == c)
  {
    if s == [] || s[0] == c then 0 else 1 + Find(s[1..], c)
  }

  lemma {:induction false} FindAt(a: Text, c: byte, b: Text)
    requires c !in a
    ensures Find(a + [c] + b, c) == |a|
  {
    if a != [] {
      assert (a + [c] + b)[1..] == a[1..] + [c] + b;
      FindAt(a[1..], c, b);
    }
  }

  /** getline: the text before the next line feed, and what follows it. */
  function Line(buf: Text): Text {
    buf[..Find(buf, LF)]
  }

  function AfterLine(buf: Text): (rest: Text)
    ensures buf != [] ==> |rest| < |buf|
  {
    var k := Find(buf, LF);
    if k < |buf| then buf[k + 1..] else []
  }

  predicate Refused(line: Text) {
    var colon := Find(line, COLON);
    colon == |line| || colon == 0
  }

  /** Name and value of a header line. */
  function Field(line: Text): Entry {
    var colon := Find(line, COLON);
    Entry(Trim(line[..colon]), Trim(if colon < |line| then line[colon + 1..] else []))
  }

  predicate IsContentLength(name: Text) {
    Folded(name) == ContentLength
  }

  function ValueOr(v: Option<Text>): Text {
    match v case None => [] case Some(t) => t
  }

  /** One field goes into the map: alone, or behind a comma after what is there. */
  function Merge(es: Entries, f: Entry): Entries {
    var current := ValueOr(Lookup(es, f.name));
    Put(es, f.name, if current == [] || IsContentLength(f.name) then f.value else current + Comma + f.value)
  }

  datatype Parsed = Accepted(headers: Entries, rest: Text) | BadRequest

  function Parse(es: Entries, buf: Text): Parsed
    decreases |buf|
  {
    if buf == [] then Accepted(es, [])
    else if Line(buf) == [CR] then Accepted(es, AfterLine(buf))
    else if Refused(Line(buf)) then BadRequest
    else Parse(Merge(es, Field(Line(buf))), AfterLine(buf))
  }

  /** The loop of handle_headers over the request buffer. */
  method ParseHeaders(headers: Headers, buf: Text) returns (accepted: bool, rest: Text)
    requires headers.Valid()
    modifies headers
    ensures headers.Valid()
    ensures match Parse(old(headers.entries), buf)
            case Accepted(es, r) => accepted && headers.entries == es && rest == r
            case BadRequest => !accepted
  {
    rest := buf;
    while rest != []
      invariant headers.Valid() && Parse(headers.entries, rest) == Parse(old(headers.entries), buf)
      decreases |rest|
    {
      var header := Line(rest);
      var colon := Find(header, COLON);
      if header == [CR] {
        return true, AfterLine(rest);
      }
      if colon == |header| || colon == 0 {
        return false, AfterLine(rest);
      }
      var name := TrimWhitespace(header[..colon]);
      var value := TrimWhitespace(header[colon + 1..]);
      ghost var es := headers.entries;
      var current := headers.Index(name);
      LookupPut(es, name, [], name);
      if current == [] || IsContentLength(name) {
        headers.Assign(name, value);
      } else {
        headers.Assign(name, current + Comma + value);
      }
      PutPut(es, name, [], value);
      assert headers.entries == Merge(es, Entry(name, value));
      rest := AfterLine(rest);
    }
    accepted := true;
  }

  /** Inserting an empty value first makes no difference to the assignment that follows. */
  lemma {:induction false} PutPut(es: Entries, name: Text, first: Text, value: Text)
    ensures Put(Put(es, name, first), name, value) == Put(es, name, value)
  {
    CompareFlip(name, name);
    if es != [] && Compare(es[0].name, name) < 0 {
      PutPut(es[1..], name, first, value);
      assert Put(es, name, first)[1..] == Put(es[1..], name, first);
    } else if es != [] {
      assert Put(es, name, first)[1..] == if Compare(es[0].name, name) == 0 then es[1..] else es;
    }
  }

  // ---------- what a block of fields means ----------

  /** The fields of a block, down to its empty line. */
  function Fields(buf: Text): seq<Entry>
    decreases |buf|
  {
    if buf == [] || Line(buf) == [CR] || Refused(Line(buf)) then []
    else [Field(Line(buf))] + Fields(AfterLine(buf))
  }

  function MergeAll(es: Entries, fields: seq<Entry>): Entries
    decreases |fields|
  {
    if fields == [] then es else MergeAll(Merge(es, fields[0]), fields[1..])
  }

  lemma {:induction false} ParseMerges(es: Entries, buf: Text)
    ensures Parse(es, buf).Accepted? ==> Parse(es, buf).headers == MergeAll(es, Fields(buf))
    decreases |buf|
  {
    if buf != [] && Line(buf) != [CR] && !Refused(Line(buf)) {
      ParseMerges(Merge(es, Field(Line(buf))), AfterLine(buf));
      assert Fields(buf)[1..] == Fields(AfterLine(buf));
    }
  }

  lemma MergeSorted(es: Entries, f: Entry)
    requires Sorted(es)
    ensures Sorted(Merge(es, f))
  {
    var current := ValueOr(Lookup(es, f.name));
    PutSorted(es, f.name, if current == [] || IsContentLength(f.name) then f.value else current + Comma + f.value);
  }

  lemma {:induction false} MergeAllSorted(es: Entries, fields: seq<Entry>)
    requires Sorted(es)
    ensures Sorted(MergeAll(es, fields))
    decreases |fields|
  {
    if fields != [] {
      MergeSorted(es, fields[0]);
      MergeAllSorted(Merge(es, fields[0]), fields[1..]);
    }
  }

  /** The values a block gives for a name, in order. */
  function ValuesOf(fields: seq<Entry>, name: Text): seq<Text> {
    if fields == [] then []
    else (if Folded(fields[0].name) == Folded(name) then [fields[0].value] else []) + ValuesOf(fields[1..], name)
  }

  /** The first value, then each further one behind a comma. */
  function Join(values: seq<Text>): Text {
    if values == [] then [] else values[0] + JoinRest(values[1..])
  }

  function JoinRest(values: seq<Text>): Text {
    if values == [] then [] else Comma + values[0] + JoinRest(values[1..])
  }

  function DropEmpty(values: seq<Text>): seq<Text> {
    if values != [] && values[0] == [] then DropEmpty(values[1..]) else values
  }

  /** What a name that already reads `before` reads after `values` have been merged into it. */
  function Combined(name: Text, before: Text, values: seq<Text>): Text {
    if values == [] then before
    else if IsContentLength(name) then values[|values| - 1]
    else if before == [] then Join(DropEmpty(values))
    else before + JoinRest(values)
  }

  lemma CombinedStep(name: Text, before: Text, values: seq<Text>)
    requires values != []
    ensures var next := if before == [] || IsContentLength(name) then values[0] else before + Comma + values[0];
      Combined(name, next, values[1..]) == Combined(name, before, values)
  {
    assert values[0] + [] == values[0];
    if before != [] {
      var rest := JoinRest(values[1..]);
      assert before + (Comma + values[0] + rest) == (before + Comma + values[0]) + rest;
    }
  }

  /** Case-insensitive names share their value and their special treatment. */
  lemma {:induction false} MergeAllLookup(es: Entries, fields: seq<Entry>, name: Text)
    requires Sorted(es)
    ensures var values := ValuesOf(fields, name);
      Lookup(MergeAll(es, fields), name) ==
      if values == [] then Lookup(es, name) else Some(Combined(name, ValueOr(Lookup(es, name)), values))
    decreases |fields|
  {
    if fields != [] {
      var f := fields[0];
      var values := ValuesOf(fields, name);
      var current := ValueOr(Lookup(es, f.name));
      var next := if current == [] || IsContentLength(f.name) then f.value else current + Comma + f.value;
      MergeSorted(es, f);
      LookupPut(es, f.name, next, name);
      MergeAllLookup(Merge(es, f), fields[1..], name);
      if Folded(f.name) == Folded(name) {
        FoldedSame(f.name, name);
        LookupAlike(es, f.name, name);
        assert values[0] == f.value && values[1..] == ValuesOf(fields[1..], name);
        CombinedStep(name, ValueOr(Lookup(es, name)), values);
      } else {
        assert values == ValuesOf(fields[1..], name);
      }
    }
  }

  /**
   After an accepted block, read into an empty map: every name has its values joined by ", " in order from its first
   non-empty one, except Content-Length, which has its last value; names never given are absent.
   */
  lemma AcceptedBlockMeans(buf: Text, name: Text)
    ensures Parse([], buf).Accepted? ==>
      var values := ValuesOf(Fields(buf), name);
      var headers := Parse([], buf).headers;
      && Sorted(headers)
      && Lookup(headers, name) ==
         if values == [] then None
         else if IsContentLength(name) then Some(values[|values| - 1])
         else Some(Join(DropEmpty(values)))
  {
    ParseMerges([], buf);
    MergeAllSorted([], Fields(buf));
    MergeAllLookup([], Fields(buf), name);
  }

  // ---------- printing ----------

  /** A printed line without its line feed, as getline hands it back. */
  function LineText(e: Entry): Text {
    e.name + Separator + e.value + [CR]
  }

  function Print(es: Entries): Text {
    if es == [] then Eol else LineText(es[0]) + [LF] + Print(es[1..])
  }

  lemma PrintStep(out: Text, es: Entries, i: nat)
    requires i < |es|
    ensures (out + es[i].name + Separator + es[i].value + Eol) + Print(es[i + 1..]) == out + Print(es[i..])
  {
  }

  /** The printing loop over the map. */
  method PrintHeaders(headers: Headers) returns (out: Text)
    ensures out == Print(headers.entries)
  {
    out := [];
    var i := 0;
    while i < |headers.entries|
      invariant 0 <= i <= |headers.entries| && out + Print(headers.entries[i..]) == Print(headers.entries)
    {
      var header := headers.entries[i];
      PrintStep(out, headers.entries, i);
      out := out + header.name + Separator + header.value + Eol;
      i := i + 1;
    }
    out := out + Eol;
  }

  // ---------- the round trip ----------

  /** What a header must be like to survive on the wire. */
  predicate Clean(e: Entry) {
    && e.name != [] && Trimmed(e.name) && COLON !in e.name && LF !in e.name
    && Trimmed(e.value) && LF !in e.value
  }

  /** The line an entry prints to, read back. */
  predicate LineRefused(e: Entry) {
    Refused(LineText(e))
  }

  function ReadBack(es: Entries): seq<Entry> {
    if es == [] then [] else [Field(LineText(es[0]))] + ReadBack(es[1..])
  }

  predicate OneLine(e: Entry) {
    LF !in e.name && LF !in e.value
  }

  lemma LineBack(e: Entry, more: Text)
    requires OneLine(e)
    ensures var buf := LineText(e) + [LF] + more;
      Line(buf) == LineText(e) && AfterLine(buf) == more && LineText(e) != [CR]
  {
    FindAt(LineText(e), LF, more);
    var buf := LineText(e) + [LF] + more;
    assert buf[|LineText(e)| + 1..] == more && buf[..|LineText(e)|] == LineText(e);
    assert COLON in LineText(e) by { assert LineText(e)[|e.name|] == COLON; }
  }

  /** A printed block of one-line entries is read line by line: refused, or merged field by field. */
  lemma {:induction false} PrintedParses(acc: Entries, es: Entries, rest: Text)
    requires forall e <- es :: OneLine(e)
    ensures Parse(acc, Print(es) + rest) ==
            if forall e <- es :: !LineRefused(e) then Accepted(MergeAll(acc, ReadBack(es)), rest) else BadRequest
    decreases |es|
  {
    var buf := Print(es) + rest;
    if es == [] {
      FindAt([CR], LF, rest);
      assert buf == [CR] + [LF] + rest && buf[..1] == [CR] && buf[2..] == rest;
    } else {
      var more := Print(es[1..]) + rest;
      assert buf == LineText(es[0]) + [LF] + more;
      LineBack(es[0], more);
      if !LineRefused(es[0]) {
        PrintedParses(Merge(acc, Field(LineText(es[0]))), es[1..], rest);
        assert forall e <- es :: e == es[0] || e in es[1..];
        if forall e <- es[1..] :: !LineRefused(e) {
          assert ReadBack(es)[1..] == ReadBack(es[1..]);
        }
      }
    }
  }

  lemma TrimBlanks(c: byte, s: Text)
    requires IsSpace(c)
    ensures TrimLeft([c] + s) == TrimLeft(s) && TrimRight(s + [c]) == TrimRight(s)
  {
  }

  lemma TrimLine(v: Text)
    requires Trimmed(v)
    ensures Trim([32] + v + [CR]) == v
  {
    assert [32] + v + [CR] == [32] + (v + [CR]);
    TrimBlanks(32, v + [CR]);
    TrimBlanks(CR, v);
    if v == [] {
      TrimBlanks(CR, []);
      assert v + [CR] == [CR] + [];
    } else {
      assert TrimLeft(v + [CR]) == v + [CR];
    }
  }

  /** A clean header's line gives the header back. */
  lemma CleanFieldBack(e: Entry)
    requires Clean(e)
    ensures !LineRefused(e) && Field(LineText(e)) == e
  {
    var line := LineText(e);
    assert line == e.name + [COLON] + ([32] + e.value + [CR]);
    FindAt(e.name, COLON, [32] + e.value + [CR]);
    assert line[..|e.name|] == e.name && line[|e.name| + 1..] == [32] + e.value + [CR];
    TrimTrims(e.name);
    TrimLine(e.value);
  }

  lemma {:induction false} CleanReadBack(es: Entries)
    requires forall e <- es :: Clean(e)
    ensures (forall e <- es :: !LineRefused(e)) && ReadBack(es) == es
  {
    if es != [] {
      assert es[0] in es && forall e <- es[1..] :: e in es;
      assert es == [es[0]] + es[1..];
      CleanFieldBack(es[0]);
      CleanReadBack(es[1..]);
    }
  }

  lemma {:induction false} PutLast(acc: Entries, e: Entry)
    requires Sorted(acc + [e])
    ensures Lookup(acc, e.name) == None && Put(acc, e.name, e.value) == acc + [e]
  {
    if acc != [] {
      assert (acc + [e])[0] == acc[0] && (acc + [e])[|acc|] == e;
      assert acc + [e] == [acc[0]] + (acc[1..] + [e]);
      SortedCons(acc[0], acc[1..] + [e]);
      PutLast(acc[1..], e);
    }
  }

  /** Merging a sorted list into its own prefix rebuilds the list. */
  lemma {:induction false} MergeSortedList(acc: Entries, es: Entries)
    requires Sorted(acc + es)
    ensures MergeAll(acc, es) == acc + es
    decreases |es|
  {
    if es != [] {
      var all := acc + es;
      assert all[..|acc| + 1] == acc + [es[0]];
      assert Sorted(acc + [es[0]]) by {
        assert forall i | 0 <= i <= |acc| :: (acc + [es[0]])[i] == all[i];
      }
      PutLast(acc, es[0]);
      assert Merge(acc, es[0]) == acc + [es[0]];
      assert (acc + [es[0]]) + es[1..] == all;
      MergeSortedList(acc + [es[0]], es[1..]);
    } else {
      assert acc + es == acc;
    }
  }

  /** Clean headers survive. */
  lemma CleanRoundTrip(es: Entries, rest: Text)
    requires Sorted(es) && forall e <- es :: Clean(e)
    ensures Parse([], Print(es) + rest) == Accepted(es, rest)
  {
    CleanReadBack(es);
    PrintedParses([], es, rest);
    assert [] + es == es;
    MergeSortedList([], es);
  }

  // ---------- and only they do ----------

  lemma {:induction false} ParsedOneLine(acc: Entries, buf: Text)
    requires forall e <- acc :: OneLine(e)
    ensures Parse(acc, buf).Accepted? ==> forall e <- Parse(acc, buf).headers :: OneLine(e)
    decreases |buf|
  {
    if buf != [] && Line(buf) != [CR] && !Refused(Line(buf)) {
      var f := Field(Line(buf));
      FieldOneLine(Line(buf));
      MergeOneLine(acc, f);
      ParsedOneLine(Merge(acc, f), AfterLine(buf));
    }
  }

  lemma TrimPart(s: Text, c: byte)
    requires c !in s
    ensures c !in Trim(s)
  {
  }

  lemma FieldOneLine(line: Text)
    requires LF !in line && !Refused(line)
    ensures OneLine(Field(line))
  {
    var colon := Find(line, COLON);
    assert LF !in line[..colon] && LF !in line[colon + 1..];
    TrimPart(line[..colon], LF);
    TrimPart(line[colon + 1..], LF);
  }

  lemma {:induction false} PutMembers(es: Entries, name: Text, value: Text)
    ensures |Put(es, name, value)| == |es| + (if Lookup(es, name).None? then 1 else 0)
    ensures forall e <- Put(es, name, value) ::
      e in es || (e.value == value && (e.name == name || exists d <- es :: d.name == e.name))
    ensures Lookup(es, name).None? ==> forall e <- Put(es, name, value) :: e in es || e == Entry(name, value)
  {
    if es != [] && Compare(es[0].name, name) < 0 {
      PutMembers(es[1..], name, value);
    }
  }

  lemma {:induction false} LookupMember(es: Entries, name: Text)
    ensures Lookup(es, name).Some? ==> exists e <- es :: e.value == Lookup(es, name).value
  {
    if es != [] {
      LookupMember(es[1..], name);
    }
  }

  lemma MergeOneLine(es: Entries, f: Entry)
    requires (forall e <- es :: OneLine(e)) && OneLine(f)
    ensures forall e <- Merge(es, f) :: OneLine(e)
  {
    var current := ValueOr(Lookup(es, f.name));
    var next := if current == [] || IsContentLength(f.name) then f.value else current + Comma + f.value;
    LookupMember(es, f.name);
    assert LF !in next;
    PutMembers(es, f.name, next);
  }

  /** If merging makes as many entries as there were fields, no two fields met: each entry is a field. */
  lemma {:induction false} MergeCount(acc: Entries, fields: seq<Entry>)
    ensures |MergeAll(acc, fields)| <= |acc| + |fields|
    ensures |MergeAll(acc, fields)| == |acc| + |fields| ==>
      forall e <- MergeAll(acc, fields) :: e in acc || e in fields
    decreases |fields|
  {
    if fields != [] {
      var f := fields[0];
      var current := ValueOr(Lookup(acc, f.name));
      PutMembers(acc, f.name, if current == [] || IsContentLength(f.name) then f.value else current + Comma + f.value);
      MergeCount(Merge(acc, f), fields[1..]);
    }
  }

  predicate FieldClean(f: Entry) {
    Trimmed(f.name) && COLON !in f.name && Trimmed(f.value)
  }

  lemma FieldIsClean(line: Text)
    ensures FieldClean(Field(line))
  {
    var colon := Find(line, COLON);
    TrimTrims(line[..colon]);
    TrimTrims(if colon < |line| then line[colon + 1..] else []);
    TrimPart(line[..colon], COLON);
  }

  lemma {:induction false} ReadBackClean(es: Entries)
    ensures |ReadBack(es)| == |es| && forall f <- ReadBack(es) :: FieldClean(f)
  {
    if es != [] {
      FieldIsClean(LineText(es[0]));
      ReadBackClean(es[1..]);
    }
  }

  lemma NamelessRefused(e: Entry)
    ensures e.name == [] ==> LineRefused(e)
  {
  }

  lemma OnlyCleanRoundTrip(es: Entries, rest: Text)
    ensures Parse([], Print(es) + rest) == Accepted(es, rest) ==> forall e <- es :: Clean(e)
  {
    if Parse([], Print(es) + rest) == Accepted(es, rest) {
      ParsedOneLine([], Print(es) + rest);
      PrintedParses([], es, rest);
      ReadBackClean(es);
      MergeCount([], ReadBack(es));
      forall e | e in es ensures Clean(e) {
        NamelessRefused(e);
      }
    }
  }

  /**
   The header block round trip, exactly: printing a map and reading it back gives the same map, and leaves what
   follows the block unread, if and only if every name is non-empty, trimmed and free of colons and line feeds, and
   every value is trimmed and free of line feeds.
   */
  lemma RoundTripExactly(es: Entries, rest: Text)
    requires Sorted(es)
    ensures Parse([], Print(es) + rest) == Accepted(es, rest) <==> forall e <- es :: Clean(e)
  {
    if forall e <- es :: Clean(e) {
      CleanRoundTrip(es, rest);
    }
    OnlyCleanRoundTrip(es, rest);
  }
}
