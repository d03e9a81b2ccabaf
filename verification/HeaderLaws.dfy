/** The header block on the wire, byte by byte: which lines are fields, what they do to the map, how it is printed. */
module HeaderLaws {
  import opened Bytes
  import opened HttpHeaders
  import opened HeaderBlock

  // ---------- lines ----------

  lemma LineOf(line: Text, more: Text)
    requires 10 !in line
    ensures Line(line + [10] + more) == line && AfterLine(line + [10] + more) == more
  {
    FindAt(line, LF, more);
    var buf := line + [10] + more;
    assert buf[..|line|] == line && buf[|line| + 1..] == more;
  }

  lemma {:induction false} FindNone(s: Text, c: byte)
    requires c !in s
    ensures Find(s, c) == |s|
  {
    if s != [] {
      FindNone(s[1..], c);
    }
  }

  lemma LineAlone(line: Text)
    requires 10 !in line
    ensures Line(line) == line && AfterLine(line) == []
  {
    FindNone(line, LF);
  }

  /** The block ends at an empty line, and what follows it is left. */
  lemma EndsAtEmptyLine(es: Entries, more: Text)
    ensures Parse(es, [13, 10] + more) == Accepted(es, more)
  {
    LineOf([13], more);
    assert [13] + [10] + more == [13, 10] + more;
  }

  /** Or where the bytes end. */
  lemma EndsWithInput(es: Entries)
    ensures Parse(es, []) == Accepted(es, [])
  {
  }

  /** A line without a colon, or with nothing before it, makes the request bad. */
  lemma RefusesLine(es: Entries, line: Text, more: Text)
    requires 10 !in line && line != [13]
    requires 58 !in line || line[0] == 58
    ensures Parse(es, line + [10] + more) == BadRequest
  {
    LineOf(line, more);
    assert Find(line, COLON) < |line| ==> line[Find(line, COLON)] in line;
  }

  lemma FieldOf(name: Text, value: Text)
    requires name != [] && 58 !in name
    ensures var line := name + [58] + value;
      line != [] && line != [13] && !Refused(line) && Field(line) == Entry(Trim(name), Trim(value))
  {
    var line := name + [58] + value;
    FindAt(name, COLON, value);
    assert line[|name|] == 58;
    assert line[..|name|] == name && line[|name| + 1..] == value;
  }

  /** Any other line is a field: up to its first colon the name, behind it the value, both trimmed. */
  lemma TakesField(es: Entries, name: Text, value: Text, more: Text)
    requires name != [] && 10 !in name && 58 !in name && 10 !in value
    ensures Parse(es, name + [58] + value + [10] + more) == Parse(Merge(es, Entry(Trim(name), Trim(value))), more)
  {
    LineOf(name + [58] + value, more);
    FieldOf(name, value);
  }

  /** The last line needs no line feed. */
  lemma TakesLastField(es: Entries, name: Text, value: Text)
    requires name != [] && 10 !in name && 58 !in name && 10 !in value
    ensures Parse(es, name + [58] + value) == Accepted(Merge(es, Entry(Trim(name), Trim(value))), [])
  {
    LineAlone(name + [58] + value);
    FieldOf(name, value);
  }

  // ---------- fields ----------

  // "Content-Length"
  const CONTENT_LENGTH: Text := [67, 111, 110, 116, 101, 110, 116, 45, 76, 101, 110, 103, 116, 104]

  /** What a field does to the map, seen through any spelling of any name. */
  lemma MergeMeans(es: Entries, f: Entry, name: Text)
    requires Sorted(es)
    ensures Lookup(Merge(es, f), name) ==
      if !SameName(f.name, name) then Lookup(es, name)
      else match Lookup(es, name)
           case None => Some(f.value)
           case Some(current) =>
             if current == [] || SameName(name, CONTENT_LENGTH) then Some(f.value)
             else Some(current + Ascii(", ") + f.value)
  {
    var current := ValueOr(Lookup(es, f.name));
    FoldedSame(f.name, name);
    var next := if current == [] || IsContentLength(f.name) then f.value else current + Comma + f.value;
    LookupPut(es, f.name, next, name);
    if SameName(f.name, name) {
      LookupAlike(es, f.name, name);
      ContentLengthNamed(name);
    }
    assert Comma == Ascii(", ");
  }

  lemma FoldsToSame(name: Text, plain: Text, small: Text)
    requires |plain| == |small| && forall i | 0 <= i < |plain| :: small[i] == ToLower(plain[i])
    ensures Folded(name) == small <==> SameName(name, plain)
  {
    assert Folded(plain) == small;
    FoldedSame(name, plain);
  }

  lemma ContentLengthNamed(name: Text)
    ensures IsContentLength(name) <==> SameName(name, CONTENT_LENGTH)
  {
    FoldsToSame(name, CONTENT_LENGTH, ContentLength);
  }

  /** Joining, one value at a time from the left. */
  lemma {:induction false} JoinMeans(values: seq<Text>, last: Text)
    ensures Join([last]) == last
    ensures values != [] ==> Join(values + [last]) == Join(values) + Ascii(", ") + last
  {
    assert last + [] == last && [last][1..] == [];
    if values != [] {
      assert (values + [last])[1..] == values[1..] + [last];
      JoinRestMeans(values[1..], last);
      assert values[0] + (JoinRest(values[1..]) + Ascii(", ") + last) == Join(values) + Ascii(", ") + last;
    }
  }

  lemma {:induction false} JoinRestMeans(values: seq<Text>, last: Text)
    ensures JoinRest(values + [last]) == JoinRest(values) + Ascii(", ") + last
  {
    assert Comma == Ascii(", ");
    if values == [] {
      assert values + [last] == [last] && [last][1..] == [];
      assert Comma + last + [] == [] + Comma + last;
    } else {
      assert (values + [last])[1..] == values[1..] + [last];
      JoinRestMeans(values[1..], last);
    }
  }

  // ---------- printing ----------

  /** One line an entry, in the map's order, and an empty line. */
  lemma PrintMeans(e: Entry, es: Entries)
    ensures Print([]) == [13, 10]
    ensures Print([e] + es) == e.name + Ascii(": ") + e.value + [13, 10] + Print(es)
  {
    assert ([e] + es)[1..] == es;
    assert Separator == Ascii(": ");
    assert LineText(e) + [LF] == e.name + Separator + e.value + [13, 10];
  }
}
