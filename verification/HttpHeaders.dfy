/** The header map: names compared without regard to ASCII case, one entry a name, in comparison order. */
module HttpHeaders {
  import opened Bytes

  type Text = seq<byte>

  /** A `char` as the comparison sees it: bytes from 0x80 on are negative. */
  function SignedChar(c: byte): int {
    if c < 0x80 then c else c - 0x100
  }

  function ToLower(c: byte): byte {
    if 65 <= c <= 90 then c + 32 else c
  }

  function Folded(s: Text): (r: Text)
    ensures |r| == |s| && forall i | 0 <= i < |s| :: r[i] == ToLower(s[i])
  {
    if s == [] then [] else [ToLower(s[0])] + Folded(s[1..])
  }

  function Sign(l: int, r: int): int {
    if l > r then 1 else if l < r then -1 else 0
  }

  /** Lexicographic order of the folded texts. */
  function Compare(l: Text, r: Text): int {
    if l == [] then (if r == [] then 0 else -1)
    else if r == [] then 1
    else
      var first := Sign(SignedChar(ToLower(l[0])), SignedChar(ToLower(r[0])));
      if first != 0 then first else Compare(l[1..], r[1..])
  }

  /** The comparison loop with its early returns. */
  method Icmp(left: Text, right: Text) returns (r: int)
    ensures r == Compare(left, right)
  {
    var i := 0;
    while i < |left|
      invariant 0 <= i <= |left| && i <= |right|
      invariant Compare(left, right) == Compare(left[i..], right[i..])
    {
      if i == |right| {
        return 1;
      }
      var l, r0 := SignedChar(ToLower(left[i])), SignedChar(ToLower(right[i]));
      if l > r0 {
        return 1;
      }
      if l < r0 {
        return -1;
      }
      assert left[i..][1..] == left[i + 1..] && right[i..][1..] == right[i + 1..];
      i := i + 1;
    }
    r := if i < |right| then -1 else 0;
  }

  lemma SameChar(a: byte, b: byte)
    ensures Sign(SignedChar(a), SignedChar(b)) == 0 <==> a == b
  {
  }

  /** Zero means equal up to ASCII case. */
  lemma {:induction false} CompareZero(l: Text, r: Text)
    ensures Compare(l, r) == 0 <==> Folded(l) == Folded(r)
  {
    if l != [] && r != [] {
      SameChar(ToLower(l[0]), ToLower(r[0]));
      CompareZero(l[1..], r[1..]);
      assert Folded(l) == [ToLower(l[0])] + Folded(l[1..]) && Folded(r) == [ToLower(r[0])] + Folded(r[1..]);
      assert Folded(l)[1..] == Folded(l[1..]) && Folded(r)[1..] == Folded(r[1..]);
    }
  }

  lemma {:induction false} CompareFlip(l: Text, r: Text)
    ensures Compare(l, r) == -Compare(r, l) && -1 <= Compare(l, r) <= 1
  {
    if l != [] && r != [] {
      CompareFlip(l[1..], r[1..]);
    }
  }

  /** A total preorder: reflexive and total by `CompareFlip`, transitive here, strictly where one step is strict. */
  lemma {:induction false} CompareTransitive(a: Text, b: Text, c: Text)
    requires Compare(a, b) <= 0 && Compare(b, c) <= 0
    ensures Compare(a, c) <= 0
    ensures Compare(a, c) == 0 ==> Compare(a, b) == 0 && Compare(b, c) == 0
  {
    if a != [] && b != [] && c != [] {
      if Sign(SignedChar(ToLower(a[0])), SignedChar(ToLower(b[0]))) == 0
        && Sign(SignedChar(ToLower(b[0])), SignedChar(ToLower(c[0]))) == 0 {
        CompareTransitive(a[1..], b[1..], c[1..]);
      }
    }
  }

  // ---------- the map ----------

  /** Two bytes that a comparison without regard to case takes for the same: equal, or a letter in both cases. */
  predicate Alike(a: byte, b: byte) {
    a == b || (65 <= a <= 90 && b == a + 32) || (65 <= b <= 90 && a == b + 32)
  }

  predicate SameName(l: Text, r: Text) {
    |l| == |r| && forall i | 0 <= i < |l| :: Alike(l[i], r[i])
  }

  /** Folding makes two texts equal exactly when they agree byte by byte up to the case of letters. */
  lemma FoldedSame(l: Text, r: Text)
    ensures Folded(l) == Folded(r) <==> SameName(l, r)
  {
    if Folded(l) == Folded(r) {
      assert |l| == |r|;
      forall i | 0 <= i < |l| ensures Alike(l[i], r[i]) {
        assert Folded(l)[i] == Folded(r)[i];
      }
    } else if |l| == |r| && SameName(l, r) {
      assert forall i | 0 <= i < |l| :: Folded(l)[i] == Folded(r)[i];
    }
  }

  /** The comparison is zero for the same name in any spelling, and for nothing else. */
  lemma SameNameExactly(l: Text, r: Text)
    ensures Compare(l, r) == 0 <==> SameName(l, r)
  {
    CompareZero(l, r);
    FoldedSame(l, r);
  }

  /** `l` and `r` are the same up to `i`. */
  predicate AlikeBefore(l: Text, r: Text, i: nat) {
    i <= |l| && i <= |r| && forall j | 0 <= j < i :: Alike(l[j], r[j])
  }

  lemma {:induction false} CompareSkips(l: Text, r: Text, i: nat)
    requires AlikeBefore(l, r, i)
    ensures Compare(l, r) == Compare(l[i..], r[i..])
  {
    if i > 0 {
      assert Alike(l[0], r[0]);
      CompareSkips(l[1..], r[1..], i - 1);
      assert l[1..][i - 1..] == l[i..] && r[1..][i - 1..] == r[i..];
    }
  }

  /**
   The first difference decides: the smaller byte comes first, capital letters counting as small ones and bytes from
   128 on as negative. A proper prefix comes before.
   */
  lemma FirstDifference(l: Text, r: Text, i: nat)
    requires AlikeBefore(l, r, i) && (i == |l| || i == |r| || !Alike(l[i], r[i]))
    ensures Compare(l, r) ==
      if i == |l| && i == |r| then 0
      else if i == |l| then -1
      else if i == |r| then 1
      else
        var a: int := if 65 <= l[i] <= 90 then l[i] as int + 32 else if l[i] < 128 then l[i] else l[i] as int - 256;
        var b: int := if 65 <= r[i] <= 90 then r[i] as int + 32 else if r[i] < 128 then r[i] else r[i] as int - 256;
        if a < b then -1 else 1
  {
    CompareSkips(l, r, i);
  }

  datatype Entry = Entry(name: Text, value: Text)

  type Entries = seq<Entry>

  /** The map's order; strict, so no two names are equal up to case. */
  ghost predicate Sorted(es: Entries) {
    forall i, j | 0 <= i < j < |es| :: Compare(es[i].name, es[j].name) < 0
  }

  function Lookup(es: Entries, name: Text): Option<Text> {
    if es == [] then None
    else
      var c := Compare(es[0].name, name);
      if c < 0 then Lookup(es[1..], name) else if c == 0 then Some(es[0].value) else None
  }

  /** Assigning through `operator[]`: a new entry where the order wants it, or the stored one's value replaced. */
  function Put(es: Entries, name: Text, value: Text): Entries {
    if es == [] then [Entry(name, value)]
    else
      var c := Compare(es[0].name, name);
      if c < 0 then [es[0]] + Put(es[1..], name, value)
      else if c == 0 then [Entry(es[0].name, value)] + es[1..]
      else [Entry(name, value)] + es
  }

  /** Every name of `es` comes after `name`. */
  ghost predicate AllAfter(name: Text, es: Entries) {
    forall e <- es :: Compare(name, e.name) < 0
  }

  lemma SortedCons(e: Entry, es: Entries)
    ensures Sorted([e] + es) <==> AllAfter(e.name, es) && Sorted(es)
  {
    var all := [e] + es;
    if Sorted(all) {
      forall i | 0 <= i < |es|
        ensures Compare(e.name, es[i].name) < 0
      {
        assert all[0] == e && all[i + 1] == es[i];
      }
      assert forall i | 0 <= i < |es| :: es[i] == all[i + 1];
    }
  }

  lemma AfterTrans(a: Text, b: Text, es: Entries)
    requires Compare(a, b) <= 0 && AllAfter(b, es)
    ensures AllAfter(a, es)
  {
    forall e | e in es
      ensures Compare(a, e.name) < 0
    {
      CompareTransitive(a, b, e.name);
    }
  }

  /** Assignment keeps the order and adds no name but its own. */
  lemma {:induction false} PutSorted(es: Entries, name: Text, value: Text)
    requires Sorted(es)
    ensures Sorted(Put(es, name, value))
    ensures forall low | AllAfter(low, es) && Compare(low, name) < 0 :: AllAfter(low, Put(es, name, value))
  {
    if es == [] {
      assert Put(es, name, value) == [Entry(name, value)];
    } else {
      var c := Compare(es[0].name, name);
      assert es == [es[0]] + es[1..];
      SortedCons(es[0], es[1..]);
      CompareFlip(es[0].name, name);
      if c < 0 {
        PutSorted(es[1..], name, value);
        SortedCons(es[0], Put(es[1..], name, value));
      } else if c == 0 {
        SortedCons(Entry(es[0].name, value), es[1..]);
      } else {
        AfterTrans(name, es[0].name, es[1..]);
        SortedCons(Entry(name, value), es);
      }
    }
  }

  /** Reading after assignment: the names equal up to case see the new value, all others what they saw before. */
  lemma {:induction false} LookupPut(es: Entries, name: Text, value: Text, other: Text)
    requires Sorted(es)
    ensures Lookup(Put(es, name, value), other) ==
            if Folded(other) == Folded(name) then Some(value) else Lookup(es, other)
  {
    CompareZero(name, other);
    if es != [] {
      var c := Compare(es[0].name, name);
      assert es == [es[0]] + es[1..];
      SortedCons(es[0], es[1..]);
      CompareFlip(es[0].name, name);
      CompareFlip(es[0].name, other);
      CompareFlip(name, other);
      if c < 0 {
        LookupPut(es[1..], name, value, other);
        assert Put(es, name, value)[1..] == Put(es[1..], name, value);
        if Compare(name, other) == 0 {
          CompareTransitive(es[0].name, name, other);
        }
      } else if c == 0 {
        assert Put(es, name, value)[1..] == es[1..];
        SameAsFirst(es[0].name, name, other);
      } else {
        assert Put(es, name, value)[1..] == es;
        if Compare(name, other) == 0 {
          CompareTransitive(other, name, es[0].name);
        }
        if Compare(name, other) > 0 {
          CompareTransitive(other, name, es[0].name);
        }
      }
    }
  }

  /** Names equal up to case stand in the same relation to every other name. */
  lemma SameAsFirst(a: Text, b: Text, c: Text)
    requires Compare(a, b) == 0
    ensures Compare(a, c) == Compare(b, c)
  {
    CompareFlip(a, b);
    CompareFlip(a, c);
    CompareFlip(b, c);
    if Compare(a, c) <= 0 {
      CompareTransitive(b, a, c);
    }
    if Compare(b, c) <= 0 {
      CompareTransitive(a, b, c);
    }
  }

  /** At most one entry for all spellings of a name. */
  lemma OneEntryPerName(es: Entries, i: nat, j: nat)
    requires Sorted(es) && i < |es| && j < |es| && Folded(es[i].name) == Folded(es[j].name)
    ensures i == j
  {
    CompareZero(es[i].name, es[j].name);
    CompareFlip(es[i].name, es[j].name);
  }

  const Comma: Text := [44, 32]

  /** What `add` leaves: a first value, or the old one and the new one joined by a comma. */
  function Added(es: Entries, name: Text, value: Text): Entries {
    match Lookup(es, name)
    case None => Put(es, name, value)
    case Some(current) => Put(es, name, current + Comma + value)
  }

  /** Assigning under another spelling keeps the one stored first; only a new name adds an entry. */
  lemma {:induction false} PutKeepsNames(es: Entries, name: Text, value: Text)
    ensures |Put(es, name, value)| == |es| + (if Lookup(es, name).Some? then 0 else 1)
    ensures Lookup(es, name).Some? ==> forall i | 0 <= i < |es| :: Put(es, name, value)[i].name == es[i].name
  {
    if es != [] && Compare(es[0].name, name) < 0 {
      PutKeepsNames(es[1..], name, value);
      assert Put(es, name, value)[1..] == Put(es[1..], name, value);
      assert forall i | 0 < i < |es| ::
          es[i] == es[1..][i - 1] && Put(es, name, value)[i] == Put(es[1..], name, value)[i - 1];
    }
  }

  /** `add` seen through any spelling of any name. */
  lemma AddedMeans(es: Entries, name: Text, value: Text, other: Text)
    requires Sorted(es)
    ensures Lookup(Added(es, name, value), other) ==
      if !SameName(name, other) then Lookup(es, other)
      else match Lookup(es, other)
           case None => Some(value)
           case Some(current) => Some(current + Ascii(", ") + value)
  {
    var next := match Lookup(es, name) case None => value case Some(current) => current + Comma + value;
    FoldedSame(name, other);
    LookupPut(es, name, next, other);
    if SameName(name, other) {
      LookupAlike(es, name, other);
    }
    assert Comma == Ascii(", ");
  }

  /** Any spelling of a name finds the same value. */
  lemma LookupAlike(es: Entries, a: Text, b: Text)
    requires Sorted(es) && SameName(a, b)
    ensures Lookup(es, a) == Lookup(es, b)
  {
    FoldedSame(a, b);
    LookupFinds(es, a);
    LookupFinds(es, b);
  }

  class Headers {
    var entries: Entries

    ghost predicate Valid()
      reads this
    {
      Sorted(entries)
    }

    constructor ()
      ensures Valid() && entries == []
    {
      entries := [];
    }

    method Has(name: Text) returns (found: bool)
      requires Valid()
      ensures found <==> exists e <- entries :: SameName(e.name, name)
      ensures found == Lookup(entries, name).Some?
    {
      found := Lookup(entries, name).Some?;
      LookupFinds(entries, name);
      forall e | e in entries ensures Folded(e.name) == Folded(name) <==> SameName(e.name, name) {
        FoldedSame(e.name, name);
      }
    }

    /** `operator[]`: an absent name is inserted with an empty value. */
    method Index(name: Text) returns (value: Text)
      requires Valid()
      modifies this
      ensures Valid() && Lookup(entries, name) == Some(value)
      ensures entries == if old(Lookup(entries, name)).Some? then old(entries) else Put(old(entries), name, [])
      ensures value == (match old(Lookup(entries, name)) case Some(v) => v case None => [])
    {
      var at := Lookup(entries, name);
      if at.None? {
        LookupPut(entries, name, [], name);
        PutSorted(entries, name, []);
        entries := Put(entries, name, []);
        value := [];
      } else {
        value := at.value;
      }
    }

    method Assign(name: Text, value: Text)
      requires Valid()
      modifies this
      ensures Valid() && entries == Put(old(entries), name, value)
    {
      PutSorted(entries, name, value);
      entries := Put(entries, name, value);
    }

    method Add(name: Text, value: Text)
      requires Valid()
      modifies this
      ensures Valid() && entries == Added(old(entries), name, value)
    {
      var found := Has(name);
      if found {
        var current := Index(name);
        Assign(name, current + Comma + value);
      } else {
        Assign(name, value);
      }
    }
  }

  /** The search down the sorted list misses no entry. */
  lemma {:induction false} LookupFinds(es: Entries, name: Text)
    requires Sorted(es)
    ensures Lookup(es, name).Some? <==> exists e <- es :: Folded(e.name) == Folded(name)
    ensures forall e <- es :: Folded(e.name) == Folded(name) ==> Lookup(es, name) == Some(e.value)
  {
    if es != [] {
      var c := Compare(es[0].name, name);
      assert es == [es[0]] + es[1..];
      SortedCons(es[0], es[1..]);
      CompareZero(es[0].name, name);
      LookupFinds(es[1..], name);
      forall e | e in es[1..] && c >= 0
        ensures Folded(e.name) != Folded(name)
      {
        CompareZero(e.name, name);
        CompareFlip(e.name, name);
        CompareFlip(es[0].name, name);
        if Compare(e.name, name) == 0 {
          CompareTransitive(name, es[0].name, e.name);
        }
      }
    }
  }
}
