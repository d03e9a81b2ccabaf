/** The memory blocks a producer/consumer buffer is made of, and the values they stand for. */
module MemBlocks {
  import opened Bytes

  /** A block seen as a value: read cursor, write cursor, and all its cells. */
  datatype View = View(read: nat, pos: nat, data: seq<byte>)

  type Block = v: View | v.read <= v.pos <= |v.data| witness View(0, 0, [])

  function Unread(v: Block): seq<byte> {
    v.data[v.read..v.pos]
  }

  function Flat(vs: seq<Block>): seq<byte> {
    if vs == [] then [] else Unread(vs[0]) + Flat(vs[1..])
  }

  lemma {:induction false} FlatAppend(a: seq<Block>, b: seq<Block>)
    ensures Flat(a + b) == Flat(a) + Flat(b)
  {
    if a == [] {
      assert a + b == b;
    } else {
      assert (a + b)[1..] == a[1..] + b;
      FlatAppend(a[1..], b);
    }
  }

  lemma FlatOne(v: Block)
    ensures Flat([v]) == Unread(v)
  {
  }

  lemma FlatSnoc(vs: seq<Block>, i: nat)
    requires i < |vs|
    ensures Flat(vs[..i + 1]) == Flat(vs[..i]) + Unread(vs[i])
  {
    assert vs[..i + 1] == vs[..i] + [vs[i]];
    FlatAppend(vs[..i], [vs[i]]);
    FlatOne(vs[i]);
  }

  lemma FlatSplit(vs: seq<Block>, i: nat)
    requires i < |vs|
    ensures Flat(vs) == Flat(vs[..i]) + (Unread(vs[i]) + Flat(vs[i + 1..]))
  {
    assert vs == vs[..i] + vs[i..] && vs[i..][1..] == vs[i + 1..];
    FlatAppend(vs[..i], vs[i..]);
  }

  lemma {:induction false} FlatDrained(vs: seq<Block>)
    requires forall v <- vs :: v.read == v.pos
    ensures Flat(vs) == []
  {
    if vs != [] {
      FlatDrained(vs[1..]);
    }
  }

  // ---------- space ----------

  /** Block `i` was given up only because what followed did not fit behind it. */
  ghost predicate Filled(vs: seq<Block>, i: nat)
    requires i + 1 < |vs|
  {
    |vs[i].data| < vs[i].pos + vs[i + 1].pos
  }

  /** Each block's capacity is below what was written to it and to its successor: no space is given up early. */
  ghost predicate Packed(vs: seq<Block>) {
    forall i: nat | i + 1 < |vs| :: Filled(vs, i)
  }

  function Capacity(vs: seq<Block>): nat {
    if vs == [] then 0 else |vs[0].data| + Capacity(vs[1..])
  }

  ghost predicate Untouched(vs: seq<Block>, i: nat)
    requires i < |vs|
  {
    vs[i].read == 0
  }

  ghost predicate OnlyFrontRead(vs: seq<Block>) {
    forall i: nat | 0 < i < |vs| :: Untouched(vs, i)
  }

  /** In an unread, packed list all capacity except the last block's is at most twice the bytes held. */
  lemma {:induction false} PackedCapacity(vs: seq<Block>)
    requires Packed(vs) && vs != [] && forall v <- vs :: v.read == 0
    ensures Capacity(vs[..|vs| - 1]) + |Unread(vs[0])| <= 2 * |Flat(vs)|
  {
    var rest := vs[1..];
    if rest == [] {
      FlatOne(vs[0]);
      assert vs == [vs[0]] && vs[..0] == [];
    } else {
      assert Filled(vs, 0);
      PackedTail(vs);
      PackedCapacity(rest);
      assert vs[..|vs| - 1][1..] == rest[..|rest| - 1];
    }
  }

  /** Without alloc/commit, the blocks strictly between the first and the last hold at most twice the unread bytes. */
  lemma SpaceBound(vs: seq<Block>)
    requires Packed(vs) && OnlyFrontRead(vs) && |vs| >= 2
    ensures Capacity(vs[1..|vs| - 1]) <= 2 * |Flat(vs)|
  {
    var rest := vs[1..];
    PackedTail(vs);
    forall k | 0 <= k < |rest| ensures rest[k].read == 0 {
      assert Untouched(vs, k + 1);
    }
    PackedCapacity(rest);
    assert vs[1..|vs| - 1] == rest[..|rest| - 1];
  }

  // ---------- reading across blocks ----------

  function Advanced(v: Block, k: nat): Block
    requires k <= |Unread(v)|
  {
    View(v.read + k, v.pos, v.data)
  }

  /** `ws` is `vs` after the blocks before `i` have been read to their end. */
  ghost predicate ReadUpTo(vs: seq<Block>, ws: seq<Block>, i: nat) {
    && |ws| == |vs|
    && (forall j | 0 <= j < |vs| :: ws[j].pos == vs[j].pos && ws[j].data == vs[j].data)
    && (forall j | 0 <= j < i && j < |vs| :: ws[j].read == vs[j].pos)
    && (forall j | i <= j < |vs| :: ws[j] == vs[j])
  }

  /** Block `j` is untouched, or all blocks before it are exhausted. */
  ghost predicate InTurn(vs: seq<Block>, j: nat)
    requires j < |vs|
  {
    vs[j].read == 0 || forall i | 0 <= i < j :: vs[i].read == vs[i].pos
  }

  /** Reading in order: a block is touched only when all before it are exhausted. */
  ghost predicate Staggered(vs: seq<Block>) {
    forall j: nat | j < |vs| :: InTurn(vs, j)
  }

  /** What stays true of the block list when `n` bytes are read from the front. */
  ghost predicate Shortened(vs: seq<Block>, ws: seq<Block>, n: nat) {
    && n <= |Flat(vs)| && Flat(ws) == Flat(vs)[n..]
    && (OnlyFrontRead(vs) ==> Staggered(ws))
    && (Packed(vs) ==> Packed(ws))
  }

  lemma PackedCells(vs: seq<Block>, ws: seq<Block>)
    requires Packed(vs) && |ws| == |vs|
    requires forall j | 0 <= j < |vs| :: ws[j].pos == vs[j].pos && ws[j].data == vs[j].data
    ensures Packed(ws)
  {
    forall i: nat | i + 1 < |ws| ensures Filled(ws, i) {
      assert Filled(vs, i);
    }
  }

  lemma FlatPrefixAt(vs: seq<Block>, i: nat, k: nat)
    requires i < |vs| && k <= |Unread(vs[i])|
    ensures var n := |Flat(vs[..i])| + k;
      n <= |Flat(vs)| && Flat(vs)[..n] == Flat(vs[..i]) + Unread(vs[i])[..k]
  {
    FlatSplit(vs, i);
    Across(Flat(vs[..i]), Unread(vs[i]), Flat(vs[i + 1..]), k);
  }

  lemma ReadIntoFlat(vs: seq<Block>, ws: seq<Block>, i: nat, k: nat)
    requires i < |vs| == |ws| && k <= |Unread(vs[i])|
    requires (forall v <- ws[..i] :: v.read == v.pos) && ws[i + 1..] == vs[i + 1..]
    requires ws[i] == Advanced(vs[i], k)
    ensures var n := |Flat(vs[..i])| + k;
      n <= |Flat(vs)| && Flat(ws) == Flat(vs)[n..]
  {
    FlatSplit(vs, i);
    FlatSplit(ws, i);
    FlatDrained(ws[..i]);
    assert Unread(ws[i]) == Unread(vs[i])[k..];
    Across(Flat(vs[..i]), Unread(vs[i]), Flat(vs[i + 1..]), k);
  }

  lemma ReadInTurn(vs: seq<Block>, ws: seq<Block>, i: nat)
    requires OnlyFrontRead(vs) && i <= |vs| == |ws|
    requires forall j | 0 <= j < i :: ws[j].read == ws[j].pos
    requires forall j | i < j < |vs| :: ws[j].read == vs[j].read
    ensures Staggered(ws)
  {
    forall j: nat | j < |ws| ensures InTurn(ws, j) {
      assert j > 0 ==> Untouched(vs, j);
    }
  }

  /** Reading `k` bytes of block `i` after all the blocks before it. */
  lemma ReadInto(vs: seq<Block>, ws: seq<Block>, i: nat, k: nat)
    requires i < |vs| && ReadUpTo(vs, ws, i) && k <= |Unread(vs[i])|
    ensures Shortened(vs, ws[i := Advanced(vs[i], k)], |Flat(vs[..i])| + k)
    ensures k == |Unread(vs[i])| ==> ReadUpTo(vs, ws[i := Advanced(vs[i], k)], i + 1)
  {
    var after := ws[i := Advanced(vs[i], k)];
    ReadIntoFlat(vs, after, i, k);
    if OnlyFrontRead(vs) {
      ReadInTurn(vs, after, i);
    }
    if Packed(vs) {
      PackedCells(vs, after);
    }
  }

  lemma Across(a: seq<byte>, u: seq<byte>, b: seq<byte>, k: nat)
    requires k <= |u|
    ensures (a + (u + b))[..|a| + k] == a + u[..k]
    ensures (a + (u + b))[|a| + k..] == u[k..] + b
  {
  }

  lemma ReadAll(vs: seq<Block>, ws: seq<Block>)
    requires ReadUpTo(vs, ws, |vs|)
    ensures Shortened(vs, ws, |Flat(vs)|)
  {
    FlatDrained(ws);
    if OnlyFrontRead(vs) {
      ReadInTurn(vs, ws, |vs|);
    }
    if Packed(vs) {
      PackedCells(vs, ws);
    }
  }

  /** Where a scan for `count` bytes stands before it looks at block `i`. */
  ghost predicate Scanned(vs: seq<Block>, i: nat, count: nat, out: seq<byte>, advance: bool, ws: seq<Block>)
    requires i <= |vs|
  {
    |out| <= count && out == Flat(vs[..i]) && if advance then ReadUpTo(vs, ws, i) else ws == vs
  }

  /** What the scan promises when it stops. */
  ghost predicate ScanDone(vs: seq<Block>, count: nat, out: seq<byte>, advance: bool, ws: seq<Block>) {
    && out == Flat(vs)[..Min(count, |Flat(vs)|)]
    && if advance then Shortened(vs, ws, |out|) else ws == vs
  }

  lemma ReadNone(vs: seq<Block>)
    ensures vs[..0] == [] && ReadUpTo(vs, vs, 0)
  {
  }

  lemma ScanStep(vs: seq<Block>, i: nat, count: nat, out: seq<byte>, advance: bool, ws: seq<Block>, k: nat)
    requires i < |vs| && Scanned(vs, i, count, out, advance, ws)
    requires k == Min(count - |out|, |Unread(vs[i])|)
    ensures i < |ws| && ws[i] == vs[i]
    ensures var out' := out + Unread(vs[i])[..k];
      var ws' := if advance then ws[i := Advanced(vs[i], k)] else ws;
      if |out'| == count then ScanDone(vs, count, out', advance, ws')
      else Scanned(vs, i + 1, count, out', advance, ws')
  {
    FlatPrefixAt(vs, i, k);
    FlatSnoc(vs, i);
    if advance {
      ReadInto(vs, ws, i, k);
    }
  }

  lemma ScanEnd(vs: seq<Block>, count: nat, out: seq<byte>, advance: bool, ws: seq<Block>)
    requires Scanned(vs, |vs|, count, out, advance, ws)
    ensures ScanDone(vs, count, out, advance, ws)
  {
    assert vs[..|vs|] == vs;
    if advance {
      ReadAll(vs, ws);
    }
  }

  function Extended(v: Block, src: seq<byte>): Block
    requires |src| <= |v.data| - v.pos
  {
    View(v.read, v.pos + |src|, v.data[..v.pos] + src + v.data[v.pos + |src|..])
  }

  lemma FlatExtended(vs: seq<Block>, src: seq<byte>)
    requires vs != []
    requires var last := vs[|vs| - 1]; |src| <= |last.data| - last.pos
    ensures Flat(vs[|vs| - 1 := Extended(vs[|vs| - 1], src)]) == Flat(vs) + src
  {
    var n := |vs| - 1;
    var ws := vs[n := Extended(vs[n], src)];
    FlatSnoc(vs, n);
    FlatSnoc(ws, n);
    assert vs[..n + 1] == vs && ws[..n + 1] == ws && ws[..n] == vs[..n];
    assert Unread(ws[n]) == Unread(vs[n]) + src;
  }

  lemma PackedTail(vs: seq<Block>)
    requires Packed(vs) && vs != []
    ensures Packed(vs[1..])
  {
    forall i: nat | i + 1 < |vs[1..]| ensures Filled(vs[1..], i) {
      assert Filled(vs, i + 1);
    }
  }

  /** `ws` is `vs`, or `vs` and an empty block opened because `count` bytes did not fit in its last one. */
  ghost predicate Opened(vs: seq<Block>, ws: seq<Block>, count: nat) {
    && ws != []
    && (var last := ws[|ws| - 1]; count <= |last.data| - last.pos)
    && (ws == vs ||
        (&& |ws| == |vs| + 1 && ws[..|vs|] == vs
         && ws[|vs|].read == ws[|vs|].pos == 0
         && (vs != [] ==> var last := vs[|vs| - 1]; |last.data| - last.pos < count)))
  }

  /** A write loses nothing and keeps the list packed. */
  lemma StoreKeeps(vs: seq<Block>, ws: seq<Block>, src: seq<byte>)
    requires Opened(vs, ws, |src|)
    ensures var xs := ws[|ws| - 1 := Extended(ws[|ws| - 1], src)];
      && (Packed(vs) ==> Packed(xs))
      && (OnlyFrontRead(vs) ==> OnlyFrontRead(xs))
      && Flat(ws) == Flat(vs)
  {
    var xs := ws[|ws| - 1 := Extended(ws[|ws| - 1], src)];
    if Packed(vs) {
      forall i: nat | i + 1 < |xs| ensures Filled(xs, i) {
        assert i + 1 < |vs| ==> Filled(vs, i);
      }
    }
    if OnlyFrontRead(vs) {
      forall i: nat | 0 < i < |xs| ensures Untouched(xs, i) {
        assert i < |vs| ==> Untouched(vs, i);
      }
    }
    if ws != vs {
      assert ws == vs + [ws[|vs|]];
      FlatAppend(vs, [ws[|vs|]]);
      FlatOne(ws[|vs|]);
    }
  }

  /** Dropping an exhausted front block loses nothing. */
  lemma PurgeFront(vs: seq<Block>)
    requires vs != [] && vs[0].read == vs[0].pos
    ensures Flat(vs[1..]) == Flat(vs)
    ensures Staggered(vs) ==> Staggered(vs[1..])
    ensures Packed(vs) ==> Packed(vs[1..])
  {
    if Packed(vs) {
      PackedTail(vs);
    }
    if Staggered(vs) {
      forall j: nat | j < |vs[1..]| ensures InTurn(vs[1..], j) {
        assert InTurn(vs, j + 1);
      }
    }
  }

  /** When all blocks before it are exhausted, a partly read block is at the front. */
  lemma FrontHolds(vs: seq<Block>)
    requires Staggered(vs) && vs != [] && vs[0].read < vs[0].pos
    ensures OnlyFrontRead(vs)
  {
    forall i: nat | 0 < i < |vs| ensures Untouched(vs, i) {
      assert InTurn(vs, i);
    }
  }

  lemma AppendUntouched(vs: seq<Block>, v: Block)
    requires OnlyFrontRead(vs) && v.read == 0
    ensures OnlyFrontRead(vs + [v])
  {
    forall i: nat | 0 < i < |vs + [v]| ensures Untouched(vs + [v], i) {
      assert i < |vs| ==> Untouched(vs, i);
    }
  }

  // ---------- the class ----------

  class MemBlock {
    var read: nat
    var pos: nat
    const data: array<byte>

    ghost predicate Valid()
      reads this
    {
      read <= pos <= data.Length
    }

    ghost function AsView(): Block
      requires Valid()
      reads this, data
    {
      View(read, pos, data[..])
    }

    constructor (size: nat)
      ensures Valid() && fresh(data) && data.Length == size && read == 0 && pos == 0
    {
      read, pos := 0, 0;
      data := new byte[size](_ => 0);
    }

    method Read(count: nat, advance: bool) returns (out: seq<byte>)
      requires Valid()
      modifies this`read
      ensures Valid()
      ensures out == old(Unread(AsView()))[..Min(count, pos - old(read))]
      ensures read == if advance then old(read) + |out| else old(read)
    {
      var readCount := Min(count, pos - read);
      ghost var unread := Unread(AsView());
      out := data[read..read + readCount];
      assert |unread[..readCount]| == |out| && forall i | 0 <= i < readCount :: out[i] == unread[i];
      if advance {
        read := read + readCount;
      }
    }

    method Write(src: seq<byte>) returns (written: nat)
      requires Valid()
      modifies this`pos, data
      ensures Valid()
      ensures written == Min(|src|, data.Length - old(pos))
      ensures AsView() == Extended(old(AsView()), src[..written])
    {
      written := Min(|src|, data.Length - pos);
      ghost var was := data[..];
      forall i | 0 <= i < written {
        data[pos + i] := src[i];
      }
      assert data[..] == was[..pos] + src[..written] + was[pos + written..];
      pos := pos + written;
    }
  }
}
