/** The deque of memory blocks: `layout` is the blocks as values, `bytes` what is left to read in them. */
module BlockDeques {
  import opened Bytes
  import opened MemBlocks

  class BlockDeque {
    var blocks: seq<MemBlock>
    ghost var layout: seq<Block>
    ghost var bytes: seq<byte>
    ghost var Repr: set<object>

    /** The blocks are distinct, owned, and hold `layout`. */
    ghost predicate Valid()
      reads this, Repr
      ensures Valid() ==> this in Repr
    {
      && this in Repr
      && |layout| == |blocks| && bytes == Flat(layout)
      && (forall i | 0 <= i < |blocks| ::
            && blocks[i] in Repr && blocks[i].data in Repr
            && blocks[i].Valid() && layout[i] == blocks[i].AsView())
      && (forall i, j | 0 <= i < j < |blocks| :: blocks[i] != blocks[j] && blocks[i].data != blocks[j].data)
    }

    constructor ()
      ensures Valid() && fresh(Repr) && layout == [] && bytes == []
    {
      blocks, layout, bytes := [], [], [];
      Repr := {this};
    }

    method PushBack(block: MemBlock)
      requires Valid() && block.Valid() && block !in Repr && block.data !in Repr
      modifies this
      ensures Valid() && Repr == old(Repr) + {block, block.data}
      ensures layout == old(layout) + [block.AsView()] && bytes == old(bytes) + Unread(block.AsView())
    {
      FlatAppend(layout, [block.AsView()]);
      FlatOne(block.AsView());
      bytes := bytes + Unread(block.AsView());
      blocks, layout := blocks + [block], layout + [block.AsView()];
      Repr := Repr + {block, block.data};
    }

    method PopFront()
      requires Valid() && layout != []
      requires layout[0].read == layout[0].pos
      modifies this
      ensures Valid() && Repr == old(Repr) && layout == old(layout)[1..] && bytes == old(bytes)
    {
      PurgeFront(layout);
      blocks, layout := blocks[1..], layout[1..];
    }

    /** Free cells of the last block, the write head. */
    method BackRoom() returns (room: nat)
      requires Valid() && layout != []
      ensures var last := layout[|layout| - 1]; room == |last.data| - last.pos
    {
      var last := blocks[|blocks| - 1];
      room := last.data.Length - last.pos;
    }

    method WriteBack(src: seq<byte>) returns (written: nat)
      requires Valid() && layout != []
      requires var last := layout[|layout| - 1]; |src| <= |last.data| - last.pos
      modifies Repr
      ensures Valid() && Repr == old(Repr) && written == |src|
      ensures layout == old(layout)[|old(layout)| - 1 := Extended(old(layout)[|old(layout)| - 1], src)]
      ensures bytes == old(bytes) + src
    {
      var n := |blocks| - 1;
      ghost var vs := layout;
      FlatExtended(vs, src);
      bytes := bytes + src;
      written := blocks[n].Write(src);
      assert src[..written] == src;
      layout := vs[n := Extended(vs[n], src)];
    }

    method FrontUnread() returns (left: nat)
      requires Valid() && layout != []
      ensures left == |Unread(layout[0])|
    {
      left := blocks[0].pos - blocks[0].read;
    }

    method ReadAt(i: nat, count: nat, advance: bool) returns (chunk: seq<byte>)
      requires Valid() && i < |layout|
      modifies Repr
      ensures Valid() && Repr == old(Repr)
      ensures chunk == Unread(old(layout)[i])[..Min(count, |Unread(old(layout)[i])|)]
      ensures layout == if advance then old(layout)[i := Advanced(old(layout)[i], |chunk|)] else old(layout)
    {
      chunk := blocks[i].Read(count, advance);
      if advance {
        bytes := Flat(layout[i := Advanced(layout[i], |chunk|)]);
        layout := layout[i := Advanced(layout[i], |chunk|)];
      }
    }

    method AdvanceFront(count: nat)
      requires Valid() && layout != [] && count <= |Unread(layout[0])|
      modifies Repr
      ensures Valid() && Repr == old(Repr)
      ensures |old(bytes)| >= count && bytes == old(bytes)[count..]
      ensures OnlyFrontRead(old(layout)) ==> Staggered(layout)
      ensures Packed(old(layout)) ==> Packed(layout)
    {
      ReadNone(layout);
      ReadInto(layout, layout, 0, count);
      blocks[0].read := blocks[0].read + count;
      layout := layout[0 := Advanced(layout[0], count)];
      bytes := bytes[count..];
    }

    /** Reads block after block, moving the read cursors only with `advance`. */
    method Scan(count: nat, advance: bool) returns (out: seq<byte>)
      requires Valid()
      modifies Repr
      ensures Valid() && Repr == old(Repr)
      ensures out == old(bytes)[..Min(count, |old(bytes)|)]
      ensures bytes == if advance then old(bytes)[|out|..] else old(bytes)
      ensures OnlyFrontRead(old(layout)) ==> if advance then Staggered(layout) else OnlyFrontRead(layout)
      ensures Packed(old(layout)) ==> Packed(layout)
    {
      ghost var vs := layout;
      out := [];
      var i := 0;
      ReadNone(vs);
      while i < |blocks|
        invariant Valid() && Repr == old(Repr)
        invariant 0 <= i <= |blocks| == |vs|
        invariant Scanned(vs, i, count, out, advance, layout)
        invariant i > 0 ==> |out| < count
      {
        ghost var k := Min(count - |out|, |Unread(vs[i])|);
        ScanStep(vs, i, count, out, advance, layout, k);
        var chunk := ReadAt(i, count - |out|, advance);
        out := out + chunk;
        if |out| == count {
          return;
        }
        i := i + 1;
      }
      ScanEnd(vs, count, out, advance, layout);
    }

    /** Drops exhausted blocks, so that the block at the front is the read head. */
    method Purge()
      requires Valid() && Staggered(layout)
      modifies this
      ensures Valid() && Repr == old(Repr)
      ensures bytes == old(bytes) && OnlyFrontRead(layout)
      ensures Packed(old(layout)) ==> Packed(layout)
    {
      while blocks != []
        invariant Valid() && Repr == old(Repr)
        invariant bytes == old(bytes) && Staggered(layout)
        invariant Packed(old(layout)) ==> Packed(layout)
        decreases |blocks|
      {
        var left := FrontUnread();
        if left > 0 {
          FrontHolds(layout);
          return;
        }
        PurgeFront(layout);
        PopFront();
      }
    }
  }
}
