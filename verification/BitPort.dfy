/** Values of a few bits each through one port: written, flushed and read back. */
module BitPort {
  import opened Bits
  import opened BitStream
  import opened IoPort
  import opened WireText

  predicate Narrow(items: seq<Item>) {
    forall it :: it in items ==> it.width <= 8
  }

  lemma {:induction false} ItemsAppend(a: seq<Item>, it: Item)
    requires Narrow(a) && it.width <= 8
    ensures BitsOfItems(a + [it]) == BitsOfItems(a) + ItemBits(it)
  {
    hide ItemBits;
    if a == [] {
      assert a + [it] == [it] && [it][1..] == [];
    } else {
      assert (a + [it])[0] == a[0] && (a + [it])[1..] == a[1..] + [it];
      ItemsAppend(a[1..], it);
    }
  }

  lemma ItemsSnoc(items: seq<Item>, i: nat)
    requires Narrow(items) && i < |items|
    ensures items[i].width <= 8 && BitsOfItems(items[..i + 1]) == BitsOfItems(items[..i]) + ItemBits(items[i])
  {
    assert items[i] in items;
    hide BitsOfItems, ItemBits;
    ItemsAppend(items[..i], items[i]);
    assert items[..i + 1] == items[..i] + [items[i]];
  }

  /** The bits of the items after the bits written before. */
  method WriteItems(p: Port, items: seq<Item>)
    requires p.Writable() && p.owned && p.bitpos == 0 && Narrow(items)
    modifies p`buf, p`pos, p`bitpos, p`bitbuffer, p.buf
    ensures p.Writable() && (p.buf == old(p.buf) || fresh(p.buf))
    ensures p.BitsWritten() == BitsOfAll(old(p.Written())) + BitsOfItems(items)
  {
    hide BitsOf, BitsOfAll, BitsOfItems, Stream, Port.Valid, Port.Clean, Port.Written;
    ghost var start := p.Written();
    NoBits(start, p.bitbuffer);
    NoItems(items);
    var i := 0;
    while i < |items|
      invariant 0 <= i <= |items|
      invariant p.Writable() && (p.buf == old(p.buf) || fresh(p.buf))
      invariant p.BitsWritten() == BitsOfAll(start) + BitsOfItems(items[..i])
    {
      assert items[i] in items;
      var ok := p.WriteBits(items[i].value, items[i].width);
      ItemsSnoc(items, i);
      i := i + 1;
    }
    assert items[..i] == items;
  }

  lemma NoItems(items: seq<Item>)
    ensures BitsOfItems(items[..0]) == []
  {
  }

  /** The bits of all items but their values. */
  function BitCount(items: seq<Item>): nat
    requires Narrow(items)
  {
    |BitsOfItems(items)|
  }

  lemma NextBits(items: seq<Item>, i: nat)
    requires Narrow(items) && i < |items|
    ensures items[i].width <= 8 && BitCount(items[..i + 1]) == BitCount(items[..i]) + items[i].width
  {
    ItemsSnoc(items, i);
    assert items[i] in items;
    hide BitsOfItems;
  }

  /** Reads at the widths of the items. The trace is what remained before and after each read. */
  method ReadItems(p: Port, items: seq<Item>) returns (rs: seq<bv8>, ghost trace: seq<seq<bool>>)
    requires p.Valid() && p.bitpos == 0 && Narrow(items)
    modifies p`rpos, p`bitpos, p`bitbuffer
    ensures p.Valid() && Reads(trace, items, rs) && trace != []
    ensures trace[0] == BitsOfAll(old(p.Unread()))
    ensures (p.bitpos, p.Unread()) == (BitOffset(BitCount(items)), Drop(old(p.Unread()), ByteCount(BitCount(items))))
  {
    hide BitsOfAll, BitsOfItems, Took, Pending, Drop, BitOffset, ByteCount, Advance, BitCount, Port.Valid, Port.Unread;
    ghost var s := p.Unread();
    rs, trace := [], [p.Remaining()];
    var i := 0;
    NothingPending(p.bitbuffer, s);
    AtStart(s);
    NoneRead(items);
    while i < |items|
      invariant 0 <= i <= |items| == |items| && p.Valid() && |rs| == i && |trace| == i + 1
      invariant forall j :: 0 <= j < i ==> items[j].width <= 8 && Took(trace[j], items[j].width, rs[j], trace[j + 1])
      invariant trace[0] == BitsOfAll(s) && trace[i] == p.Remaining()
      invariant p.bitpos == BitOffset(BitCount(items[..i])) && p.Unread() == Drop(s, ByteCount(BitCount(items[..i])))
    {
      NextBits(items, i);
      var r := p.ReadBits(items[i].width);
      if items[i].width > 0 {
        AdvanceBits(s, BitCount(items[..i]), items[i].width);
      }
      rs, trace := rs + [r], trace + [p.Remaining()];
      i := i + 1;
    }
    assert items[..i] == items;
  }

  lemma NoneRead(items: seq<Item>)
    requires Narrow(items)
    ensures BitCount(items[..0]) == 0
  {
  }

  /** The items, flushed, and bytes of another kind after them. */
  method FillPort(p: Port, items: seq<Item>, rest: seq<bv8>)
    requires p.Writable() && p.owned && p.bitpos == 0 && p.rpos == p.pos && Narrow(items)
    requires BitsOfItems(items) != [] || rest != []
    modifies p`buf, p`pos, p`bitpos, p`bitbuffer, p.buf
    ensures p.Valid() && p.bitpos == 0 && p.Unread() == Pack(BitsOfItems(items)) + rest
  {
    hide BitsOf, BitsOfAll, BitsOfItems, Pack, Stream, ClearFrom, Port.Written, Port.Unread;
    ghost var start, bits := p.Written(), BitsOfItems(items);
    StartsAt(p, start);
    WriteItems(p, items);
    FlushedBytes(start, p.Written(), p.bitbuffer, p.bitpos, bits);
    var ok := p.FlushBits();
    ok := p.Write(rest);
    SomeBytes(bits);
    ReadsOn(p, start, Pack(bits) + rest);
  }

  lemma StartsAt(p: Port, start: seq<bv8>)
    requires p.Valid() && p.Written() == start
    ensures |start| == p.pos
  {
  }

  lemma ReadsOn(p: Port, start: seq<bv8>, more: seq<bv8>)
    requires p.Valid() && p.rpos == |start| && p.Written() == start + more && more != []
    ensures p.Unread() == more
  {
    assert p.Unread() == p.Written()[p.rpos..];
  }

  /** What is written to an empty port, flushed, and followed by other bytes comes back modulo 2
      to the widths, and exactly the bytes it took are gone. A port nothing was ever written to
      would read its raw buffer. */
  method SendItems(p: Port, items: seq<Item>, rest: seq<bv8>) returns (rs: seq<bv8>)
    requires p.Writable() && p.owned && p.bitpos == 0 && p.rpos == p.pos && Narrow(items)
    requires BitsOfItems(items) != [] || rest != []
    modifies p, p.buf
    ensures p.Valid() && |rs| == |items|
    ensures forall i :: 0 <= i < |items| ==> rs[i] == And(items[i].value, Mask(items[i].width))
    ensures p.Unread() == rest && p.bitpos == BitOffset(|BitsOfItems(items)|)
  {
    hide BitsOf, BitsOfAll, BitsOfItems, Pack, And, Mask, BitOffset, ByteCount, Port.Unread, Port.Valid;
    FillPort(p, items, rest);
    ghost var packed := Pack(BitsOfItems(items));
    SomeBytes(BitsOfItems(items));
    ghost var trace;
    rs, trace := ReadItems(p, items);
    BitStreamRoundTrip(items, rest, trace, rs);
    assert Drop(packed + rest, |packed|) == rest;
  }

  lemma SomeBytes(bits: seq<bool>)
    ensures ByteCount(|bits|) == |Pack(bits)| && (bits != [] ==> Pack(bits) != [])
  {
    PackBits(bits);
  }
}
