/** A row of bits written into bytes and read back from them, a few bits at a time. */
module BitStream {
  import opened Bits
  import opened WireText

  /** A read of n bits from what remained: its value, most significant bit first, and what
      remains. A reader that runs dry is given one more byte of zeros. */
  ghost predicate Took(before: seq<bool>, n: nat, res: bv8, after: seq<bool>)
    requires n <= 8
  {
    var r := if n <= |before| then before else before + Zeros(8);
    n <= |r| && BitsOf(res) == Zeros(8 - n) + r[..n] && after == r[n..]
  }

  /** What is left of a byte from offset p, offset 0 standing for no byte at all, and the bytes
      after it. */
  ghost function Pending(b: bv8, p: nat, rest: seq<bv8>): seq<bool>
    requires p <= 8
  {
    (if p == 0 then [] else BitsOf(b)[p..]) + BitsOfAll(rest)
  }

  /** Where a read of n bits leaves the reader. */
  function Advance(p: nat, rest: seq<bv8>, n: nat): (nat, seq<bv8>)
    requires 0 < n <= 8 && p <= 8
  {
    if p == 0 then (n, Rest(rest)) else if p + n > 8 then (p + n - 8, Rest(rest)) else (p + n, rest)
  }

  function First(s: seq<bv8>): bv8 {
    if s == [] then 0 else s[0]
  }

  function Rest(s: seq<bv8>): seq<bv8> {
    if s == [] then [] else s[1..]
  }

  lemma FirstByte(s: seq<bv8>)
    ensures BitsOf(First(s)) + BitsOfAll(Rest(s)) == if s == [] then Zeros(8) else BitsOfAll(s)
  {
    if s == [] {
      forall k | 0 <= k < 8 ensures !BitAt(0, k) {
        BitOfZero(k);
      }
      assert BitsOf(0) == Zeros(8);
    }
  }

  lemma TookNothing(bits: seq<bool>)
    ensures Took(bits, 0, 0, bits)
  {
    forall k | 0 <= k < 8 ensures !BitAt(0, k) {
      BitOfZero(k);
    }
    assert BitsOf(0) == Zeros(8);
  }

  lemma TookFirst(stale: bv8, all: seq<bv8>, n: nat)
    requires 0 < n <= 8
    ensures Took(Pending(stale, 0, all), n, TakeWithin(First(all), 0, n, 0), Pending(First(all), n, Rest(all)))
  {
    hide BitsOf, BitsOfAll, TakeWithin, Zeros;
    FirstByte(all);
    TakeWithinBits(First(all), 0, n);
    var r := BitsOf(First(all)) + BitsOfAll(Rest(all));
    assert r[..n] == BitsOf(First(all))[0..n];
    assert r[n..] == BitsOf(First(all))[n..] + BitsOfAll(Rest(all));
    assert Pending(stale, 0, all) == BitsOfAll(all);
    if all == [] {
      assert BitsOfAll(all) == [];
      assert [] + Zeros(8) == r;
    }
  }

  lemma TookWithin(b: bv8, p: nat, rest: seq<bv8>, n: nat)
    requires 0 < n && 0 < p && p + n <= 8
    ensures Took(Pending(b, p, rest), n, TakeWithin(b, p, n, 0), Pending(b, p + n, rest))
  {
    hide BitsOf, BitsOfAll, TakeWithin, Zeros;
    TakeWithinBits(b, p, n);
    var r := BitsOf(b)[p..] + BitsOfAll(rest);
    assert r[..n] == BitsOf(b)[p..p + n];
    assert r[n..] == BitsOf(b)[p + n..] + BitsOfAll(rest);
  }

  lemma AcrossSlices(a: seq<bool>, b: seq<bool>, c: seq<bool>, m: nat)
    requires m <= |b|
    ensures (a + (b + c))[..|a| + m] == a + b[..m] && (a + (b + c))[|a| + m..] == b[m..] + c
  {
  }

  lemma TookAcross(b: bv8, p: nat, rest: seq<bv8>, n: nat)
    requires n <= 8 && 0 < p <= 8 && p + n > 8
    ensures Took(Pending(b, p, rest), n, Or(TakeWithin(b, p, 8 - p, p + n - 8), TakeNext(First(rest), p + n - 8)),
                 Pending(First(rest), p + n - 8, Rest(rest)))
  {
    hide BitsOf, BitsOfAll, TakeWithin, TakeNext, Or, Zeros;
    var m := p + n - 8;
    TakeAcrossBits(b, p, First(rest), n);
    FirstByte(rest);
    var tail := BitsOf(First(rest)) + BitsOfAll(Rest(rest));
    var r := BitsOf(b)[p..] + tail;
    AcrossSlices(BitsOf(b)[p..], BitsOf(First(rest)), BitsOfAll(Rest(rest)), m);
    if rest == [] {
      assert BitsOfAll(rest) == [];
      assert BitsOf(b)[p..] + BitsOfAll(rest) + Zeros(8) == r;
    }
  }

  // ---- Strings through the bit stream ----

  lemma NoBits(bytes: seq<bv8>, b: bv8)
    ensures Stream(bytes, b, 0) == BitsOfAll(bytes)
  {
  }

  lemma NoCodes(str: Text)
    ensures CodeBits(str[..0]) == []
  {
  }

  lemma {:induction false} CodeBitsSnoc(str: Text, i: nat)
    requires i < |str|
    ensures CodeBits(str[..i + 1]) == CodeBits(str[..i]) + BitsOf(Code(str[i]))[2..]
  {
    hide Code, BitsOf;
    if i == 0 {
      assert str[..1][1..] == [];
    } else {
      CodeBitsSnoc(str[1..], i - 1);
      assert str[..i + 1][1..] == str[1..][..i] && str[..i][1..] == str[1..][..i - 1];
    }
  }

  /** Flushing a partial byte pads the bit stream with zeros to whole bytes. */
  lemma FlushPads(bytes: seq<bv8>, b: bv8, p: nat)
    requires 0 < p < 8 && ClearFrom(b, p)
    ensures BitsOfAll(bytes + [b]) == Stream(bytes, b, p) + Zeros(8 - p)
  {
    hide BitAt, BitsOfAll;
    BitsOfAllConcat(bytes, [b]);
    BitsOfOne(b);
    assert BitsOf(b) == BitsOf(b)[..p] + Zeros(8 - p);
  }

  /** After a flush, the bytes added since start are the packed bits. */
  lemma FlushedBytes(start: seq<bv8>, bytes: seq<bv8>, b: bv8, p: nat, bits: seq<bool>)
    requires p < 8 && ClearFrom(b, p) && Stream(bytes, b, p) == BitsOfAll(start) + bits
    ensures (if p == 0 then bytes else bytes + [b]) == start + Pack(bits)
  {
    hide BitsOf, Pack, BitsOfAll, ClearFrom, Stream;
    if p > 0 {
      FlushPads(bytes, b, p);
      PackedBytes(start, bytes + [b], bits, 8 - p);
    } else {
      NoBits(bytes, b);
      assert BitsOfAll(bytes) == BitsOfAll(start) + bits + Zeros(0);
      PackedBytes(start, bytes, bits, 0);
    }
  }

  lemma PackedBytes(start: seq<bv8>, flushed: seq<bv8>, bits: seq<bool>, pad: nat)
    requires pad < 8 && BitsOfAll(flushed) == BitsOfAll(start) + bits + Zeros(pad)
    ensures flushed == start + Pack(bits)
  {
    hide BitsOf, Pack, BitsOfAll;
    PackBits(bits);
    BitsOfAllConcat(start, Pack(bits));
    assert 8 * |flushed| == 8 * |start| + |bits| + pad;
    SamePad(BitsOfAll(start), bits, pad, 8 * |Pack(bits)| - |bits|);
    SameRows(flushed, start + Pack(bits));
  }

  lemma SamePad(a: seq<bool>, bits: seq<bool>, pad: nat, pad': nat)
    requires pad == pad'
    ensures a + bits + Zeros(pad) == a + (bits + Zeros(pad'))
  {
  }

  /** The reader's offset in its byte after n bits, and the bytes it has taken for them. */
  function BitOffset(n: nat): nat {
    if n == 0 then 0 else if n % 8 == 0 then 8 else n % 8
  }

  function ByteCount(n: nat): nat {
    (n + 7) / 8
  }

  lemma Eighths(n: nat, q: nat, r: nat)
    requires n == 8 * q + r && r < 8
    ensures n / 8 == q && n % 8 == r
  {
  }

  /** Offset r + 1 in byte q. */
  lemma InByte(n: nat, q: nat, r: nat)
    requires n == 8 * q + r + 1 && r < 8
    ensures BitOffset(n) == r + 1 && ByteCount(n) == q + 1
  {
    Eighths(n + 7, q + 1, r);
    if r == 7 {
      Eighths(n, q + 1, 0);
    } else {
      Eighths(n, q, r + 1);
    }
  }

  /** A read of k bits after n bits. */
  lemma AdvanceBits(s: seq<bv8>, n: nat, k: nat)
    requires 0 < k <= 8
    ensures BitOffset(n) <= 8
    ensures Advance(BitOffset(n), Drop(s, ByteCount(n)), k) == (BitOffset(n + k), Drop(s, ByteCount(n + k)))
  {
    DropOne(s, ByteCount(n));
    hide Drop, Rest;
    if n == 0 {
      InByte(k, 0, k - 1);
    } else {
      var q, r := (n - 1) / 8, (n - 1) % 8;
      InByte(n, q, r);
      if r + k < 8 {
        InByte(n + k, q, r + k);
      } else {
        InByte(n + k, q + 1, r + k - 8);
      }
    }
  }

  lemma AtStart(s: seq<bv8>)
    ensures BitOffset(0) == 0 && Drop(s, ByteCount(0)) == s
  {
  }

  lemma DropOne(s: seq<bv8>, n: nat)
    ensures Rest(Drop(s, n)) == Drop(s, n + 1)
  {
  }

  lemma NothingPending(b: bv8, s: seq<bv8>)
    ensures Pending(b, 0, s) == BitsOfAll(s)
  {
  }

  lemma NoChars(bits: seq<bool>)
    ensures Chars(bits, 0) == []
  {
  }

  lemma {:induction false} CharsAgree(x: seq<bool>, y: seq<bool>, n: nat)
    requires 6 * n <= |x| && 6 * n <= |y| && x[..6 * n] == y[..6 * n]
    ensures Chars(x, n) == Chars(y, n)
  {
    hide Char, ByteOf;
    if n > 0 {
      SlicesAgree(x, y, 6 * n);
      CharsAgree(x[6..], y[6..], n - 1);
    }
  }

  lemma SlicesAgree(x: seq<bool>, y: seq<bool>, m: nat)
    requires 6 <= m <= |x| && m <= |y| && x[..m] == y[..m]
    ensures x[..6] == y[..6] && x[6..][..m - 6] == y[6..][..m - 6]
  {
    assert x[..6] == x[..m][..6] && y[..6] == y[..m][..6];
    assert x[6..][..m - 6] == x[..m][6..] && y[6..][..m - 6] == y[..m][6..];
  }

  /** Reading six bits takes one character off what the reader, fed with zeros, still yields. */
  lemma CharTook(before: seq<bool>, c: bv8, after: seq<bool>, n: nat)
    requires n > 0 && Took(before, 6, c, after)
    ensures Chars(before + Zeros(6 * n), n) == [Char(c)] + Chars(after + Zeros(6 * (n - 1)), n - 1)
  {
    hide Char, BitsOf, ByteOf;
    var x := before + Zeros(6 * n);
    var y := after + Zeros(6 * (n - 1));
    assert BitsOf(c) == Zeros(2) + x[..6];
    ByteOfBitsOf(c);
    assert x[6..][..6 * (n - 1)] == y[..6 * (n - 1)];
    CharsAgree(x[6..], y, n - 1);
  }

  // ---- Any sequence of writes, read back ----

  datatype Item = Item(value: bv8, width: nat)

  /** The low bits of a value, as many as the item is wide. */
  function ItemBits(it: Item): seq<bool>
    requires it.width <= 8
  {
    BitsOf(it.value)[8 - it.width..]
  }

  function BitsOfItems(items: seq<Item>): seq<bool>
    requires forall it :: it in items ==> it.width <= 8
  {
    if items == [] then [] else ItemBits(items[0]) + BitsOfItems(items[1..])
  }

  /** The reader goes through the states of trace, reading rs at the widths of items. */
  ghost predicate Reads(trace: seq<seq<bool>>, items: seq<Item>, rs: seq<bv8>)
    requires forall it :: it in items ==> it.width <= 8
  {
    && |rs| == |items| && |trace| == |items| + 1
    && forall i :: 0 <= i < |items| ==> Took(trace[i], items[i].width, rs[i], trace[i + 1])
  }

  lemma TookItem(d: bv8, n: nat, more: seq<bool>, res: bv8, after: seq<bool>)
    requires n <= 8 && Took(BitsOf(d)[8 - n..] + more, n, res, after)
    ensures res == And(d, Mask(n)) && after == more
  {
    hide BitAt, And, Mask;
    var r := BitsOf(d)[8 - n..] + more;
    assert r[..n] == BitsOf(d)[8 - n..] && r[n..] == more;
    forall k | 0 <= k < 8 ensures BitAt(res, k) == BitAt(And(d, Mask(n)), k) {
      BitOfAnd(d, Mask(n), k);
      BitOfMask(n, k);
      assert BitsOf(res)[k] == BitAt(res, k);
    }
    SameBits(res, And(d, Mask(n)));
  }

  /** Values of up to eight bits, packed one after another into bytes, come back modulo 2 to
      their width, and the reader ends within the last byte of them, whatever follows. */
  lemma {:induction false} ItemsReadBack(items: seq<Item>, more: seq<bool>, trace: seq<seq<bool>>, rs: seq<bv8>)
    requires forall it :: it in items ==> it.width <= 8
    requires Reads(trace, items, rs) && trace[0] == BitsOfItems(items) + more
    ensures forall i :: 0 <= i < |items| ==> rs[i] == And(items[i].value, Mask(items[i].width))
    ensures trace[|items|] == more
  {
    hide BitsOf, And, Mask, Took;
    if items == [] {
      assert trace[0] == more;
    } else {
      var d, n := items[0].value, items[0].width;
      assert trace[0] == BitsOf(d)[8 - n..] + (BitsOfItems(items[1..]) + more);
      TookItem(d, n, BitsOfItems(items[1..]) + more, rs[0], trace[1]);
      hide BitsOfItems;
      ReadsTail(trace, items, rs);
      var items', trace', rs' := items[1..], trace[1..], rs[1..];
      ItemsReadBack(items', more, trace', rs');
      assert trace'[|items'|] == trace[|items|];
      forall i | 0 < i < |items| ensures rs[i] == And(items[i].value, Mask(items[i].width)) {
        assert rs'[i - 1] == rs[i] && items'[i - 1] == items[i];
      }
    }
  }

  lemma ReadsTail(trace: seq<seq<bool>>, items: seq<Item>, rs: seq<bv8>)
    requires forall it :: it in items ==> it.width <= 8
    requires Reads(trace, items, rs) && items != []
    ensures Reads(trace[1..], items[1..], rs[1..])
  {
    hide Took;
    forall i | 0 <= i < |items| - 1
      ensures Took(trace[1..][i], items[1..][i].width, rs[1..][i], trace[1..][i + 1])
    {
      assert Took(trace[i + 1], items[i + 1].width, rs[i + 1], trace[i + 2]);
    }
  }

  lemma BitStreamRoundTrip(items: seq<Item>, rest: seq<bv8>, trace: seq<seq<bool>>, rs: seq<bv8>)
    requires forall it :: it in items ==> it.width <= 8
    requires Reads(trace, items, rs) && trace != [] && trace[0] == BitsOfAll(Pack(BitsOfItems(items)) + rest)
    ensures forall i :: 0 <= i < |items| ==> rs[i] == And(items[i].value, Mask(items[i].width))
    ensures exists pad :: 0 <= pad < 8 && trace[|items|] == Zeros(pad) + BitsOfAll(rest)
  {
    hide BitsOf, And, Mask, Took, Pack, BitsOfAll, BitsOfItems, Reads;
    var bits := BitsOfItems(items);
    var p := Pack(bits);
    PackBits(bits);
    BitsOfAllConcat(p, rest);
    var pad := 8 * |p| - |bits|;
    assert trace[0] == bits + (Zeros(pad) + BitsOfAll(rest));
    ItemsReadBack(items, Zeros(pad) + BitsOfAll(rest), trace, rs);
  }
}
