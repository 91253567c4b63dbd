/** Bytes as rows of eight bits, most significant bit first. */
module Bits {

  /** Bit k of b, counted from the most significant one. */
  function BitAt(b: bv8, k: nat): bool
    requires k < 8
  {
    b & (0x80 >> k) != 0
  }

  function BitsOf(b: bv8): (s: seq<bool>)
    ensures |s| == 8
  {
    seq(8, k requires 0 <= k < 8 => BitAt(b, k))
  }

  function Zeros(n: nat): (s: seq<bool>)
    ensures |s| == n
  {
    seq(n, _ => false)
  }

  /** The bits of a row of bytes. */
  function BitsOfAll(s: seq<bv8>): (r: seq<bool>)
    ensures |r| == 8 * |s|
  {
    if s == [] then [] else BitsOf(s[0]) + BitsOfAll(s[1..])
  }

  lemma {:induction false} BitsOfAllConcat(s: seq<bv8>, t: seq<bv8>)
    ensures BitsOfAll(s + t) == BitsOfAll(s) + BitsOfAll(t)
  {
    if s == [] {
      assert s + t == t;
    } else {
      assert (s + t)[1..] == s[1..] + t;
      BitsOfAllConcat(s[1..], t);
    }
  }

  /** The low n bits set: the source's BITMASKS table. */
  function Mask(n: nat): bv8
    requires n <= 8
  {
    if n == 0 then 0x00 else if n == 1 then 0x01 else if n == 2 then 0x03
    else if n == 3 then 0x07 else if n == 4 then 0x0f else if n == 5 then 0x1f
    else if n == 6 then 0x3f else if n == 7 then 0x7f else 0xff
  }

  // ---- The operators on bytes and what each does to bit k ----

  function And(x: bv8, y: bv8): bv8 { x & y }

  function Or(x: bv8, y: bv8): bv8 { x | y }

  function Shl(x: bv8, n: nat): bv8
    requires n <= 8
  {
    x << n
  }

  function Shr(x: bv8, n: nat): bv8
    requires n <= 8
  {
    x >> n
  }

  lemma BitOfMask(n: nat, k: nat)
    requires n <= 8 && k < 8
    ensures BitAt(Mask(n), k) == (k >= 8 - n)
  {
  }

  lemma BitOfAnd(x: bv8, y: bv8, k: nat)
    requires k < 8
    ensures BitAt(And(x, y), k) == (BitAt(x, k) && BitAt(y, k))
  {
    assert k == 0 || k == 1 || k == 2 || k == 3 || k == 4 || k == 5 || k == 6 || k == 7;
  }

  lemma BitOfOr(x: bv8, y: bv8, k: nat)
    requires k < 8
    ensures BitAt(Or(x, y), k) == (BitAt(x, k) || BitAt(y, k))
  {
    var m: bv8 := 0x80 >> k;
    assert (x | y) & m == (x & m) | (y & m);
  }

  lemma BitOfShl(x: bv8, n: nat, k: nat)
    requires n <= 8 && k < 8
    ensures BitAt(Shl(x, n), k) == (k + n < 8 && BitAt(x, k + n))
  {
  }

  lemma BitOfShr(x: bv8, n: nat, k: nat)
    requires n <= 8 && k < 8
    ensures BitAt(Shr(x, n), k) == (k >= n && BitAt(x, k - n))
  {
  }

  lemma BitOfZero(k: nat)
    requires k < 8
    ensures !BitAt(0, k)
  {
  }

  lemma BitsOfOne(b: bv8)
    ensures BitsOfAll([b]) == BitsOf(b)
  {
    assert BitsOfAll([b]) == BitsOf(b) + BitsOfAll([b][1..]);
  }

  lemma SameBits(x: bv8, y: bv8)
    requires forall k :: 0 <= k < 8 ==> BitAt(x, k) == BitAt(y, k)
    ensures x == y
  {
    assert BitAt(x, 0) == BitAt(y, 0);
    assert BitAt(x, 1) == BitAt(y, 1);
    assert BitAt(x, 2) == BitAt(y, 2);
    assert BitAt(x, 3) == BitAt(y, 3);
    assert BitAt(x, 4) == BitAt(y, 4);
    assert BitAt(x, 5) == BitAt(y, 5);
    assert BitAt(x, 6) == BitAt(y, 6);
    assert BitAt(x, 7) == BitAt(y, 7);
  }

  /** The bits a write of n bits of d puts into a byte whose first p bits are taken. */
  lemma FirstPart(buf: bv8, d: bv8, p: nat, n: nat, bits1: nat, k: nat)
    requires p < 8 && bits1 <= n <= 8 && p + bits1 <= 8 && k < 8
    ensures BitAt(Or(buf, Shl(And(Shr(d, n - bits1), Mask(bits1)), 8 - p - bits1)), k)
         == (BitAt(buf, k) || (p <= k < p + bits1 && BitAt(d, 8 - n + k - p)))
  {
    hide BitAt, Mask, And, Or, Shl, Shr;
    var shift := 8 - p - bits1;
    var x := And(Shr(d, n - bits1), Mask(bits1));
    BitOfOr(buf, Shl(x, shift), k);
    BitOfShl(x, shift, k);
    if k + shift < 8 {
      BitOfAnd(Shr(d, n - bits1), Mask(bits1), k + shift);
      BitOfMask(bits1, k + shift);
      BitOfShr(d, n - bits1, k + shift);
    }
  }

  /** The bits left for the next byte. */
  lemma SecondPart(d: bv8, bits2: nat, k: nat)
    requires 0 < bits2 <= 8 && k < 8
    ensures BitAt(Shl(And(d, Mask(bits2)), 8 - bits2), k) == (k < bits2 && BitAt(d, 8 - bits2 + k))
  {
    hide BitAt, Mask, And, Or, Shl, Shr;
    var shift := 8 - bits2;
    BitOfShl(And(d, Mask(bits2)), shift, k);
    if k + shift < 8 {
      BitOfAnd(d, Mask(bits2), k + shift);
      BitOfMask(bits2, k + shift);
    }
  }

  /** The bits a read of bits1 bits from offset p of a byte yields, moved up by bits2. */
  lemma ReadPart(buf: bv8, p: nat, bits1: nat, bits2: nat, k: nat)
    requires p + bits1 <= 8 && bits1 + bits2 <= 8 && k < 8
    ensures BitAt(Shl(Shr(And(buf, Shl(Mask(bits1), 8 - p - bits1)), 8 - p - bits1), bits2), k)
         == (8 - bits1 - bits2 <= k < 8 - bits2 && BitAt(buf, k + bits2 - 8 + bits1 + p))
  {
    hide BitAt, Mask, And, Or, Shl, Shr;
    var shift := 8 - p - bits1;
    var x := And(buf, Shl(Mask(bits1), shift));
    BitOfShl(Shr(x, shift), bits2, k);
    if k + bits2 < 8 {
      BitOfShr(x, shift, k + bits2);
      if k + bits2 >= shift {
        var j := k + bits2 - shift;
        BitOfAnd(buf, Shl(Mask(bits1), shift), j);
        BitOfShl(Mask(bits1), shift, j);
        BitOfMask(bits1, k + bits2);
      }
    }
  }

  /** The bits a read of the first bits2 bits of a byte yields. */
  lemma ReadRest(buf: bv8, bits2: nat, k: nat)
    requires 0 < bits2 <= 8 && k < 8
    ensures BitAt(Shr(And(buf, Shl(Mask(bits2), 8 - bits2)), 8 - bits2), k)
         == (k >= 8 - bits2 && BitAt(buf, k - (8 - bits2)))
  {
    hide BitAt, Mask, And, Or, Shl, Shr;
    var shift := 8 - bits2;
    BitOfShr(And(buf, Shl(Mask(bits2), shift)), shift, k);
    if k >= shift {
      BitOfAnd(buf, Shl(Mask(bits2), shift), k - shift);
      BitOfShl(Mask(bits2), shift, k - shift);
      BitOfMask(bits2, k);
    }
  }

  // ---- The same facts on whole rows of bits ----

  ghost predicate ClearFrom(b: bv8, p: nat) {
    forall k :: p <= k < 8 ==> !BitAt(b, k)
  }

  lemma ZeroIsClear()
    ensures ClearFrom(0, 0)
  {
  }

  /** A partial byte after the first part of a write. */
  function Merge(buf: bv8, d: bv8, p: nat, n: nat, bits1: nat): bv8
    requires bits1 <= n <= 8 && p + bits1 <= 8
  {
    Or(buf, Shl(And(Shr(d, n - bits1), Mask(bits1)), 8 - p - bits1))
  }

  /** The next partial byte, holding the rest of the write. */
  function Carry(d: bv8, bits2: nat): bv8
    requires bits2 <= 8
  {
    if bits2 != 0 then Shl(And(d, Mask(bits2)), 8 - bits2) else 0
  }

  lemma MergeBits(buf: bv8, d: bv8, p: nat, n: nat, bits1: nat)
    requires p < 8 && bits1 <= n <= 8 && p + bits1 <= 8 && ClearFrom(buf, p)
    ensures BitsOf(Merge(buf, d, p, n, bits1))[..p + bits1] == BitsOf(buf)[..p] + BitsOf(d)[8 - n..8 - n + bits1]
    ensures ClearFrom(Merge(buf, d, p, n, bits1), p + bits1)
  {
    hide BitAt, And, Or, Shl, Shr, Mask;
    forall k | 0 <= k < 8
      ensures BitAt(Merge(buf, d, p, n, bits1), k)
           == (BitAt(buf, k) || (p <= k < p + bits1 && BitAt(d, 8 - n + k - p)))
    {
      FirstPart(buf, d, p, n, bits1, k);
    }
    var merged, want := BitsOf(Merge(buf, d, p, n, bits1))[..p + bits1], BitsOf(buf)[..p] + BitsOf(d)[8 - n..8 - n + bits1];
    forall k | 0 <= k < p + bits1 ensures merged[k] == want[k] {
      assert merged[k] == BitAt(Merge(buf, d, p, n, bits1), k);
      assert want[k] == if k < p then BitAt(buf, k) else BitAt(d, 8 - n + k - p);
    }
  }

  lemma CarryBits(d: bv8, bits2: nat)
    requires bits2 <= 8
    ensures BitsOf(Carry(d, bits2))[..bits2] == BitsOf(d)[8 - bits2..]
    ensures ClearFrom(Carry(d, bits2), bits2)
  {
    hide BitAt, And, Shl, Mask;
    forall k | 0 <= k < 8
      ensures BitAt(Carry(d, bits2), k) == (k < bits2 && BitAt(d, 8 - bits2 + k))
    {
      if bits2 != 0 {
        SecondPart(d, bits2, k);
      } else {
        BitOfZero(k);
      }
    }
  }

  /** The bits of whole bytes followed by the first p bits of one more. */
  function Stream(bytes: seq<bv8>, b: bv8, p: nat): seq<bool>
    requires p <= 8
  {
    BitsOfAll(bytes) + BitsOf(b)[..p]
  }

  /** A write that leaves room in the byte. */
  lemma PartByte(before: seq<bv8>, was: bv8, d: bv8, p: nat, n: nat)
    requires p + n < 8 && ClearFrom(was, p)
    ensures Stream(before, Merge(was, d, p, n, n), p + n) == Stream(before, was, p) + BitsOf(d)[8 - n..]
    ensures ClearFrom(Merge(was, d, p, n, n), p + n)
  {
    hide BitAt, Merge, BitsOf, BitsOfAll;
    MergeBits(was, d, p, n, n);
  }

  /** A write that fills a byte: what was pending, then the written bits, in order. */
  lemma FilledByte(before: seq<bv8>, was: bv8, d: bv8, p: nat, n: nat)
    requires p < 8 && n <= 8 && p + n >= 8 && ClearFrom(was, p)
    ensures Stream(before + [Merge(was, d, p, n, 8 - p)], Carry(d, p + n - 8), p + n - 8)
            == Stream(before, was, p) + BitsOf(d)[8 - n..]
    ensures ClearFrom(Carry(d, p + n - 8), p + n - 8)
  {
    hide BitAt, Merge, Carry, BitsOf, BitsOfAll;
    var bits1, bits2 := 8 - p, n - (8 - p);
    var full := Merge(was, d, p, n, bits1);
    MergeBits(was, d, p, n, bits1);
    CarryBits(d, bits2);
    BitsOfAllConcat(before, [full]);
    BitsOfOne(full);
    var low1, low2 := BitsOf(d)[8 - n..8 - n + bits1], BitsOf(d)[8 - bits2..];
    assert BitsOf(full) == BitsOf(full)[..8] == BitsOf(was)[..p] + low1;
    assert BitsOf(d)[8 - n..] == low1 + low2;
    Regroup(BitsOfAll(before), BitsOf(was)[..p], low1, low2);
  }

  lemma Regroup<T>(a: seq<T>, b: seq<T>, c: seq<T>, d: seq<T>)
    ensures a + (b + c) + d == a + b + (c + d)
  {
  }

  /** The low bits of a read that stays within the byte. */
  function TakeWithin(b: bv8, p: nat, bits1: nat, bits2: nat): bv8
    requires p + bits1 <= 8 && bits1 + bits2 <= 8
  {
    Shl(Shr(And(b, Shl(Mask(bits1), 8 - p - bits1)), 8 - p - bits1), bits2)
  }

  /** The part of a read that the next byte supplies. */
  function TakeNext(b: bv8, bits2: nat): bv8
    requires 0 < bits2 <= 8
  {
    Shr(And(b, Shl(Mask(bits2), 8 - bits2)), 8 - bits2)
  }

  lemma TakeWithinBits(b: bv8, p: nat, n: nat)
    requires p + n <= 8
    ensures BitsOf(TakeWithin(b, p, n, 0)) == Zeros(8 - n) + BitsOf(b)[p..p + n]
  {
    hide BitAt, Mask, And, Shl, Shr;
    forall k | 0 <= k < 8
      ensures BitAt(TakeWithin(b, p, n, 0), k) == (8 - n <= k && BitAt(b, k - 8 + n + p))
    {
      ReadPart(b, p, n, 0, k);
    }
  }

  lemma TakeAcrossBits(b: bv8, p: nat, next: bv8, n: nat)
    requires p <= 8 && n <= 8 && p + n > 8
    ensures BitsOf(Or(TakeWithin(b, p, 8 - p, p + n - 8), TakeNext(next, p + n - 8)))
         == Zeros(8 - n) + (BitsOf(b)[p..] + BitsOf(next)[..p + n - 8])
  {
    hide BitAt, Mask, And, Or, Shl, Shr;
    var bits1, bits2 := 8 - p, p + n - 8;
    var x, y := TakeWithin(b, p, bits1, bits2), TakeNext(next, bits2);
    forall k | 0 <= k < 8
      ensures BitAt(Or(x, y), k)
           == if k < 8 - n then false else if k < 8 - bits2 then BitAt(b, k + n - 8 + p) else BitAt(next, k - 8 + bits2)
    {
      BitOfOr(x, y, k);
      ReadPart(b, p, bits1, bits2, k);
      ReadRest(next, bits2, k);
    }
  }

  // ---- Bits back to bytes ----

  function ByteOf(bits: seq<bool>): bv8
    requires |bits| == 8
  {
    (if bits[0] then 0x80 else 0) | (if bits[1] then 0x40 else 0) | (if bits[2] then 0x20 else 0) |
    (if bits[3] then 0x10 else 0) | (if bits[4] then 0x08 else 0) | (if bits[5] then 0x04 else 0) |
    (if bits[6] then 0x02 else 0) | (if bits[7] then 0x01 else 0)
  }

  lemma BitsOfByteOf(bits: seq<bool>)
    requires |bits| == 8
    ensures BitsOf(ByteOf(bits)) == bits
  {
    var b := ByteOf(bits);
    assert BitAt(b, 0) == bits[0];
    assert BitAt(b, 1) == bits[1];
    assert BitAt(b, 2) == bits[2];
    assert BitAt(b, 3) == bits[3];
    assert BitAt(b, 4) == bits[4];
    assert BitAt(b, 5) == bits[5];
    assert BitAt(b, 6) == bits[6];
    assert BitAt(b, 7) == bits[7];
  }

  lemma ByteOfBitsOf(b: bv8)
    ensures ByteOf(BitsOf(b)) == b
  {
    BitsOfByteOf(BitsOf(b));
    SameRow(ByteOf(BitsOf(b)), b);
  }

  lemma SameRow(x: bv8, y: bv8)
    requires BitsOf(x) == BitsOf(y)
    ensures x == y
  {
    forall k | 0 <= k < 8 ensures BitAt(x, k) == BitAt(y, k) {
      assert BitsOf(x)[k] == BitsOf(y)[k];
    }
    SameBits(x, y);
  }

  lemma {:induction false} SameRows(s: seq<bv8>, t: seq<bv8>)
    requires BitsOfAll(s) == BitsOfAll(t)
    ensures s == t
  {
    assert |s| == |t|;
    if s != [] {
      assert BitsOf(s[0]) == BitsOfAll(s)[..8] == BitsOf(t[0]);
      SameRow(s[0], t[0]);
      assert BitsOfAll(s[1..]) == BitsOfAll(s)[8..] == BitsOfAll(t[1..]);
      SameRows(s[1..], t[1..]);
    }
  }

  /** Bits as whole bytes, the last one padded with zeros. */
  function Pack(bits: seq<bool>): seq<bv8> {
    if bits == [] then []
    else if |bits| < 8 then [ByteOf(bits + Zeros(8 - |bits|))]
    else [ByteOf(bits[..8])] + Pack(bits[8..])
  }

  lemma {:induction false} PackBits(bits: seq<bool>)
    ensures |Pack(bits)| == (|bits| + 7) / 8
    ensures BitsOfAll(Pack(bits)) == bits + Zeros(8 * |Pack(bits)| - |bits|)
  {
    if bits != [] {
      if |bits| < 8 {
        var padded := bits + Zeros(8 - |bits|);
        BitsOfByteOf(padded);
        BitsOfOne(ByteOf(padded));
      } else {
        var b := ByteOf(bits[..8]);
        BitsOfByteOf(bits[..8]);
        PackBits(bits[8..]);
        assert Pack(bits)[1..] == Pack(bits[8..]);
        assert bits == bits[..8] + bits[8..];
      }
    }
  }
}
