/** Known answers of the wire format: the values of the port test, the alphabet, how four
    six-bit characters share three bytes, and words and numbers written out. */
module WireVectors {
  import opened Bits
  import opened BitStream
  import opened Wire
  import opened WireFrac
  import opened WireText

  // ---- Words ----

  lemma WordExample()
    ensures EncU64(0x1234_5678_9abc_def0) == [0x12, 0x34, 0x56, 0x78, 0x9a, 0xbc, 0xde, 0xf0]
    ensures EncU32(0x1234_5678) == [0x12, 0x34, 0x56, 0x78]
  {
  }

  // ---- Integers ----

  lemma GroupsOf(n: nat, m: nat)
    requires n / 128 == m && n != 0
    ensures Groups(n) == Groups(m) + [More(n)]
  {
    hide More;
  }

  /** The integers of the port test. */
  lemma IntExamples()
    ensures EncInt(0) == [0] && EncInt(1337) == [0x8a, 0x39]
    ensures EncInt(78154004) == [0xa5, 0xa2, 0x92, 0x14]
    ensures EncInt(524288) == [0xa0, 0x80, 0x00]
  {
    assert Groups(0) == [];
    GroupsOf(10, 0);
    GroupsOf(610578, 4770);
    GroupsOf(4770, 37);
    GroupsOf(37, 0);
    GroupsOf(4096, 32);
    GroupsOf(32, 0);
    GroupExamples();
    hide More, Last, Groups;
  }

  lemma GroupExamples()
    ensures Last(0) == 0x00 && More(10) == 0x8a && Last(1337) == 0x39
    ensures More(37) == 0xa5 && More(4770) == 0xa2 && More(610578) == 0x92 && Last(78154004) == 0x14
    ensures More(32) == 0xa0 && More(4096) == 0x80 && Last(524288) == 0x00
  {
  }

  // ---- Fractions ----

  /** Fractions below 192 keep their integer part; larger numbers are halved to a byte. */
  lemma FracExamples()
    ensures EncReal(100.0) == [100, 0] && EncReal(6.03) == [6, 7] && EncReal(16.92) == [16, 234]
    ensures EncReal(1000.0) == [193, 250]
    ensures DecFrac(6, 7) == Finite(6.02734375) && DecFrac(16, 234) == Finite(16.9140625)
    ensures DecFrac(193, 250) == Finite(1000.0) && DecFrac(255, 255) == Infinite
  {
    assert Halve(500, 0) == (250, 1);
    assert Pow2(2) == 4;
  }

  // ---- The alphabet ----

  /** The codes of the table, range by range. */
  lemma CodeIs(c: bv8)
    requires c <= 0x7f
    ensures Code(c) ==
      if 0x61 <= c <= 0x7a then c - 0x61          // a to z
      else if c == 0x23 then 26                   // #
      else if c == 0x2f then 27                   // /
      else if c == 0x2d then 28                   // -
      else if c == 0x5f then 29                   // _
      else if c == 0x20 then 30                   // space
      else if 0x30 <= c <= 0x39 then c - 0x30 + 31 // 0 to 9
      else if 0x41 <= c <= 0x48 then c - 0x41 + 41 // A to H
      else if 0x4a <= c <= 0x4e then c - 0x4a + 49 // J to N
      else if 0x50 <= c <= 0x51 then c - 0x50 + 54 // P and Q
      else if 0x53 <= c <= 0x58 then c - 0x53 + 56 // S to X
      else if c == 0x5a then 62                   // Z
      else if c == 0x2e then 63                   // .
      else if c == 0x7f then 0
      else 0xff
  {
  }

  // ---- Six bits a character ----

  /** The three bytes that four codes make. */
  function First(a: bv8, b: bv8): bv8 { (a << 2) | (b >> 4) }

  function Second(b: bv8, c: bv8): bv8 { (b << 4) | (c >> 2) }

  function Third(c: bv8, d: bv8): bv8 { (c << 6) | d }

  lemma HighClear(x: bv8)
    requires x < 64
    ensures !BitAt(x, 0) && !BitAt(x, 1)
  {
  }

  lemma PartsAre(a: bv8, b: bv8, c: bv8, d: bv8)
    ensures First(a, b) == Or(Shl(a, 2), Shr(b, 4))
    ensures Second(b, c) == Or(Shl(b, 4), Shr(c, 2))
    ensures Third(c, d) == Or(Shl(c, 6), d)
  {
  }

  lemma BitsJoin(a: bv8, b: bv8, c: bv8, d: bv8, k: nat)
    requires a < 64 && b < 64 && c < 64 && d < 64 && k < 8
    ensures BitAt(First(a, b), k) == if k < 6 then BitAt(a, k + 2) else BitAt(b, k - 4)
    ensures BitAt(Second(b, c), k) == if k < 4 then BitAt(b, k + 4) else BitAt(c, k - 2)
    ensures BitAt(Third(c, d), k) == if k < 2 then BitAt(c, k + 6) else BitAt(d, k)
  {
    hide BitAt, Or, Shl, Shr, First, Second, Third;
    PartsAre(a, b, c, d);
    HighClear(b);
    HighClear(c);
    HighClear(d);
    BitOfOr(Shl(a, 2), Shr(b, 4), k);
    BitOfShl(a, 2, k);
    BitOfShr(b, 4, k);
    BitOfOr(Shl(b, 4), Shr(c, 2), k);
    BitOfShl(b, 4, k);
    BitOfShr(c, 2, k);
    BitOfOr(Shl(c, 6), d, k);
    BitOfShl(c, 6, k);
  }

  lemma ThreeBytes(a: bv8, b: bv8, c: bv8, d: bv8)
    requires a < 64 && b < 64 && c < 64 && d < 64
    ensures BitsOf(a)[2..] + BitsOf(b)[2..] + BitsOf(c)[2..] + BitsOf(d)[2..]
         == BitsOf(First(a, b)) + BitsOf(Second(b, c)) + BitsOf(Third(c, d))
  {
    hide BitAt, First, Second, Third;
    forall k | 0 <= k < 8
      ensures BitAt(First(a, b), k) == if k < 6 then BitAt(a, k + 2) else BitAt(b, k - 4)
      ensures BitAt(Second(b, c), k) == if k < 4 then BitAt(b, k + 4) else BitAt(c, k - 2)
      ensures BitAt(Third(c, d), k) == if k < 2 then BitAt(c, k + 6) else BitAt(d, k)
    {
      BitsJoin(a, b, c, d, k);
    }
    var l := BitsOf(a)[2..] + BitsOf(b)[2..] + BitsOf(c)[2..] + BitsOf(d)[2..];
    var r := BitsOf(First(a, b)) + BitsOf(Second(b, c)) + BitsOf(Third(c, d));
    forall i | 0 <= i < 24 ensures l[i] == r[i] {
    }
  }

  lemma PackByte(b: bv8, more: seq<bool>)
    ensures Pack(BitsOf(b) + more) == [b] + Pack(more)
  {
    ByteOfBitsOf(b);
    hide ByteOf, BitsOf;
    assert (BitsOf(b) + more)[..8] == BitsOf(b) && (BitsOf(b) + more)[8..] == more;
  }

  /** Four characters share three bytes, the first in the high bits. */
  lemma FourCodes(a: bv8, b: bv8, c: bv8, d: bv8, more: seq<bool>)
    requires a < 64 && b < 64 && c < 64 && d < 64
    ensures Pack(BitsOf(a)[2..] + BitsOf(b)[2..] + BitsOf(c)[2..] + BitsOf(d)[2..] + more)
         == [First(a, b), Second(b, c), Third(c, d)] + Pack(more)
  {
    ThreeBytes(a, b, c, d);
    hide BitsOf, Pack, First, Second, Third;
    var x, y, z := First(a, b), Second(b, c), Third(c, d);
    assert BitsOf(x) + BitsOf(y) + BitsOf(z) + more == BitsOf(x) + (BitsOf(y) + (BitsOf(z) + more));
    PackByte(x, BitsOf(y) + (BitsOf(z) + more));
    PackByte(y, BitsOf(z) + more);
    PackByte(z, more);
  }

  lemma CodeBitsAt(s: Text)
    requires s != []
    ensures CodeBits(s) == BitsOf(Code(s[0]))[2..] + CodeBits(s[1..])
  {
  }

  lemma FourParts(s: Text, a: seq<bool>, b: seq<bool>, c: seq<bool>, d: seq<bool>)
    requires |s| >= 4
    requires a == BitsOf(Code(s[0]))[2..] && b == BitsOf(Code(s[1]))[2..] && c == BitsOf(Code(s[2]))[2..] && d == BitsOf(Code(s[3]))[2..]
    ensures CodeBits(s) == a + b + c + d + CodeBits(s[4..])
  {
    hide Code, BitsOf, CodeBits;
    CodeBitsAt(s);
    CodeBitsAt(s[1..]);
    CodeBitsAt(s[2..]);
    CodeBitsAt(s[3..]);
    assert s[1..][1..] == s[2..] && s[2..][1..] == s[3..] && s[3..][1..] == s[4..];
    assert a + (b + (c + (d + CodeBits(s[4..])))) == a + b + c + d + CodeBits(s[4..]);
  }

  lemma FourCharacters(s: Text)
    requires |s| >= 4 && Code(s[0]) < 64 && Code(s[1]) < 64 && Code(s[2]) < 64 && Code(s[3]) < 64
    ensures var a, b, c, d := Code(s[0]), Code(s[1]), Code(s[2]), Code(s[3]);
      Pack(CodeBits(s)) == [First(a, b), Second(b, c), Third(c, d)] + Pack(CodeBits(s[4..]))
  {
    hide Code, BitsOf, Pack, CodeBits, First, Second, Third;
    FourParts(s, BitsOf(Code(s[0]))[2..], BitsOf(Code(s[1]))[2..], BitsOf(Code(s[2]))[2..], BitsOf(Code(s[3]))[2..]);
    FourCodes(Code(s[0]), Code(s[1]), Code(s[2]), Code(s[3]), CodeBits(s[4..]));
  }

  /** "hello world.", as the port test writes it. */
  function Hello(): Text {
    [0x68, 0x65, 0x6c, 0x6c, 0x6f, 0x20, 0x77, 0x6f, 0x72, 0x6c, 0x64, 0x2e]
  }

  lemma HelloCodes()
    ensures Code(0x68) == 7 && Code(0x65) == 4 && Code(0x6c) == 11 && Code(0x6f) == 14 && Code(0x20) == 30 && Code(0x77) == 22
    ensures Code(0x72) == 17 && Code(0x64) == 3 && Code(0x2e) == 63
  {
  }

  lemma TextExample()
    ensures EncText(Hello()) == [0x8c, 0x1c, 0x42, 0xcb, 0x39, 0xe5, 0x8e, 0x44, 0xb0, 0xff]
  {
    hide Code, Pack, CodeBits;
    HelloCodes();
    var s := Hello();
    assert AllSixBit(s);
    FourCharacters(s);
    FourCharacters(s[4..]);
    FourCharacters(s[4..][4..]);
    assert s[4..][4..][4..] == [];
    NoCharacters();
  }

  lemma NoCharacters()
    ensures Pack(CodeBits([])) == []
  {
  }

  // ---- Bits ----

  lemma ItemExamples()
    ensures ItemBits(Item(13, 4)) == [true, true, false, true]
    ensures ItemBits(Item(42, 6)) == [true, false, true, false, true, false]
    ensures ItemBits(Item(5, 3)) == [true, false, true]
    ensures ItemBits(Item(69, 7)) == [true, false, false, false, true, false, true]
  {
  }

  lemma ByteExamples()
    ensures ByteOf([true, true, false, true, true, false, true, false]) == 0xda
    ensures ByteOf([true, false, true, false, true, true, false, false]) == 0xac
    ensures ByteOf([false, true, false, true, false, false, false, false]) == 0x50
  {
  }

  /** The bits of the port test: 13 in four, 42 in six, 5 in three and 69 in seven bits. */
  lemma BitExample()
    ensures Pack(BitsOfItems([Item(13, 4), Item(42, 6), Item(5, 3), Item(69, 7)])) == [0xda, 0xac, 0x50]
  {
    hide ItemBits, ByteOf, Pack, BitsOfItems;
    ItemExamples();
    ByteExamples();
    var all := BitsOfItems([Item(13, 4), Item(42, 6), Item(5, 3), Item(69, 7)]);
    FourItems(Item(13, 4), Item(42, 6), Item(5, 3), Item(69, 7));
    var bits := [true, true, false, true, true, false, true, false, true, false, true, false, true,
                 true, false, false, false, true, false, true];
    assert all == bits;
    PackTwenty(bits);
    assert bits[..8] == [true, true, false, true, true, false, true, false];
    assert bits[8..16] == [true, false, true, false, true, true, false, false];
    assert bits[16..] + [false, false, false, false] == [false, true, false, true, false, false, false, false];
  }

  lemma FourItems(a: Item, b: Item, c: Item, d: Item)
    requires a.width <= 8 && b.width <= 8 && c.width <= 8 && d.width <= 8
    ensures BitsOfItems([a, b, c, d]) == ItemBits(a) + ItemBits(b) + ItemBits(c) + ItemBits(d)
  {
    hide ItemBits;
    assert [a, b, c, d][1..] == [b, c, d] && [b, c, d][1..] == [c, d] && [c, d][1..] == [d] && [d][1..] == [];
    assert BitsOfItems([d]) == ItemBits(d) + BitsOfItems([]);
    assert BitsOfItems([c, d]) == ItemBits(c) + BitsOfItems([d]);
    assert BitsOfItems([b, c, d]) == ItemBits(b) + BitsOfItems([c, d]);
    assert BitsOfItems([a, b, c, d]) == ItemBits(a) + BitsOfItems([b, c, d]);
  }

  lemma PackTwenty(bits: seq<bool>)
    requires |bits| == 20
    ensures Pack(bits) == [ByteOf(bits[..8]), ByteOf(bits[8..16]), ByteOf(bits[16..] + [false, false, false, false])]
  {
    hide ByteOf;
    var t := bits[8..];
    assert t[..8] == bits[8..16] && t[8..] == bits[16..];
    assert Zeros(4) == [false, false, false, false];
    assert Pack(bits[16..]) == [ByteOf(bits[16..] + Zeros(4))];
    assert Pack(t) == [ByteOf(bits[8..16])] + Pack(bits[16..]);
  }
}
