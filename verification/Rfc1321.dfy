/** The message digest of RFC 1321, on values and 32-bit words. */
module Rfc1321 {

  type Words = x: seq<bv32> | |x| == 16 witness seq(16, _ => 0)
  datatype State = State(a: bv32, b: bv32, c: bv32, d: bv32)

  // ---- Auxiliary functions and the four operations (section 3.4) ----

  function F(x: bv32, y: bv32, z: bv32): bv32 { (x & y) | (!x & z) }

  function G(x: bv32, y: bv32, z: bv32): bv32 { (x & z) | (y & !z) }

  function H(x: bv32, y: bv32, z: bv32): bv32 { x ^ y ^ z }

  function I(x: bv32, y: bv32, z: bv32): bv32 { y ^ (x | !z) }

  /** Addition of words modulo 2 to the 32. */
  function Plus(x: bv32, y: bv32): bv32 { x + y }

  function Rotl(x: bv32, s: nat): bv32
    requires s <= 32
  {
    (x << s) | (x >> (32 - s))
  }

  function FF(a: bv32, b: bv32, c: bv32, d: bv32, x: bv32, s: nat, t: bv32): bv32
    requires s <= 32
  {
    Plus(b, Rotl(Plus(Plus(Plus(a, F(b, c, d)), x), t), s))
  }

  function GG(a: bv32, b: bv32, c: bv32, d: bv32, x: bv32, s: nat, t: bv32): bv32
    requires s <= 32
  {
    Plus(b, Rotl(Plus(Plus(Plus(a, G(b, c, d)), x), t), s))
  }

  function HH(a: bv32, b: bv32, c: bv32, d: bv32, x: bv32, s: nat, t: bv32): bv32
    requires s <= 32
  {
    Plus(b, Rotl(Plus(Plus(Plus(a, H(b, c, d)), x), t), s))
  }

  function II(a: bv32, b: bv32, c: bv32, d: bv32, x: bv32, s: nat, t: bv32): bv32
    requires s <= 32
  {
    Plus(b, Rotl(Plus(Plus(Plus(a, I(b, c, d)), x), t), s))
  }

  /** Round 1 of section 3.4. */
  function Round1(a: bv32, b: bv32, c: bv32, d: bv32, x: Words): (bv32, bv32, bv32, bv32) {
    var a1 := FF(a, b, c, d, x[0], 7, 0xd76aa478);
    var d1 := FF(d, a1, b, c, x[1], 12, 0xe8c7b756);
    var c1 := FF(c, d1, a1, b, x[2], 17, 0x242070db);
    var b1 := FF(b, c1, d1, a1, x[3], 22, 0xc1bdceee);
    var a2 := FF(a1, b1, c1, d1, x[4], 7, 0xf57c0faf);
    var d2 := FF(d1, a2, b1, c1, x[5], 12, 0x4787c62a);
    var c2 := FF(c1, d2, a2, b1, x[6], 17, 0xa8304613);
    var b2 := FF(b1, c2, d2, a2, x[7], 22, 0xfd469501);
    var a3 := FF(a2, b2, c2, d2, x[8], 7, 0x698098d8);
    var d3 := FF(d2, a3, b2, c2, x[9], 12, 0x8b44f7af);
    var c3 := FF(c2, d3, a3, b2, x[10], 17, 0xffff5bb1);
    var b3 := FF(b2, c3, d3, a3, x[11], 22, 0x895cd7be);
    var a4 := FF(a3, b3, c3, d3, x[12], 7, 0x6b901122);
    var d4 := FF(d3, a4, b3, c3, x[13], 12, 0xfd987193);
    var c4 := FF(c3, d4, a4, b3, x[14], 17, 0xa679438e);
    var b4 := FF(b3, c4, d4, a4, x[15], 22, 0x49b40821);
    (a4, b4, c4, d4)
  }

  /** Round 2. */
  function Round2(a: bv32, b: bv32, c: bv32, d: bv32, x: Words): (bv32, bv32, bv32, bv32) {
    var a1 := GG(a, b, c, d, x[1], 5, 0xf61e2562);
    var d1 := GG(d, a1, b, c, x[6], 9, 0xc040b340);
    var c1 := GG(c, d1, a1, b, x[11], 14, 0x265e5a51);
    var b1 := GG(b, c1, d1, a1, x[0], 20, 0xe9b6c7aa);
    var a2 := GG(a1, b1, c1, d1, x[5], 5, 0xd62f105d);
    var d2 := GG(d1, a2, b1, c1, x[10], 9, 0x02441453);
    var c2 := GG(c1, d2, a2, b1, x[15], 14, 0xd8a1e681);
    var b2 := GG(b1, c2, d2, a2, x[4], 20, 0xe7d3fbc8);
    var a3 := GG(a2, b2, c2, d2, x[9], 5, 0x21e1cde6);
    var d3 := GG(d2, a3, b2, c2, x[14], 9, 0xc33707d6);
    var c3 := GG(c2, d3, a3, b2, x[3], 14, 0xf4d50d87);
    var b3 := GG(b2, c3, d3, a3, x[8], 20, 0x455a14ed);
    var a4 := GG(a3, b3, c3, d3, x[13], 5, 0xa9e3e905);
    var d4 := GG(d3, a4, b3, c3, x[2], 9, 0xfcefa3f8);
    var c4 := GG(c3, d4, a4, b3, x[7], 14, 0x676f02d9);
    var b4 := GG(b3, c4, d4, a4, x[12], 20, 0x8d2a4c8a);
    (a4, b4, c4, d4)
  }

  /** Round 3. */
  function Round3(a: bv32, b: bv32, c: bv32, d: bv32, x: Words): (bv32, bv32, bv32, bv32) {
    var a1 := HH(a, b, c, d, x[5], 4, 0xfffa3942);
    var d1 := HH(d, a1, b, c, x[8], 11, 0x8771f681);
    var c1 := HH(c, d1, a1, b, x[11], 16, 0x6d9d6122);
    var b1 := HH(b, c1, d1, a1, x[14], 23, 0xfde5380c);
    var a2 := HH(a1, b1, c1, d1, x[1], 4, 0xa4beea44);
    var d2 := HH(d1, a2, b1, c1, x[4], 11, 0x4bdecfa9);
    var c2 := HH(c1, d2, a2, b1, x[7], 16, 0xf6bb4b60);
    var b2 := HH(b1, c2, d2, a2, x[10], 23, 0xbebfbc70);
    var a3 := HH(a2, b2, c2, d2, x[13], 4, 0x289b7ec6);
    var d3 := HH(d2, a3, b2, c2, x[0], 11, 0xeaa127fa);
    var c3 := HH(c2, d3, a3, b2, x[3], 16, 0xd4ef3085);
    var b3 := HH(b2, c3, d3, a3, x[6], 23, 0x04881d05);
    var a4 := HH(a3, b3, c3, d3, x[9], 4, 0xd9d4d039);
    var d4 := HH(d3, a4, b3, c3, x[12], 11, 0xe6db99e5);
    var c4 := HH(c3, d4, a4, b3, x[15], 16, 0x1fa27cf8);
    var b4 := HH(b3, c4, d4, a4, x[2], 23, 0xc4ac5665);
    (a4, b4, c4, d4)
  }

  /** Round 4. */
  function Round4(a: bv32, b: bv32, c: bv32, d: bv32, x: Words): (bv32, bv32, bv32, bv32) {
    var a1 := II(a, b, c, d, x[0], 6, 0xf4292244);
    var d1 := II(d, a1, b, c, x[7], 10, 0x432aff97);
    var c1 := II(c, d1, a1, b, x[14], 15, 0xab9423a7);
    var b1 := II(b, c1, d1, a1, x[5], 21, 0xfc93a039);
    var a2 := II(a1, b1, c1, d1, x[12], 6, 0x655b59c3);
    var d2 := II(d1, a2, b1, c1, x[3], 10, 0x8f0ccc92);
    var c2 := II(c1, d2, a2, b1, x[10], 15, 0xffeff47d);
    var b2 := II(b1, c2, d2, a2, x[1], 21, 0x85845dd1);
    var a3 := II(a2, b2, c2, d2, x[8], 6, 0x6fa87e4f);
    var d3 := II(d2, a3, b2, c2, x[15], 10, 0xfe2ce6e0);
    var c3 := II(c2, d3, a3, b2, x[6], 15, 0xa3014314);
    var b3 := II(b2, c3, d3, a3, x[13], 21, 0x4e0811a1);
    var a4 := II(a3, b3, c3, d3, x[4], 6, 0xf7537e82);
    var d4 := II(d3, a4, b3, c3, x[11], 10, 0xbd3af235);
    var c4 := II(c3, d4, a4, b3, x[2], 15, 0x2ad7d2bb);
    var b4 := II(b3, c4, d4, a4, x[9], 21, 0xeb86d391);
    (a4, b4, c4, d4)
  }

  // ---- Messages ----

  /** A word, low-order byte first (section 2). */
  function Word(s: seq<bv8>, i: nat): bv32
    requires 4 * i + 4 <= |s|
  {
    s[4 * i] as bv32 | (s[4 * i + 1] as bv32 << 8) | (s[4 * i + 2] as bv32 << 16) | (s[4 * i + 3] as bv32 << 24)
  }

  function WordBytes(w: bv32): seq<bv8> {
    [(w & 0xff) as bv8, ((w >> 8) & 0xff) as bv8, ((w >> 16) & 0xff) as bv8, ((w >> 24) & 0xff) as bv8]
  }

  function WordsOf(block: seq<bv8>): Words
    requires |block| == 64
  {
    seq(16, i requires 0 <= i < 16 => Word(block, i))
  }

  /** One 64-byte block worked into the state. */
  function Compress(st: State, block: seq<bv8>): State
    requires |block| == 64
  {
    var x := WordsOf(block);
    var (a1, b1, c1, d1) := Round1(st.a, st.b, st.c, st.d, x);
    var (a2, b2, c2, d2) := Round2(a1, b1, c1, d1, x);
    var (a3, b3, c3, d3) := Round3(a2, b2, c2, d2, x);
    var (a4, b4, c4, d4) := Round4(a3, b3, c3, d3, x);
    State(Plus(st.a, a4), Plus(st.b, b4), Plus(st.c, c4), Plus(st.d, d4))
  }

  /** All whole blocks of s worked into the state. */
  function CompressAll(st: State, s: seq<bv8>): State
    decreases |s|
  {
    if |s| < 64 then st else CompressAll(Compress(st, s[..64]), s[64..])
  }

  const INIT := State(0x67452301, 0xefcdab89, 0x98badcfe, 0x10325476)

  function U32Bytes(n: nat): (s: seq<bv8>)
    ensures |s| == 4
  {
    WordBytes((n % 0x1_0000_0000) as bv32)
  }

  /** The length in bits, modulo 2 to the 64, low-order byte first (section 3.2). */
  function LengthBytes(n: nat): (s: seq<bv8>)
    ensures |s| == 8
  {
    U32Bytes(8 * n) + U32Bytes(8 * n / 0x1_0000_0000)
  }

  /** Zero bytes between the one bit and the length (section 3.1). */
  function PadZeros(n: nat): nat {
    if n % 64 < 56 then 55 - n % 64 else 119 - n % 64
  }

  function Padding(n: nat): seq<bv8> {
    [0x80] + seq(PadZeros(n), _ => 0) + LengthBytes(n)
  }

  function Digest(st: State): seq<bv8> {
    WordBytes(st.a) + WordBytes(st.b) + WordBytes(st.c) + WordBytes(st.d)
  }

  function Md5(message: seq<bv8>): seq<bv8> {
    Digest(CompressAll(INIT, message + Padding(|message|)))
  }

  /** The padded message is a whole number of blocks. */
  lemma PaddedLength(n: nat)
    ensures |Padding(n)| == 9 + PadZeros(n)
    ensures (n + |Padding(n)|) % 64 == 0
  {
    hide LengthBytes;
    assert n == 64 * (n / 64) + n % 64;
  }

  /** Whole blocks may be worked in piecewise. */
  lemma {:induction false} CompressAllConcat(st: State, s: seq<bv8>, t: seq<bv8>)
    requires |s| % 64 == 0
    ensures CompressAll(st, s + t) == CompressAll(CompressAll(st, s), t)
    decreases |s|
  {
    hide Compress;
    if s == [] {
      assert s + t == t;
    } else {
      assert (s + t)[..64] == s[..64] && (s + t)[64..] == s[64..] + t;
      CompressAllConcat(Compress(st, s[..64]), s[64..], t);
    }
  }
}
