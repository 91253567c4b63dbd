/** The streaming digest of the repository: words wider than 32 bits, masked only where they are
    rotated, and a 64-byte buffer that carries an incomplete block from one call to the next. */
module Md5Rounds {
  import opened Rfc1321

  /** The low half of a wide word. */
  function Low(x: bv64): bv32 {
    (x & 0xffff_ffff) as bv32
  }

  function LowAll(x: seq<bv64>): Words
    requires |x| == 16
  {
    seq(16, i requires 0 <= i < 16 => Low(x[i]))
  }

  function Add(x: bv64, y: bv64): bv64 {
    x + y
  }

  lemma AddLow(x: bv64, y: bv64)
    ensures Low(Add(x, y)) == Plus(Low(x), Low(y))
  {
  }

  lemma AddCommutes(x: bv64, y: bv64)
    ensures Add(x, y) == Add(y, x)
  {
  }

  lemma LowOfWide(t: bv32)
    ensures Low(t as bv64) == t
  {
  }

  const SHIFTS := {4, 5, 6, 7, 9, 10, 11, 12, 14, 15, 16, 17, 20, 21, 22, 23}

  /** The macro S: the half that is shifted out stays in place, the low half is what counts. */
  function Rotate(x: bv64, n: nat): bv64
    requires 0 < n < 32
  {
    (x << n) | ((x & 0xffff_ffff) >> (32 - n))
  }

  lemma RotateLow(x: bv64, n: nat)
    requires n in SHIFTS
    ensures Low(Rotate(x, n)) == Rotl(Low(x), n)
  {
    if n == 4 {
    } else if n == 5 {
    } else if n == 6 {
    } else if n == 7 {
    } else if n == 9 {
    } else if n == 10 {
    } else if n == 11 {
    } else if n == 12 {
    } else if n == 14 {
    } else if n == 15 {
    } else if n == 16 {
    } else if n == 17 {
    } else if n == 20 {
    } else if n == 21 {
    } else if n == 22 {
    } else if n == 23 {
    }
  }

  function WideF(x: bv64, y: bv64, z: bv64): bv64 {
    z ^ (x & (y ^ z))
  }

  lemma WideFLow(x: bv64, y: bv64, z: bv64)
    ensures Low(WideF(x, y, z)) == F(Low(x), Low(y), Low(z))
  {
  }

  /** The macro P with the auxiliary function of this round. */
  method StepFF(a: bv64, b: bv64, c: bv64, d: bv64, x: bv64, s: nat, t: bv32) returns (a': bv64)
    requires s in SHIFTS
    ensures Low(a') == FF(Low(a), Low(b), Low(c), Low(d), Low(x), s, t)
  {
    hide Low, WideF, F, Rotl, Rotate, Add, Plus;
    var wide := t as bv64;
    LowOfWide(t);
    WideFLow(b, c, d);
    var sum := Add(Add(Add(a, WideF(b, c, d)), x), wide);
    a' := Add(Rotate(sum, s), b);
    AddLow(a, WideF(b, c, d));
    AddLow(Add(a, WideF(b, c, d)), x);
    AddLow(Add(Add(a, WideF(b, c, d)), x), wide);
    RotateLow(sum, s);
    AddLow(b, Rotate(sum, s));
    AddCommutes(Rotate(sum, s), b);
  }

  function WideG(x: bv64, y: bv64, z: bv64): bv64 {
    y ^ (z & (x ^ y))
  }

  lemma WideGLow(x: bv64, y: bv64, z: bv64)
    ensures Low(WideG(x, y, z)) == G(Low(x), Low(y), Low(z))
  {
  }

  /** The macro P with the auxiliary function of this round. */
  method StepGG(a: bv64, b: bv64, c: bv64, d: bv64, x: bv64, s: nat, t: bv32) returns (a': bv64)
    requires s in SHIFTS
    ensures Low(a') == GG(Low(a), Low(b), Low(c), Low(d), Low(x), s, t)
  {
    hide Low, WideG, G, Rotl, Rotate, Add, Plus;
    var wide := t as bv64;
    LowOfWide(t);
    WideGLow(b, c, d);
    var sum := Add(Add(Add(a, WideG(b, c, d)), x), wide);
    a' := Add(Rotate(sum, s), b);
    AddLow(a, WideG(b, c, d));
    AddLow(Add(a, WideG(b, c, d)), x);
    AddLow(Add(Add(a, WideG(b, c, d)), x), wide);
    RotateLow(sum, s);
    AddLow(b, Rotate(sum, s));
    AddCommutes(Rotate(sum, s), b);
  }

  function WideH(x: bv64, y: bv64, z: bv64): bv64 {
    x ^ y ^ z
  }

  lemma WideHLow(x: bv64, y: bv64, z: bv64)
    ensures Low(WideH(x, y, z)) == H(Low(x), Low(y), Low(z))
  {
  }

  /** The macro P with the auxiliary function of this round. */
  method StepHH(a: bv64, b: bv64, c: bv64, d: bv64, x: bv64, s: nat, t: bv32) returns (a': bv64)
    requires s in SHIFTS
    ensures Low(a') == HH(Low(a), Low(b), Low(c), Low(d), Low(x), s, t)
  {
    hide Low, WideH, H, Rotl, Rotate, Add, Plus;
    var wide := t as bv64;
    LowOfWide(t);
    WideHLow(b, c, d);
    var sum := Add(Add(Add(a, WideH(b, c, d)), x), wide);
    a' := Add(Rotate(sum, s), b);
    AddLow(a, WideH(b, c, d));
    AddLow(Add(a, WideH(b, c, d)), x);
    AddLow(Add(Add(a, WideH(b, c, d)), x), wide);
    RotateLow(sum, s);
    AddLow(b, Rotate(sum, s));
    AddCommutes(Rotate(sum, s), b);
  }

  function WideI(x: bv64, y: bv64, z: bv64): bv64 {
    y ^ (x | !z)
  }

  lemma WideILow(x: bv64, y: bv64, z: bv64)
    ensures Low(WideI(x, y, z)) == I(Low(x), Low(y), Low(z))
  {
  }

  /** The macro P with the auxiliary function of this round. */
  method StepII(a: bv64, b: bv64, c: bv64, d: bv64, x: bv64, s: nat, t: bv32) returns (a': bv64)
    requires s in SHIFTS
    ensures Low(a') == II(Low(a), Low(b), Low(c), Low(d), Low(x), s, t)
  {
    hide Low, WideI, I, Rotl, Rotate, Add, Plus;
    var wide := t as bv64;
    LowOfWide(t);
    WideILow(b, c, d);
    var sum := Add(Add(Add(a, WideI(b, c, d)), x), wide);
    a' := Add(Rotate(sum, s), b);
    AddLow(a, WideI(b, c, d));
    AddLow(Add(a, WideI(b, c, d)), x);
    AddLow(Add(Add(a, WideI(b, c, d)), x), wide);
    RotateLow(sum, s);
    AddLow(b, Rotate(sum, s));
    AddCommutes(Rotate(sum, s), b);
  }

  method Round1Wide(a0: bv64, b0: bv64, c0: bv64, d0: bv64, x: seq<bv64>) returns (a: bv64, b: bv64, c: bv64, d: bv64)
    requires |x| == 16
    ensures (Low(a), Low(b), Low(c), Low(d)) == Round1(Low(a0), Low(b0), Low(c0), Low(d0), LowAll(x))
  {
    hide Low, FF;
    a, b, c, d := a0, b0, c0, d0;
    a := StepFF(a, b, c, d, x[0], 7, 0xd76aa478);
    d := StepFF(d, a, b, c, x[1], 12, 0xe8c7b756);
    c := StepFF(c, d, a, b, x[2], 17, 0x242070db);
    b := StepFF(b, c, d, a, x[3], 22, 0xc1bdceee);
    a := StepFF(a, b, c, d, x[4], 7, 0xf57c0faf);
    d := StepFF(d, a, b, c, x[5], 12, 0x4787c62a);
    c := StepFF(c, d, a, b, x[6], 17, 0xa8304613);
    b := StepFF(b, c, d, a, x[7], 22, 0xfd469501);
    a := StepFF(a, b, c, d, x[8], 7, 0x698098d8);
    d := StepFF(d, a, b, c, x[9], 12, 0x8b44f7af);
    c := StepFF(c, d, a, b, x[10], 17, 0xffff5bb1);
    b := StepFF(b, c, d, a, x[11], 22, 0x895cd7be);
    a := StepFF(a, b, c, d, x[12], 7, 0x6b901122);
    d := StepFF(d, a, b, c, x[13], 12, 0xfd987193);
    c := StepFF(c, d, a, b, x[14], 17, 0xa679438e);
    b := StepFF(b, c, d, a, x[15], 22, 0x49b40821);
  }

  method Round2Wide(a0: bv64, b0: bv64, c0: bv64, d0: bv64, x: seq<bv64>) returns (a: bv64, b: bv64, c: bv64, d: bv64)
    requires |x| == 16
    ensures (Low(a), Low(b), Low(c), Low(d)) == Round2(Low(a0), Low(b0), Low(c0), Low(d0), LowAll(x))
  {
    hide Low, GG;
    a, b, c, d := a0, b0, c0, d0;
    a := StepGG(a, b, c, d, x[1], 5, 0xf61e2562);
    d := StepGG(d, a, b, c, x[6], 9, 0xc040b340);
    c := StepGG(c, d, a, b, x[11], 14, 0x265e5a51);
    b := StepGG(b, c, d, a, x[0], 20, 0xe9b6c7aa);
    a := StepGG(a, b, c, d, x[5], 5, 0xd62f105d);
    d := StepGG(d, a, b, c, x[10], 9, 0x02441453);
    c := StepGG(c, d, a, b, x[15], 14, 0xd8a1e681);
    b := StepGG(b, c, d, a, x[4], 20, 0xe7d3fbc8);
    a := StepGG(a, b, c, d, x[9], 5, 0x21e1cde6);
    d := StepGG(d, a, b, c, x[14], 9, 0xc33707d6);
    c := StepGG(c, d, a, b, x[3], 14, 0xf4d50d87);
    b := StepGG(b, c, d, a, x[8], 20, 0x455a14ed);
    a := StepGG(a, b, c, d, x[13], 5, 0xa9e3e905);
    d := StepGG(d, a, b, c, x[2], 9, 0xfcefa3f8);
    c := StepGG(c, d, a, b, x[7], 14, 0x676f02d9);
    b := StepGG(b, c, d, a, x[12], 20, 0x8d2a4c8a);
  }

  method Round3Wide(a0: bv64, b0: bv64, c0: bv64, d0: bv64, x: seq<bv64>) returns (a: bv64, b: bv64, c: bv64, d: bv64)
    requires |x| == 16
    ensures (Low(a), Low(b), Low(c), Low(d)) == Round3(Low(a0), Low(b0), Low(c0), Low(d0), LowAll(x))
  {
    hide Low, HH;
    a, b, c, d := a0, b0, c0, d0;
    a := StepHH(a, b, c, d, x[5], 4, 0xfffa3942);
    d := StepHH(d, a, b, c, x[8], 11, 0x8771f681);
    c := StepHH(c, d, a, b, x[11], 16, 0x6d9d6122);
    b := StepHH(b, c, d, a, x[14], 23, 0xfde5380c);
    a := StepHH(a, b, c, d, x[1], 4, 0xa4beea44);
    d := StepHH(d, a, b, c, x[4], 11, 0x4bdecfa9);
    c := StepHH(c, d, a, b, x[7], 16, 0xf6bb4b60);
    b := StepHH(b, c, d, a, x[10], 23, 0xbebfbc70);
    a := StepHH(a, b, c, d, x[13], 4, 0x289b7ec6);
    d := StepHH(d, a, b, c, x[0], 11, 0xeaa127fa);
    c := StepHH(c, d, a, b, x[3], 16, 0xd4ef3085);
    b := StepHH(b, c, d, a, x[6], 23, 0x04881d05);
    a := StepHH(a, b, c, d, x[9], 4, 0xd9d4d039);
    d := StepHH(d, a, b, c, x[12], 11, 0xe6db99e5);
    c := StepHH(c, d, a, b, x[15], 16, 0x1fa27cf8);
    b := StepHH(b, c, d, a, x[2], 23, 0xc4ac5665);
  }

  method Round4Wide(a0: bv64, b0: bv64, c0: bv64, d0: bv64, x: seq<bv64>) returns (a: bv64, b: bv64, c: bv64, d: bv64)
    requires |x| == 16
    ensures (Low(a), Low(b), Low(c), Low(d)) == Round4(Low(a0), Low(b0), Low(c0), Low(d0), LowAll(x))
  {
    hide Low, II;
    a, b, c, d := a0, b0, c0, d0;
    a := StepII(a, b, c, d, x[0], 6, 0xf4292244);
    d := StepII(d, a, b, c, x[7], 10, 0x432aff97);
    c := StepII(c, d, a, b, x[14], 15, 0xab9423a7);
    b := StepII(b, c, d, a, x[5], 21, 0xfc93a039);
    a := StepII(a, b, c, d, x[12], 6, 0x655b59c3);
    d := StepII(d, a, b, c, x[3], 10, 0x8f0ccc92);
    c := StepII(c, d, a, b, x[10], 15, 0xffeff47d);
    b := StepII(b, c, d, a, x[1], 21, 0x85845dd1);
    a := StepII(a, b, c, d, x[8], 6, 0x6fa87e4f);
    d := StepII(d, a, b, c, x[15], 10, 0xfe2ce6e0);
    c := StepII(c, d, a, b, x[6], 15, 0xa3014314);
    b := StepII(b, c, d, a, x[13], 21, 0x4e0811a1);
    a := StepII(a, b, c, d, x[4], 6, 0xf7537e82);
    d := StepII(d, a, b, c, x[11], 10, 0xbd3af235);
    c := StepII(c, d, a, b, x[2], 15, 0x2ad7d2bb);
    b := StepII(b, c, d, a, x[9], 21, 0xeb86d391);
  }
}
