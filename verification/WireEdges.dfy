/** What the decoders make of bytes that no encoder writes: numbers and strings cut off, and
    zero bytes in a string. */
module WireEdges {
  import opened Bits
  import opened BitStream
  import opened Wire
  import opened WireFrac
  import opened WireText
  import opened Wrappers

  // ---- Numbers ----

  lemma {:induction false} CutOffFrom(s: seq<bv8>, acc: nat)
    requires forall b :: b in s ==> b & 0x80 != 0
    ensures DecIntFrom(s, acc).1 == []
    ensures DecIntFrom(s + [0x00], acc) == DecIntFrom(s, acc)
  {
    if s == [] {
      assert s + [0x00] == [0x00] + [];
      OneGroup(0x00, [], acc);
    } else {
      hide Payload;
      assert s == [s[0]] + s[1..] && s[0] in s;
      assert forall b :: b in s[1..] ==> b in s;
      assert s + [0x00] == [s[0]] + (s[1..] + [0x00]);
      OneGroup(s[0], s[1..], acc);
      OneGroup(s[0], s[1..] + [0x00], acc);
      CutOffFrom(s[1..], acc * 128 % U64 + Payload(s[0]));
    }
  }

  /** A number whose last group is missing is read as if that group were zero. */
  lemma IntCutOff(s: seq<bv8>)
    requires forall b :: b in s ==> b & 0x80 != 0
    ensures DecInt(s).1 == [] && DecInt(s) == DecInt(s + [0x00])
  {
    CutOffFrom(s, 0);
  }

  /** Nothing at all is the number zero, and one group alone is 128 times its payload. */
  lemma ShortInts()
    ensures DecInt([]) == (0, []) && DecInt([0x8a]) == (1280, [])
  {
    assert Payload(0x8a) == 10;
    OneGroup(0x8a, [], 0);
    assert [0x8a] + [] == [0x8a];
  }

  // ---- Fractions ----

  /** Infinity has bytes of its own. Nothing and negative numbers are sent as zero. */
  lemma FracEdges(d: real)
    requires d <= 0.0
    ensures EncFrac(Infinite) == [0xff, 0xff] && DecFrac(0xff, 0xff) == Infinite
    ensures EncFrac(Finite(d)) == [0, 0] && DecFrac(0, 0) == Finite(0.0)
  {
  }

  // ---- Strings ----

  /** A plain string stops at its first zero byte, and the bytes after that are passed over. */
  lemma TextWithZero(s: Text, t: seq<bv8>, more: seq<bv8>)
    requires 0 !in s && |s| + 1 + |t| <= 127
    ensures DecText([(|s| + 1 + |t|) as bv8] + s + [0x00] + t + more) == (Some(s), more)
  {
    hide UpToZero;
    var body := s + [0x00] + t;
    LengthByte(|body|);
    var all := [(|s| + 1 + |t|) as bv8] + s + [0x00] + t + more;
    assert Drop(all, 1) == body + more;
    assert (body + more)[..|body|] == body && (body + more)[|body|..] == more;
    StopsAtZero(s, t);
  }

  lemma {:induction false} StopsAtZero(s: Text, t: seq<bv8>)
    requires 0 !in s
    ensures UpToZero(s + [0x00] + t) == s
  {
    var all := s + [0x00] + t;
    if s != [] {
      assert all[1..] == s[1..] + [0x00] + t;
      StopsAtZero(s[1..], t);
    }
  }

  /** A plain string with bytes missing is not read, and only its length is passed over. */
  lemma TextCutOff(n: bv8, rest: seq<bv8>)
    requires n < 0x80 && |rest| < n as nat
    ensures DecText([n] + rest) == (None, rest)
  {
    Bytes.Below(n, 0x80);
    assert Drop([n] + rest, 1) == rest;
  }

  /** A length of zero, or no length, is no string. */
  lemma NoText(rest: seq<bv8>)
    ensures DecText([0x00] + rest) == (None, rest) && DecText([]) == (None, [])
  {
    assert Drop([0x00] + rest, 1) == rest;
  }

  /** A six-bit string of n characters with bytes missing is read as if zero bytes followed. */
  lemma SixBitCutOff(s: seq<bv8>, n: nat)
    requires 8 * |s| < 6 * n
    ensures DecSixBit(s, n) == (DecSixBit(s + [0x00], n).0, [])
  {
    hide Chars, BitsOfAll;
    BitsOfAllConcat(s, [0x00]);
    ZeroByte();
    assert Drop(s, (6 * n + 7) / 8) == [];
    CharsAgree(BitsOfAll(s) + Zeros(6 * n), BitsOfAll(s + [0x00]) + Zeros(6 * n), n);
  }

  lemma ZeroByte()
    ensures BitsOfAll([0x00]) == Zeros(8)
  {
    BitsOfOne(0x00);
    forall k | 0 <= k < 8 ensures !BitAt(0x00, k) {
      BitOfZero(k);
    }
  }
}
