/** A known answer of the test suite in appendix A.5 of RFC 1321: the digest of the letters and
    digits, which fill the first block with different words and spill the length into a second. */
module Md5Vectors {
  import opened Rfc1321

  /** A to Z, a to z and 0 to 9. */
  function Letter(i: nat): bv8
    requires i < 62
  {
    if i < 26 then 0x41 + (i as bv8) else if i < 52 then 0x61 + ((i - 26) as bv8) else 0x30 + ((i - 52) as bv8)
  }

  function Message(): seq<bv8> {
    seq(62, i requires 0 <= i < 62 => Letter(i))
  }

  // ---- The two blocks ----

  function Padded(): seq<bv8> {
    Message() + Padding(62)
  }

  lemma LengthIs()
    ensures LengthBytes(62) == [0xf0, 0x01, 0, 0, 0, 0, 0, 0]
  {
    assert 8 * 62 / 0x1_0000_0000 == 0;
    assert U32Bytes(496) == [0xf0, 0x01, 0, 0] by {
      assert (496 % 0x1_0000_0000) as bv32 == 0x1f0;
    }
    assert U32Bytes(0) == [0, 0, 0, 0] by {
      assert (0 % 0x1_0000_0000) as bv32 == 0;
    }
  }

  lemma Blocks()
    ensures var s := Padded();
      && |s| == 128 && (forall i :: 0 <= i < 62 ==> s[i] == Letter(i)) && s[62] == 0x80
      && (forall i :: 63 <= i < 120 ==> s[i] == 0)
      && s[120] == 0xf0 && s[121] == 0x01 && (forall i :: 122 <= i < 128 ==> s[i] == 0)
  {
    LengthIs();
    hide Letter, LengthBytes;
    assert PadZeros(62) == 57;
  }

  function Spelled(a: bv8, b: bv8, c: bv8, d: bv8): bv32 {
    a as bv32 | (b as bv32 << 8) | (c as bv32 << 16) | (d as bv32 << 24)
  }

  lemma SpelledAt(block: seq<bv8>, i: nat)
    requires |block| == 64 && i < 16
    ensures WordsOf(block)[i] == Spelled(block[4 * i], block[4 * i + 1], block[4 * i + 2], block[4 * i + 3])
  {
  }

  lemma LetterWords1()
    ensures Spelled(Letter(0), Letter(1), Letter(2), Letter(3)) == 0x4443_4241
    ensures Spelled(Letter(4), Letter(5), Letter(6), Letter(7)) == 0x4847_4645
    ensures Spelled(Letter(8), Letter(9), Letter(10), Letter(11)) == 0x4c4b_4a49
    ensures Spelled(Letter(12), Letter(13), Letter(14), Letter(15)) == 0x504f_4e4d
  {
  }

  lemma LetterWords2()
    ensures Spelled(Letter(16), Letter(17), Letter(18), Letter(19)) == 0x5453_5251
    ensures Spelled(Letter(20), Letter(21), Letter(22), Letter(23)) == 0x5857_5655
    ensures Spelled(Letter(24), Letter(25), Letter(26), Letter(27)) == 0x6261_5a59
    ensures Spelled(Letter(28), Letter(29), Letter(30), Letter(31)) == 0x6665_6463
  {
  }

  lemma LetterWords3()
    ensures Spelled(Letter(32), Letter(33), Letter(34), Letter(35)) == 0x6a69_6867
    ensures Spelled(Letter(36), Letter(37), Letter(38), Letter(39)) == 0x6e6d_6c6b
    ensures Spelled(Letter(40), Letter(41), Letter(42), Letter(43)) == 0x7271_706f
    ensures Spelled(Letter(44), Letter(45), Letter(46), Letter(47)) == 0x7675_7473
  {
  }

  lemma LetterWords4()
    ensures Spelled(Letter(48), Letter(49), Letter(50), Letter(51)) == 0x7a79_7877
    ensures Spelled(Letter(52), Letter(53), Letter(54), Letter(55)) == 0x3332_3130
    ensures Spelled(Letter(56), Letter(57), Letter(58), Letter(59)) == 0x3736_3534
    ensures Spelled(Letter(60), Letter(61), 0x80, 0) == 0x0080_3938
  {
  }

  lemma Words1(block: seq<bv8>)
    requires |block| == 64 && (forall i :: 0 <= i < 62 ==> block[i] == Letter(i)) && block[62] == 0x80 && block[63] == 0
    ensures var x := WordsOf(block);
      && x[0] == 0x4443_4241 && x[1] == 0x4847_4645 && x[2] == 0x4c4b_4a49 && x[3] == 0x504f_4e4d
      && x[4] == 0x5453_5251 && x[5] == 0x5857_5655 && x[6] == 0x6261_5a59 && x[7] == 0x6665_6463
      && x[8] == 0x6a69_6867 && x[9] == 0x6e6d_6c6b && x[10] == 0x7271_706f && x[11] == 0x7675_7473
      && x[12] == 0x7a79_7877 && x[13] == 0x3332_3130 && x[14] == 0x3736_3534 && x[15] == 0x0080_3938
  {
    hide WordsOf, Spelled, Letter;
    LetterWords1();
    LetterWords2();
    LetterWords3();
    LetterWords4();
    SpelledAt(block, 0);
    SpelledAt(block, 1);
    SpelledAt(block, 2);
    SpelledAt(block, 3);
    SpelledAt(block, 4);
    SpelledAt(block, 5);
    SpelledAt(block, 6);
    SpelledAt(block, 7);
    SpelledAt(block, 8);
    SpelledAt(block, 9);
    SpelledAt(block, 10);
    SpelledAt(block, 11);
    SpelledAt(block, 12);
    SpelledAt(block, 13);
    SpelledAt(block, 14);
    SpelledAt(block, 15);
  }

  lemma Words2(block: seq<bv8>)
    requires |block| == 64 && (forall i :: 0 <= i < 56 ==> block[i] == 0)
    requires block[56] == 0xf0 && block[57] == 0x01 && forall i :: 58 <= i < 64 ==> block[i] == 0
    ensures var x := WordsOf(block);
      && x[0] == 0x0000_0000 && x[1] == 0x0000_0000 && x[2] == 0x0000_0000 && x[3] == 0x0000_0000
      && x[4] == 0x0000_0000 && x[5] == 0x0000_0000 && x[6] == 0x0000_0000 && x[7] == 0x0000_0000
      && x[8] == 0x0000_0000 && x[9] == 0x0000_0000 && x[10] == 0x0000_0000 && x[11] == 0x0000_0000
      && x[12] == 0x0000_0000 && x[13] == 0x0000_0000 && x[14] == 0x0000_01f0 && x[15] == 0x0000_0000
  {
    hide WordsOf, Spelled, Letter;
    ZeroWords();
    SpelledAt(block, 0);
    SpelledAt(block, 1);
    SpelledAt(block, 2);
    SpelledAt(block, 3);
    SpelledAt(block, 4);
    SpelledAt(block, 5);
    SpelledAt(block, 6);
    SpelledAt(block, 7);
    SpelledAt(block, 8);
    SpelledAt(block, 9);
    SpelledAt(block, 10);
    SpelledAt(block, 11);
    SpelledAt(block, 12);
    SpelledAt(block, 13);
    SpelledAt(block, 14);
    SpelledAt(block, 15);
  }

  lemma ZeroWords()
    ensures Spelled(0, 0, 0, 0) == 0 && Spelled(0xf0, 0x01, 0, 0) == 0x1f0
  {
  }

  lemma FirstRound1(x: Words)
    requires x[0] == 0x4443_4241 && x[1] == 0x4847_4645 && x[2] == 0x4c4b_4a49 && x[3] == 0x504f_4e4d
    requires x[4] == 0x5453_5251 && x[5] == 0x5857_5655 && x[6] == 0x6261_5a59 && x[7] == 0x6665_6463
    requires x[8] == 0x6a69_6867 && x[9] == 0x6e6d_6c6b && x[10] == 0x7271_706f && x[11] == 0x7675_7473
    requires x[12] == 0x7a79_7877 && x[13] == 0x3332_3130 && x[14] == 0x3736_3534 && x[15] == 0x0080_3938
    ensures Round1(0x6745_2301, 0xefcd_ab89, 0x98ba_dcfe, 0x1032_5476, x)
         == (0x3cbd_cd45, 0x5d38_e690, 0xfa14_8c8a, 0xb8de_c763)
  {
  }

  lemma FirstRound2(x: Words)
    requires x[0] == 0x4443_4241 && x[1] == 0x4847_4645 && x[2] == 0x4c4b_4a49 && x[3] == 0x504f_4e4d
    requires x[4] == 0x5453_5251 && x[5] == 0x5857_5655 && x[6] == 0x6261_5a59 && x[7] == 0x6665_6463
    requires x[8] == 0x6a69_6867 && x[9] == 0x6e6d_6c6b && x[10] == 0x7271_706f && x[11] == 0x7675_7473
    requires x[12] == 0x7a79_7877 && x[13] == 0x3332_3130 && x[14] == 0x3736_3534 && x[15] == 0x0080_3938
    ensures Round2(0x3cbd_cd45, 0x5d38_e690, 0xfa14_8c8a, 0xb8de_c763, x)
         == (0x9b08_5fa9, 0xdd78_9ecc, 0x5993_248f, 0x4400_a9bd)
  {
  }

  lemma FirstRound3(x: Words)
    requires x[0] == 0x4443_4241 && x[1] == 0x4847_4645 && x[2] == 0x4c4b_4a49 && x[3] == 0x504f_4e4d
    requires x[4] == 0x5453_5251 && x[5] == 0x5857_5655 && x[6] == 0x6261_5a59 && x[7] == 0x6665_6463
    requires x[8] == 0x6a69_6867 && x[9] == 0x6e6d_6c6b && x[10] == 0x7271_706f && x[11] == 0x7675_7473
    requires x[12] == 0x7a79_7877 && x[13] == 0x3332_3130 && x[14] == 0x3736_3534 && x[15] == 0x0080_3938
    ensures Round3(0x9b08_5fa9, 0xdd78_9ecc, 0x5993_248f, 0x4400_a9bd, x)
         == (0x2dbe_e21d, 0xf166_f514, 0xee46_e961, 0xe95c_3a43)
  {
  }

  lemma FirstRound4(x: Words)
    requires x[0] == 0x4443_4241 && x[1] == 0x4847_4645 && x[2] == 0x4c4b_4a49 && x[3] == 0x504f_4e4d
    requires x[4] == 0x5453_5251 && x[5] == 0x5857_5655 && x[6] == 0x6261_5a59 && x[7] == 0x6665_6463
    requires x[8] == 0x6a69_6867 && x[9] == 0x6e6d_6c6b && x[10] == 0x7271_706f && x[11] == 0x7675_7473
    requires x[12] == 0x7a79_7877 && x[13] == 0x3332_3130 && x[14] == 0x3736_3534 && x[15] == 0x0080_3938
    ensures Round4(0x2dbe_e21d, 0xf166_f514, 0xee46_e961, 0xe95c_3a43, x)
         == (0x1cb8_0f0a, 0xef2e_3a46, 0x10f6_8731, 0xea3d_3eb4)
  {
  }

  lemma FirstBlock()
    ensures |Padded()| == 128
    ensures Compress(State(0x6745_2301, 0xefcd_ab89, 0x98ba_dcfe, 0x1032_5476), Padded()[0..64])
         == State(0x83fd_320b, 0xdefb_e5cf, 0xa9b1_642f, 0xfa6f_932a)
  {
    hide Round1, Round2, Round3, Round4, Padded, Letter, WordsOf;
    Blocks();
    var x := WordsOf(Padded()[0..64]);
    Words1(Padded()[0..64]);
    FirstRound1(x);
    FirstRound2(x);
    FirstRound3(x);
    FirstRound4(x);
  }

  lemma SecondRound1(x: Words)
    requires x[0] == 0x0000_0000 && x[1] == 0x0000_0000 && x[2] == 0x0000_0000 && x[3] == 0x0000_0000
    requires x[4] == 0x0000_0000 && x[5] == 0x0000_0000 && x[6] == 0x0000_0000 && x[7] == 0x0000_0000
    requires x[8] == 0x0000_0000 && x[9] == 0x0000_0000 && x[10] == 0x0000_0000 && x[11] == 0x0000_0000
    requires x[12] == 0x0000_0000 && x[13] == 0x0000_0000 && x[14] == 0x0000_01f0 && x[15] == 0x0000_0000
    ensures Round1(0x83fd_320b, 0xdefb_e5cf, 0xa9b1_642f, 0xfa6f_932a, x)
         == (0xa707_37da, 0xa36f_556f, 0x96f6_586e, 0x5473_f8a7)
  {
  }

  lemma SecondRound2(x: Words)
    requires x[0] == 0x0000_0000 && x[1] == 0x0000_0000 && x[2] == 0x0000_0000 && x[3] == 0x0000_0000
    requires x[4] == 0x0000_0000 && x[5] == 0x0000_0000 && x[6] == 0x0000_0000 && x[7] == 0x0000_0000
    requires x[8] == 0x0000_0000 && x[9] == 0x0000_0000 && x[10] == 0x0000_0000 && x[11] == 0x0000_0000
    requires x[12] == 0x0000_0000 && x[13] == 0x0000_0000 && x[14] == 0x0000_01f0 && x[15] == 0x0000_0000
    ensures Round2(0xa707_37da, 0xa36f_556f, 0x96f6_586e, 0x5473_f8a7, x)
         == (0x24eb_a695, 0x9c03_e2e8, 0x10c4_2a2f, 0x4bd0_378b)
  {
  }

  lemma SecondRound3(x: Words)
    requires x[0] == 0x0000_0000 && x[1] == 0x0000_0000 && x[2] == 0x0000_0000 && x[3] == 0x0000_0000
    requires x[4] == 0x0000_0000 && x[5] == 0x0000_0000 && x[6] == 0x0000_0000 && x[7] == 0x0000_0000
    requires x[8] == 0x0000_0000 && x[9] == 0x0000_0000 && x[10] == 0x0000_0000 && x[11] == 0x0000_0000
    requires x[12] == 0x0000_0000 && x[13] == 0x0000_0000 && x[14] == 0x0000_01f0 && x[15] == 0x0000_0000
    ensures Round3(0x24eb_a695, 0x9c03_e2e8, 0x10c4_2a2f, 0x4bd0_378b, x)
         == (0x54c9_eb3a, 0x79c0_710a, 0x2ec8_6f72, 0xd4d9_c6ac)
  {
  }

  lemma SecondRound4(x: Words)
    requires x[0] == 0x0000_0000 && x[1] == 0x0000_0000 && x[2] == 0x0000_0000 && x[3] == 0x0000_0000
    requires x[4] == 0x0000_0000 && x[5] == 0x0000_0000 && x[6] == 0x0000_0000 && x[7] == 0x0000_0000
    requires x[8] == 0x0000_0000 && x[9] == 0x0000_0000 && x[10] == 0x0000_0000 && x[11] == 0x0000_0000
    requires x[12] == 0x0000_0000 && x[13] == 0x0000_0000 && x[14] == 0x0000_01f0 && x[15] == 0x0000_0000
    ensures Round4(0x54c9_eb3a, 0x79c0_710a, 0x2ec8_6f72, 0xd4d9_c6ac, x)
         == (0x14ae_42c6, 0x16dd_9203, 0x826a_fd76, 0xa52d_ae75)
  {
  }

  lemma SecondBlock()
    ensures |Padded()| == 128
    ensures Compress(State(0x83fd_320b, 0xdefb_e5cf, 0xa9b1_642f, 0xfa6f_932a), Padded()[64..128])
         == State(0x98ab_74d1, 0xf5d9_77d2, 0x2c1c_61a5, 0x9f9d_419f)
  {
    hide Round1, Round2, Round3, Round4, Padded, Letter, WordsOf;
    Blocks();
    var x := WordsOf(Padded()[64..128]);
    Words2(Padded()[64..128]);
    SecondRound1(x);
    SecondRound2(x);
    SecondRound3(x);
    SecondRound4(x);
  }

  /** The digest that the test suite gives. */
  lemma KnownDigest()
    ensures Md5(Message()) ==
      [0xd1, 0x74, 0xab, 0x98, 0xd2, 0x77, 0xd9, 0xf5,
       0xa5, 0x61, 0x1c, 0x2c, 0x9f, 0x41, 0x9d, 0x9f]
  {
    hide Compress, Padding;
    FirstBlock();
    SecondBlock();
    var s := Padded();
    assert s == Message() + Padding(|Message()|);
    hide Message, Padded;
    assert s == s[0..64] + s[64..128];
    TwoBlocks(INIT, s[0..64], s[64..128]);
    DigestIs();
  }

  lemma OneBlock(st: Rfc1321.State, a: seq<bv8>)
    requires |a| == 64
    ensures CompressAll(st, a) == Compress(st, a)
  {
    hide Compress;
    assert a[..64] == a && a[64..] == [];
    assert CompressAll(Compress(st, a), []) == Compress(st, a);
  }

  lemma TwoBlocks(st: Rfc1321.State, a: seq<bv8>, b: seq<bv8>)
    requires |a| == |b| == 64
    ensures CompressAll(st, a + b) == Compress(Compress(st, a), b)
  {
    hide Compress, CompressAll;
    CompressAllConcat(st, a, b);
    OneBlock(st, a);
    OneBlock(Compress(st, a), b);
  }

  lemma DigestIs()
    ensures Digest(State(0x98ab_74d1, 0xf5d9_77d2, 0x2c1c_61a5, 0x9f9d_419f)) ==
      [0xd1, 0x74, 0xab, 0x98, 0xd2, 0x77, 0xd9, 0xf5,
       0xa5, 0x61, 0x1c, 0x2c, 0x9f, 0x41, 0x9d, 0x9f]
  {
  }
}
