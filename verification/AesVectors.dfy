/** Known answers: the key schedule of appendix A.3 of FIPS 197 and the cipher example of its
    appendix C.3. */
module AesVectors {
  import opened AesTables
  import opened Fips197
  import opened AesKeys

  // ---- Words and blocks as the standard prints them ----

  function Hex(x: bv32): Word {
    Word(((x >> 24) & 0xff) as bv8, ((x >> 16) & 0xff) as bv8, ((x >> 8) & 0xff) as bv8, (x & 0xff) as bv8)
  }

  function BlockOf(a: bv32, b: bv32, c: bv32, d: bv32): Block {
    Join(Hex(a), Hex(b), Hex(c), Hex(d))
  }

  function KeyOf(a: bv32, b: bv32, c: bv32, d: bv32, e: bv32, f: bv32, g: bv32, h: bv32): Key {
    BlockOf(a, b, c, d) + BlockOf(e, f, g, h)
  }

  lemma SplitKey(a: bv32, b: bv32, c: bv32, d: bv32, e: bv32, f: bv32, g: bv32, h: bv32)
    ensures KeyOf(a, b, c, d, e, f, g, h)[..16] == BlockOf(a, b, c, d)
    ensures KeyOf(a, b, c, d, e, f, g, h)[16..] == BlockOf(e, f, g, h)
  {
    hide BlockOf;
  }

  lemma RoundKeys(k: Key, j: nat)
    ensures RoundKey(k, 2 * j) == Window(k, j)[..16] && RoundKey(k, 2 * j + 1) == Window(k, j)[16..]
  {
    hide RoundKey;
  }

  lemma Rcons()
    ensures Rcon(1) == 0x01 && Rcon(2) == 0x02 && Rcon(3) == 0x04 && Rcon(4) == 0x08
    ensures Rcon(5) == 0x10 && Rcon(6) == 0x20 && Rcon(7) == 0x40
  {
    assert Rcon(3) == 4;
    assert Rcon(5) == 0x10;
  }

  // ---- The eight words that follow eight words ----

  function WordSum(p: bv32, t: Word): Word {
    Xor(Hex(p), t)
  }

  /** The words of one step, each checked against the one before. */
  lemma NextWords(p0: bv32, p1: bv32, p2: bv32, p3: bv32, p4: bv32, p5: bv32, p6: bv32, p7: bv32, rc: bv8,
                  n0: bv32, n1: bv32, n2: bv32, n3: bv32, n4: bv32, n5: bv32, n6: bv32, n7: bv32)
    requires Hex(n0) == WordSum(p0, Xor(SubWord(RotWord(Hex(p7))), Word(rc, 0, 0, 0)))
    requires Hex(n1) == WordSum(p1, Hex(n0)) && Hex(n2) == WordSum(p2, Hex(n1)) && Hex(n3) == WordSum(p3, Hex(n2))
    requires Hex(n4) == WordSum(p4, SubWord(Hex(n3)))
    requires Hex(n5) == WordSum(p5, Hex(n4)) && Hex(n6) == WordSum(p6, Hex(n5)) && Hex(n7) == WordSum(p7, Hex(n6))
    ensures Next(KeyOf(p0, p1, p2, p3, p4, p5, p6, p7), rc) == KeyOf(n0, n1, n2, n3, n4, n5, n6, n7)
  {
    hide Hex, WordAt, Join, Xor, SubWord, RotWord;
    EightWords(Hex(p0), Hex(p1), Hex(p2), Hex(p3), Hex(p4), Hex(p5), Hex(p6), Hex(p7));
  }

  // ---- Appendix A.3 ----

  function ExampleKey(): Key {
    KeyOf(0x603d_eb10, 0x15ca_71be, 0x2b73_aef0, 0x857d_7781,
          0x1f35_2c07, 0x3b61_08d7, 0x2d98_10a3, 0x0914_dff4)
  }

  lemma Expand1()
    ensures Next(KeyOf(0x603d_eb10, 0x15ca_71be, 0x2b73_aef0, 0x857d_7781, 0x1f35_2c07, 0x3b61_08d7, 0x2d98_10a3, 0x0914_dff4), 0x01)
         == KeyOf(0x9ba3_5411, 0x8e69_25af, 0xa51a_8b5f, 0x2067_fcde, 0xa8b0_9c1a, 0x93d1_94cd, 0xbe49_846e, 0xb75d_5b9a)
  {
    NextWords(0x603d_eb10, 0x15ca_71be, 0x2b73_aef0, 0x857d_7781, 0x1f35_2c07, 0x3b61_08d7, 0x2d98_10a3, 0x0914_dff4, 0x01,
              0x9ba3_5411, 0x8e69_25af, 0xa51a_8b5f, 0x2067_fcde, 0xa8b0_9c1a, 0x93d1_94cd, 0xbe49_846e, 0xb75d_5b9a);
    hide Next, KeyOf;
  }

  lemma Expand2()
    ensures Next(KeyOf(0x9ba3_5411, 0x8e69_25af, 0xa51a_8b5f, 0x2067_fcde, 0xa8b0_9c1a, 0x93d1_94cd, 0xbe49_846e, 0xb75d_5b9a), 0x02)
         == KeyOf(0xd59a_ecb8, 0x5bf3_c917, 0xfee9_4248, 0xde8e_be96, 0xb5a9_328a, 0x2678_a647, 0x9831_2229, 0x2f6c_79b3)
  {
    NextWords(0x9ba3_5411, 0x8e69_25af, 0xa51a_8b5f, 0x2067_fcde, 0xa8b0_9c1a, 0x93d1_94cd, 0xbe49_846e, 0xb75d_5b9a, 0x02,
              0xd59a_ecb8, 0x5bf3_c917, 0xfee9_4248, 0xde8e_be96, 0xb5a9_328a, 0x2678_a647, 0x9831_2229, 0x2f6c_79b3);
    hide Next, KeyOf;
  }

  lemma Expand3()
    ensures Next(KeyOf(0xd59a_ecb8, 0x5bf3_c917, 0xfee9_4248, 0xde8e_be96, 0xb5a9_328a, 0x2678_a647, 0x9831_2229, 0x2f6c_79b3), 0x04)
         == KeyOf(0x812c_81ad, 0xdadf_48ba, 0x2436_0af2, 0xfab8_b464, 0x98c5_bfc9, 0xbebd_198e, 0x268c_3ba7, 0x09e0_4214)
  {
    NextWords(0xd59a_ecb8, 0x5bf3_c917, 0xfee9_4248, 0xde8e_be96, 0xb5a9_328a, 0x2678_a647, 0x9831_2229, 0x2f6c_79b3, 0x04,
              0x812c_81ad, 0xdadf_48ba, 0x2436_0af2, 0xfab8_b464, 0x98c5_bfc9, 0xbebd_198e, 0x268c_3ba7, 0x09e0_4214);
    hide Next, KeyOf;
  }

  lemma Expand4()
    ensures Next(KeyOf(0x812c_81ad, 0xdadf_48ba, 0x2436_0af2, 0xfab8_b464, 0x98c5_bfc9, 0xbebd_198e, 0x268c_3ba7, 0x09e0_4214), 0x08)
         == KeyOf(0x6800_7bac, 0xb2df_3316, 0x96e9_39e4, 0x6c51_8d80, 0xc814_e204, 0x76a9_fb8a, 0x5025_c02d, 0x59c5_8239)
  {
    NextWords(0x812c_81ad, 0xdadf_48ba, 0x2436_0af2, 0xfab8_b464, 0x98c5_bfc9, 0xbebd_198e, 0x268c_3ba7, 0x09e0_4214, 0x08,
              0x6800_7bac, 0xb2df_3316, 0x96e9_39e4, 0x6c51_8d80, 0xc814_e204, 0x76a9_fb8a, 0x5025_c02d, 0x59c5_8239);
    hide Next, KeyOf;
  }

  lemma Expand5()
    ensures Next(KeyOf(0x6800_7bac, 0xb2df_3316, 0x96e9_39e4, 0x6c51_8d80, 0xc814_e204, 0x76a9_fb8a, 0x5025_c02d, 0x59c5_8239), 0x10)
         == KeyOf(0xde13_6967, 0x6ccc_5a71, 0xfa25_6395, 0x9674_ee15, 0x5886_ca5d, 0x2e2f_31d7, 0x7e0a_f1fa, 0x27cf_73c3)
  {
    NextWords(0x6800_7bac, 0xb2df_3316, 0x96e9_39e4, 0x6c51_8d80, 0xc814_e204, 0x76a9_fb8a, 0x5025_c02d, 0x59c5_8239, 0x10,
              0xde13_6967, 0x6ccc_5a71, 0xfa25_6395, 0x9674_ee15, 0x5886_ca5d, 0x2e2f_31d7, 0x7e0a_f1fa, 0x27cf_73c3);
    hide Next, KeyOf;
  }

  lemma Expand6()
    ensures Next(KeyOf(0xde13_6967, 0x6ccc_5a71, 0xfa25_6395, 0x9674_ee15, 0x5886_ca5d, 0x2e2f_31d7, 0x7e0a_f1fa, 0x27cf_73c3), 0x20)
         == KeyOf(0x749c_47ab, 0x1850_1dda, 0xe275_7e4f, 0x7401_905a, 0xcafa_aae3, 0xe4d5_9b34, 0x9adf_6ace, 0xbd10_190d)
  {
    NextWords(0xde13_6967, 0x6ccc_5a71, 0xfa25_6395, 0x9674_ee15, 0x5886_ca5d, 0x2e2f_31d7, 0x7e0a_f1fa, 0x27cf_73c3, 0x20,
              0x749c_47ab, 0x1850_1dda, 0xe275_7e4f, 0x7401_905a, 0xcafa_aae3, 0xe4d5_9b34, 0x9adf_6ace, 0xbd10_190d);
    hide Next, KeyOf;
  }

  lemma Expand7()
    ensures Next(KeyOf(0x749c_47ab, 0x1850_1dda, 0xe275_7e4f, 0x7401_905a, 0xcafa_aae3, 0xe4d5_9b34, 0x9adf_6ace, 0xbd10_190d), 0x40)
         == KeyOf(0xfe48_90d1, 0xe618_8d0b, 0x046d_f344, 0x706c_631e, 0x9baa_5191, 0x7f7f_caa5, 0xe5a0_a06b, 0x58b0_b966)
  {
    NextWords(0x749c_47ab, 0x1850_1dda, 0xe275_7e4f, 0x7401_905a, 0xcafa_aae3, 0xe4d5_9b34, 0x9adf_6ace, 0xbd10_190d, 0x40,
              0xfe48_90d1, 0xe618_8d0b, 0x046d_f344, 0x706c_631e, 0x9baa_5191, 0x7f7f_caa5, 0xe5a0_a06b, 0x58b0_b966);
    hide Next, KeyOf;
  }

  /** Words 0 to 59 of the key schedule. */
  lemma ExpandSchedule()

    ensures Window(ExampleKey(), 0) == KeyOf(0x603d_eb10, 0x15ca_71be, 0x2b73_aef0, 0x857d_7781, 0x1f35_2c07, 0x3b61_08d7, 0x2d98_10a3, 0x0914_dff4)
    ensures Window(ExampleKey(), 1) == KeyOf(0x9ba3_5411, 0x8e69_25af, 0xa51a_8b5f, 0x2067_fcde, 0xa8b0_9c1a, 0x93d1_94cd, 0xbe49_846e, 0xb75d_5b9a)
    ensures Window(ExampleKey(), 2) == KeyOf(0xd59a_ecb8, 0x5bf3_c917, 0xfee9_4248, 0xde8e_be96, 0xb5a9_328a, 0x2678_a647, 0x9831_2229, 0x2f6c_79b3)
    ensures Window(ExampleKey(), 3) == KeyOf(0x812c_81ad, 0xdadf_48ba, 0x2436_0af2, 0xfab8_b464, 0x98c5_bfc9, 0xbebd_198e, 0x268c_3ba7, 0x09e0_4214)
    ensures Window(ExampleKey(), 4) == KeyOf(0x6800_7bac, 0xb2df_3316, 0x96e9_39e4, 0x6c51_8d80, 0xc814_e204, 0x76a9_fb8a, 0x5025_c02d, 0x59c5_8239)
    ensures Window(ExampleKey(), 5) == KeyOf(0xde13_6967, 0x6ccc_5a71, 0xfa25_6395, 0x9674_ee15, 0x5886_ca5d, 0x2e2f_31d7, 0x7e0a_f1fa, 0x27cf_73c3)
    ensures Window(ExampleKey(), 6) == KeyOf(0x749c_47ab, 0x1850_1dda, 0xe275_7e4f, 0x7401_905a, 0xcafa_aae3, 0xe4d5_9b34, 0x9adf_6ace, 0xbd10_190d)
    ensures RoundKey(ExampleKey(), 14) == BlockOf(0xfe48_90d1, 0xe618_8d0b, 0x046d_f344, 0x706c_631e)
  {
    Rcons();
    Expand1();
    Expand2();
    Expand3();
    Expand4();
    Expand5();
    Expand6();
    Expand7();
    hide Window, Next, Rcon, BlockOf, RoundKey, KeyOf, ExampleKey;
    assert ExampleKey() == KeyOf(0x603d_eb10, 0x15ca_71be, 0x2b73_aef0, 0x857d_7781, 0x1f35_2c07, 0x3b61_08d7, 0x2d98_10a3, 0x0914_dff4) by {
      ExpandKey();
    }
    FirstWindow(ExampleKey());
    NextWindow(ExampleKey(), 0);
    NextWindow(ExampleKey(), 1);
    NextWindow(ExampleKey(), 2);
    NextWindow(ExampleKey(), 3);
    NextWindow(ExampleKey(), 4);
    NextWindow(ExampleKey(), 5);
    NextWindow(ExampleKey(), 6);
    RoundKeys(ExampleKey(), 7);
    SplitKey(0xfe48_90d1, 0xe618_8d0b, 0x046d_f344, 0x706c_631e, 0x9baa_5191, 0x7f7f_caa5, 0xe5a0_a06b, 0x58b0_b966);
  }

  lemma ExpandKey()
    ensures ExampleKey() == KeyOf(0x603d_eb10, 0x15ca_71be, 0x2b73_aef0, 0x857d_7781, 0x1f35_2c07, 0x3b61_08d7, 0x2d98_10a3, 0x0914_dff4)
  {
  }

  // ---- Appendix C.3: the key schedule ----

  function CountingKey(): Key {
    KeyOf(0x0001_0203, 0x0405_0607, 0x0809_0a0b, 0x0c0d_0e0f,
          0x1011_1213, 0x1415_1617, 0x1819_1a1b, 0x1c1d_1e1f)
  }

  lemma Count1()
    ensures Next(KeyOf(0x0001_0203, 0x0405_0607, 0x0809_0a0b, 0x0c0d_0e0f, 0x1011_1213, 0x1415_1617, 0x1819_1a1b, 0x1c1d_1e1f), 0x01)
         == KeyOf(0xa573_c29f, 0xa176_c498, 0xa97f_ce93, 0xa572_c09c, 0x1651_a8cd, 0x0244_beda, 0x1a5d_a4c1, 0x0640_bade)
  {
    NextWords(0x0001_0203, 0x0405_0607, 0x0809_0a0b, 0x0c0d_0e0f, 0x1011_1213, 0x1415_1617, 0x1819_1a1b, 0x1c1d_1e1f, 0x01,
              0xa573_c29f, 0xa176_c498, 0xa97f_ce93, 0xa572_c09c, 0x1651_a8cd, 0x0244_beda, 0x1a5d_a4c1, 0x0640_bade);
    hide Next, KeyOf;
  }

  lemma Count2()
    ensures Next(KeyOf(0xa573_c29f, 0xa176_c498, 0xa97f_ce93, 0xa572_c09c, 0x1651_a8cd, 0x0244_beda, 0x1a5d_a4c1, 0x0640_bade), 0x02)
         == KeyOf(0xae87_dff0, 0x0ff1_1b68, 0xa68e_d5fb, 0x03fc_1567, 0x6de1_f148, 0x6fa5_4f92, 0x75f8_eb53, 0x73b8_518d)
  {
    NextWords(0xa573_c29f, 0xa176_c498, 0xa97f_ce93, 0xa572_c09c, 0x1651_a8cd, 0x0244_beda, 0x1a5d_a4c1, 0x0640_bade, 0x02,
              0xae87_dff0, 0x0ff1_1b68, 0xa68e_d5fb, 0x03fc_1567, 0x6de1_f148, 0x6fa5_4f92, 0x75f8_eb53, 0x73b8_518d);
    hide Next, KeyOf;
  }

  lemma Count3()
    ensures Next(KeyOf(0xae87_dff0, 0x0ff1_1b68, 0xa68e_d5fb, 0x03fc_1567, 0x6de1_f148, 0x6fa5_4f92, 0x75f8_eb53, 0x73b8_518d), 0x04)
         == KeyOf(0xc656_827f, 0xc9a7_9917, 0x6f29_4cec, 0x6cd5_598b, 0x3de2_3a75, 0x5247_75e7, 0x27bf_9eb4, 0x5407_cf39)
  {
    NextWords(0xae87_dff0, 0x0ff1_1b68, 0xa68e_d5fb, 0x03fc_1567, 0x6de1_f148, 0x6fa5_4f92, 0x75f8_eb53, 0x73b8_518d, 0x04,
              0xc656_827f, 0xc9a7_9917, 0x6f29_4cec, 0x6cd5_598b, 0x3de2_3a75, 0x5247_75e7, 0x27bf_9eb4, 0x5407_cf39);
    hide Next, KeyOf;
  }

  lemma Count4()
    ensures Next(KeyOf(0xc656_827f, 0xc9a7_9917, 0x6f29_4cec, 0x6cd5_598b, 0x3de2_3a75, 0x5247_75e7, 0x27bf_9eb4, 0x5407_cf39), 0x08)
         == KeyOf(0x0bdc_905f, 0xc27b_0948, 0xad52_45a4, 0xc187_1c2f, 0x45f5_a660, 0x17b2_d387, 0x300d_4d33, 0x640a_820a)
  {
    NextWords(0xc656_827f, 0xc9a7_9917, 0x6f29_4cec, 0x6cd5_598b, 0x3de2_3a75, 0x5247_75e7, 0x27bf_9eb4, 0x5407_cf39, 0x08,
              0x0bdc_905f, 0xc27b_0948, 0xad52_45a4, 0xc187_1c2f, 0x45f5_a660, 0x17b2_d387, 0x300d_4d33, 0x640a_820a);
    hide Next, KeyOf;
  }

  lemma Count5()
    ensures Next(KeyOf(0x0bdc_905f, 0xc27b_0948, 0xad52_45a4, 0xc187_1c2f, 0x45f5_a660, 0x17b2_d387, 0x300d_4d33, 0x640a_820a), 0x10)
         == KeyOf(0x7ccf_f71c, 0xbeb4_fe54, 0x13e6_bbf0, 0xd261_a7df, 0xf01a_fafe, 0xe7a8_2979, 0xd7a5_644a, 0xb3af_e640)
  {
    NextWords(0x0bdc_905f, 0xc27b_0948, 0xad52_45a4, 0xc187_1c2f, 0x45f5_a660, 0x17b2_d387, 0x300d_4d33, 0x640a_820a, 0x10,
              0x7ccf_f71c, 0xbeb4_fe54, 0x13e6_bbf0, 0xd261_a7df, 0xf01a_fafe, 0xe7a8_2979, 0xd7a5_644a, 0xb3af_e640);
    hide Next, KeyOf;
  }

  lemma Count6()
    ensures Next(KeyOf(0x7ccf_f71c, 0xbeb4_fe54, 0x13e6_bbf0, 0xd261_a7df, 0xf01a_fafe, 0xe7a8_2979, 0xd7a5_644a, 0xb3af_e640), 0x20)
         == KeyOf(0x2541_fe71, 0x9bf5_0025, 0x8813_bbd5, 0x5a72_1c0a, 0x4e5a_6699, 0xa9f2_4fe0, 0x7e57_2baa, 0xcdf8_cdea)
  {
    NextWords(0x7ccf_f71c, 0xbeb4_fe54, 0x13e6_bbf0, 0xd261_a7df, 0xf01a_fafe, 0xe7a8_2979, 0xd7a5_644a, 0xb3af_e640, 0x20,
              0x2541_fe71, 0x9bf5_0025, 0x8813_bbd5, 0x5a72_1c0a, 0x4e5a_6699, 0xa9f2_4fe0, 0x7e57_2baa, 0xcdf8_cdea);
    hide Next, KeyOf;
  }

  lemma Count7()
    ensures Next(KeyOf(0x2541_fe71, 0x9bf5_0025, 0x8813_bbd5, 0x5a72_1c0a, 0x4e5a_6699, 0xa9f2_4fe0, 0x7e57_2baa, 0xcdf8_cdea), 0x40)
         == KeyOf(0x24fc_79cc, 0xbf09_79e9, 0x371a_c23c, 0x6d68_de36, 0x721f_7b9c, 0xdbed_347c, 0xa5ba_1fd6, 0x6842_d23c)
  {
    NextWords(0x2541_fe71, 0x9bf5_0025, 0x8813_bbd5, 0x5a72_1c0a, 0x4e5a_6699, 0xa9f2_4fe0, 0x7e57_2baa, 0xcdf8_cdea, 0x40,
              0x24fc_79cc, 0xbf09_79e9, 0x371a_c23c, 0x6d68_de36, 0x721f_7b9c, 0xdbed_347c, 0xa5ba_1fd6, 0x6842_d23c);
    hide Next, KeyOf;
  }

  /** Words 0 to 59 of the key schedule. */
  lemma CountSchedule()

    ensures Window(CountingKey(), 0) == KeyOf(0x0001_0203, 0x0405_0607, 0x0809_0a0b, 0x0c0d_0e0f, 0x1011_1213, 0x1415_1617, 0x1819_1a1b, 0x1c1d_1e1f)
    ensures Window(CountingKey(), 1) == KeyOf(0xa573_c29f, 0xa176_c498, 0xa97f_ce93, 0xa572_c09c, 0x1651_a8cd, 0x0244_beda, 0x1a5d_a4c1, 0x0640_bade)
    ensures Window(CountingKey(), 2) == KeyOf(0xae87_dff0, 0x0ff1_1b68, 0xa68e_d5fb, 0x03fc_1567, 0x6de1_f148, 0x6fa5_4f92, 0x75f8_eb53, 0x73b8_518d)
    ensures Window(CountingKey(), 3) == KeyOf(0xc656_827f, 0xc9a7_9917, 0x6f29_4cec, 0x6cd5_598b, 0x3de2_3a75, 0x5247_75e7, 0x27bf_9eb4, 0x5407_cf39)
    ensures Window(CountingKey(), 4) == KeyOf(0x0bdc_905f, 0xc27b_0948, 0xad52_45a4, 0xc187_1c2f, 0x45f5_a660, 0x17b2_d387, 0x300d_4d33, 0x640a_820a)
    ensures Window(CountingKey(), 5) == KeyOf(0x7ccf_f71c, 0xbeb4_fe54, 0x13e6_bbf0, 0xd261_a7df, 0xf01a_fafe, 0xe7a8_2979, 0xd7a5_644a, 0xb3af_e640)
    ensures Window(CountingKey(), 6) == KeyOf(0x2541_fe71, 0x9bf5_0025, 0x8813_bbd5, 0x5a72_1c0a, 0x4e5a_6699, 0xa9f2_4fe0, 0x7e57_2baa, 0xcdf8_cdea)
    ensures RoundKey(CountingKey(), 14) == BlockOf(0x24fc_79cc, 0xbf09_79e9, 0x371a_c23c, 0x6d68_de36)
  {
    Rcons();
    Count1();
    Count2();
    Count3();
    Count4();
    Count5();
    Count6();
    Count7();
    hide Window, Next, Rcon, BlockOf, RoundKey, KeyOf, CountingKey;
    assert CountingKey() == KeyOf(0x0001_0203, 0x0405_0607, 0x0809_0a0b, 0x0c0d_0e0f, 0x1011_1213, 0x1415_1617, 0x1819_1a1b, 0x1c1d_1e1f) by {
      CountKey();
    }
    FirstWindow(CountingKey());
    NextWindow(CountingKey(), 0);
    NextWindow(CountingKey(), 1);
    NextWindow(CountingKey(), 2);
    NextWindow(CountingKey(), 3);
    NextWindow(CountingKey(), 4);
    NextWindow(CountingKey(), 5);
    NextWindow(CountingKey(), 6);
    RoundKeys(CountingKey(), 7);
    SplitKey(0x24fc_79cc, 0xbf09_79e9, 0x371a_c23c, 0x6d68_de36, 0x721f_7b9c, 0xdbed_347c, 0xa5ba_1fd6, 0x6842_d23c);
  }

  lemma CountKey()
    ensures CountingKey() == KeyOf(0x0001_0203, 0x0405_0607, 0x0809_0a0b, 0x0c0d_0e0f, 0x1011_1213, 0x1415_1617, 0x1819_1a1b, 0x1c1d_1e1f)
  {
  }

  // ---- Appendix C.3: the rounds ----

  lemma JoinAt(a: Word, b: Word, c: Word, d: Word)
    ensures var s := Join(a, b, c, d);
      && s[0] == a.b0 && s[1] == a.b1 && s[2] == a.b2 && s[3] == a.b3
      && s[4] == b.b0 && s[5] == b.b1 && s[6] == b.b2 && s[7] == b.b3
      && s[8] == c.b0 && s[9] == c.b1 && s[10] == c.b2 && s[11] == c.b3
      && s[12] == d.b0 && s[13] == d.b1 && s[14] == d.b2 && s[15] == d.b3
  {
  }

  lemma SubShiftAt(s: Block, i: nat)
    requires i < 16
    ensures ShiftRows(SubBytes(s))[i] == Sbox(s[(i + 4 * (i % 4)) % 16])
  {
    hide Sbox;
  }

  lemma SameBlock(s: Block, a: Word, b: Word, c: Word, d: Word)
    requires WordAt(s, 0) == a && WordAt(s, 1) == b && WordAt(s, 2) == c && WordAt(s, 3) == d
    ensures s == Join(a, b, c, d)
  {
    JoinWords(s);
    hide WordAt, Join;
  }

  /** A column after SubBytes and ShiftRows, from the four columns its bytes come from. */
  function Shifted(a: Word, b: Word, c: Word, d: Word): Word {
    Word(Sbox(a.b0), Sbox(b.b1), Sbox(c.b2), Sbox(d.b3))
  }

  lemma SubShift(a: Word, b: Word, c: Word, d: Word)
    ensures ShiftRows(SubBytes(Join(a, b, c, d)))
         == Join(Shifted(a, b, c, d), Shifted(b, c, d, a), Shifted(c, d, a, b), Shifted(d, a, b, c))
  {
    var s := Join(a, b, c, d);
    var t := ShiftRows(SubBytes(s));
    JoinAt(a, b, c, d);
    hide Sbox, Join, ShiftRows, SubBytes;
    forall i | 0 <= i < 16 ensures t[i] == Sbox(s[(i + 4 * (i % 4)) % 16]) {
      SubShiftAt(s, i);
    }
    assert t[0] == Sbox(s[0]) && t[1] == Sbox(s[5]) && t[2] == Sbox(s[10]) && t[3] == Sbox(s[15]);
    assert t[4] == Sbox(s[4]) && t[5] == Sbox(s[9]) && t[6] == Sbox(s[14]) && t[7] == Sbox(s[3]);
    assert t[8] == Sbox(s[8]) && t[9] == Sbox(s[13]) && t[10] == Sbox(s[2]) && t[11] == Sbox(s[7]);
    assert t[12] == Sbox(s[12]) && t[13] == Sbox(s[1]) && t[14] == Sbox(s[6]) && t[15] == Sbox(s[11]);
    SameBlock(t, Shifted(a, b, c, d), Shifted(b, c, d, a), Shifted(c, d, a, b), Shifted(d, a, b, c));
  }

  lemma AddColumn(s: Block, t: Block, i: nat)
    requires i < 4
    ensures WordAt(AddRoundKey(s, t), i) == Xor(WordAt(s, i), WordAt(t, i))
  {
    hide Add;
  }

  lemma AddColumns(a: Word, b: Word, c: Word, d: Word, e: Word, f: Word, g: Word, h: Word)
    ensures AddRoundKey(Join(a, b, c, d), Join(e, f, g, h)) == Join(Xor(a, e), Xor(b, f), Xor(c, g), Xor(d, h))
  {
    var s, t := Join(a, b, c, d), Join(e, f, g, h);
    FourWords(a, b, c, d);
    FourWords(e, f, g, h);
    hide Xor, WordAt, Join, AddRoundKey;
    AddColumn(s, t, 0);
    AddColumn(s, t, 1);
    AddColumn(s, t, 2);
    AddColumn(s, t, 3);
    SameBlock(AddRoundKey(s, t), Xor(a, e), Xor(b, f), Xor(c, g), Xor(d, h));
  }

  /** One column of a round, and of the last round, which does not mix. */
  function Mixed(a: bv32, b: bv32, c: bv32, d: bv32, k: bv32): Word {
    Xor(MixColumn(Shifted(Hex(a), Hex(b), Hex(c), Hex(d))), Hex(k))
  }

  function Unmixed(a: bv32, b: bv32, c: bv32, d: bv32, k: bv32): Word {
    Xor(Shifted(Hex(a), Hex(b), Hex(c), Hex(d)), Hex(k))
  }

  /** A full round from one printed state to the next, column by column. */
  lemma Round(r: nat, a: bv32, b: bv32, c: bv32, d: bv32, e: bv32, f: bv32, g: bv32, h: bv32, p: bv32, q: bv32, s: bv32, t: bv32)
    requires r > 0 && RoundKey(CountingKey(), r) == BlockOf(e, f, g, h)
    requires AfterRounds(CountingKey(), Example(), r - 1) == BlockOf(a, b, c, d)
    requires Mixed(a, b, c, d, e) == Hex(p) && Mixed(b, c, d, a, f) == Hex(q)
    requires Mixed(c, d, a, b, g) == Hex(s) && Mixed(d, a, b, c, h) == Hex(t)
    ensures AfterRounds(CountingKey(), Example(), r) == BlockOf(p, q, s, t)
  {
    hide Join, MixColumn, Xor, Hex, WordAt, Shifted, ShiftRows, SubBytes, AddRoundKey, CountingKey, Example, RoundKey;
    var ha, hb, hc, hd := Hex(a), Hex(b), Hex(c), Hex(d);
    var w, x, y, z := Shifted(ha, hb, hc, hd), Shifted(hb, hc, hd, ha), Shifted(hc, hd, ha, hb), Shifted(hd, ha, hb, hc);
    SubShift(ha, hb, hc, hd);
    FourWords(w, x, y, z);
    AddColumns(MixColumn(w), MixColumn(x), MixColumn(y), MixColumn(z), Hex(e), Hex(f), Hex(g), Hex(h));
  }

  lemma LastRound(a: bv32, b: bv32, c: bv32, d: bv32, e: bv32, f: bv32, g: bv32, h: bv32, p: bv32, q: bv32, s: bv32, t: bv32)
    requires RoundKey(CountingKey(), 14) == BlockOf(e, f, g, h)
    requires AfterRounds(CountingKey(), Example(), 13) == BlockOf(a, b, c, d)
    requires Unmixed(a, b, c, d, e) == Hex(p) && Unmixed(b, c, d, a, f) == Hex(q)
    requires Unmixed(c, d, a, b, g) == Hex(s) && Unmixed(d, a, b, c, h) == Hex(t)
    ensures Cipher(CountingKey(), Example()) == BlockOf(p, q, s, t)
  {
    hide Join, Xor, Hex, Shifted, ShiftRows, SubBytes, AddRoundKey, CountingKey, Example, RoundKey, AfterRounds;
    var ha, hb, hc, hd := Hex(a), Hex(b), Hex(c), Hex(d);
    SubShift(ha, hb, hc, hd);
    AddColumns(Shifted(ha, hb, hc, hd), Shifted(hb, hc, hd, ha), Shifted(hc, hd, ha, hb), Shifted(hd, ha, hb, hc),
               Hex(e), Hex(f), Hex(g), Hex(h));
  }

  function Example(): Block {
    BlockOf(0x0011_2233, 0x4455_6677, 0x8899_aabb, 0xccdd_eeff)
  }

  lemma FirstAddition()
    requires RoundKey(CountingKey(), 0) == BlockOf(0x0001_0203, 0x0405_0607, 0x0809_0a0b, 0x0c0d_0e0f)
    ensures AfterRounds(CountingKey(), Example(), 0) == BlockOf(0x0010_2030, 0x4050_6070, 0x8090_a0b0, 0xc0d0_e0f0)
  {
    AddColumns(Hex(0x0011_2233), Hex(0x4455_6677), Hex(0x8899_aabb), Hex(0xccdd_eeff),
               Hex(0x0001_0203), Hex(0x0405_0607), Hex(0x0809_0a0b), Hex(0x0c0d_0e0f));
    hide Join, CountingKey, RoundKey, AddRoundKey;
  }

  lemma RoundKeysOf(j: nat, a: bv32, b: bv32, c: bv32, d: bv32, e: bv32, f: bv32, g: bv32, h: bv32)
    requires Window(CountingKey(), j) == KeyOf(a, b, c, d, e, f, g, h)
    ensures RoundKey(CountingKey(), 2 * j) == BlockOf(a, b, c, d) && RoundKey(CountingKey(), 2 * j + 1) == BlockOf(e, f, g, h)
  {
    hide RoundKey, BlockOf, Window, KeyOf, CountingKey;
    RoundKeys(CountingKey(), j);
    SplitKey(a, b, c, d, e, f, g, h);
  }

  lemma Rounds1To3()
    requires AfterRounds(CountingKey(), Example(), 0) == BlockOf(0x0010_2030, 0x4050_6070, 0x8090_a0b0, 0xc0d0_e0f0)
    ensures AfterRounds(CountingKey(), Example(), 3) == BlockOf(0x975c_66c1, 0xcb9f_3fa8, 0xa93a_28df, 0x8ee1_0f63)
  {
    CountSchedule();
    hide CountingKey, Example, RoundKey, Window, AfterRounds, BlockOf, KeyOf;
    RoundKeysOf(0, 0x0001_0203, 0x0405_0607, 0x0809_0a0b, 0x0c0d_0e0f,
                0x1011_1213, 0x1415_1617, 0x1819_1a1b, 0x1c1d_1e1f);
    RoundKeysOf(1, 0xa573_c29f, 0xa176_c498, 0xa97f_ce93, 0xa572_c09c,
                0x1651_a8cd, 0x0244_beda, 0x1a5d_a4c1, 0x0640_bade);
    Round(1, 0x0010_2030, 0x4050_6070, 0x8090_a0b0, 0xc0d0_e0f0, 0x1011_1213, 0x1415_1617, 0x1819_1a1b, 0x1c1d_1e1f,
          0x4f63_7606, 0x43e0_aa85, 0xefa7_2132, 0x01a4_e705);
    Round(2, 0x4f63_7606, 0x43e0_aa85, 0xefa7_2132, 0x01a4_e705, 0xa573_c29f, 0xa176_c498, 0xa97f_ce93, 0xa572_c09c,
          0x1859_fbc2, 0x8a1c_00a0, 0x78ed_8aad, 0xc42f_6109);
    Round(3, 0x1859_fbc2, 0x8a1c_00a0, 0x78ed_8aad, 0xc42f_6109, 0x1651_a8cd, 0x0244_beda, 0x1a5d_a4c1, 0x0640_bade,
          0x975c_66c1, 0xcb9f_3fa8, 0xa93a_28df, 0x8ee1_0f63);
  }

  lemma Rounds4To6()
    requires AfterRounds(CountingKey(), Example(), 3) == BlockOf(0x975c_66c1, 0xcb9f_3fa8, 0xa93a_28df, 0x8ee1_0f63)
    ensures AfterRounds(CountingKey(), Example(), 6) == BlockOf(0x7f07_4143, 0xcb4e_243e, 0xc10c_815d, 0x8375_d54c)
  {
    CountSchedule();
    hide CountingKey, Example, RoundKey, Window, AfterRounds, BlockOf, KeyOf;
    RoundKeysOf(2, 0xae87_dff0, 0x0ff1_1b68, 0xa68e_d5fb, 0x03fc_1567,
                0x6de1_f148, 0x6fa5_4f92, 0x75f8_eb53, 0x73b8_518d);
    RoundKeysOf(3, 0xc656_827f, 0xc9a7_9917, 0x6f29_4cec, 0x6cd5_598b,
                0x3de2_3a75, 0x5247_75e7, 0x27bf_9eb4, 0x5407_cf39);
    Round(4, 0x975c_66c1, 0xcb9f_3fa8, 0xa93a_28df, 0x8ee1_0f63, 0xae87_dff0, 0x0ff1_1b68, 0xa68e_d5fb, 0x03fc_1567,
          0x1c05_f271, 0xa417_e04f, 0xf921_c5c1, 0x0470_1554);
    Round(5, 0x1c05_f271, 0xa417_e04f, 0xf921_c5c1, 0x0470_1554, 0x6de1_f148, 0x6fa5_4f92, 0x75f8_eb53, 0x73b8_518d,
          0xc357_aae1, 0x1b45_b7b0, 0xa2c7_bd28, 0xa8dc_99fa);
    Round(6, 0xc357_aae1, 0x1b45_b7b0, 0xa2c7_bd28, 0xa8dc_99fa, 0xc656_827f, 0xc9a7_9917, 0x6f29_4cec, 0x6cd5_598b,
          0x7f07_4143, 0xcb4e_243e, 0xc10c_815d, 0x8375_d54c);
  }

  lemma Rounds7To9()
    requires AfterRounds(CountingKey(), Example(), 6) == BlockOf(0x7f07_4143, 0xcb4e_243e, 0xc10c_815d, 0x8375_d54c)
    ensures AfterRounds(CountingKey(), Example(), 9) == BlockOf(0x4a82_4851, 0xc57e_7e47, 0x643d_e50c, 0x2af3_e8c9)
  {
    CountSchedule();
    hide CountingKey, Example, RoundKey, Window, AfterRounds, BlockOf, KeyOf;
    RoundKeysOf(3, 0xc656_827f, 0xc9a7_9917, 0x6f29_4cec, 0x6cd5_598b,
                0x3de2_3a75, 0x5247_75e7, 0x27bf_9eb4, 0x5407_cf39);
    RoundKeysOf(4, 0x0bdc_905f, 0xc27b_0948, 0xad52_45a4, 0xc187_1c2f,
                0x45f5_a660, 0x17b2_d387, 0x300d_4d33, 0x640a_820a);
    Round(7, 0x7f07_4143, 0xcb4e_243e, 0xc10c_815d, 0x8375_d54c, 0x3de2_3a75, 0x5247_75e7, 0x27bf_9eb4, 0x5407_cf39,
          0xd653_a469, 0x6ca0_bc0f, 0x5aca_ab5d, 0xb96c_5e7d);
    Round(8, 0xd653_a469, 0x6ca0_bc0f, 0x5aca_ab5d, 0xb96c_5e7d, 0x0bdc_905f, 0xc27b_0948, 0xad52_45a4, 0xc187_1c2f,
          0x5aa8_5839, 0x5fd2_8d7d, 0x05e1_a388, 0x68f3_b9c5);
    Round(9, 0x5aa8_5839, 0x5fd2_8d7d, 0x05e1_a388, 0x68f3_b9c5, 0x45f5_a660, 0x17b2_d387, 0x300d_4d33, 0x640a_820a,
          0x4a82_4851, 0xc57e_7e47, 0x643d_e50c, 0x2af3_e8c9);
  }

  lemma Rounds10To12()
    requires AfterRounds(CountingKey(), Example(), 9) == BlockOf(0x4a82_4851, 0xc57e_7e47, 0x643d_e50c, 0x2af3_e8c9)
    ensures AfterRounds(CountingKey(), Example(), 12) == BlockOf(0x5166_0495, 0x4353_9503, 0x14fb_86e4, 0x0192_2521)
  {
    CountSchedule();
    hide CountingKey, Example, RoundKey, Window, AfterRounds, BlockOf, KeyOf;
    RoundKeysOf(5, 0x7ccf_f71c, 0xbeb4_fe54, 0x13e6_bbf0, 0xd261_a7df,
                0xf01a_fafe, 0xe7a8_2979, 0xd7a5_644a, 0xb3af_e640);
    RoundKeysOf(6, 0x2541_fe71, 0x9bf5_0025, 0x8813_bbd5, 0x5a72_1c0a,
                0x4e5a_6699, 0xa9f2_4fe0, 0x7e57_2baa, 0xcdf8_cdea);
    Round(10, 0x4a82_4851, 0xc57e_7e47, 0x643d_e50c, 0x2af3_e8c9, 0x7ccf_f71c, 0xbeb4_fe54, 0x13e6_bbf0, 0xd261_a7df,
          0xc149_07f6, 0xca3b_3aa0, 0x70e9_aa31, 0x3b52_b5ec);
    Round(11, 0xc149_07f6, 0xca3b_3aa0, 0x70e9_aa31, 0x3b52_b5ec, 0xf01a_fafe, 0xe7a8_2979, 0xd7a5_644a, 0xb3af_e640,
          0x5f9c_6abf, 0xbac6_34aa, 0x5040_9fa7, 0x6667_7653);
    Round(12, 0x5f9c_6abf, 0xbac6_34aa, 0x5040_9fa7, 0x6667_7653, 0x2541_fe71, 0x9bf5_0025, 0x8813_bbd5, 0x5a72_1c0a,
          0x5166_0495, 0x4353_9503, 0x14fb_86e4, 0x0192_2521);
  }

  /** The cipher text of the example. */
  lemma ExampleCipher()
    ensures Cipher(CountingKey(), BlockOf(0x0011_2233, 0x4455_6677, 0x8899_aabb, 0xccdd_eeff))
         == BlockOf(0x8ea2_b7ca, 0x5167_45bf, 0xeafc_4990, 0x4b49_6089)
  {
    CountSchedule();
    hide CountingKey, RoundKey, Window, AfterRounds, BlockOf, KeyOf, Cipher;
    RoundKeysOf(0, 0x0001_0203, 0x0405_0607, 0x0809_0a0b, 0x0c0d_0e0f,
                0x1011_1213, 0x1415_1617, 0x1819_1a1b, 0x1c1d_1e1f);
    FirstAddition();
    Rounds1To3();
    Rounds4To6();
    Rounds7To9();
    Rounds10To12();
    RoundKeysOf(6, 0x2541_fe71, 0x9bf5_0025, 0x8813_bbd5, 0x5a72_1c0a,
                0x4e5a_6699, 0xa9f2_4fe0, 0x7e57_2baa, 0xcdf8_cdea);
    Round(13, 0x5166_0495, 0x4353_9503, 0x14fb_86e4, 0x0192_2521, 0x4e5a_6699, 0xa9f2_4fe0, 0x7e57_2baa, 0xcdf8_cdea,
          0x627b_ceb9, 0x999d_5aaa, 0xc945_ecf4, 0x23f5_6da5);
    LastRound(0x627b_ceb9, 0x999d_5aaa, 0xc945_ecf4, 0x23f5_6da5, 0x24fc_79cc, 0xbf09_79e9, 0x371a_c23c, 0x6d68_de36,
              0x8ea2_b7ca, 0x5167_45bf, 0xeafc_4990, 0x4b49_6089);
  }
}
