/** The two substitution tables of the cipher and the byte arithmetic that explains them.

    Each 256-entry table is kept as sixteen rows of sixteen bytes. */
module AesTables {
  import opened Tables

  function SboxRow(x: bv8): bv128 {
    if x < 0x10 then      0x637c777b_f26b6fc5_3001672b_fed7ab76
    else if x < 0x20 then 0xca82c97d_fa5947f0_add4a2af_9ca472c0
    else if x < 0x30 then 0xb7fd9326_363ff7cc_34a5e5f1_71d83115
    else if x < 0x40 then 0x04c723c3_1896059a_071280e2_eb27b275
    else if x < 0x50 then 0x09832c1a_1b6e5aa0_523bd6b3_29e32f84
    else if x < 0x60 then 0x53d100ed_20fcb15b_6acbbe39_4a4c58cf
    else if x < 0x70 then 0xd0efaafb_434d3385_45f9027f_503c9fa8
    else if x < 0x80 then 0x51a3408f_929d38f5_bcb6da21_10fff3d2
    else if x < 0x90 then 0xcd0c13ec_5f974417_c4a77e3d_645d1973
    else if x < 0xa0 then 0x60814fdc_222a9088_46eeb814_de5e0bdb
    else if x < 0xb0 then 0xe0323a0a_4906245c_c2d3ac62_9195e479
    else if x < 0xc0 then 0xe7c8376d_8dd54ea9_6c56f4ea_657aae08
    else if x < 0xd0 then 0xba78252e_1ca6b4c6_e8dd741f_4bbd8b8a
    else if x < 0xe0 then 0x703eb566_4803f60e_613557b9_86c11d9e
    else if x < 0xf0 then 0xe1f89811_69d98e94_9b1e87e9_ce5528df
    else                  0x8ca1890d_bfe64268_41992d0f_b054bb16
  }

  function SboxInvRow(x: bv8): bv128 {
    if x < 0x10 then      0x52096ad5_3036a538_bf40a39e_81f3d7fb
    else if x < 0x20 then 0x7ce33982_9b2fff87_348e4344_c4dee9cb
    else if x < 0x30 then 0x547b9432_a6c2233d_ee4c950b_42fac34e
    else if x < 0x40 then 0x082ea166_28d924b2_765ba249_6d8bd125
    else if x < 0x50 then 0x72f8f664_86689816_d4a45ccc_5d65b692
    else if x < 0x60 then 0x6c704850_fdedb9da_5e154657_a78d9d84
    else if x < 0x70 then 0x90d8ab00_8cbcd30a_f7e45805_b8b34506
    else if x < 0x80 then 0xd02c1e8f_ca3f0f02_c1afbd03_01138a6b
    else if x < 0x90 then 0x3a911141_4f67dcea_97f2cfce_f0b4e673
    else if x < 0xa0 then 0x96ac7422_e7ad3585_e2f937e8_1c75df6e
    else if x < 0xb0 then 0x47f11a71_1d29c589_6fb7620e_aa18be1b
    else if x < 0xc0 then 0xfc563e4b_c6d27920_9adbc0fe_78cd5af4
    else if x < 0xd0 then 0x1fdda833_8807c731_b1121059_2780ec5f
    else if x < 0xe0 then 0x60517fa9_19b54a0d_2de57a9f_93c99cef
    else if x < 0xf0 then 0xa0e03b4d_ae2af5b0_c8ebbb3c_83539961
    else                  0x172b047e_ba77d626_e1691463_55210c7d
  }

  function Sbox(x: bv8): bv8 {
    Entry(SboxRow(x), x)
  }

  function SboxInv(x: bv8): bv8 {
    Entry(SboxInvRow(x), x)
  }

  lemma SboxInverts(x: bv8)
    ensures SboxInv(Sbox(x)) == x
  {
  }

  /** Multiplication by x in GF(2^8), as rj_xtime computes it. */
  function Xtime(x: bv8): bv8 {
    if x & 0x80 != 0 then (x << 1) ^ 0x1b else x << 1
  }

  /** Multiplication in GF(2^8) (section 4.2 of FIPS 197): the sum of x times each bit of y. */
  function GMul(x: bv8, y: bv8): bv8 {
    var x1 := Xtime(x);
    var x2 := Xtime(x1);
    var x3 := Xtime(x2);
    var x4 := Xtime(x3);
    var x5 := Xtime(x4);
    var x6 := Xtime(x5);
    var x7 := Xtime(x6);
    (if y & 0x01 != 0 then x else 0) ^ (if y & 0x02 != 0 then x1 else 0) ^
    (if y & 0x04 != 0 then x2 else 0) ^ (if y & 0x08 != 0 then x3 else 0) ^
    (if y & 0x10 != 0 then x4 else 0) ^ (if y & 0x20 != 0 then x5 else 0) ^
    (if y & 0x40 != 0 then x6 else 0) ^ (if y & 0x80 != 0 then x7 else 0)
  }

  /** The affine half of the S-box (section 5.1.1 of FIPS 197). */
  function Affine(b: bv8): bv8 {
    b ^ b.RotateLeft(1) ^ b.RotateLeft(2) ^ b.RotateLeft(3) ^ b.RotateLeft(4) ^ 0x63
  }

  function AffineInv(b: bv8): bv8 {
    b.RotateLeft(1) ^ b.RotateLeft(3) ^ b.RotateLeft(6) ^ 0x05
  }

  lemma AffineInverts(b: bv8)
    ensures Affine(AffineInv(b)) == b
  {
  }

  lemma SboxEntryInverse(x: bv8)
    requires x != 0
    ensures GMul(x, AffineInv(Sbox(x))) == 1
  {
  }

  /** The encryption table is the S-box of section 5.1.1 of FIPS 197: the affine map applied to
      the multiplicative inverse, 0 standing for its own inverse. */
  lemma SboxIsAffineOfInverse(x: bv8)
    ensures exists y :: (if x == 0 then y == 0 else GMul(x, y) == 1) && Sbox(x) == Affine(y)
  {
    var y := AffineInv(Sbox(x));
    AffineInverts(Sbox(x));
    if x == 0 {
      assert Affine(0) == Sbox(0);
      assert GMul(0, 0) == 0;
    } else {
      SboxEntryInverse(x);
      assert GMul(x, y) == 1;
    }
  }
}
