/** The cipher of FIPS 197 for Nk = 8 and Nr = 14, written after the standard, on values.

    A block is the sixteen bytes of the state in input order (section 3.4), so byte r of
    column c is at index 4c + r. */
module Fips197 {
  import opened AesTables

  type Block = s: seq<bv8> | |s| == 16 witness seq(16, _ => 0)
  type Key = s: seq<bv8> | |s| == 32 witness seq(32, _ => 0)

  datatype Word = Word(b0: bv8, b1: bv8, b2: bv8, b3: bv8)

  /** Addition in GF(2^8) (section 4.1). */
  function Add(x: bv8, y: bv8): bv8 {
    x ^ y
  }

  function Xor(a: Word, b: Word): Word {
    Word(Add(a.b0, b.b0), Add(a.b1, b.b1), Add(a.b2, b.b2), Add(a.b3, b.b3))
  }

  function SubWord(a: Word): Word {
    Word(Sbox(a.b0), Sbox(a.b1), Sbox(a.b2), Sbox(a.b3))
  }

  function RotWord(a: Word): Word {
    Word(a.b1, a.b2, a.b3, a.b0)
  }

  /** The round constant: x to the power i - 1 in GF(2^8). */
  function Rcon(i: nat): bv8
    requires i > 0
  {
    if i == 1 then 1 else Xtime(Rcon(i - 1))
  }

  // ---- Key expansion (section 5.2) ----

  function WordAt(s: seq<bv8>, i: nat): Word
    requires 4 * i + 4 <= |s|
  {
    Word(s[4 * i], s[4 * i + 1], s[4 * i + 2], s[4 * i + 3])
  }

  function Bytes(a: Word): seq<bv8> {
    [a.b0, a.b1, a.b2, a.b3]
  }

  /** Word i of the expanded key. */
  function W(k: Key, i: nat): Word {
    if i < 8 then WordAt(k, i)
    else
      var temp := W(k, i - 1);
      var temp' := if i % 8 == 0 then Xor(SubWord(RotWord(temp)), Word(Rcon(i / 8), 0, 0, 0))
                   else if i % 8 == 4 then SubWord(temp)
                   else temp;
      Xor(W(k, i - 8), temp')
  }

  function Join(a: Word, b: Word, c: Word, d: Word): Block {
    Bytes(a) + Bytes(b) + Bytes(c) + Bytes(d)
  }

  function RoundKey(k: Key, r: nat): Block {
    Join(W(k, 4 * r), W(k, 4 * r + 1), W(k, 4 * r + 2), W(k, 4 * r + 3))
  }

  // ---- Round transformations (sections 5.1 and 5.3) ----

  function AddRoundKey(s: Block, k: Block): Block {
    seq(16, i requires 0 <= i < 16 => Add(s[i], k[i]))
  }

  function SubBytes(s: Block): Block {
    seq(16, i requires 0 <= i < 16 => Sbox(s[i]))
  }

  function InvSubBytes(s: Block): Block {
    seq(16, i requires 0 <= i < 16 => SboxInv(s[i]))
  }

  /** Row r is shifted left by r places: byte r of column c comes from column c + r. */
  function ShiftRows(s: Block): Block {
    seq(16, i requires 0 <= i < 16 => s[(i + 4 * (i % 4)) % 16])
  }

  function InvShiftRows(s: Block): Block {
    seq(16, i requires 0 <= i < 16 => s[(i + 12 * (i % 4)) % 16])
  }

  function Sum(p: bv8, q: bv8, r: bv8, s: bv8): bv8 {
    Add(Add(p, q), Add(r, s))
  }

  /** A column times a row of the matrix of equation 5.6 or 5.10. */
  function Dot(a: Word, m0: bv8, m1: bv8, m2: bv8, m3: bv8): bv8 {
    Sum(GMul(a.b0, m0), GMul(a.b1, m1), GMul(a.b2, m2), GMul(a.b3, m3))
  }

  function MixColumn(a: Word): Word {
    Word(Dot(a, 2, 3, 1, 1), Dot(a, 1, 2, 3, 1), Dot(a, 1, 1, 2, 3), Dot(a, 3, 1, 1, 2))
  }

  function InvMixColumn(a: Word): Word {
    Word(Dot(a, 0x0e, 0x0b, 0x0d, 0x09), Dot(a, 0x09, 0x0e, 0x0b, 0x0d),
         Dot(a, 0x0d, 0x09, 0x0e, 0x0b), Dot(a, 0x0b, 0x0d, 0x09, 0x0e))
  }

  function MixColumns(s: Block): Block {
    Join(MixColumn(WordAt(s, 0)), MixColumn(WordAt(s, 1)), MixColumn(WordAt(s, 2)), MixColumn(WordAt(s, 3)))
  }

  function InvMixColumns(s: Block): Block {
    Join(InvMixColumn(WordAt(s, 0)), InvMixColumn(WordAt(s, 1)), InvMixColumn(WordAt(s, 2)), InvMixColumn(WordAt(s, 3)))
  }

  // ---- The cipher and its inverse ----

  /** The state after the initial key addition and r full rounds. */
  function AfterRounds(k: Key, s: Block, r: nat): Block {
    if r == 0 then AddRoundKey(s, RoundKey(k, 0))
    else AddRoundKey(MixColumns(ShiftRows(SubBytes(AfterRounds(k, s, r - 1)))), RoundKey(k, r))
  }

  function Cipher(k: Key, s: Block): Block {
    AddRoundKey(ShiftRows(SubBytes(AfterRounds(k, s, 13))), RoundKey(k, 14))
  }

  /** What the inverse cipher's last r rounds and final key addition make of s. */
  function UndoRounds(k: Key, s: Block, r: nat): Block
    decreases r
  {
    if r == 0 then AddRoundKey(s, RoundKey(k, 0))
    else UndoRounds(k, InvSubBytes(InvShiftRows(InvMixColumns(AddRoundKey(s, RoundKey(k, r))))), r - 1)
  }

  function InvCipher(k: Key, s: Block): Block {
    UndoRounds(k, InvSubBytes(InvShiftRows(AddRoundKey(s, RoundKey(k, 14)))), 13)
  }

  // ---- The inverse cipher undoes the cipher ----

  lemma AddRoundKeyTwice(s: Block, k: Block)
    ensures AddRoundKey(AddRoundKey(s, k), k) == s
  {
    forall i | 0 <= i < 16 ensures AddRoundKey(AddRoundKey(s, k), k)[i] == s[i] {
      assert Add(Add(s[i], k[i]), k[i]) == s[i];
    }
  }

  lemma SubBytesInverts(s: Block)
    ensures InvSubBytes(SubBytes(s)) == s
  {
    forall i | 0 <= i < 16 ensures InvSubBytes(SubBytes(s))[i] == s[i] {
      SboxInverts(s[i]);
    }
  }

  lemma ShiftRowsInverts(s: Block)
    ensures InvShiftRows(ShiftRows(s)) == s
  {
  }

  lemma XtimeLinear(x: bv8, y: bv8)
    ensures Xtime(Add(x, y)) == Add(Xtime(x), Xtime(y))
  {
    if x & 0x80 != 0 && y & 0x80 != 0 {
      assert (x ^ y) & 0x80 == 0;
    } else if x & 0x80 != 0 || y & 0x80 != 0 {
      assert (x ^ y) & 0x80 != 0;
    } else {
      assert (x ^ y) & 0x80 == 0;
    }
  }

  lemma XtimeSum(a: bv8, b: bv8, c: bv8, d: bv8)
    ensures Xtime(Sum(a, b, c, d)) == Sum(Xtime(a), Xtime(b), Xtime(c), Xtime(d))
  {
    hide Add, Xtime;
    XtimeLinear(a, b);
    XtimeLinear(c, d);
    XtimeLinear(Add(a, b), Add(c, d));
  }

  /** The multipliers of equations 5.6 and 5.10 in terms of repeated Xtime. */
  lemma Multipliers(a: bv8)
    ensures GMul(a, 1) == a
    ensures GMul(a, 2) == Xtime(a)
    ensures GMul(a, 3) == Add(Xtime(a), a)
    ensures GMul(a, 9) == Add(Xtime(Xtime(Xtime(a))), a)
    ensures GMul(a, 0x0b) == Add(Xtime(Xtime(Xtime(a))), GMul(a, 3))
    ensures GMul(a, 0x0d) == Add(Xtime(Xtime(Xtime(a))), Add(Xtime(Xtime(a)), a))
    ensures GMul(a, 0x0e) == Add(Xtime(Xtime(Xtime(a))), Add(Xtime(Xtime(a)), Xtime(a)))
  {
  }

  lemma AddLaws(p: bv8, q: bv8, r: bv8)
    ensures Add(p, q) == Add(q, p)
    ensures Add(Add(p, q), r) == Add(p, Add(q, r))
  {
  }

  lemma Interchange(p: bv8, q: bv8, r: bv8, s: bv8)
    ensures Add(Add(p, q), Add(r, s)) == Add(Add(p, r), Add(q, s))
  {
    hide Add;
    AddLaws(p, q, Add(r, s));
    AddLaws(q, r, s);
    AddLaws(r, q, s);
    AddLaws(p, r, Add(q, s));
  }

  lemma GMulLinear(x: bv8, y: bv8, m: bv8)
    requires m in {9, 0x0b, 0x0d, 0x0e}
    ensures GMul(Add(x, y), m) == Add(GMul(x, m), GMul(y, m))
  {
    hide Add, Xtime, GMul;
    var x1, y1 := Xtime(x), Xtime(y);
    var x2, y2 := Xtime(x1), Xtime(y1);
    var x3, y3 := Xtime(x2), Xtime(y2);
    XtimeLinear(x, y);
    XtimeLinear(x1, y1);
    XtimeLinear(x2, y2);
    Multipliers(x);
    Multipliers(y);
    Multipliers(Add(x, y));
    if m == 9 {
      Interchange(x3, y3, x, y);
    } else if m == 0x0b {
      Interchange(x1, y1, x, y);
      Interchange(x3, y3, GMul(x, 3), GMul(y, 3));
    } else if m == 0x0d {
      Interchange(x2, y2, x, y);
      Interchange(x3, y3, Add(x2, x), Add(y2, y));
    } else {
      Interchange(x2, y2, x1, y1);
      Interchange(x3, y3, Add(x2, x1), Add(y2, y1));
    }
  }

  lemma GMulSum(a: bv8, b: bv8, c: bv8, d: bv8, m: bv8)
    requires m in {9, 0x0b, 0x0d, 0x0e}
    ensures GMul(Sum(a, b, c, d), m) == Sum(GMul(a, m), GMul(b, m), GMul(c, m), GMul(d, m))
  {
    hide Add, GMul;
    GMulLinear(a, b, m);
    GMulLinear(c, d, m);
    GMulLinear(Add(a, b), Add(c, d), m);
  }

  lemma AddSums(a0: bv8, a1: bv8, a2: bv8, a3: bv8, b0: bv8, b1: bv8, b2: bv8, b3: bv8)
    ensures Add(Sum(a0, a1, a2, a3), Sum(b0, b1, b2, b3))
         == Sum(Add(a0, b0), Add(a1, b1), Add(a2, b2), Add(a3, b3))
  {
    hide Add;
    Interchange(Add(a0, a1), Add(a2, a3), Add(b0, b1), Add(b2, b3));
    Interchange(a0, a1, b0, b1);
    Interchange(a2, a3, b2, b3);
  }

  lemma Transpose(a0: bv8, a1: bv8, a2: bv8, a3: bv8, b0: bv8, b1: bv8, b2: bv8, b3: bv8,
                  c0: bv8, c1: bv8, c2: bv8, c3: bv8, d0: bv8, d1: bv8, d2: bv8, d3: bv8)
    ensures Sum(Sum(a0, a1, a2, a3), Sum(b0, b1, b2, b3), Sum(c0, c1, c2, c3), Sum(d0, d1, d2, d3))
         == Sum(Sum(a0, b0, c0, d0), Sum(a1, b1, c1, d1), Sum(a2, b2, c2, d2), Sum(a3, b3, c3, d3))
  {
    hide Add;
    AddSums(a0, a1, a2, a3, b0, b1, b2, b3);
    AddSums(c0, c1, c2, c3, d0, d1, d2, d3);
    AddSums(Add(a0, b0), Add(a1, b1), Add(a2, b2), Add(a3, b3), Add(c0, d0), Add(c1, d1), Add(c2, d2), Add(c3, d3));
  }

  /** The contributions of one input byte to output byte 0 of InvMixColumn after MixColumn:
      the byte itself when it stands first, nothing otherwise. */
  lemma Contributions(x: bv8)
    ensures Sum(GMul(GMul(x, 2), 0x0e), GMul(GMul(x, 1), 0x0b), GMul(GMul(x, 1), 0x0d), GMul(GMul(x, 3), 9)) == x
    ensures Sum(GMul(GMul(x, 3), 0x0e), GMul(GMul(x, 2), 0x0b), GMul(GMul(x, 1), 0x0d), GMul(GMul(x, 1), 9)) == 0
    ensures Sum(GMul(GMul(x, 1), 0x0e), GMul(GMul(x, 3), 0x0b), GMul(GMul(x, 2), 0x0d), GMul(GMul(x, 1), 9)) == 0
    ensures Sum(GMul(GMul(x, 1), 0x0e), GMul(GMul(x, 1), 0x0b), GMul(GMul(x, 3), 0x0d), GMul(GMul(x, 2), 9)) == 0
  {
  }

  lemma MixColumnInvertsFirst(a: bv8, b: bv8, c: bv8, d: bv8)
    ensures Dot(MixColumn(Word(a, b, c, d)), 0x0e, 0x0b, 0x0d, 0x09) == a
  {
    hide Add, Sum, GMul;
    GMulSum(GMul(a, 2), GMul(b, 3), GMul(c, 1), GMul(d, 1), 0x0e);
    GMulSum(GMul(a, 1), GMul(b, 2), GMul(c, 3), GMul(d, 1), 0x0b);
    GMulSum(GMul(a, 1), GMul(b, 1), GMul(c, 2), GMul(d, 3), 0x0d);
    GMulSum(GMul(a, 3), GMul(b, 1), GMul(c, 1), GMul(d, 2), 9);
    Transpose(GMul(GMul(a, 2), 0x0e), GMul(GMul(b, 3), 0x0e), GMul(GMul(c, 1), 0x0e), GMul(GMul(d, 1), 0x0e),
              GMul(GMul(a, 1), 0x0b), GMul(GMul(b, 2), 0x0b), GMul(GMul(c, 3), 0x0b), GMul(GMul(d, 1), 0x0b),
              GMul(GMul(a, 1), 0x0d), GMul(GMul(b, 1), 0x0d), GMul(GMul(c, 2), 0x0d), GMul(GMul(d, 3), 0x0d),
              GMul(GMul(a, 3), 9), GMul(GMul(b, 1), 9), GMul(GMul(c, 1), 9), GMul(GMul(d, 2), 9));
    Contributions(a);
    Contributions(b);
    Contributions(c);
    Contributions(d);
    assert Sum(a, 0, 0, 0) == a by { SumZeros(a); }
  }

  lemma SumZeros(a: bv8)
    ensures Sum(a, 0, 0, 0) == a
  {
  }

  /** The other bytes follow because each row of either matrix is the first one rotated. */
  lemma DotRotates(a: Word, m0: bv8, m1: bv8, m2: bv8, m3: bv8)
    ensures Dot(a, m3, m0, m1, m2) == Dot(RotWord(a), m0, m1, m2, m3)
  {
    hide Add, GMul;
    var p, q, r, s := GMul(a.b0, m3), GMul(a.b1, m0), GMul(a.b2, m1), GMul(a.b3, m2);
    AddLaws(p, q, Add(r, s));
    AddLaws(Add(q, Add(r, s)), p, p);
    AddLaws(q, Add(r, s), p);
    AddLaws(r, s, p);
    AddLaws(q, r, Add(s, p));
  }

  lemma MixColumnRotates(a: Word)
    ensures MixColumn(RotWord(a)) == RotWord(MixColumn(a))
  {
    hide Dot;
    DotRotates(a, 2, 3, 1, 1);
    DotRotates(a, 1, 2, 3, 1);
    DotRotates(a, 1, 1, 2, 3);
    DotRotates(a, 3, 1, 1, 2);
  }

  lemma InvMixColumnRotates(a: Word)
    ensures InvMixColumn(RotWord(a)) == RotWord(InvMixColumn(a))
  {
    hide Dot;
    DotRotates(a, 0x0e, 0x0b, 0x0d, 0x09);
    DotRotates(a, 0x09, 0x0e, 0x0b, 0x0d);
    DotRotates(a, 0x0d, 0x09, 0x0e, 0x0b);
    DotRotates(a, 0x0b, 0x0d, 0x09, 0x0e);
  }

  lemma MixColumnInvertsAt(a: Word)
    ensures InvMixColumn(MixColumn(a)).b0 == a.b0
    ensures InvMixColumn(MixColumn(RotWord(a))) == RotWord(InvMixColumn(MixColumn(a)))
  {
    MixColumnInvertsFirst(a.b0, a.b1, a.b2, a.b3);
    MixColumnRotates(a);
    InvMixColumnRotates(MixColumn(a));
  }

  lemma MixColumnInverts(a: Word)
    ensures InvMixColumn(MixColumn(a)) == a
  {
    hide MixColumn, InvMixColumn;
    var a1 := RotWord(a);
    var a2 := RotWord(a1);
    MixColumnInvertsAt(a);
    MixColumnInvertsAt(a1);
    MixColumnInvertsAt(a2);
    MixColumnInvertsAt(RotWord(a2));
  }

  lemma FourWords(a: Word, b: Word, c: Word, d: Word)
    ensures var s := Join(a, b, c, d);
            WordAt(s, 0) == a && WordAt(s, 1) == b && WordAt(s, 2) == c && WordAt(s, 3) == d
  {
  }

  lemma MixColumnsInverts(s: Block)
    ensures InvMixColumns(MixColumns(s)) == s
  {
    hide MixColumn, InvMixColumn, WordAt, Join;
    var a, b, c, d := WordAt(s, 0), WordAt(s, 1), WordAt(s, 2), WordAt(s, 3);
    FourWords(MixColumn(a), MixColumn(b), MixColumn(c), MixColumn(d));
    MixColumnInverts(a);
    MixColumnInverts(b);
    MixColumnInverts(c);
    MixColumnInverts(d);
    JoinWords(s);
  }

  lemma JoinWords(s: Block)
    ensures Join(WordAt(s, 0), WordAt(s, 1), WordAt(s, 2), WordAt(s, 3)) == s
  {
  }

  lemma {:induction false} UndoRoundsInverts(k: Key, s: Block, r: nat)
    ensures UndoRounds(k, AfterRounds(k, s, r), r) == s
  {
    hide AddRoundKey, RoundKey, MixColumns, InvMixColumns, ShiftRows, InvShiftRows, SubBytes, InvSubBytes;
    if r == 0 {
      AddRoundKeyTwice(s, RoundKey(k, 0));
    } else {
      var before := AfterRounds(k, s, r - 1);
      var sub := SubBytes(before);
      var shifted := ShiftRows(sub);
      AddRoundKeyTwice(MixColumns(shifted), RoundKey(k, r));
      MixColumnsInverts(shifted);
      ShiftRowsInverts(sub);
      SubBytesInverts(before);
      UndoRoundsInverts(k, s, r - 1);
    }
  }

  /** Section 5.3: the inverse cipher undoes the cipher, for every key and block. */
  lemma InvCipherInverts(k: Key, s: Block)
    ensures InvCipher(k, Cipher(k, s)) == s
  {
    hide AddRoundKey, RoundKey, ShiftRows, InvShiftRows, SubBytes, InvSubBytes, AfterRounds, UndoRounds;
    var last := AfterRounds(k, s, 13);
    AddRoundKeyTwice(ShiftRows(SubBytes(last)), RoundKey(k, 14));
    ShiftRowsInverts(SubBytes(last));
    SubBytesInverts(last);
    UndoRoundsInverts(k, s, 13);
  }
}
