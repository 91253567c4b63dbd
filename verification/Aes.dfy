/** The in-place AES-256 of the repository: a sixteen-byte buffer and a rolling 32-byte key,
    rewritten round by round, shown to compute the cipher of FIPS 197 and its inverse. */
module Aes {
  import opened AesTables
  import opened Fips197

  // ---- Round transformations in place ----

  method SubBytesInPlace(buf: array<bv8>)
    requires buf.Length == 16
    modifies buf
    ensures buf[..] == SubBytes(old(buf[..]))
  {
    var i := 16;
    while i != 0
      invariant 0 <= i <= 16
      invariant forall k :: 0 <= k < i ==> buf[k] == old(buf[k])
      invariant forall k :: i <= k < 16 ==> buf[k] == Sbox(old(buf[k]))
    {
      i := i - 1;
      buf[i] := Sbox(buf[i]);
    }
  }

  method InvSubBytesInPlace(buf: array<bv8>)
    requires buf.Length == 16
    modifies buf
    ensures buf[..] == InvSubBytes(old(buf[..]))
  {
    var i := 16;
    while i != 0
      invariant 0 <= i <= 16
      invariant forall k :: 0 <= k < i ==> buf[k] == old(buf[k])
      invariant forall k :: i <= k < 16 ==> buf[k] == SboxInv(old(buf[k]))
    {
      i := i - 1;
      buf[i] := SboxInv(buf[i]);
    }
  }

  /** Adds the sixteen key bytes that start at offset from. */
  method AddRoundKeyInPlace(buf: array<bv8>, key: array<bv8>, from: nat)
    requires buf.Length == 16 && key.Length == 32 && buf != key && from in {0, 16}
    modifies buf
    ensures buf[..] == AddRoundKey(old(buf[..]), key[from..from + 16])
  {
    hide Add;
    var i := 16;
    while i != 0
      invariant 0 <= i <= 16
      invariant forall k :: 0 <= k < i ==> buf[k] == old(buf[k])
      invariant forall k :: i <= k < 16 ==> buf[k] == Add(old(buf[k]), key[from + k])
    {
      i := i - 1;
      buf[i] := Add(buf[i], key[from + i]);
    }
  }

  /** Adds the first half of key and leaves a copy of all of it in cpk. */
  method AddRoundKeyCopy(buf: array<bv8>, key: array<bv8>, cpk: array<bv8>)
    requires buf.Length == 16 && key.Length == cpk.Length == 32
    requires buf != key && buf != cpk && key != cpk
    modifies buf, cpk
    ensures buf[..] == AddRoundKey(old(buf[..]), key[..16])
    ensures cpk[..] == key[..]
  {
    hide Add;
    var i := 16;
    while i != 0
      invariant 0 <= i <= 16
      invariant key[..] == old(key[..])
      invariant forall k :: 0 <= k < i ==> buf[k] == old(buf[k])
      invariant forall k :: i <= k < 16 ==> buf[k] == Add(old(buf[k]), key[k])
      invariant forall k :: i <= k < 16 || i + 16 <= k < 32 ==> cpk[k] == key[k]
    {
      i := i - 1;
      cpk[i] := key[i];
      buf[i] := Add(buf[i], cpk[i]);
      cpk[16 + i] := key[16 + i];
    }
  }

  /** Moves the byte at b to a, at c to b, at d to c and at a to d. */
  method Cycle(buf: array<bv8>, a: nat, b: nat, c: nat, d: nat)
    requires buf.Length == 16
    requires a < 16 && b < 16 && c < 16 && d < 16
    requires a != b && a != c && a != d && b != c && b != d && c != d
    modifies buf
    ensures buf[..] == old(buf[..][a := buf[b]][b := buf[c]][c := buf[d]][d := buf[a]])
  {
    var i := buf[a];
    buf[a] := buf[b];
    buf[b] := buf[c];
    buf[c] := buf[d];
    buf[d] := i;
  }

  method Swap(buf: array<bv8>, a: nat, b: nat)
    requires buf.Length == 16
    requires a < 16 && b < 16 && a != b
    modifies buf
    ensures buf[..] == old(buf[..][a := buf[b]][b := buf[a]])
  {
    var i := buf[a];
    buf[a] := buf[b];
    buf[b] := i;
  }

  method ShiftRowsInPlace(buf: array<bv8>)
    requires buf.Length == 16
    modifies buf
    ensures buf[..] == ShiftRows(old(buf[..]))
  {
    hide ShiftRows;
    ghost var s := buf[..];
    Cycle(buf, 1, 5, 9, 13);
    Swap(buf, 10, 2);
    Cycle(buf, 3, 15, 11, 7);
    Swap(buf, 14, 6);
    ShiftRowsTable(s);
  }

  method InvShiftRowsInPlace(buf: array<bv8>)
    requires buf.Length == 16
    modifies buf
    ensures buf[..] == InvShiftRows(old(buf[..]))
  {
    hide InvShiftRows;
    ghost var s := buf[..];
    Cycle(buf, 1, 13, 9, 5);
    Swap(buf, 2, 10);
    Cycle(buf, 3, 7, 11, 15);
    Swap(buf, 6, 14);
    InvShiftRowsTable(s);
  }

  lemma ShiftRowsTable(s: Block)
    ensures ShiftRows(s) == [s[0], s[5], s[10], s[15], s[4], s[9], s[14], s[3],
                             s[8], s[13], s[2], s[7], s[12], s[1], s[6], s[11]]
  {
  }

  lemma InvShiftRowsTable(s: Block)
    ensures InvShiftRows(s) == [s[0], s[13], s[10], s[7], s[4], s[1], s[14], s[11],
                                s[8], s[5], s[2], s[15], s[12], s[9], s[6], s[3]]
  {
  }

  // ---- The source's mixing formulas against the matrices of FIPS 197 ----

  /** One output byte of aes_mixColumns, given the sum e of the column. */
  function Mixed(a: bv8, b: bv8, e: bv8): bv8 {
    Add(a, Add(e, Xtime(Add(a, b))))
  }

  lemma MixedIsDot(a: bv8, b: bv8, c: bv8, d: bv8)
    ensures Mixed(a, b, Sum(a, b, c, d)) == Dot(Word(a, b, c, d), 2, 3, 1, 1)
  {
    hide Add, GMul, Xtime;
    Multipliers(a);
    Multipliers(b);
    Multipliers(c);
    Multipliers(d);
    XtimeLinear(a, b);
    RegroupMixed(a, b, c, d, Xtime(a), Xtime(b));
  }

  lemma RegroupMixed(a: bv8, b: bv8, c: bv8, d: bv8, xa: bv8, xb: bv8)
    ensures Add(a, Add(Sum(a, b, c, d), Add(xa, xb))) == Sum(xa, Add(xb, b), c, d)
  {
    hide Add;
    var s, x := Add(c, d), Add(xa, xb);
    AddLaws(a, Sum(a, b, c, d), x);
    Cancel(a, b, s);
    AddLaws(Add(b, s), x, x);
    AddLaws(x, b, s);
    AddLaws(xa, xb, b);
  }

  lemma Cancel(a: bv8, b: bv8, s: bv8)
    ensures Add(a, Add(Add(a, b), s)) == Add(b, s)
  {
  }

  /** One output byte of aes_mixColumns_inv. */
  function Unmixed(a: bv8, b: bv8, c: bv8, e: bv8): bv8 {
    Add(a, Add(Add(e, Xtime(Xtime(Add(Add(Xtime(e), a), c)))), Xtime(Add(a, b))))
  }

  lemma UnmixedIsDot(a: bv8, b: bv8, c: bv8, d: bv8)
    ensures Unmixed(a, b, c, Sum(a, b, c, d)) == Dot(Word(a, b, c, d), 0x0e, 0x0b, 0x0d, 0x09)
  {
    hide Add, GMul, Xtime;
    var e := Sum(a, b, c, d);
    var z := Xtime(e);
    var xa, xb, xc, xd := Xtime(a), Xtime(b), Xtime(c), Xtime(d);
    var x2a, x2b, x2c, x2d := Xtime(xa), Xtime(xb), Xtime(xc), Xtime(xd);
    var x3a, x3b, x3c, x3d := Xtime(x2a), Xtime(x2b), Xtime(x2c), Xtime(x2d);
    var w := Xtime(Xtime(z));
    Multipliers(a);
    Multipliers(b);
    Multipliers(c);
    Multipliers(d);
    assert w == Sum(x3a, x3b, x3c, x3d) by {
      XtimeSum(a, b, c, d);
      XtimeSum(xa, xb, xc, xd);
      XtimeSum(x2a, x2b, x2c, x2d);
    }
    assert Xtime(Xtime(Add(Add(z, a), c))) == Add(Add(w, x2a), x2c) by {
      XtimeLinear(Add(z, a), c);
      XtimeLinear(z, a);
      XtimeLinear(Add(Xtime(z), xa), xc);
      XtimeLinear(Xtime(z), xa);
    }
    XtimeLinear(a, b);
    AddSums(x3a, x3b, x3c, x3d, Add(x2a, xa), Add(xb, b), Add(x2c, c), d);
    RegroupUnmixed(a, b, c, d, xa, xb, x2a, x2c, w);
  }

  lemma RegroupUnmixed(a: bv8, b: bv8, c: bv8, d: bv8, xa: bv8, xb: bv8, x2a: bv8, x2c: bv8, w: bv8)
    ensures Add(a, Add(Add(Sum(a, b, c, d), Add(Add(w, x2a), x2c)), Add(xa, xb)))
         == Add(w, Sum(Add(x2a, xa), Add(xb, b), Add(x2c, c), d))
  {
    hide Add;
    var s, x, p, q := Add(c, d), Add(xa, xb), x2a, x2c;
    var v := Add(w, Add(p, q));
    assert Add(a, Add(Add(Sum(a, b, c, d), Add(Add(w, p), q)), x)) == Add(Add(b, s), Add(v, x)) by {
      AddLaws(w, p, q);
      AddLaws(Sum(a, b, c, d), v, x);
      AddLaws(a, Sum(a, b, c, d), Add(v, x));
      Cancel(a, b, s);
    }
    assert Add(Add(b, s), Add(v, x)) == Add(v, Add(x, Add(b, s))) by {
      AddLaws(Add(b, s), Add(v, x), x);
      AddLaws(v, x, Add(b, s));
    }
    assert Sum(Add(p, xa), Add(xb, b), Add(q, c), d) == Add(Add(p, q), Add(x, Add(b, s))) by {
      AddLaws(p, xa, Add(xb, b));
      AddLaws(xa, xb, b);
      AddLaws(q, c, d);
      Interchange(p, Add(x, b), q, s);
      AddLaws(x, b, s);
    }
    AddLaws(w, Add(p, q), Add(x, Add(b, s)));
  }

  lemma SumRotates(a: bv8, b: bv8, c: bv8, d: bv8)
    ensures Sum(a, b, c, d) == Sum(b, c, d, a)
  {
    hide Add;
    AddLaws(a, b, Add(c, d));
    AddLaws(Add(b, Add(c, d)), a, a);
    AddLaws(b, Add(c, d), a);
    AddLaws(c, d, a);
    AddLaws(b, c, Add(d, a));
  }

  lemma MixedColumn(w: Word)
    ensures var e := Sum(w.b0, w.b1, w.b2, w.b3);
            MixColumn(w) == Word(Mixed(w.b0, w.b1, e), Mixed(w.b1, w.b2, e), Mixed(w.b2, w.b3, e), Mixed(w.b3, w.b0, e))
  {
    hide Dot, Sum, Mixed;
    var w1, w2, w3 := RotWord(w), RotWord(RotWord(w)), RotWord(RotWord(RotWord(w)));
    MixedIsDot(w.b0, w.b1, w.b2, w.b3);
    MixedIsDot(w.b1, w.b2, w.b3, w.b0);
    MixedIsDot(w.b2, w.b3, w.b0, w.b1);
    MixedIsDot(w.b3, w.b0, w.b1, w.b2);
    MixColumnRotates(w);
    MixColumnRotates(w1);
    MixColumnRotates(w2);
    SumRotates(w.b0, w.b1, w.b2, w.b3);
    SumRotates(w.b1, w.b2, w.b3, w.b0);
    SumRotates(w.b2, w.b3, w.b0, w.b1);
  }

  lemma UnmixedColumn(w: Word)
    ensures var e := Sum(w.b0, w.b1, w.b2, w.b3);
            InvMixColumn(w) == Word(Unmixed(w.b0, w.b1, w.b2, e), Unmixed(w.b1, w.b2, w.b3, e),
                                    Unmixed(w.b2, w.b3, w.b0, e), Unmixed(w.b3, w.b0, w.b1, e))
  {
    hide Dot, Sum, Unmixed;
    var w1, w2, w3 := RotWord(w), RotWord(RotWord(w)), RotWord(RotWord(RotWord(w)));
    UnmixedIsDot(w.b0, w.b1, w.b2, w.b3);
    UnmixedIsDot(w.b1, w.b2, w.b3, w.b0);
    UnmixedIsDot(w.b2, w.b3, w.b0, w.b1);
    UnmixedIsDot(w.b3, w.b0, w.b1, w.b2);
    InvMixColumnRotates(w);
    InvMixColumnRotates(w1);
    InvMixColumnRotates(w2);
    SumRotates(w.b0, w.b1, w.b2, w.b3);
    SumRotates(w.b1, w.b2, w.b3, w.b0);
    SumRotates(w.b2, w.b3, w.b0, w.b1);
  }

  lemma UnmixedSwaps(a: bv8, b: bv8, c: bv8, e: bv8)
    ensures Unmixed(a, b, c, e) == Add(a, Add(Add(e, Xtime(Xtime(Add(Add(Xtime(e), c), a)))), Xtime(Add(a, b))))
  {
    hide Add, Xtime;
    AddLaws(Xtime(e), a, c);
    AddLaws(a, c, c);
    AddLaws(Xtime(e), c, a);
  }

  method MixColumnInPlace(buf: array<bv8>, i: nat)
    requires buf.Length == 16 && i in {0, 4, 8, 12}
    modifies buf
    ensures [buf[i], buf[i + 1], buf[i + 2], buf[i + 3]] == Bytes(MixColumn(old(Word(buf[i], buf[i + 1], buf[i + 2], buf[i + 3]))))
    ensures forall k :: 0 <= k < 16 && !(i <= k < i + 4) ==> buf[k] == old(buf[k])
  {
    hide Add, Xtime, MixColumn;
    var a, b, c, d := buf[i], buf[i + 1], buf[i + 2], buf[i + 3];
    var e := Add(Add(a, b), Add(c, d));
    buf[i] := Add(buf[i], Add(e, Xtime(Add(a, b))));
    buf[i + 1] := Add(buf[i + 1], Add(e, Xtime(Add(b, c))));
    buf[i + 2] := Add(buf[i + 2], Add(e, Xtime(Add(c, d))));
    buf[i + 3] := Add(buf[i + 3], Add(e, Xtime(Add(d, a))));
    MixedColumn(Word(a, b, c, d));
  }

  method MixColumnsInPlace(buf: array<bv8>)
    requires buf.Length == 16
    modifies buf
    ensures buf[..] == MixColumns(old(buf[..]))
  {
    hide MixColumn;
    ghost var s := buf[..];
    var i := 0;
    while i < 16
      invariant i in {0, 4, 8, 12, 16}
      invariant forall k :: i <= k < 16 ==> buf[k] == s[k]
      invariant forall k :: 0 <= k < i ==> buf[k] == MixColumns(s)[k]
    {
      MixColumnInPlace(buf, i);
      i := i + 4;
    }
  }

  method InvMixColumnInPlace(buf: array<bv8>, i: nat)
    requires buf.Length == 16 && i in {0, 4, 8, 12}
    modifies buf
    ensures [buf[i], buf[i + 1], buf[i + 2], buf[i + 3]] == Bytes(InvMixColumn(old(Word(buf[i], buf[i + 1], buf[i + 2], buf[i + 3]))))
    ensures forall k :: 0 <= k < 16 && !(i <= k < i + 4) ==> buf[k] == old(buf[k])
  {
    hide Add, Xtime, InvMixColumn;
    var a, b, c, d := buf[i], buf[i + 1], buf[i + 2], buf[i + 3];
    var e := Add(Add(a, b), Add(c, d));
    var z := Xtime(e);
    var x := Add(e, Xtime(Xtime(Add(Add(z, a), c))));
    var y := Add(e, Xtime(Xtime(Add(Add(z, b), d))));
    buf[i] := Add(buf[i], Add(x, Xtime(Add(a, b))));
    buf[i + 1] := Add(buf[i + 1], Add(y, Xtime(Add(b, c))));
    buf[i + 2] := Add(buf[i + 2], Add(x, Xtime(Add(c, d))));
    buf[i + 3] := Add(buf[i + 3], Add(y, Xtime(Add(d, a))));
    UnmixedColumn(Word(a, b, c, d));
    UnmixedSwaps(c, d, a, e);
    UnmixedSwaps(d, a, b, e);
  }

  method InvMixColumnsInPlace(buf: array<bv8>)
    requires buf.Length == 16
    modifies buf
    ensures buf[..] == InvMixColumns(old(buf[..]))
  {
    hide InvMixColumn;
    ghost var s := buf[..];
    var i := 0;
    while i < 16
      invariant i in {0, 4, 8, 12, 16}
      invariant forall k :: i <= k < 16 ==> buf[k] == s[k]
      invariant forall k :: 0 <= k < i ==> buf[k] == InvMixColumns(s)[k]
    {
      InvMixColumnInPlace(buf, i);
      i := i + 4;
    }
  }
}
