/** The rolling 32-byte key: one step forward holds the next eight words of the key
    expansion of FIPS 197, one step back undoes it. */
module AesKeys {
  import opened AesTables
  import opened Fips197

  /** Words 8j .. 8j+7 of the expanded key, as bytes. */
  function Window(k: Key, j: nat): Key {
    RoundKey(k, 2 * j) + RoundKey(k, 2 * j + 1)
  }

  /** The eight words that follow those of k, rc being the round constant. */
  function Next(k: Key, rc: bv8): Key {
    var n0 := Xor(WordAt(k, 0), Xor(SubWord(RotWord(WordAt(k, 7))), Word(rc, 0, 0, 0)));
    var n1 := Xor(WordAt(k, 1), n0);
    var n2 := Xor(WordAt(k, 2), n1);
    var n3 := Xor(WordAt(k, 3), n2);
    var n4 := Xor(WordAt(k, 4), SubWord(n3));
    var n5 := Xor(WordAt(k, 5), n4);
    var n6 := Xor(WordAt(k, 6), n5);
    var n7 := Xor(WordAt(k, 7), n6);
    Join(n0, n1, n2, n3) + Join(n4, n5, n6, n7)
  }

  /** The eight words that Next turns into k. */
  function Previous(k: Key, rc: bv8): Key {
    var p7 := Xor(WordAt(k, 7), WordAt(k, 6));
    var p6 := Xor(WordAt(k, 6), WordAt(k, 5));
    var p5 := Xor(WordAt(k, 5), WordAt(k, 4));
    var p4 := Xor(WordAt(k, 4), SubWord(WordAt(k, 3)));
    var p3 := Xor(WordAt(k, 3), WordAt(k, 2));
    var p2 := Xor(WordAt(k, 2), WordAt(k, 1));
    var p1 := Xor(WordAt(k, 1), WordAt(k, 0));
    var p0 := Xor(WordAt(k, 0), Xor(SubWord(RotWord(p7)), Word(rc, 0, 0, 0)));
    Join(p0, p1, p2, p3) + Join(p4, p5, p6, p7)
  }

  lemma WordsOfHalves(s: Block, t: Block)
    ensures forall i {:trigger WordAt(s + t, i)} :: 0 <= i < 4 ==> WordAt(s + t, i) == WordAt(s, i)
    ensures forall i {:trigger WordAt(s + t, i)} :: 4 <= i < 8 ==> WordAt(s + t, i) == WordAt(t, i - 4)
  {
  }

  lemma EightWords(a: Word, b: Word, c: Word, d: Word, e: Word, f: Word, g: Word, h: Word)
    ensures var s := Join(a, b, c, d) + Join(e, f, g, h);
            && WordAt(s, 0) == a && WordAt(s, 1) == b && WordAt(s, 2) == c && WordAt(s, 3) == d
            && WordAt(s, 4) == e && WordAt(s, 5) == f && WordAt(s, 6) == g && WordAt(s, 7) == h
  {
    hide Join, WordAt;
    FourWords(a, b, c, d);
    FourWords(e, f, g, h);
    WordsOfHalves(Join(a, b, c, d), Join(e, f, g, h));
  }

  lemma KeyOfWords(s: Key)
    ensures s == Join(WordAt(s, 0), WordAt(s, 1), WordAt(s, 2), WordAt(s, 3))
               + Join(WordAt(s, 4), WordAt(s, 5), WordAt(s, 6), WordAt(s, 7))
  {
    hide Join, WordAt;
    var lo, hi := s[..16], s[16..];
    assert s == lo + hi;
    JoinWords(lo);
    JoinWords(hi);
    WordsOfHalves(lo, hi);
  }

  lemma SameWords(s: Key, t: Key)
    requires forall i :: 0 <= i < 8 ==> WordAt(s, i) == WordAt(t, i)
    ensures s == t
  {
    hide WordAt, Join;
    KeyOfWords(s);
    KeyOfWords(t);
  }

  lemma XorTwice(a: Word, b: Word)
    ensures Xor(Xor(a, b), b) == a
  {
    AddTwice(a.b0, b.b0);
    AddTwice(a.b1, b.b1);
    AddTwice(a.b2, b.b2);
    AddTwice(a.b3, b.b3);
  }

  lemma AddTwice(a: bv8, b: bv8)
    ensures Add(Add(a, b), b) == a
  {
  }

  lemma PreviousOfNext(k: Key, rc: bv8)
    ensures Previous(Next(k, rc), rc) == k
  {
    hide Xor, SubWord, WordAt, Join, RotWord;
    var k0, k1, k2, k3 := WordAt(k, 0), WordAt(k, 1), WordAt(k, 2), WordAt(k, 3);
    var k4, k5, k6, k7 := WordAt(k, 4), WordAt(k, 5), WordAt(k, 6), WordAt(k, 7);
    var t := Xor(SubWord(RotWord(k7)), Word(rc, 0, 0, 0));
    var n0 := Xor(k0, t);
    var n1 := Xor(k1, n0);
    var n2 := Xor(k2, n1);
    var n3 := Xor(k3, n2);
    var n4 := Xor(k4, SubWord(n3));
    var n5 := Xor(k5, n4);
    var n6 := Xor(k6, n5);
    var n7 := Xor(k7, n6);
    EightWords(n0, n1, n2, n3, n4, n5, n6, n7);
    XorTwice(k0, t);
    XorTwice(k1, n0);
    XorTwice(k2, n1);
    XorTwice(k3, n2);
    XorTwice(k4, SubWord(n3));
    XorTwice(k5, n4);
    XorTwice(k6, n5);
    XorTwice(k7, n6);
    KeyOfWords(k);
  }

  lemma WindowWords(k: Key, j: nat)
    ensures forall i {:trigger WordAt(Window(k, j), i)} :: 0 <= i < 8 ==> WordAt(Window(k, j), i) == W(k, 8 * j + i)
  {
    hide W, WordAt, Join;
    var b := 8 * j;
    EightWords(W(k, b), W(k, b + 1), W(k, b + 2), W(k, b + 3), W(k, b + 4), W(k, b + 5), W(k, b + 6), W(k, b + 7));
  }

  lemma WordStep(k: Key, j: nat, i: nat)
    requires i < 8
    ensures W(k, 8 * j + 8 + i) == Xor(W(k, 8 * j + i),
      if i == 0 then Xor(SubWord(RotWord(W(k, 8 * j + 7))), Word(Rcon(j + 1), 0, 0, 0))
      else if i == 4 then SubWord(W(k, 8 * j + 11)) else W(k, 8 * j + 7 + i))
  {
    hide Xor, SubWord, RotWord;
    assert (8 * j + 8 + i) % 8 == i;
    assert (8 * j + 8) / 8 == j + 1;
  }

  lemma FirstWindow(k: Key)
    ensures Window(k, 0) == k
  {
    hide WordAt, Join;
    WindowWords(k, 0);
    SameWords(Window(k, 0), k);
  }

  /** After j expansions the rolling key holds words 8j .. 8j+7. */
  lemma NextWindow(k: Key, j: nat)
    ensures Next(Window(k, j), Rcon(j + 1)) == Window(k, j + 1)
  {
    hide W, Xor, SubWord, WordAt, Join, RotWord, Window, Rcon;
    WindowWords(k, j);
    WindowWords(k, j + 1);
    var b := 8 * j;
    WordStep(k, j, 0);
    WordStep(k, j, 1);
    WordStep(k, j, 2);
    WordStep(k, j, 3);
    WordStep(k, j, 4);
    WordStep(k, j, 5);
    WordStep(k, j, 6);
    WordStep(k, j, 7);
    KeyOfWords(Window(k, j + 1));
    assert WordAt(Window(k, j), 7) == W(k, b + 7);
  }

  // ---- One step, byte by byte ----

  /** n is k after one step: its first four bytes come from the last four of k, rotated, all
      others from the byte four places before. */
  predicate StepsTo(k: Key, n: Key, rc: bv8) {
    && n[0] == Add(k[0], Add(Sbox(k[29]), rc)) && n[1] == Add(k[1], Sbox(k[30]))
    && n[2] == Add(k[2], Sbox(k[31])) && n[3] == Add(k[3], Sbox(k[28]))
    && (forall i :: 16 <= i < 20 ==> n[i] == Add(k[i], Sbox(n[i - 4])))
    && (forall i :: 4 <= i < 32 && !(16 <= i < 20) ==> n[i] == Add(k[i], n[i - 4]))
  }

  /** p is k after one step back, from the last bytes to the first. */
  predicate StepsBackTo(k: Key, p: Key, rc: bv8) {
    && (forall i :: 4 <= i < 32 && !(16 <= i < 20) ==> p[i] == Add(k[i], k[i - 4]))
    && (forall i :: 16 <= i < 20 ==> p[i] == Add(k[i], Sbox(k[i - 4])))
    && p[0] == Add(k[0], Add(Sbox(p[29]), rc)) && p[1] == Add(k[1], Sbox(p[30]))
    && p[2] == Add(k[2], Sbox(p[31])) && p[3] == Add(k[3], Sbox(p[28]))
  }

  lemma WordBytes(k: Key, n: Key, w: nat, t: Word)
    requires w < 8 && WordAt(n, w) == Xor(WordAt(k, w), t)
    ensures n[4 * w] == Add(k[4 * w], t.b0) && n[4 * w + 1] == Add(k[4 * w + 1], t.b1)
    ensures n[4 * w + 2] == Add(k[4 * w + 2], t.b2) && n[4 * w + 3] == Add(k[4 * w + 3], t.b3)
  {
    hide Add;
  }

  lemma AddNothing(x: bv8)
    ensures Add(x, 0) == x
  {
  }

  lemma FirstBytes(k: Key, n: Key, last: Key, rc: bv8)
    requires WordAt(n, 0) == Xor(WordAt(k, 0), Xor(SubWord(RotWord(WordAt(last, 7))), Word(rc, 0, 0, 0)))
    ensures n[0] == Add(k[0], Add(Sbox(last[29]), rc)) && n[1] == Add(k[1], Sbox(last[30]))
    ensures n[2] == Add(k[2], Sbox(last[31])) && n[3] == Add(k[3], Sbox(last[28]))
  {
    WordBytes(k, n, 0, Xor(SubWord(RotWord(WordAt(last, 7))), Word(rc, 0, 0, 0)));
    AddNothing(Sbox(last[30]));
    AddNothing(Sbox(last[31]));
    AddNothing(Sbox(last[28]));
    hide Sbox, Add;
  }

  lemma MiddleBytes(k: Key, n: Key, before: Key)
    requires WordAt(n, 4) == Xor(WordAt(k, 4), SubWord(WordAt(before, 3)))
    ensures forall i :: 16 <= i < 20 ==> n[i] == Add(k[i], Sbox(before[i - 4]))
  {
    hide Sbox, Add, Xor;
    WordBytes(k, n, 4, SubWord(WordAt(before, 3)));
  }

  lemma OtherBytes(k: Key, n: Key, before: Key)
    requires forall w {:trigger WordAt(n, w)} :: 0 < w < 8 && w != 4 ==> WordAt(n, w) == Xor(WordAt(k, w), WordAt(before, w - 1))
    ensures forall i :: 4 <= i < 32 && !(16 <= i < 20) ==> n[i] == Add(k[i], before[i - 4])
  {
    hide Add;
    forall i | 4 <= i < 32 && !(16 <= i < 20) ensures n[i] == Add(k[i], before[i - 4]) {
      WordBytes(k, n, i / 4, WordAt(before, i / 4 - 1));
    }
  }

  lemma NextBytes(k: Key, rc: bv8)
    ensures StepsTo(k, Next(k, rc), rc)
  {
    var n := Next(k, rc);
    NextWords(k, rc);
    hide Next, WordAt, Xor, SubWord, RotWord, Sbox, Add;
    FirstBytes(k, n, k, rc);
    MiddleBytes(k, n, n);
    OtherBytes(k, n, n);
  }

  lemma PreviousBytes(k: Key, rc: bv8)
    ensures StepsBackTo(k, Previous(k, rc), rc)
  {
    var p := Previous(k, rc);
    PreviousWords(k, rc);
    hide Previous, WordAt, Xor, SubWord, RotWord, Sbox, Add;
    FirstBytes(k, p, p, rc);
    MiddleBytes(k, p, k);
    OtherBytes(k, p, k);
  }

  lemma NextWords(k: Key, rc: bv8)
    ensures var n := Next(k, rc);
      && WordAt(n, 0) == Xor(WordAt(k, 0), Xor(SubWord(RotWord(WordAt(k, 7))), Word(rc, 0, 0, 0)))
      && WordAt(n, 4) == Xor(WordAt(k, 4), SubWord(WordAt(n, 3)))
      && (forall w {:trigger WordAt(n, w)} :: 0 < w < 8 && w != 4 ==> WordAt(n, w) == Xor(WordAt(k, w), WordAt(n, w - 1)))
  {
    hide WordAt, Join, Xor, SubWord, RotWord;
    var n := Next(k, rc);
    var n0 := Xor(WordAt(k, 0), Xor(SubWord(RotWord(WordAt(k, 7))), Word(rc, 0, 0, 0)));
    var n1 := Xor(WordAt(k, 1), n0);
    var n2 := Xor(WordAt(k, 2), n1);
    var n3 := Xor(WordAt(k, 3), n2);
    var n4 := Xor(WordAt(k, 4), SubWord(n3));
    var n5 := Xor(WordAt(k, 5), n4);
    var n6 := Xor(WordAt(k, 6), n5);
    EightWords(n0, n1, n2, n3, n4, n5, n6, Xor(WordAt(k, 7), n6));
  }

  lemma PreviousWords(k: Key, rc: bv8)
    ensures var p := Previous(k, rc);
      && WordAt(p, 0) == Xor(WordAt(k, 0), Xor(SubWord(RotWord(WordAt(p, 7))), Word(rc, 0, 0, 0)))
      && WordAt(p, 4) == Xor(WordAt(k, 4), SubWord(WordAt(k, 3)))
      && (forall w {:trigger WordAt(p, w)} :: 0 < w < 8 && w != 4 ==> WordAt(p, w) == Xor(WordAt(k, w), WordAt(k, w - 1)))
  {
    hide WordAt, Join, Xor, SubWord, RotWord;
    var p7 := Xor(WordAt(k, 7), WordAt(k, 6));
    var p0 := Xor(WordAt(k, 0), Xor(SubWord(RotWord(p7)), Word(rc, 0, 0, 0)));
    EightWords(p0, Xor(WordAt(k, 1), WordAt(k, 0)), Xor(WordAt(k, 2), WordAt(k, 1)), Xor(WordAt(k, 3), WordAt(k, 2)),
               Xor(WordAt(k, 4), SubWord(WordAt(k, 3))), Xor(WordAt(k, 5), WordAt(k, 4)), Xor(WordAt(k, 6), WordAt(k, 5)), p7);
  }

  // ---- The two macros that step the round constant ----

  function F(x: bv8): bv8 {
    (x << 1) ^ (((x >> 7) & 1) * 0x1b)
  }

  function FD(x: bv8): bv8 {
    (x >> 1) ^ (if x & 1 != 0 then 0x8d else 0)
  }

  lemma RconSteps(j: nat)
    requires j > 0
    ensures F(Rcon(j)) == Rcon(j + 1)
    ensures FD(Rcon(j + 1)) == Rcon(j)
  {
    var x := Rcon(j);
    assert Rcon(j + 1) == Xtime(x);
    assert F(x) == Xtime(x);
    assert FD(Xtime(x)) == x;
  }

  lemma LastRcon()
    ensures Rcon(8) == 0x80
  {
    assert Rcon(2) == 2;
    assert Rcon(4) == 8;
    assert Rcon(6) == 0x20;
  }

  // ---- The steps in place ----

  /** Adds to word i the word w, byte by byte. */
  method AddWord(k: array<bv8>, i: nat, w: Word)
    requires k.Length == 32 && i < 8
    modifies k
    ensures WordAt(k[..], i) == Xor(old(WordAt(k[..], i)), w)
    ensures forall j :: 0 <= j < 8 && j != i ==> WordAt(k[..], j) == old(WordAt(k[..], j))
  {
    hide Add;
    k[4 * i] := Add(k[4 * i], w.b0);
    k[4 * i + 1] := Add(k[4 * i + 1], w.b1);
    k[4 * i + 2] := Add(k[4 * i + 2], w.b2);
    k[4 * i + 3] := Add(k[4 * i + 3], w.b3);
  }

  method ExpandEncKey(k: array<bv8>, rc: bv8) returns (rc': bv8)
    requires k.Length == 32
    modifies k
    ensures k[..] == Next(old(k[..]), rc)
    ensures rc' == F(rc)
    ensures StepsTo(old(k[..]), k[..], rc)
  {
    NextBytes(k[..], rc);
    hide StepsTo, Xor, SubWord, RotWord, WordAt, F, Join;
    AddWord(k, 0, Xor(SubWord(RotWord(WordAt(k[..], 7))), Word(rc, 0, 0, 0)));
    rc' := F(rc);
    AddWord(k, 1, WordAt(k[..], 0));
    AddWord(k, 2, WordAt(k[..], 1));
    AddWord(k, 3, WordAt(k[..], 2));
    AddWord(k, 4, SubWord(WordAt(k[..], 3)));
    AddWord(k, 5, WordAt(k[..], 4));
    AddWord(k, 6, WordAt(k[..], 5));
    AddWord(k, 7, WordAt(k[..], 6));
    KeyOfWords(k[..]);
  }

  method ExpandDecKey(k: array<bv8>, rc: bv8) returns (rc': bv8)
    requires k.Length == 32
    modifies k
    ensures rc' == FD(rc)
    ensures k[..] == Previous(old(k[..]), rc')
    ensures StepsBackTo(old(k[..]), k[..], rc')
  {
    ghost var was := k[..];
    hide StepsBackTo, Xor, SubWord, RotWord, WordAt, FD, Join;
    AddWord(k, 7, WordAt(k[..], 6));
    AddWord(k, 6, WordAt(k[..], 5));
    AddWord(k, 5, WordAt(k[..], 4));
    AddWord(k, 4, SubWord(WordAt(k[..], 3)));
    AddWord(k, 3, WordAt(k[..], 2));
    AddWord(k, 2, WordAt(k[..], 1));
    AddWord(k, 1, WordAt(k[..], 0));
    rc' := FD(rc);
    AddWord(k, 0, Xor(SubWord(RotWord(WordAt(k[..], 7))), Word(rc', 0, 0, 0)));
    KeyOfWords(k[..]);
    PreviousBytes(was, rc');
  }
}
