/** Ids from names, and names from ids: the letters of an id as numbers. */
module IdNames {
  import opened Ids

  /** The table ASCIITABLE. */
  function CodeOf(c: char): (n: nat)
    ensures n < 32
  {
    if 'a' <= c <= 'z' then (c as int) - 96
    else if 'A' <= c <= 'Z' then (c as int) - 64
    else if c == '.' then 27
    else if c == '-' then 28
    else if c == '_' then 29
    else if c == '/' then 30
    else if c == '@' then 31
    else 0
  }

  /** Five bits in the place of letter k. */
  function Placed(v: bv64, k: nat): Id
    requires k < LETTERS
  {
    FivePlaced(v, Shift(k))
  }

  /** A letter's code in its place. */
  function ShiftTo(n: nat, k: nat): Id
    requires n < 32 && k < LETTERS
  {
    Placed(CountBits(n), k)
  }

  /** The loop of makeid from letter k on. A char is signed, so the upper half is passed over. */
  function LettersFrom(name: string, k: nat): Id
    requires k <= LETTERS
    decreases |name|
  {
    if name == "" || k == LETTERS then 0
    else if name[0] as int >= 128 then LettersFrom(name[1..], k)
    else Joined(ShiftTo(CodeOf(name[0]), k), LettersFrom(name[1..], k + 1))
  }

  function MakeId(name: string, t: Id): Id {
    Joined(t, LettersFrom(name, 0))
  }

  // ---- Letters and the bitwise operations ----

  // The proofs go bit by bit, for any shift.

  lemma FiveOfOr(x: bv64, y: bv64, s: bv64)
    requires s <= 57
    ensures FiveAt(x | y, s) == FiveAt(x, s) | FiveAt(y, s)
  {
  }

  lemma FiveOfAnd(x: bv64, y: bv64, s: bv64)
    requires s <= 57
    ensures FiveAt(x & y, s) == FiveAt(x, s) & FiveAt(y, s)
  {
  }

  lemma FiveOfMask(x: bv64, s: bv64)
    requires s <= 57
    ensures x & (31 << s) == FiveAt(x, s) << s
  {
  }

  lemma FiveOfJoined(x: Id, y: Id, s: bv64)
    requires s <= 57
    ensures FiveAt(Joined(x, y), s) == Joined(FiveAt(x, s), FiveAt(y, s))
  {
    FiveOfOr(x, y, s);
    hide FiveAt;
  }

  lemma FiveOfMasked(x: Id, y: Id, s: bv64)
    requires s <= 57
    ensures FiveAt(Masked(x, y), s) == Masked(FiveAt(x, s), FiveAt(y, s))
  {
    FiveOfAnd(x, y, s);
    hide FiveAt;
  }

  lemma MaskedFive(x: Id, s: bv64)
    requires s <= 57
    ensures Masked(x, FivePlaced(31, s)) == FivePlaced(FiveAt(x, s), s)
  {
    FiveOfMask(x, s);
    hide FiveAt;
  }

  lemma LetterOfOr(x: Id, y: Id, k: nat)
    requires k < LETTERS
    ensures Letter(Joined(x, y), k) == Joined(Letter(x, k), Letter(y, k))
  {
    FiveOfJoined(x, y, Shift(k));
    hide FiveAt, Shift, Joined;
  }

  lemma LetterOfAnd(x: Id, y: Id, k: nat)
    requires k < LETTERS
    ensures Letter(Masked(x, y), k) == Masked(Letter(x, k), Letter(y, k))
  {
    FiveOfMasked(x, y, Shift(k));
    hide FiveAt, Shift, Masked;
  }

  lemma LetterOfZero(k: nat)
    requires k < LETTERS
    ensures Letter(0, k) == 0
  {
  }

  lemma LetterOfMask(j: nat, k: nat)
    requires j < LETTERS && k < LETTERS
    ensures Letter(LetterMask(j), k) == if j == k then 31 else 0
  {
  }

  lemma LetterOfShift(n: nat, j: nat, k: nat)
    requires n < 32 && j < LETTERS && k < LETTERS
    ensures Letter(ShiftTo(n, j), k) == if j == k then CountBits(n) else 0
  {
    SmallCount(n);
    ShiftedLetter(CountBits(n), j, k);
    hide CountBits, Letter, Placed;
  }

  lemma ShiftedLetter(x: bv64, j: nat, k: nat)
    requires x < 32 && j < LETTERS && k < LETTERS
    ensures Letter(Placed(x, j), k) == if j == k then x else 0
  {
    var s, t := Shift(j), Shift(k);
    ShiftsApart(j, k);
    if j == k {
      SameFive(x, s);
    } else if s < t {
      HigherFive(x, s, t);
    } else {
      LowerFive(x, s, t);
    }
    hide FiveAt, FivePlaced, Shift;
  }

  lemma ShiftsApart(j: nat, k: nat)
    requires j < LETTERS && k < LETTERS
    ensures Shift(j) == Shift(k) <==> j == k
    ensures Shift(j) < Shift(k) ==> Shift(j) + 5 <= Shift(k)
  {
  }

  lemma SameFive(x: bv64, s: bv64)
    requires x < 32 && s <= 57
    ensures FiveAt(FivePlaced(x, s), s) == x
  {
  }

  lemma HigherFive(x: bv64, s: bv64, t: bv64)
    requires x < 32 && s <= 52 && s + 5 <= t <= 57
    ensures FiveAt(FivePlaced(x, s), t) == 0
  {
  }

  lemma LowerFive(x: bv64, s: bv64, t: bv64)
    requires x < 32 && t <= 52 && t + 5 <= s <= 57
    ensures FiveAt(FivePlaced(x, s), t) == 0
  {
  }

  lemma CodeBack(id: Id, k: nat)
    requires k < LETTERS
    ensures CountBits(LetterCode(id, k)) == Letter(id, k)
  {
    LetterRange(id, k);
    WordBack(Letter(id, k));
  }

  lemma WordBack(x: bv64)
    requires x < 32
    ensures ((x as bv8) as nat) < 32 && (((x as bv8) as nat) as bv8) as bv64 == x
  {
    CountRange(x as bv8);
  }

  lemma CodeOfBits(n: nat)
    requires n < 32
    ensures (CountBits(n) as bv8) as nat == n
  {
    SmallCount(n);
  }

  // ---- What an id spells ----

  /** Letter k of a name, or a blank after its end. */
  function CodeAt(name: string, k: nat): nat {
    if k < |name| then CodeOf(name[k]) else 0
  }

  /** The letters of the id are those of the name. */
  predicate Spells(id: Id, name: string) {
    |name| <= LETTERS && forall k :: 0 <= k < LETTERS ==> LetterCode(id, k) == CodeAt(name, k)
  }

  predicate IdChar(c: char) {
    'a' <= c <= 'z' || c in ".-_/@"
  }

  predicate IsName(name: string) {
    0 < |name| <= LETTERS && forall c :: c in name ==> IdChar(c)
  }

  lemma CharBack(c: char)
    requires IdChar(c)
    ensures 0 < CodeOf(c) < 32 && IDTABLE[CodeOf(c)] == c && c != ' ' && (c as int) < 128
    ensures CodeOf(c) == 30 <==> c == '/'
  {
  }

  lemma JoinZero(x: Id)
    ensures Joined(x, 0) == x == Joined(0, x)
  {
  }

  lemma JoinSteps(x: Id, y: Id, z: Id)
    ensures Joined(x, Joined(y, z)) == Joined(Joined(x, y), z)
  {
    OrSteps(x, y, z);
  }

  lemma OrSteps(x: bv64, y: bv64, z: bv64)
    ensures x | (y | z) == (x | y) | z
  {
  }

  lemma {:induction false} LettersSpell(name: string, i: nat, k: nat)
    requires i + |name| <= LETTERS && k < LETTERS && forall c :: c in name ==> IdChar(c)
    ensures Letter(LettersFrom(name, i), k) == CountBits(if k < i then 0 else CodeAt(name, k - i))
    decreases |name|
  {
    hide Letter, Joined, ShiftTo, CountBits, CodeOf;
    LetterOfZero(k);
    ZeroBits();
    if name != "" {
      assert name[0] in name;
      CharBack(name[0]);
      var head := ShiftTo(CodeOf(name[0]), i);
      LettersSpell(name[1..], i + 1, k);
      LetterOfOr(head, LettersFrom(name[1..], i + 1), k);
      LetterOfShift(CodeOf(name[0]), i, k);
      JoinZero(Letter(head, k));
      JoinZero(Letter(LettersFrom(name[1..], i + 1), k));
    }
  }

  lemma ZeroBits()
    ensures CountBits(0) == 0
  {
  }

  lemma TypeLetters(t: Id, k: nat)
    requires IsType(t) && k < LETTERS
    ensures Letter(t, k) == 0
  {
  }

  /** makeid spells the name. */
  lemma MakeSpells(name: string, t: Id)
    requires IsName(name) && IsType(t)
    ensures Spells(MakeId(name, t), name)
  {
    hide IsType, Letter, Joined, CountBits, CodeOf;
    forall k | 0 <= k < LETTERS ensures LetterCode(MakeId(name, t), k) == CodeAt(name, k) {
      LettersSpell(name, 0, k);
      TypeLetters(t, k);
      LetterOfOr(t, LettersFrom(name, 0), k);
      JoinZero(Letter(LettersFrom(name, 0), k));
      CodeOfBits(CodeAt(name, k));
    }
  }

  /** Two ids of one name spell the same. */
  lemma SameSpelling(x: Id, y: Id, a: string, b: string)
    requires NameOf(x) == NameOf(y) && Spells(x, a) && Spells(y, b) && IsName(a) && IsName(b)
    ensures a == b
  {
    hide CodeOf, LetterCode;
    forall k | 0 <= k < LETTERS ensures CodeAt(a, k) == CodeAt(b, k) {
      NameLetter(x, k);
      NameLetter(y, k);
    }
    SameCodes(a, b);
  }

  lemma NameLetter(x: Id, k: nat)
    requires k < LETTERS
    ensures LetterCode(x, k) == LetterCode(NameOf(x), k)
  {
    NameMask(k);
    LetterOfAnd(x, MASK_NAME, k);
    LetterRange(x, k);
    FullLetter(Letter(x, k));
    assert NameOf(x) == Masked(x, MASK_NAME);
    hide Letter, Masked, NameOf;
  }

  lemma NameMask(k: nat)
    requires k < LETTERS
    ensures Letter(MASK_NAME, k) == 31
  {
  }

  lemma FullLetter(x: bv64)
    requires x < 32
    ensures Masked(x, 31) == x && Masked(x, 0) == 0
  {
  }

  lemma CodeEnds(a: string, k: nat)
    requires IsName(a)
    ensures CodeAt(a, k) > 0 <==> k < |a|
  {
    if k < |a| {
      assert a[k] in a;
      CharBack(a[k]);
    }
  }

  lemma SameCodes(a: string, b: string)
    requires IsName(a) && IsName(b) && forall k :: 0 <= k < LETTERS ==> CodeAt(a, k) == CodeAt(b, k)
    ensures a == b
  {
    hide CodeOf, IdChar;
    CodeEnds(a, |a|);
    CodeEnds(a, |b|);
    CodeEnds(b, |a|);
    CodeEnds(b, |b|);
    forall k | 0 <= k < |a| ensures a[k] == b[k] {
      assert a[k] in a && b[k] in b;
      CharBack(a[k]);
      CharBack(b[k]);
      assert CodeAt(a, k) == CodeAt(b, k);
    }
  }

  // ---- Names from ids ----

  lemma {:induction false} SpelledText(id: Id, name: string, k: nat)
    requires Spells(id, name) && IsName(name) && k <= LETTERS
    ensures TextFrom(id, k) == (if k < |name| then name[k..] else "") + seq(LETTERS - (if k < |name| then |name| else k), _ => ' ')
    decreases LETTERS - k
  {
    hide LetterCode, CodeOf;
    if k < LETTERS {
      SpelledText(id, name, k + 1);
      assert LetterCode(id, k) == CodeAt(name, k);
      if k < |name| {
        assert name[k] in name;
        CharBack(name[k]);
        assert name[k..] == [name[k]] + name[k + 1..];
      }
    }
  }

  lemma {:induction false} TrimBlanks(s: string, n: nat)
    requires s != "" && s[|s| - 1] != ' '
    ensures Trim(s + seq(n, _ => ' ')) == s
  {
    if n == 0 {
      assert s + seq(n, _ => ' ') == s;
    } else {
      var t := s + seq(n, _ => ' ');
      assert t[..|t| - 1] == s + seq(n - 1, _ => ' ');
      TrimBlanks(s, n - 1);
    }
  }

  /** id2str undoes makeid. */
  lemma SpelledName(id: Id, name: string)
    requires Spells(id, name) && IsName(name)
    ensures IdName(id) == name
  {
    hide Spells, IdChar;
    SpelledText(id, name, 0);
    assert name[0..] == name;
    assert name[|name| - 1] in name;
    CharBack(name[|name| - 1]);
    TrimBlanks(name, LETTERS - |name|);
  }

  // ---- Paths ----

  /** idmask. */
  function PathMask(n: nat): Id
    requires n <= LETTERS
  {
    if n == 0 then 0 else Joined(PathMask(n - 1), LetterMask(n - 1))
  }

  /** The first slash from letter k on, or the end. */
  function SlashAt(id: Id, k: nat): (i: nat)
    requires k <= LETTERS
    ensures i <= LETTERS
    decreases LETTERS - k
  {
    if k == LETTERS || LetterChar(id, k) == '/' then k else SlashAt(id, k + 1)
  }

  /** idhaspath: the mask of the letters before the first slash, 0 if there is none. */
  function PathOf(id: Id): Id {
    if SlashAt(id, 0) < LETTERS then PathMask(SlashAt(id, 0)) else 0
  }

  /** The letters from k on that come after a slash, without slashes. */
  function NodeFrom(id: Id, k: nat, on: bool): string
    requires k <= LETTERS
    decreases LETTERS - k
  {
    if k == LETTERS then ""
    else
      var c := LetterChar(id, k);
      if c == '/' then NodeFrom(id, k + 1, true) else (if on then [c] else "") + NodeFrom(id, k + 1, on)
  }

  /** nodeid2str. */
  function NodeName(id: Id): string {
    Trim(NodeFrom(id, 0, false))
  }

  lemma {:induction false} PathMaskLetter(n: nat, k: nat)
    requires n <= LETTERS && k < LETTERS
    ensures Letter(PathMask(n), k) == if k < n then 31 else 0
  {
    hide Letter, LetterMask, Joined;
    LetterOfZero(k);
    if n > 0 {
      PathMaskLetter(n - 1, k);
      LetterOfMask(n - 1, k);
      LetterOfOr(PathMask(n - 1), LetterMask(n - 1), k);
      JoinZero(31);
      JoinZero(0);
    }
  }

  lemma PathMaskSet(n: nat)
    requires 0 < n <= LETTERS
    ensures PathMask(n) != 0
  {
    hide Letter, PathMask;
    PathMaskLetter(n, 0);
    LetterOfZero(0);
  }

  lemma MaskedLetter(x: Id, n: nat, k: nat)
    requires n <= LETTERS && k < LETTERS
    ensures Letter(Masked(x, PathMask(n)), k) == if k < n then Letter(x, k) else 0
  {
    PathMaskLetter(n, k);
    LetterOfAnd(x, PathMask(n), k);
    LetterRange(x, k);
    FullLetter(Letter(x, k));
    hide Letter, Masked, PathMask;
  }

  lemma PlacedLetter(x: Id, k: nat)
    requires k < LETTERS
    ensures Masked(x, LetterMask(k)) == Placed(Letter(x, k), k)
  {
    MaskedFive(x, Shift(k));
    hide FiveAt, FivePlaced, Shift, Masked;
  }

  lemma MaskOfLetter(x: Id, y: Id, k: nat)
    requires k < LETTERS && Letter(x, k) == Letter(y, k)
    ensures Masked(x, LetterMask(k)) == Masked(y, LetterMask(k))
  {
    PlacedLetter(x, k);
    PlacedLetter(y, k);
    hide Letter, Masked, LetterMask, Placed;
  }

  lemma AndOverOr(x: bv64, a: bv64, b: bv64)
    ensures x & (a | b) == (x & a) | (x & b)
  {
  }

  // The same under the two operators' names, one of them at a time.

  lemma MaskedOver(x: Id, a: Id, b: Id)
    ensures Masked(x, a | b) == (x & a) | (x & b)
  {
    AndOverOr(x, a, b);
  }

  lemma MaskedOverJoined(x: Id, a: Id, b: Id)
    ensures Masked(x, Joined(a, b)) == (x & a) | (x & b)
  {
    MaskedOver(x, a, b);
    hide Masked;
  }

  lemma JoinedParts(x: Id, a: Id, b: Id)
    ensures Masked(x, Joined(a, b)) == Joined(x & a, x & b)
  {
    MaskedOverJoined(x, a, b);
    hide Masked;
  }

  lemma MaskOfJoin(x: Id, a: Id, b: Id)
    ensures Masked(x, Joined(a, b)) == Joined(Masked(x, a), Masked(x, b))
  {
    JoinedParts(x, a, b);
    hide Joined;
  }

  lemma MaskOfNothing(x: Id)
    ensures Masked(x, 0) == 0
  {
  }

  lemma {:induction false} MaskedEqual(x: Id, y: Id, n: nat)
    requires n <= LETTERS && forall k :: 0 <= k < n ==> Letter(x, k) == Letter(y, k)
    ensures Masked(x, PathMask(n)) == Masked(y, PathMask(n))
  {
    hide Letter, LetterMask, Joined, Masked;
    if n == 0 {
      MaskOfNothing(x);
      MaskOfNothing(y);
    } else {
      MaskedEqual(x, y, n - 1);
      MaskOfLetter(x, y, n - 1);
      MaskOfJoin(x, PathMask(n - 1), LetterMask(n - 1));
      MaskOfJoin(y, PathMask(n - 1), LetterMask(n - 1));
    }
  }

  /** Ids agree under a mask exactly if their first letters do. */
  lemma MaskedIff(x: Id, y: Id, n: nat)
    requires n <= LETTERS
    ensures Masked(x, PathMask(n)) == Masked(y, PathMask(n)) <==> SameCodesTo(x, y, n)
  {
    hide Letter, Masked, PathMask, LetterCode;
    forall k | 0 <= k < n
      ensures LetterCode(x, k) == LetterCode(y, k) <==> Letter(x, k) == Letter(y, k)
      ensures Masked(x, PathMask(n)) == Masked(y, PathMask(n)) ==> Letter(x, k) == Letter(y, k)
    {
      CodeBack(x, k);
      CodeBack(y, k);
      SameCode(x, y, k);
      MaskedLetter(x, n, k);
      MaskedLetter(y, n, k);
    }
    if forall k :: 0 <= k < n ==> Letter(x, k) == Letter(y, k) {
      MaskedEqual(x, y, n);
    }
  }

  predicate SameCodesTo(x: Id, y: Id, n: nat)
    requires n <= LETTERS
  {
    forall k :: 0 <= k < n ==> LetterCode(x, k) == LetterCode(y, k)
  }

  lemma SameCode(x: Id, y: Id, k: nat)
    requires k < LETTERS
    ensures Letter(x, k) == Letter(y, k) ==> LetterCode(x, k) == LetterCode(y, k)
  {
    hide Letter;
  }

  // ---- Names with a path ----

  /** A name without a slash. */
  predicate IsPart(name: string) {
    name != "" && '/' !in name && forall c :: c in name ==> IdChar(c)
  }

  function Path(p: string, q: string): string {
    p + "/" + q
  }

  predicate IsPath(p: string, q: string) {
    IsPart(p) && IsPart(q) && |p| + |q| <= 10
  }

  lemma PathIsName(p: string, q: string)
    requires IsPath(p, q)
    ensures IsName(Path(p, q))
  {
    forall c | c in Path(p, q) ensures IdChar(c) {
      assert c in p || c == '/' || c in q;
    }
  }

  lemma {:induction false} NoSlash(id: Id, name: string, k: nat, n: nat)
    requires Spells(id, name) && IsName(name) && k <= n <= LETTERS
    requires forall i :: k <= i < n && i < |name| ==> name[i] != '/'
    ensures SlashAt(id, k) == SlashAt(id, n)
    decreases n - k
  {
    hide LetterCode, CodeOf;
    if k < n {
      assert LetterCode(id, k) == CodeAt(name, k);
      if k < |name| {
        assert name[k] in name;
        CharBack(name[k]);
      }
      NoSlash(id, name, k + 1, n);
    }
  }

  /** A name of one part has no path. */
  lemma PlainPath(id: Id, name: string)
    requires Spells(id, name) && IsName(name) && '/' !in name
    ensures PathOf(id) == 0
  {
    hide PathMask, Spells;
    NoSlash(id, name, 0, LETTERS);
  }

  /** The path of a name of two parts covers the first. */
  lemma TwoParts(id: Id, p: string, q: string)
    requires IsPath(p, q) && Spells(id, Path(p, q))
    ensures PathOf(id) == PathMask(|p|) && PathOf(id) != 0
    ensures Spells(Masked(id, PathOf(id)), p)
  {
    hide PathMask, Masked, LetterCode, CodeOf;
    var name := Path(p, q);
    PathIsName(p, q);
    NoSlash(id, name, 0, |p|);
    assert name[|p|] == '/';
    CharBack('/');
    assert LetterCode(id, |p|) == CodeAt(name, |p|);
    assert SlashAt(id, |p|) == |p|;
    PathMaskSet(|p|);
    forall k | 0 <= k < LETTERS ensures LetterCode(Masked(id, PathMask(|p|)), k) == CodeAt(p, k) {
      MaskedCode(id, |p|, k);
      assert LetterCode(id, k) == CodeAt(name, k);
      assert k < |p| ==> name[k] == p[k];
    }
  }

  lemma MaskedCode(id: Id, n: nat, k: nat)
    requires n <= LETTERS && k < LETTERS
    ensures LetterCode(Masked(id, PathMask(n)), k) == if k < n then LetterCode(id, k) else 0
  {
    MaskedLetter(id, n, k);
    hide Letter, Masked, PathMask;
  }

  lemma SharedLetters(x: Id, p: string, q: string, y: Id, name: string)
    requires IsPath(p, q) && Spells(x, Path(p, q)) && Spells(y, name) && IsName(name) && SameCodesTo(y, x, |p|)
    ensures SharesLetters(name, p)
  {
    SharedCode(x, p, q, y, name, |p| - 1);
    forall k | 0 <= k < |p| ensures p[k] == name[k] {
      SharedCode(x, p, q, y, name, k);
    }
  }

  lemma SharedCodes(x: Id, p: string, q: string, y: Id, name: string)
    requires IsPath(p, q) && Spells(x, Path(p, q)) && Spells(y, name) && IsName(name) && SharesLetters(name, p)
    ensures SameCodesTo(y, x, |p|)
  {
    forall k | 0 <= k < |p| ensures LetterCode(y, k) == LetterCode(x, k) {
      SharedCode(x, p, q, y, name, k);
    }
  }

  lemma SharedCode(x: Id, p: string, q: string, y: Id, name: string, k: nat)
    requires IsPath(p, q) && Spells(x, Path(p, q)) && Spells(y, name) && IsName(name) && k < |p|
    ensures LetterCode(y, k) == LetterCode(x, k) <==> k < |name| && p[k] == name[k]
  {
    hide LetterCode, CodeOf, IdChar;
    assert LetterCode(x, k) == CodeAt(Path(p, q), k) && LetterCode(y, k) == CodeAt(name, k);
    assert Path(p, q)[k] == p[k];
    SameLetter(p, k, name);
  }

  /** Another meter agrees with a grouped one under its path exactly if its name starts like that. */
  lemma SharesPath(x: Id, p: string, q: string, y: Id, name: string)
    requires IsPath(p, q) && Spells(x, Path(p, q)) && Spells(y, name) && IsName(name)
    ensures Masked(y, PathOf(x)) == Masked(x, PathOf(x)) <==> StartsWith(name, p)
  {
    TwoParts(x, p, q);
    hide Masked, PathMask, PathOf, Spells, IsName, Path, SameCodesTo, SharesLetters, StartsWith;
    MaskedIff(y, x, |p|);
    if SameCodesTo(y, x, |p|) {
      SharedLetters(x, p, q, y, name);
      SharesStart(name, p);
    }
    if StartsWith(name, p) {
      StartShares(name, p);
      SharedCodes(x, p, q, y, name);
    }
  }

  predicate StartsWith(name: string, p: string) {
    |p| <= |name| && name[..|p|] == p
  }

  predicate SharesLetters(name: string, p: string) {
    |p| <= |name| && forall k :: 0 <= k < |p| ==> p[k] == name[k]
  }

  lemma StartShares(name: string, p: string)
    requires StartsWith(name, p)
    ensures SharesLetters(name, p)
  {
  }

  lemma SharesStart(name: string, p: string)
    requires SharesLetters(name, p)
    ensures StartsWith(name, p)
  {
  }

  lemma SameLetter(p: string, k: nat, name: string)
    requires IsPart(p) && k < |p| && IsName(name)
    ensures CodeOf(p[k]) == CodeAt(name, k) <==> k < |name| && p[k] == name[k]
  {
    assert p[k] in p;
    CharBack(p[k]);
    if k < |name| {
      assert name[k] in name;
      CharBack(name[k]);
    }
  }

  lemma {:induction false} NodeBefore(id: Id, p: string, q: string, k: nat)
    requires IsPath(p, q) && Spells(id, Path(p, q)) && k <= |p|
    ensures NodeFrom(id, k, false) == NodeFrom(id, |p| + 1, true)
    decreases |p| - k
  {
    hide LetterCode, CodeOf;
    var name := Path(p, q);
    assert LetterCode(id, k) == CodeAt(name, k);
    if k < |p| {
      assert name[k] == p[k] && p[k] in p;
      CharBack(p[k]);
      NodeBefore(id, p, q, k + 1);
    } else {
      assert name[k] == '/';
      CharBack('/');
    }
  }

  lemma {:induction false} NodeAfter(id: Id, p: string, q: string, k: nat)
    requires IsPath(p, q) && Spells(id, Path(p, q)) && |p| < k <= LETTERS
    ensures NodeFrom(id, k, true) == (if k < |Path(p, q)| then Path(p, q)[k..] else "")
      + seq(LETTERS - (if k < |Path(p, q)| then |Path(p, q)| else k), _ => ' ')
    decreases LETTERS - k
  {
    hide LetterCode, CodeOf;
    var name := Path(p, q);
    if k < LETTERS {
      NodeAfter(id, p, q, k + 1);
      assert LetterCode(id, k) == CodeAt(name, k);
      if k < |name| {
        assert name[k] == q[k - |p| - 1] && name[k] in q;
        CharBack(name[k]);
        assert name[k..] == [name[k]] + name[k + 1..];
      }
    }
  }

  /** nodeid2str gives the second part. */
  lemma NodeIsPart(id: Id, p: string, q: string)
    requires IsPath(p, q) && Spells(id, Path(p, q))
    ensures NodeName(id) == q
  {
    hide Spells, IdChar;
    NodeBefore(id, p, q, 0);
    NodeAfter(id, p, q, |p| + 1);
    assert Path(p, q)[|p| + 1..] == q;
    assert q[|q| - 1] in q;
    CharBack(q[|q| - 1]);
    TrimBlanks(q, LETTERS - |Path(p, q)|);
  }

  // ---- The bits of a made id ----

  lemma {:induction false} LettersOnly(name: string, i: nat)
    requires i <= LETTERS
    ensures LettersFrom(name, i) & 0xc000_0000_0000_007f == 0
    decreases |name|
  {
    hide ShiftTo, Joined, CodeOf;
    if name != "" && i < LETTERS {
      if name[0] as int >= 128 {
        LettersOnly(name[1..], i);
      } else {
        LettersOnly(name[1..], i + 1);
        ShiftBits(CodeOf(name[0]), i);
        JoinedBits(ShiftTo(CodeOf(name[0]), i), LettersFrom(name[1..], i + 1));
      }
    }
  }

  lemma JoinedBits(x: Id, y: Id)
    requires x & 0xc000_0000_0000_007f == 0 && y & 0xc000_0000_0000_007f == 0
    ensures Joined(x, y) & 0xc000_0000_0000_007f == 0
  {
  }

  lemma ShiftBits(n: nat, k: nat)
    requires n < 32 && k < LETTERS
    ensures ShiftTo(n, k) & 0xc000_0000_0000_007f == 0
  {
    SmallCount(n);
    hide CountBits;
  }

  /** A made id has its type, and no count. */
  lemma MadeId(name: string, t: Id)
    requires IsType(t)
    ensures TypeOf(MakeId(name, t)) == t && MakeId(name, t) & 0x1f == 0 && MakeId(name, t) & 0x60 == 0
  {
    LettersOnly(name, 0);
    TypedLetters(LettersFrom(name, 0), t);
    hide LettersFrom;
  }

  lemma TypedLetters(x: Id, t: Id)
    requires x & 0xc000_0000_0000_007f == 0 && IsType(t)
    ensures TypeOf(Joined(t, x)) == t && Joined(t, x) & 0x1f == 0 && Joined(t, x) & 0x60 == 0
  {
  }

  // ---- What names have in common ----

  function Lower(c: char): char {
    if 'A' <= c <= 'Z' then (c as int + 32) as char else c
  }

  function LowerAll(name: string): (s: string)
    ensures |s| == |name|
  {
    seq(|name|, i requires 0 <= i < |name| => Lower(name[i]))
  }

  lemma LowerCode(c: char)
    ensures CodeOf(Lower(c)) == CodeOf(c) && (Lower(c) as int >= 128 <==> c as int >= 128)
  {
  }

  lemma {:induction false} LowerLetters(name: string, k: nat)
    requires k <= LETTERS
    ensures LettersFrom(LowerAll(name), k) == LettersFrom(name, k)
    decreases |name|
  {
    hide CodeOf, ShiftTo, Lower;
    if name != "" && k < LETTERS {
      LowerCode(name[0]);
      assert LowerAll(name)[1..] == LowerAll(name[1..]);
      LowerLetters(name[1..], if name[0] as int >= 128 then k else k + 1);
    }
  }

  /** Ids do not tell upper case from lower case. */
  lemma CaseFolds(name: string, t: Id)
    ensures MakeId(LowerAll(name), t) == MakeId(name, t)
  {
    LowerLetters(name, 0);
  }

  /** Digits and other characters without a letter of their own count as a space, up to 127. */
  lemma NoLetter(c: char, rest: string, k: nat)
    requires k <= LETTERS && c as int < 128
    requires !('a' <= c <= 'z') && !('A' <= c <= 'Z') && c !in ".-_/@"
    ensures LettersFrom([c] + rest, k) == LettersFrom([' '] + rest, k)
  {
    hide ShiftTo;
  }

  /** Bytes from 128 on are passed over and take no place. */
  lemma HighPassed(c: char, rest: string, k: nat)
    requires k <= LETTERS && c as int >= 128
    ensures LettersFrom([c] + rest, k) == LettersFrom(rest, k)
  {
    hide ShiftTo, CodeOf;
    assert ([c] + rest)[1..] == rest;
  }

  lemma {:induction false} OnlyBlanks(s: string)
    requires s != "" && forall i :: 0 <= i < |s| ==> s[i] == ' '
    ensures Trim(s) == " "
  {
    if |s| > 1 {
      OnlyBlanks(s[..|s| - 1]);
    } else {
      assert s == [s[0]];
    }
  }

  lemma {:induction false} BlankFrom(k: nat)
    requires k <= LETTERS
    ensures forall i :: 0 <= i < LETTERS - k ==> TextFrom(0, k)[i] == ' '
    decreases LETTERS - k
  {
    if k < LETTERS {
      BlankFrom(k + 1);
      NoBits(k);
      assert TextFrom(0, k) == [LetterChar(0, k)] + TextFrom(0, k + 1);
    }
  }

  lemma NoBits(k: nat)
    requires k < LETTERS
    ensures LetterCode(0, k) == 0 && LetterChar(0, k) == ' '
  {
    assert Letter(0, k) == 0;
  }

  /** The id without letters is called by one space. */
  lemma NoName()
    ensures IdName(0) == " "
  {
    BlankFrom(0);
    hide TextFrom;
    OnlyBlanks(TextFrom(0, 0));
  }
}
