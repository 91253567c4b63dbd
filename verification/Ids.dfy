/** Meter ids: two type bits, eleven five-bit letters, and a count in the low five bits. */
module Ids {
  import opened Bytes
  import opened Strings

  type Id = bv64

  const MASK_TYPE: bv64 := 0xc000_0000_0000_0000
  const MASK_NAME: bv64 := 0x3fff_ffff_ffff_ffe0
  const MASK_COUNT: bv64 := 0x1f
  const TYPE_INT: bv64 := 0x0000_0000_0000_0000
  const TYPE_FRAC: bv64 := 0x4000_0000_0000_0000
  const TYPE_STR: bv64 := 0x8000_0000_0000_0000

  predicate IsType(t: Id) {
    t == TYPE_INT || t == TYPE_FRAC || t == TYPE_STR
  }

  const LETTERS := 11

  /** The code of '/' in the five-bit alphabet, and of no letter at all. */
  const SLASH: bv64 := 30
  const BLANK: bv64 := 0

  /** How far letter k is shifted: 57 and then five less each time, as bshift. */
  function Shift(k: nat): (s: bv64)
    requires k < LETTERS
    ensures s <= 57
  {
    if k == 0 then 57 else if k == 1 then 52 else if k == 2 then 47 else if k == 3 then 42
    else if k == 4 then 37 else if k == 5 then 32 else if k == 6 then 27 else if k == 7 then 22
    else if k == 8 then 17 else if k == 9 then 12 else 7
  }

  /** Five bits of an id. */
  function FiveAt(id: Id, s: bv64): bv64
    requires s <= 57
  {
    (id >> s) & 31
  }

  /** Letter k of an id. */
  function Letter(id: Id, k: nat): bv64
    requires k < LETTERS
  {
    FiveAt(id, Shift(k))
  }

  function FivePlaced(v: bv64, s: bv64): Id
    requires s <= 57
  {
    v << s
  }

  /** The bits of letter k. */
  function LetterMask(k: nat): bv64
    requires k < LETTERS
  {
    FivePlaced(31, Shift(k))
  }

  function Masked(id: Id, mask: Id): Id {
    id & mask
  }

  function Joined(x: Id, y: Id): Id {
    x | y
  }

  function NameOf(id: Id): Id {
    id & MASK_NAME
  }

  function TypeOf(id: Id): Id {
    id & MASK_TYPE
  }

  function CountOf(id: Id): (n: nat)
    ensures n < 32
  {
    CountRange((id & 0x1f) as bv8);
    ((id & 0x1f) as bv8) as nat
  }

  lemma CountRange(b: bv8)
    requires b < 32
    ensures b as nat < 32
  {
  }

  function CountBits(n: nat): bv64
    requires n < 32
  {
    (n as bv8) as bv64
  }

  // ---- The loops of util.c over the letters ----

  /** id2mask: the bits of the letters before the first blank. */
  function MaskFrom(id: Id, k: nat): Id
    requires k <= LETTERS
    decreases LETTERS - k
  {
    if k == LETTERS || Letter(id, k) == BLANK then 0 else Joined(LetterMask(k), MaskFrom(id, k + 1))
  }

  function IdMask(id: Id): Id {
    MaskFrom(id, 0)
  }

  /** idisprefix after the masked parts compare equal: the first letter outside the mask of
      the would-be child is a slash. */
  predicate SlashAfter(child: Id, mask: Id, k: nat)
    requires k <= LETTERS
    decreases LETTERS - k
  {
    k < LETTERS && if Masked(mask, LetterMask(k)) == 0 then Letter(child, k) == SLASH else SlashAfter(child, mask, k + 1)
  }

  predicate IsPrefix(potential: Id, child: Id, mask: Id) {
    child & mask == potential & mask && SlashAfter(child, mask, 0)
  }

  /** idgetprefix: the letters before the first slash, or 0 if there is none. */
  function PrefixFrom(id: Id, k: nat, res: Id): Id
    requires k <= LETTERS
    decreases LETTERS - k
  {
    if k == LETTERS then 0
    else if Letter(id, k) == SLASH then res
    else PrefixFrom(id, k + 1, Joined(res, Masked(id, LetterMask(k))))
  }

  function GetPrefix(id: Id): Id {
    if NameOf(id) == 0 then 0 else PrefixFrom(id, 0, 0)
  }

  // ---- Names as text ----

  const IDTABLE := " abcdefghijklmnopqrstuvwxyz.-_/@"

  /** Letter k as a number. */
  function LetterCode(id: Id, k: nat): (n: nat)
    requires k < LETTERS
    ensures n < 32
  {
    LetterRange(id, k);
    CountRange(Letter(id, k) as bv8);
    (Letter(id, k) as bv8) as nat
  }

  lemma LetterRange(id: Id, k: nat)
    requires k < LETTERS
    ensures Letter(id, k) < 32 && Letter(id, k) as bv8 < 32
  {
  }

  function LetterChar(id: Id, k: nat): char
    requires k < LETTERS
  {
    IDTABLE[LetterCode(id, k)]
  }

  /** The text of the letters from k on, blanks included. */
  function TextFrom(id: Id, k: nat): (s: string)
    requires k <= LETTERS
    ensures |s| == LETTERS - k
    decreases LETTERS - k
  {
    if k == LETTERS then "" else [LetterChar(id, k)] + TextFrom(id, k + 1)
  }

  /** Drops trailing spaces, all but one of them if there is nothing else. */
  function Trim(s: string): string {
    if |s| <= 1 || s[|s| - 1] != ' ' then s else Trim(s[..|s| - 1])
  }

  /** id2str. */
  function IdName(id: Id): string {
    Trim(TextFrom(id, 0))
  }

  function IdText(id: Id): seq<bv8> {
    BytesOf(IdName(id))
  }

  // ---- Masks ----

  lemma CountedBits(id: Id, c: bv64)
    requires id & 0x1f == 0 && c < 32
    ensures (id | c) & 0x1f == c
    ensures (id | c) & 0x3fff_ffff_ffff_ffe0 == id & 0x3fff_ffff_ffff_ffe0
    ensures (id | c) & 0xc000_0000_0000_0000 == id & 0xc000_0000_0000_0000
  {
  }

  lemma CountedId(id: Id, n: nat)
    requires id & 0x1f == 0 && n < 32
    ensures CountOf(id | CountBits(n)) == n
    ensures NameOf(id | CountBits(n)) == NameOf(id)
    ensures TypeOf(id | CountBits(n)) == TypeOf(id)
    ensures NameOf(id) != 0 ==> id | CountBits(n) != 0
  {
    SmallCount(n);
    CountedBits(id, CountBits(n));
  }

  lemma SmallCount(n: nat)
    requires n < 32
    ensures CountBits(n) < 32 && (CountBits(n) as bv8) as nat == n
  {
    ByteBack(n);
    Below(n as bv8, 32);
  }

  /** What codec_pkt.c does to the id of a meter it decodes into: the type is replaced. */
  function Retype(id: Id, t: Id): Id {
    (id & 0x3fff_ffff_ffff_ffff) | (t & 0xc000_0000_0000_0000)
  }
}
