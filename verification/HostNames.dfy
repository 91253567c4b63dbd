/** What the prefix functions of util.c mean for names, and when a host survives its packet
    encoding in terms of the names of its meters. */
module HostNames {
  import opened Wrappers
  import opened IoPort
  import opened WireText
  import opened Ids
  import opened IdNames
  import opened Meters
  import opened MeterTrip

  // ---- The prefix of a name ----

  /** The part of a name before its first slash, if there is a slash. */
  function PrefixName(name: string): Option<string> {
    if name == "" then None
    else if name[0] == '/' then Some("")
    else
      match PrefixName(name[1..])
      case None => None
      case Some(p) => Some([name[0]] + p)
  }

  /** Where the first slash of a name is, an id that spells it has its first slash. */
  lemma {:induction false} SlashPlace(id: Id, name: string, k: nat)
    requires Spells(id, name) && IsName(name) && k <= |name|
    ensures var n := SlashAt(id, k);
      && k <= n && (n < LETTERS ==> n < |name|)
      && PrefixName(name[k..]) == if n < LETTERS then Some(name[k..][..n - k]) else None
    decreases |name| - k
  {
    hide LetterCode, CodeOf, IdChar;
    if k == |name| {
      NoSlashAfter(id, name, k);
    } else {
      assert LetterCode(id, k) == CodeAt(name, k) && name[k] in name;
      CharBack(name[k]);
      SlashPlace(id, name, k + 1);
      assert name[k..][1..] == name[k + 1..];
      if name[k] != '/' && SlashAt(id, k) < LETTERS {
        var n := SlashAt(id, k);
        assert name[k..][..n - k] == [name[k]] + name[k + 1..][..n - k - 1];
      }
    }
  }

  lemma {:induction false} NoSlashAfter(id: Id, name: string, k: nat)
    requires Spells(id, name) && |name| <= k <= LETTERS
    ensures SlashAt(id, k) == LETTERS
    decreases LETTERS - k
  {
    hide LetterCode;
    if k < LETTERS {
      assert LetterCode(id, k) == CodeAt(name, k) == 0;
      NoSlashAfter(id, name, k + 1);
    }
  }

  lemma SlashLetter(id: Id, k: nat)
    requires k < LETTERS
    ensures Letter(id, k) == SLASH <==> LetterChar(id, k) == '/'
  {
    CodeBack(id, k);
    SlashCode(LetterCode(id, k));
    hide Letter, CountBits;
  }

  lemma SlashCode(n: nat)
    requires n < 32
    ensures CountBits(n) == SLASH <==> IDTABLE[n] == '/'
  {
    CodeOfBits(n);
    CodeOfBits(30);
  }

  lemma {:induction false} PrefixLetters(id: Id, k: nat)
    requires k <= LETTERS
    ensures PrefixFrom(id, k, Masked(id, PathMask(k))) ==
      if SlashAt(id, k) < LETTERS then Masked(id, PathMask(SlashAt(id, k))) else 0
    decreases LETTERS - k
  {
    hide Letter, LetterMask, Joined, Masked, LetterChar;
    if k < LETTERS {
      SlashLetter(id, k);
      MaskOfJoin(id, PathMask(k), LetterMask(k));
      PrefixLetters(id, k + 1);
    }
  }

  /** idgetprefix yields the part of the name before its first slash, or 0. */
  lemma PrefixSpells(id: Id, name: string)
    requires Spells(id, name) && IsName(name)
    ensures GetPrefix(id) != 0 ==> PrefixName(name).Some? && Spells(GetPrefix(id), PrefixName(name).value)
    ensures PrefixName(name).None? || PrefixName(name).value == "" ==> GetPrefix(id) == 0
  {
    hide LetterCode, CodeOf, PathMask, Masked, NameOf, PrefixFrom;
    PrefixLetters(id, 0);
    SlashPlace(id, name, 0);
    NoMask(id);
    assert name[0..] == name;
    var n := SlashAt(id, 0);
    if n < LETTERS {
      forall k | 0 <= k < LETTERS ensures LetterCode(Masked(id, PathMask(n)), k) == CodeAt(name[..n], k) {
        MaskedCode(id, n, k);
        assert LetterCode(id, k) == CodeAt(name, k);
      }
    }
  }

  lemma NoMask(id: Id)
    ensures Masked(id, PathMask(0)) == 0
  {
  }

  lemma {:induction false} PrefixStarts(name: string)
    ensures match PrefixName(name)
            case Some(p) => StartsWith(name, p + "/")
            case None => '/' !in name
  {
    if name != "" && name[0] != '/' {
      PrefixStarts(name[1..]);
      if PrefixName(name[1..]).Some? {
        var p := PrefixName(name[1..]).value;
        assert name[..|p| + 2] == [name[0]] + name[1..][..|p| + 1];
        assert [name[0]] + (p + "/") == ([name[0]] + p) + "/";
      }
    }
  }

  // ---- Meters under a name ----

  /** No bit of the id lies between its letters and its count. */
  predicate Clean(id: Id) {
    id & 0x60 == 0
  }

  /** id2mask covers the letters of the name. */
  lemma {:induction false} MaskLetters(id: Id, name: string, k: nat)
    requires Spells(id, name) && IsName(name) && k <= |name|
    ensures Joined(PathMask(k), MaskFrom(id, k)) == PathMask(|name|)
    decreases |name| - k
  {
    hide Letter, LetterMask, Joined, PathMask, IdChar, CodeOf, LetterCode;
    if k < |name| {
      LetterSet(id, name, k);
      MaskLetters(id, name, k + 1);
      JoinSteps(PathMask(k), LetterMask(k), MaskFrom(id, k + 1));
      NextMask(k);
    } else {
      MaskEnds(id, name);
      JoinZero(PathMask(k));
    }
  }

  lemma NextMask(k: nat)
    requires k < LETTERS
    ensures PathMask(k + 1) == Joined(PathMask(k), LetterMask(k))
  {
  }

  lemma LetterSet(id: Id, name: string, k: nat)
    requires Spells(id, name) && IsName(name) && k < LETTERS
    ensures Letter(id, k) == BLANK <==> k >= |name|
  {
    CodeBack(id, k);
    CodeEnds(name, k);
    assert LetterCode(id, k) == CodeAt(name, k);
    CodeOfBits(CodeAt(name, k));
    CodeOfBits(0);
    hide Letter, CountBits, CodeOf, LetterCode;
  }

  lemma MaskEnds(id: Id, name: string)
    requires Spells(id, name) && IsName(name)
    ensures MaskFrom(id, |name|) == 0
  {
    hide Letter, LetterMask, Joined, Spells;
    if |name| < LETTERS {
      LetterSet(id, name, |name|);
    }
  }

  lemma MaskIs(id: Id, name: string)
    requires Spells(id, name) && IsName(name)
    ensures IdMask(id) == PathMask(|name|)
  {
    MaskLetters(id, name, 0);
    JoinZero(MaskFrom(id, 0));
    hide MaskFrom, PathMask;
  }

  /** Ids of the same letters have the same name bits if both are clean. */
  lemma SameName(x: Id, y: Id)
    requires Clean(x) && Clean(y) && forall k :: 0 <= k < LETTERS ==> Letter(x, k) == Letter(y, k)
    ensures NameOf(x) == NameOf(y)
  {
    assert Letter(x, 0) == Letter(y, 0) && Letter(x, 1) == Letter(y, 1) && Letter(x, 2) == Letter(y, 2);
    assert Letter(x, 3) == Letter(y, 3) && Letter(x, 4) == Letter(y, 4) && Letter(x, 5) == Letter(y, 5);
    assert Letter(x, 6) == Letter(y, 6) && Letter(x, 7) == Letter(y, 7) && Letter(x, 8) == Letter(y, 8);
    assert Letter(x, 9) == Letter(y, 9) && Letter(x, 10) == Letter(y, 10);
  }

  /** The name bits of a clean id are the letters of its name. */
  lemma NameIsMasked(id: Id, name: string)
    requires Spells(id, name) && IsName(name) && Clean(id)
    ensures NameOf(id) == Masked(id, PathMask(|name|))
  {
    var y := Masked(id, PathMask(|name|));
    NameMasked(id, |name|);
    forall k | 0 <= k < LETTERS ensures Letter(id, k) == Letter(y, k) {
      MaskedLetter(id, |name|, k);
      LetterSet(id, name, k);
    }
    hide Letter, Masked, PathMask, Spells, IsName, NameOf;
    SameName(id, y);
  }

  lemma {:induction false} MaskInName(n: nat)
    requires n <= LETTERS
    ensures PathMask(n) & 0xc000_0000_0000_007f == 0
  {
    if n > 0 {
      MaskInName(n - 1);
      hide PathMask;
      LetterInName(n - 1);
      JoinedBits(PathMask(n - 1), LetterMask(n - 1));
      hide Joined;
    }
  }

  lemma LetterInName(k: nat)
    requires k < LETTERS
    ensures LetterMask(k) & 0xc000_0000_0000_007f == 0
  {
  }

  lemma NameMasked(x: Id, n: nat)
    requires n <= LETTERS
    ensures NameOf(Masked(x, PathMask(n))) == Masked(x, PathMask(n)) && Clean(Masked(x, PathMask(n)))
  {
    MaskInName(n);
    NameBits(x, PathMask(n));
    hide PathMask;
  }

  lemma NameBits(x: Id, m: Id)
    requires m & 0xc000_0000_0000_007f == 0
    ensures NameOf(Masked(x, m)) == Masked(x, m) && Clean(Masked(x, m))
  {
  }

  /** The first letter outside the mask of n letters is letter n. */
  lemma {:induction false} SlashFollows(id: Id, n: nat, k: nat)
    requires k <= n <= LETTERS
    ensures SlashAfter(id, PathMask(n), k) <==> n < LETTERS && Letter(id, n) == SLASH
    decreases n - k
  {
    hide Letter, LetterMask, PathMask, Masked, SlashAfter;
    if k < LETTERS {
      MaskHits(n, k);
      StepSlash(id, PathMask(n), k);
      if k < n {
        SlashFollows(id, n, k + 1);
      }
    } else {
      NoLetterLeft(id, PathMask(n));
    }
  }

  lemma NoLetterLeft(id: Id, mask: Id)
    ensures !SlashAfter(id, mask, LETTERS)
  {
  }

  lemma StepSlash(id: Id, mask: Id, k: nat)
    requires k < LETTERS
    ensures SlashAfter(id, mask, k) <==>
      if Masked(mask, LetterMask(k)) == 0 then Letter(id, k) == SLASH else SlashAfter(id, mask, k + 1)
  {
    hide Letter, LetterMask, Masked;
  }

  lemma MaskHits(n: nat, k: nat)
    requires n <= LETTERS && k < LETTERS
    ensures Masked(PathMask(n), LetterMask(k)) == 0 <==> k >= n
  {
    PathMaskLetter(n, k);
    HitLetter(PathMask(n), k);
    hide PathMask, Letter, LetterMask, Masked;
  }

  lemma HitLetter(x: Id, k: nat)
    requires k < LETTERS
    ensures Masked(x, LetterMask(k)) == 0 <==> Letter(x, k) == 0
  {
    LetterOfMask(k, k);
    LetterOfAnd(x, LetterMask(k), k);
    LetterRange(x, k);
    FullLetter(Letter(x, k));
    LetterOfZero(k);
    MaskOfZero(LetterMask(k));
    hide Letter, LetterMask, Masked;
    if Letter(x, k) == 0 {
      MaskOfLetter(x, 0, k);
    }
  }

  lemma MaskOfZero(m: Id)
    ensures Masked(0, m) == 0
  {
  }

  /** A meter lies under a prefix exactly if its name is that of the prefix, a slash, and more. */
  lemma UnderIsStart(id: Id, name: string, prefix: Id, p: string)
    requires Spells(id, name) && IsName(name) && Spells(prefix, p) && IsName(p) && Clean(prefix)
    ensures UnderPrefix(id, prefix) <==> StartsWith(name, p + "/")
  {
    hide Letter, Masked, PathMask, NameOf, IdMask, SlashAfter, LetterChar, IdChar, CodeOf, LetterCode;
    MaskIs(prefix, p);
    NameIsMasked(prefix, p);
    MaskedIff(id, prefix, |p|);
    SlashFollows(id, |p|, 0);
    UnderMeans(id, prefix, |p|);
    SameStart(id, name, prefix, p);
    if |p| < LETTERS {
      SlashThere(id, name, |p|);
    }
    if StartsWith(name, p + "/") {
      assert name[|p|] == (p + "/")[|p|];
    }
  }

  lemma UnderMeans(id: Id, prefix: Id, n: nat)
    requires n <= LETTERS && IdMask(prefix) == PathMask(n) && NameOf(prefix) == Masked(prefix, PathMask(n))
    ensures UnderPrefix(id, prefix) <==>
      Masked(id, PathMask(n)) == Masked(prefix, PathMask(n)) && SlashAfter(id, PathMask(n), 0)
  {
    hide IdMask, PathMask, NameOf, SlashAfter;
  }

  lemma SlashThere(id: Id, name: string, k: nat)
    requires Spells(id, name) && IsName(name) && k < LETTERS
    ensures Letter(id, k) == SLASH <==> k < |name| && name[k] == '/'
  {
    hide Letter, LetterCode, CodeOf, IdChar;
    assert LetterCode(id, k) == CodeAt(name, k);
    SlashLetter(id, k);
    CharBack('/');
    if k < |name| {
      assert name[k] in name;
      CharBack(name[k]);
    }
  }

  /** The letters of p are the first of an id exactly if its name starts with p. */
  lemma SameStart(id: Id, name: string, prefix: Id, p: string)
    requires Spells(id, name) && IsName(name) && Spells(prefix, p) && IsName(p)
    ensures SameCodesTo(id, prefix, |p|) <==> StartsWith(name, p)
  {
    hide LetterCode, CodeOf, IdChar;
    forall k | 0 <= k < |p|
      ensures LetterCode(id, k) == LetterCode(prefix, k) <==> k < |name| && name[k] == p[k]
    {
      assert LetterCode(id, k) == CodeAt(name, k) && LetterCode(prefix, k) == CodeAt(p, k);
      CodeEnds(name, k);
      assert p[k] in p;
      CharBack(p[k]);
      if k < |name| {
        assert name[k] in name;
        CharBack(name[k]);
      }
    }
    if SameCodesTo(id, prefix, |p|) {
      assert LetterCode(id, |p| - 1) == LetterCode(prefix, |p| - 1);
      assert name[..|p|] == p;
    }
  }

  // ---- Name bits ----

  lemma {:induction false} MaskOfName(prefix: Id, k: nat)
    requires k <= LETTERS
    ensures MaskFrom(prefix, k) & 0xc000_0000_0000_007f == 0
    decreases LETTERS - k
  {
    hide LetterMask, Joined, Letter;
    if k < LETTERS && Letter(prefix, k) != BLANK {
      MaskOfName(prefix, k + 1);
      LetterInName(k);
      JoinedBits(LetterMask(k), MaskFrom(prefix, k + 1));
    }
  }

  lemma {:induction false} SlashByName(id: Id, mask: Id, k: nat)
    requires k <= LETTERS
    ensures SlashAfter(id, mask, k) <==> SlashAfter(NameOf(id), mask, k)
    decreases LETTERS - k
  {
    hide Letter, LetterMask, NameOf, LetterCode, SlashAfter;
    if k < LETTERS {
      StepSlash(id, mask, k);
      StepSlash(NameOf(id), mask, k);
      NameLetter(id, k);
      CodeBack(id, k);
      CodeBack(NameOf(id), k);
      SlashByName(id, mask, k + 1);
    } else {
      NoLetterLeft(id, mask);
      NoLetterLeft(NameOf(id), mask);
    }
  }

  lemma MaskedByName(id: Id, mask: Id)
    requires mask & 0xc000_0000_0000_007f == 0
    ensures Masked(NameOf(id), mask) == Masked(id, mask)
  {
  }

  lemma UnderParts(id: Id, prefix: Id)
    ensures UnderPrefix(id, prefix) <==>
      && Masked(id, IdMask(prefix)) == NameOf(prefix) == Masked(prefix, IdMask(prefix))
      && SlashAfter(id, IdMask(prefix), 0)
  {
    hide IdMask, NameOf, SlashAfter;
  }

  /** Only the name of a meter decides what it lies under. */
  lemma UnderByName(id: Id, prefix: Id)
    ensures UnderPrefix(id, prefix) <==> UnderPrefix(NameOf(id), prefix)
  {
    MaskOfName(prefix, 0);
    MaskedByName(id, IdMask(prefix));
    hide NameOf, SlashAfter, MaskFrom, Masked, UnderPrefix;
    SlashByName(id, IdMask(prefix), 0);
    UnderParts(id, prefix);
    UnderParts(NameOf(id), prefix);
  }

  /** A name has no slash at the place of its prefix's first blank. */
  lemma PrefixIsOther(id: Id)
    requires GetPrefix(id) != 0
    ensures NameOf(GetPrefix(id)) != NameOf(id)
  {
    hide LetterCode, PathMask, Masked, NameOf, PrefixFrom, Letter, SlashAt;
    PrefixLetters(id, 0);
    NoMask(id);
    var n := SlashAt(id, 0);
    SlashIsAt(id, 0);
    MaskedCode(id, n, n);
    assert IDTABLE[0] == ' ';
    NameLetter(id, n);
    NameLetter(Masked(id, PathMask(n)), n);
  }

  lemma {:induction false} SlashIsAt(id: Id, k: nat)
    requires k <= LETTERS
    ensures SlashAt(id, k) < LETTERS ==> LetterChar(id, SlashAt(id, k)) == '/'
    decreases LETTERS - k
  {
    hide LetterChar;
    if k < LETTERS {
      SlashIsAt(id, k + 1);
    }
  }

  // ---- Hosts by the names of their meters ----

  predicate Named(m: Meter, name: string) {
    Spells(m.id, name) && IsName(name) && Clean(m.id)
  }

  /** No name twice, and no meter p beside a meter p/x. */
  predicate NamesApart(names: seq<string>) {
    forall i, j :: 0 <= i < |names| && 0 <= j < |names| && i != j ==>
      names[i] != names[j] && !StartsWith(names[j], names[i] + "/")
  }

  predicate NamedHost(ms: seq<Meter>, names: seq<string>) {
    && |names| == |ms| <= 257 && NamesApart(names)
    && forall k :: 0 <= k < |ms| ==> GoodMeter(ms[k]) && Named(ms[k], names[k])
  }

  lemma WireName(m: Meter, name: string)
    requires GoodMeter(m) && Named(m, name)
    ensures Spells(WireId(m), name) && Clean(WireId(m))
  {
    hide LetterCode, CodeOf, NameOf, Holds, Bare, WireId;
    WireFacts(m);
    forall k | 0 <= k < LETTERS ensures LetterCode(WireId(m), k) == CodeAt(name, k) {
      NameLetter(m.id, k);
      NameLetter(WireId(m), k);
    }
    WireClean(m);
  }

  lemma WireClean(m: Meter)
    requires m.count < 32 && Clean(m.id)
    ensures Clean(WireId(m))
  {
    SmallCount(m.count);
    CountClean(m.id, CountBits(m.count));
    hide CountBits;
  }

  lemma CountClean(x: Id, c: bv64)
    requires Clean(x) && c < 32
    ensures Clean(x | c)
  {
  }

  lemma PrefixApart(m: Meter, name: string, v: Meter, other: string)
    requires GoodMeter(m) && Named(m, name) && Named(v, other)
    requires !StartsWith(name, other + "/")
    ensures GetPrefix(WireId(m)) != 0 ==> NameOf(v.id) != NameOf(GetPrefix(WireId(m)))
  {
    hide Spells, NameOf, GetPrefix, Holds, WireId, Clean, StartsWith, IdChar;
    WireName(m, name);
    PrefixSpells(WireId(m), name);
    PrefixStarts(name);
    if GetPrefix(WireId(m)) != 0 && NameOf(v.id) == NameOf(GetPrefix(WireId(m))) {
      PrefixIsName(name);
      SameSpelling(v.id, GetPrefix(WireId(m)), other, PrefixName(name).value);
    }
  }

  lemma {:induction false} PrefixIsName(name: string)
    requires |name| <= LETTERS && forall c :: c in name ==> IdChar(c)
    ensures PrefixName(name).Some? ==> |PrefixName(name).value| <= LETTERS && forall c :: c in PrefixName(name).value ==> IdChar(c)
  {
    hide IdChar;
    if name != "" && name[0] != '/' {
      PrefixIsName(name[1..]);
      if PrefixName(name).Some? {
        PrefixShorter(name[1..]);
      }
    }
  }

  lemma {:induction false} PrefixShorter(name: string)
    ensures PrefixName(name).Some? ==> |PrefixName(name).value| < |name|
  {
    if name != "" && name[0] != '/' {
      PrefixShorter(name[1..]);
    }
  }

  lemma NameFollows(ms: seq<Meter>, names: seq<string>, k: nat)
    requires NamedHost(ms, names) && k < |ms|
    ensures Follows(ms[..k], ms[k])
  {
    hide Spells, NameOf, GetPrefix, Holds, WireId, UnderPrefix, Clean, StartsWith, IdChar, IsName;
    var m := ms[k];
    WireName(m, names[k]);
    forall i | 0 <= i < k
      ensures NameOf(ms[i].id) != NameOf(m.id)
      ensures GetPrefix(WireId(m)) != 0 ==> NameOf(ms[i].id) != NameOf(GetPrefix(WireId(m)))
      ensures !UnderPrefix(ms[i].id, WireId(m))
    {
      if NameOf(ms[i].id) == NameOf(m.id) {
        SameSpelling(ms[i].id, m.id, names[i], names[k]);
      }
      PrefixApart(m, names[k], ms[i], names[i]);
      UnderIsStart(ms[i].id, names[i], WireId(m), names[k]);
    }
  }

  /** Meters of different names, none of them p beside p/x, survive their packet encoding. */
  lemma NamedRoundTrip(ms: seq<Meter>, names: seq<string>, rest: seq<bv8>, strbuf: Text)
    requires NamedHost(ms, names) && TakeU64(rest).0 == 0
    ensures DecHost(EncHost(ms) + rest, [], 0, strbuf) == (true, ReceivedAll(ms))
  {
    hide Follows, Holds, Named, NamesApart, DecHost, EncHost, TakeU64;
    forall k | 0 <= k < |ms| ensures Follows(ms[..k], ms[k]) {
      NameFollows(ms, names, k);
    }
    HostRoundTrip(ms, rest, strbuf);
  }
}
