/** The loops over the letters of an id, from the top letter down. */
module IdLoops {
  import opened IdNames
  import opened Ids

  /** makeid. */
  method MakeIdLoop(name: string, t: Id) returns (res: Id)
    ensures res == MakeId(name, t)
  {
    res := t;
    var crsr, k := 0, 0;
    JoinZero(res);
    while crsr < |name| && k < LETTERS
      invariant 0 <= crsr <= |name| && 0 <= k <= LETTERS
      invariant Joined(res, LettersFrom(name[crsr..], k)) == MakeId(name, t)
    {
      assert name[crsr..][1..] == name[crsr + 1..];
      if name[crsr] as int < 128 {
        JoinSteps(res, ShiftTo(CodeOf(name[crsr]), k), LettersFrom(name[crsr + 1..], k + 1));
        res := Joined(res, ShiftTo(CodeOf(name[crsr]), k));
        k := k + 1;
      }
      crsr := crsr + 1;
    }
    JoinZero(res);
  }

  /** id2mask. */
  method MaskLoop(id: Id) returns (res: Id)
    ensures res == IdMask(id)
  {
    hide Letter, LetterMask, Joined;
    res := 0;
    var k := 0;
    JoinZero(MaskFrom(id, 0));
    while k < LETTERS && Letter(id, k) != BLANK
      invariant 0 <= k <= LETTERS
      invariant Joined(res, MaskFrom(id, k)) == IdMask(id)
    {
      JoinSteps(res, LetterMask(k), MaskFrom(id, k + 1));
      res := Joined(res, LetterMask(k));
      k := k + 1;
    }
    JoinZero(res);
  }

  /** idisprefix. */
  method IsPrefixLoop(potential: Id, child: Id, mask: Id) returns (res: bool)
    ensures res == IsPrefix(potential, child, mask)
  {
    hide Letter, LetterMask, Masked;
    res := false;
    if child & mask == potential & mask {
      var k := 0;
      while k < LETTERS && Masked(mask, LetterMask(k)) != 0
        invariant 0 <= k <= LETTERS
        invariant SlashAfter(child, mask, k) == SlashAfter(child, mask, 0)
      {
        k := k + 1;
      }
      res := k < LETTERS && Letter(child, k) == SLASH;
    }
  }

  /** idgetprefix. */
  method GetPrefixLoop(id: Id) returns (res: Id)
    ensures res == GetPrefix(id)
  {
    hide Letter, LetterMask, Masked, Joined, NameOf;
    res := 0;
    if NameOf(id) != 0 {
      var k := 0;
      while k < LETTERS && Letter(id, k) != SLASH
        invariant 0 <= k <= LETTERS
        invariant PrefixFrom(id, k, res) == PrefixFrom(id, 0, 0)
      {
        res := Joined(res, Masked(id, LetterMask(k)));
        k := k + 1;
      }
      if k == LETTERS {
        res := 0;
      }
    }
  }

  // ---- Names ----

  /** Where the last character of a text that is not a space is, or 0. */
  predicate LastLetter(s: string, e: nat) {
    (e == 0 || (e < |s| && s[e] != ' ')) && forall i :: e < i < |s| ==> s[i] == ' '
  }

  lemma LastOfLonger(s: string, e: nat, t: char)
    requires LastLetter(s, e)
    ensures LastLetter(s + [t], if t != ' ' then |s| else e)
  {
  }

  /** Trimming keeps up to the last character that is not a space, and the first in any case. */
  lemma {:induction false} TrimTo(s: string, e: nat)
    requires e < |s| && LastLetter(s, e)
    ensures Trim(s) == s[..e + 1]
  {
    if |s| > e + 1 {
      TrimTo(s[..|s| - 1], e);
    } else {
      assert s[..e + 1] == s;
    }
  }

  lemma OneMore(text: string, t: char, rest: string)
    ensures text + ([t] + rest) == (text + [t]) + rest
  {
  }

  /** id2str, with the place of the last letter that is not blank. */
  method NameLoop(id: Id) returns (s: string)
    ensures s == IdName(id)
  {
    hide LetterChar, LastLetter, Trim, TextFrom;
    var text, k := "", 0;
    var end: nat := 0;
    NoLetters();
    while k < LETTERS
      invariant 0 <= k <= LETTERS && |text| == k && end <= k && (k > 0 ==> end < k)
      invariant text + TextFrom(id, k) == TextFrom(id, 0) && LastLetter(text, end)
    {
      var t := LetterChar(id, k);
      LastOfLonger(text, end, t);
      TextStep(id, k, text);
      if t != ' ' {
        end := k;
      }
      text := text + [t];
      k := k + 1;
    }
    TextEnds(id, text);
    TrimTo(text, end);
    s := text[..end + 1];
  }

  lemma TextStep(id: Id, k: nat, text: string)
    requires k < LETTERS
    ensures text + TextFrom(id, k) == (text + [LetterChar(id, k)]) + TextFrom(id, k + 1)
  {
    hide LetterChar;
    OneMore(text, LetterChar(id, k), TextFrom(id, k + 1));
  }

  lemma TextEnds(id: Id, text: string)
    ensures text + TextFrom(id, LETTERS) == text
  {
  }

  lemma NoLetters()
    ensures LastLetter("", 0) && Trim("") == ""
  {
  }

  /** The text so far and what letter k adds to it. */
  lemma NodeStep(id: Id, k: nat, on: bool, text: string)
    requires k < LETTERS
    ensures var c := LetterChar(id, k);
      text + NodeFrom(id, k, on) ==
        if c == '/' then text + NodeFrom(id, k + 1, true)
        else if on then text + [c] + NodeFrom(id, k + 1, true)
        else text + NodeFrom(id, k + 1, false)
  {
    hide LetterChar;
  }

  lemma NodeEnds(id: Id, on: bool, text: string)
    ensures text + NodeFrom(id, LETTERS, on) == text
  {
  }

  /** nodeid2str. */
  method NodeLoop(id: Id) returns (s: string)
    ensures s == NodeName(id)
  {
    hide LetterChar, LastLetter, Trim, NodeFrom;
    var text, k, dowrite := "", 0, false;
    var end: nat := 0;
    NoLetters();
    assert text + NodeFrom(id, 0, false) == NodeFrom(id, 0, false);
    while k < LETTERS
      invariant 0 <= k <= LETTERS && (text == "" ==> end == 0) && (text != "" ==> end < |text|)
      invariant text + NodeFrom(id, k, dowrite) == NodeFrom(id, 0, false) && LastLetter(text, end)
    {
      var t := LetterChar(id, k);
      NodeStep(id, k, dowrite, text);
      if t == '/' {
        dowrite := true;
      } else if dowrite {
        LastOfLonger(text, end, t);
        if t != ' ' {
          end := |text|;
        }
        text := text + [t];
      }
      k := k + 1;
    }
    NodeEnds(id, dowrite, text);
    if text == "" {
      s := "";
    } else {
      TrimTo(text, end);
      s := text[..end + 1];
    }
  }

  /** idhaspath with idmask. */
  method PathLoop(id: Id) returns (mask: Id)
    ensures mask == PathOf(id)
  {
    hide LetterChar, LetterMask, Joined;
    mask := 0;
    var k := 0;
    while k < LETTERS && LetterChar(id, k) != '/'
      invariant 0 <= k <= LETTERS
      invariant SlashAt(id, k) == SlashAt(id, 0)
    {
      k := k + 1;
    }
    if k < LETTERS {
      var i := 0;
      while i < k
        invariant 0 <= i <= k
        invariant mask == PathMask(i)
      {
        mask := Joined(mask, LetterMask(i));
        i := i + 1;
      }
    }
  }
}
