/** What an unquoted value means: a number if it looks like one, and else the text itself. */
module JsonWords {
  import opened Json
  import opened JsonTrip
  import opened Wrappers

  // ---- The forms of a word ----

  /** Digits with exactly one dot, which is at i. */
  predicate DotOnlyAt(w: string, i: nat) {
    i < |w| && w[i] == '.' && forall j :: 0 <= j < |w| && j != i ==> '0' <= w[j] <= '9'
  }

  predicate OneDot(w: string) {
    exists i :: 0 <= i < |w| && DotOnlyAt(w, i)
  }

  predicate OnlyDigits(w: string) {
    forall j :: 0 <= j < |w| ==> '0' <= w[j] <= '9'
  }

  /** The value of a row of digits, and what they stand for after a dot. */
  function Tens(w: string): nat {
    if w == "" then 0 else 10 * Tens(w[..|w| - 1]) + (if '0' <= w[|w| - 1] <= '9' then (w[|w| - 1] - '0') as nat else 0)
  }

  /** What a word means. Integers saturate at the largest of 64 bits. */
  predicate Means(w: string, x: Var) {
    && (OnlyDigits(w) ==> x == Int(if Tens(w) < 0x1_0000_0000_0000_0000 then Tens(w) else 0xffff_ffff_ffff_ffff))
    && (forall i :: 0 <= i < |w| && DotOnlyAt(w, i) ==>
          x.Dbl? && x.r == Tens(w[..i]) as real + Tens(w[i + 1..]) as real / Pow10(|w| - i - 1) as real)
    && (!OnlyDigits(w) && !OneDot(w) ==> x == Str(w))
  }

  // ---- The counters of the parser tell the forms apart ----

  lemma {:induction false} TensIsNumber(w: string)
    ensures Tens(w) == Number(w)
  {
    if w != "" {
      TensIsNumber(w[..|w| - 1]);
    }
  }

  lemma {:induction false} SomeDot(w: string)
    ensures CountDots(w) == 0 <==> '.' !in w
  {
    if w != "" {
      SomeDot(w[1..]);
      assert w == [w[0]] + w[1..];
    }
  }

  lemma NoneButDigits(w: string)
    ensures !HasNonDigit(w) <==> forall j :: 0 <= j < |w| ==> w[j] == '.' || '0' <= w[j] <= '9'
  {
    if !HasNonDigit(w) {
      forall j | 0 <= j < |w| ensures w[j] == '.' || '0' <= w[j] <= '9' {
        assert w[j] in w && !NonDigit(w[j]);
      }
    }
  }

  lemma DigitsCount(w: string)
    requires !HasNonDigit(w)
    ensures CountDots(w) == 0 <==> OnlyDigits(w)
  {
    NoneButDigits(w);
    SomeDot(w);
  }

  lemma DotCount(w: string, i: nat)
    requires !HasNonDigit(w) && i < |w| && w[i] == '.'
    ensures CountDots(w) == 1 <==> DotOnlyAt(w, i)
    ensures CountDots(w) >= 1
  {
    var a, b := w[..i], w[i + 1..];
    assert w == a + ("." + b);
    DotsApart(a, "." + b);
    DotsApart(".", b);
    SomeDot(a);
    SomeDot(b);
    NoneButDigits(w);
    hide HasNonDigit;
    if CountDots(w) == 1 {
      forall j | 0 <= j < |w| && j != i ensures '0' <= w[j] <= '9' {
        assert if j < i then w[j] == a[j] && a[j] in a else w[j] == b[j - i - 1] && b[j - i - 1] in b;
      }
    }
  }

  lemma DotFirst(w: string, i: nat)
    requires DotOnlyAt(w, i)
    ensures DotAt(w) == i && ParseReal(w) == Tens(w[..i]) as real + Tens(w[i + 1..]) as real / Pow10(|w| - i - 1) as real
  {
    var a, b := w[..i], w[i + 1..];
    assert AllDigits(a) && AllDigits(b);
    DecimalParts(a, b);
    assert w == a + "." + b;
    TensIsNumber(a);
    TensIsNumber(b);
  }

  lemma DigitsMean(w: string)
    requires OnlyDigits(w)
    ensures !HasNonDigit(w) && CountDots(w) == 0
  {
    NoneButDigits(w);
    DigitsCount(w);
  }

  lemma DotMeans(w: string, i: nat)
    requires DotOnlyAt(w, i)
    ensures !HasNonDigit(w) && CountDots(w) == 1
    ensures ParseReal(w) == Tens(w[..i]) as real + Tens(w[i + 1..]) as real / Pow10(|w| - i - 1) as real
  {
    NoneButDigits(w);
    DotCount(w, i);
    DotFirst(w, i);
  }

  lemma OtherMeans(w: string)
    requires !OnlyDigits(w) && !OneDot(w)
    ensures HasNonDigit(w) || CountDots(w) >= 2
  {
    if !HasNonDigit(w) {
      DigitsCount(w);
      SomeDot(w);
      var i :| 0 <= i < |w| && w[i] == '.';
      DotCount(w, i);
    }
  }

  lemma ScalarMeans(w: string)
    ensures Means(w, Scalar(w, HasNonDigit(w), CountDots(w)))
  {
    hide HasNonDigit, CountDots, ParseReal;
    if OnlyDigits(w) {
      DigitsMean(w);
      TensIsNumber(w);
    } else if !OneDot(w) {
      OtherMeans(w);
    }
    hide OnlyDigits;
    forall i | 0 <= i < |w| && DotOnlyAt(w, i)
      ensures !HasNonDigit(w) && CountDots(w) == 1
      ensures ParseReal(w) == Tens(w[..i]) as real + Tens(w[i + 1..]) as real / Pow10(|w| - i - 1) as real
    {
      DotMeans(w, i);
    }
  }

  // ---- The machine on words ----

  predicate KeyWord(key: string) {
    0 < |key| <= BUFFER_MAX && forall c :: c in key ==> KeyChar(c)
  }

  /** A word that an unquoted value may be: in an array its first character is one of a key. */
  predicate ValueWord(w: string, inArray: bool) {
    0 < |w| <= BUFFER_MAX && AllValueChars(w) && (inArray ==> KeyChar(w[0]))
  }

  lemma WordStarts(v: Var, r: Regs, inArray: bool, t: string, depth: nat)
    requires r.st == Ready(inArray) && t != "" && ValueChar(t[0]) && (inArray ==> KeyChar(t[0]))
    requires !inArray ==> t[0] != ':'
    ensures Level(v, r, t, depth) == Level(v, r.(st := Value(inArray), val := "", nondigits := false, dots := 0), t, depth)
  {
    Go(v, r, t, depth);
  }

  /** The character that ends a word is read again between values. */
  lemma WordEnds(v: Var, r: Regs, inArray: bool, more: string, depth: nat)
    requires r.st == Value(inArray) && more != "" && EndsValue(more[0], inArray)
    ensures Level(v, r, more, depth)
         == Level(Store(v, r.key, inArray, Scalar(r.val, r.nondigits, r.dots)), r.(st := Wait(inArray)), more, depth)
  {
    var v' := Store(v, r.key, inArray, Scalar(r.val, r.nondigits, r.dots));
    var r' := r.(st := Wait(inArray));
    hide Store, Scalar;
    if more[0] != Closer(inArray) {
      Go(v, r, more, depth);
      Go(v', r', more, depth);
    }
  }

  /** A word is stored as what it means. */
  lemma WordRead(v: Var, r: Regs, inArray: bool, w: string, more: string, depth: nat) returns (r': Regs, x: Var)
    requires r.st == Ready(inArray) && ValueWord(w, inArray) && (!inArray ==> w[0] != ':')
    requires more != "" && EndsValue(more[0], inArray)
    ensures r'.st == Wait(inArray) && Means(w, x) && !IsContainer(x) && !x.Null?
    ensures Level(v, r, w + more, depth) == Level(Store(v, r.key, inArray, x), r', more, depth)
  {
    hide Level, Store, HasNonDigit, CountDots, Means, EndsValue;
    assert w[0] in w;
    var r1 := r.(st := Value(inArray), val := "", nondigits := false, dots := 0);
    WordStarts(v, r, inArray, w + more, depth);
    ValueRun(v, r1, w, more, depth);
    var r2 := r1.(val := r1.val + w, dots := r1.dots + CountDots(w), nondigits := r1.nondigits || HasNonDigit(w));
    assert r2.val == w;
    x := Scalar(w, HasNonDigit(w), CountDots(w));
    ScalarMeans(w);
    WordEnds(v, r2, inArray, more, depth);
    r' := r2.(st := Wait(inArray));
  }

  lemma KeyStep(v: Var, r: Regs, c: char, more: string, depth: nat)
    requires r.st.Key? && |r.key| < BUFFER_MAX && KeyChar(c)
    ensures Level(v, r, [c] + more, depth) == Level(v, r.(key := r.key + [c]), more, depth)
  {
    assert ([c] + more)[1..] == more;
    Go(v, r, [c] + more, depth);
  }

  lemma {:induction false} KeySteps(v: Var, r: Regs, s: string, more: string, depth: nat)
    requires r.st.Key? && |r.key| + |s| <= BUFFER_MAX && forall c :: c in s ==> KeyChar(c)
    ensures Level(v, r, s + more, depth) == Level(v, r.(key := r.key + s), more, depth)
    decreases |s|
  {
    hide Level, KeyChar;
    if s == "" {
      assert s + more == more && r.key + s == r.key;
    } else {
      assert s + more == [s[0]] + (s[1..] + more);
      KeyStep(v, r, s[0], s[1..] + more, depth);
      assert r.key + [s[0]] + s[1..] == r.key + s;
      KeySteps(v, r.(key := r.key + [s[0]]), s[1..], more, depth);
    }
  }

  lemma KeyBegins(v: Var, r: Regs, t: string, depth: nat)
    requires (r.st.WaitKey? || r.st.Beginning?) && t != "" && KeyChar(t[0])
    ensures Level(v, r, t, depth) == Level(v, r.(st := Key, key := "", val := ""), t, depth)
  {
    Go(v, r, t, depth);
  }

  /** An unquoted key. */
  lemma KeyWordRead(v: Var, r: Regs, key: string, more: string, depth: nat) returns (r': Regs)
    requires (r.st.WaitKey? || r.st.Beginning?) && KeyWord(key)
    ensures r'.st == Key && r'.key == key
    ensures Level(v, r, key + more, depth) == Level(v, r', more, depth)
  {
    hide Level;
    assert key[0] in key;
    var r1 := r.(st := Key, key := "", val := "");
    KeyBegins(v, r, key + more, depth);
    KeySteps(v, r1, key, more, depth);
    assert "" + key == key;
    r' := r1.(key := key);
  }

  /** What separates a key from its value: a colon or space at first, and more of those or equals
      signs after it. */
  lemma Separated(v: Var, r: Regs, c: char, more: string, depth: nat)
    requires r.st.Key? || r.st.WaitValue?
    requires IsSpace(c) || c == ':' || (c == '=' && r.st.WaitValue?)
    ensures Level(v, r, [c] + more, depth) == Level(v, r.(st := WaitValue), more, depth)
  {
    assert ([c] + more)[1..] == more;
    Go(v, r, [c] + more, depth);
  }

  // ---- On the text ----

  /** The text "key: word", and a character that ends the word. */
  lemma Unquoted(key: string, w: string, c: char) returns (x: Var)
    requires KeyWord(key) && |key| <= 127 && ValueWord(w, false) && w[0] != ':'
    requires IsSpace(c) || c == ',' || c == '}'
    ensures Means(w, x)
    ensures Parse(Null, key + ": " + w + [c]) == Done(true, Dict([Member(key, x)]), if c == '}' then "}" else "")
  {
    hide Level, Means, KeyWord, ValueWord;
    assert key + ": " + w + [c] == key + ([':'] + ([' '] + (w + [c])));
    assert key != "" by {
      NotEmpty(key);
    }
    var r := KeyWordRead(Null, Start(Beginning), key, [':'] + ([' '] + (w + [c])), 0);
    Separated(Null, r, ':', [' '] + (w + [c]), 0);
    Separated(Null, r.(st := WaitValue), ' ', w + [c], 0);
    var r';
    r', x := WordRead(Null, r.(st := WaitValue), false, w, [c], 0);
    var v := Dict([Member(key, x)]);
    assert Store(Null, key, false, x) == v;
    LastChar(v, r', c);
  }

  lemma NotEmpty(key: string)
    requires KeyWord(key)
    ensures key != ""
  {
  }

  lemma LastChar(v: Var, r: Regs, c: char)
    requires r.st == WaitKey && (IsSpace(c) || c == ',' || c == '}')
    ensures Level(v, r, [c], 0) == Done(true, v, if c == '}' then "}" else "")
  {
    if c != '}' {
      Go(v, r, [c], 0);
    }
  }

  /** The same in an array: "key: [word]". */
  lemma UnquotedElem(key: string, w: string) returns (x: Var)
    requires KeyWord(key) && |key| <= 127 && ValueWord(w, true)
    ensures Means(w, x)
    ensures Parse(Null, key + ": [" + w + "]") == Done(true, Dict([Member(key, Arr([x]))]), "")
  {
    hide Level, Means, KeyWord, ValueWord;
    var inside := w + "]";
    assert key + ": [" + w + "]" == key + ([':'] + ([' '] + (['['] + inside)));
    assert key != "" by {
      NotEmpty(key);
    }
    var r := KeyWordRead(Null, Start(Beginning), key, [':'] + ([' '] + (['['] + inside)), 0);
    Separated(Null, r, ':', [' '] + (['['] + inside), 0);
    var r1 := r.(st := WaitValue);
    Separated(Null, r1, ' ', ['['] + inside, 0);
    var r2;
    r2, x := WordRead(Arr([]), Start(WaitElem), true, w, "]", 1);
    assert Store(Arr([]), "", true, x) == Arr([x]);
    Closes(Arr([x]), r2, true, "", 1);
    assert [']'] + "" == "]";
    ContainerOpens(Null, r1, false, true, inside, Arr([x]), "]", 0);
    assert Added(Null, key, false, Arr([x])) == Dict([Member(key, Arr([x]))]);
    NothingLeft(Dict([Member(key, Arr([x]))]), r1.(st := WaitKey));
  }

  lemma NothingLeft(v: Var, r: Regs)
    ensures Level(v, r, "", 0) == Done(true, v, "")
  {
  }

  /** Three kinds of words, told by what was stored: an integer exactly for digits alone, a double
      exactly for digits and one dot, and the word itself in every other case. */
  lemma Kinds(w: string, x: Var)
    requires Means(w, x)
    ensures x.Int? <==> OnlyDigits(w)
    ensures x.Dbl? <==> OneDot(w)
    ensures x.Str? <==> !OnlyDigits(w) && !OneDot(w)
    ensures x.Str? ==> x.s == w
  {
    if i :| 0 <= i < |w| && DotOnlyAt(w, i) {
      assert !OnlyDigits(w);
    }
  }

  // ---- Lines of a configuration ----

  lemma TwoDots(w: string, i: nat, j: nat)
    requires i < j < |w| && w[i] == '.' == w[j]
    ensures Means(w, Str(w)) && forall x :: Means(w, x) ==> x == Str(w)
  {
    assert !OnlyDigits(w);
  }

  lemma AddressWords()
    ensures KeyWord("address") && |"address"| <= 127
    ensures ValueWord("192.168.1.1", false) && ValueWord("0.0.0.0", false)
  {
  }

  lemma AddressLine(w: string) returns (x: Var)
    requires w == "192.168.1.1" || w == "0.0.0.0"
    ensures Parse(Null, "address" + ": " + w + ['\n']) == Done(true, Dict([Member("address", Str(w))]), "")
  {
    AddressWords();
    hide Parse, Means, KeyWord, ValueWord;
    x := Unquoted("address", w, '\n');
    if w == "0.0.0.0" {
      TwoDots(w, 1, 3);
    } else {
      TwoDots(w, 3, 7);
    }
  }

  /** An address keeps its dots. */
  lemma Address()
    ensures Parse(Null, "address" + ": " + "192.168.1.1" + ['\n']) == Done(true, Dict([Member("address", Str("192.168.1.1"))]), "")
    ensures Parse(Null, "address" + ": " + "0.0.0.0" + ['\n']) == Done(true, Dict([Member("address", Str("0.0.0.0"))]), "")
  {
    hide Parse;
    var x := AddressLine("192.168.1.1");
    var y := AddressLine("0.0.0.0");
  }
}
