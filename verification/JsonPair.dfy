/** Two strings that are cut off can make up for each other: why JsonCuts.RoundTrip says nothing
    of an even number of them. */
module JsonPair {
  import opened Json
  import opened JsonTrip
  import opened JsonCuts

  lemma {:induction false} EscapeConcat(a: string, b: string)
    ensures Escape(a + b) == Escape(a) + Escape(b)
  {
    if a == "" {
      assert a + b == b;
    } else {
      assert (a + b)[1..] == a[1..] + b;
      EscapeConcat(a[1..], b);
    }
  }

  /** Inside of quotes, characters that need no escape are taken as they are. */
  lemma {:induction false} RawRun(v: Var, r: Regs, s: string, more: string, depth: nat)
    requires r.st.Quoted? && |r.val| + |s| <= BUFFER_MAX && Plain(s)
    ensures Level(v, r, s + more, depth) == Level(v, r.(val := r.val + s), more, depth)
    decreases |s|
  {
    hide Level;
    if s == "" {
      assert s + more == more && r.val + s == r.val;
    } else {
      assert s[0] in s && forall c :: c in s[1..] ==> c in s;
      var t := s + more;
      assert t[1..] == s[1..] + more;
      RawChar(v, r, t, depth);
      assert r.val + [s[0]] + s[1..] == r.val + s;
      RawRun(v, r.(val := r.val + [s[0]]), s[1..], more, depth);
    }
  }

  lemma RawChar(v: Var, r: Regs, t: string, depth: nat)
    requires r.st.Quoted? && |r.val| < BUFFER_MAX && t != "" && t[0] != '\"' && t[0] != '\\'
    ensures Level(v, r, t, depth) == Level(v, r.(val := r.val + [t[0]]), t[1..], depth)
  {
    Go(v, r, t, depth);
  }

  /** A string without its closing quote takes in what stands before the next quote. */
  lemma CutRead(v: Var, r: Regs, inArray: bool, q: string, gap: string, more: string, depth: nat) returns (r': Regs)
    requires r.st == Ready(inArray) && |q + gap| <= BUFFER_MAX && Plain(gap)
    ensures r'.st == Wait(inArray) && r'.key == r.key
    ensures Level(v, r, "\"" + (Escape(q) + (gap + ("\"" + more))), depth)
         == Level(Store(v, r.key, inArray, Str(q + gap)), r', more, depth)
  {
    hide Level, Escape, Store, Plain;
    var tail := gap + ("\"" + more);
    var r1 := r.(st := Quoted(inArray), val := "");
    QuoteOpens(v, r, inArray, Escape(q) + tail, depth);
    QuotedRun(v, r1, q, tail, depth);
    assert r1.val + q == q;
    RawRun(v, r1.(val := q), gap, "\"" + more, depth);
    QuoteCloses(v, r1.(val := q + gap), inArray, more, depth);
    r' := r1.(val := q + gap, st := Wait(inArray));
  }

  /** A word that needs no quotes. */
  predicate Word(s: string) {
    s != "" && |s| <= BUFFER_MAX && KeyChar(s[0]) && AllValueChars(s) && HasNonDigit(s)
  }

  /** Outside of quotes a word is a string as well. */
  lemma WordRead(v: Var, r: Regs, word: string, more: string, depth: nat) returns (r': Regs)
    requires r.st == WaitElem && Word(word) && Follows(more)
    ensures r'.st == WaitElem
    ensures Level(v, r, word + more, depth) == Level(Append(v, Str(word)), r', more, depth)
  {
    hide Level, Append, HasNonDigit, CountDots, AllValueChars, KeyChar, Follows;
    NumberStarts(v, r, true, word + more, depth);
    var r1 := r.(st := Value(true), val := "", nondigits := false, dots := 0);
    ValueRun(v, r1, word, more, depth);
    var r2 := r1.(val := r1.val + word, dots := r1.dots + CountDots(word), nondigits := r1.nondigits || HasNonDigit(word));
    assert r2.val == word;
    NumberEnds(v, r2, true, more, depth);
    r' := r2.(st := WaitElem);
  }

  function ArrayText(q: string, gap: string, word: string, end: string): string {
    "\"" + (Escape(q) + (gap + ("\"" + (word + end))))
  }

  /** The text of an array of two strings, both without their closing quotes. */
  lemma PairRead(q: string, gap: string, word: string, more: string, depth: nat)
    requires |q + gap| <= BUFFER_MAX && Plain(gap) && Word(word)
    ensures Level(Arr([]), Start(WaitElem), ['\n'] + (Indent(8) + ArrayText(q, gap, word, ['\n'] + EndText(4, true, more))), depth)
         == Done(true, Arr([Str(q + gap), Str(word)]), "]" + more)
  {
    hide Level, Escape, Indent, EndText, Plain, Word;
    var v0, v1, r0 := Arr([]), Arr([Str(q + gap)]), Start(WaitElem);
    var end := ['\n'] + EndText(4, true, more);
    var body := ArrayText(q, gap, word, end);
    SkipOne(v0, r0, '\n', Indent(8) + body, depth);
    ItemStarts(v0, r0, 0, 8, body, depth);
    assert Separator(0) + Indent(8) + body == Indent(8) + body;
    var r1 := CutRead(v0, r0, true, q, gap, word + end, depth);
    assert Store(v0, "", true, Str(q + gap)) == v1;
    var r2 := WordRead(v1, r1, word, end, depth);
    assert Append(v1, Str(word)) == Arr([Str(q + gap), Str(word)]);
    ItemsEnd(Append(v1, Str(word)), r2, true, 2, 4, more, depth);
    assert Ending(2) == ['\n'];
  }

  /** What stands between two elements of an array at this depth. */
  function Gap(): string {
    ",\n" + Indent(8)
  }

  /** 2047 quotes, each escaped, fill the printer's buffer. */
  function Quotes(): (s: string)
    ensures |s| == 2047
  {
    Repeated('\"', 2047)
  }

  /** 4094 letters lose their closing quote alone. */
  function Letters(): (s: string)
    ensures |s| == 4094
  {
    Repeated('a', 4094)
  }

  lemma {:induction false} SpacesLength(n: nat)
    ensures |Spaces(n)| == n
  {
    if n > 0 {
      SpacesLength(n - 1);
    }
  }

  lemma GapFits()
    ensures |Gap()| == 10 && Plain(Gap())
  {
    SpacesLength(8);
    IndentPlain(1, 8);
    hide Spaces;
  }

  lemma LettersText()
    ensures StringText(Letters()) == "\"" + Letters() && IsCut(Letters())
  {
    RepeatedText('a', 4094);
    WithoutQuote(Letters());
    hide Escape, Letters;
  }

  lemma WithoutQuote(s: string)
    requires |s| == 4094
    ensures Printed("\"" + s + "\"") == "\"" + s
  {
    var t := "\"" + s + "\"";
    assert t == ("\"" + s) + "\"";
    assert t[..PRINT_MAX] == "\"" + s;
  }

  lemma LettersWord()
    ensures Word(Letters())
  {
    var s := Letters();
    assert s[0] in s && NonDigit('a');
    assert forall c :: c in s ==> c == 'a';
  }

  lemma QuotesText()
    ensures StringText(Quotes() + Gap()) == "\"" + Escape(Quotes()) && IsCut(Quotes() + Gap())
  {
    RepeatedText('\"', 2047);
    EscapeConcat(Quotes(), Gap());
    GapFits();
    EscapeGrows(Gap());
    CutAfter(Escape(Quotes()), Escape(Gap()));
    hide Escape, Gap, Quotes;
  }

  lemma CutAfter(e: string, f: string)
    requires |e| == 4094 && f != ""
    ensures Printed("\"" + (e + f) + "\"") == "\"" + e
  {
    var t := "\"" + (e + f) + "\"";
    assert t == ("\"" + e) + (f + "\"");
    assert t[..PRINT_MAX] == "\"" + e;
  }

  function Pair(): Var {
    Arr([Str(Quotes() + Gap()), Str(Letters())])
  }

  function Root(): seq<Member> {
    [Member("a", Pair())]
  }

  lemma PairFits()
    ensures Fits(Dict(Root()), 0) && Cuts(Dict(Root())) == 2
  {
    LettersText();
    QuotesText();
    var first, second, pair := Quotes() + Gap(), Letters(), Pair();
    CutString(first);
    CutString(second);
    hide IsCut, StringText, Gap, Quotes, Letters, Word;
    assert Fits(Str(first), 2) && Fits(Str(second), 2) && Fits(pair, 1);
    assert ElemCuts(pair, pair.elems, 2) == 0 && ElemCuts(pair, pair.elems, 1) == 1;
    assert Cuts(pair) == 2 && MemberCuts(Dict(Root()), Root(), 1) == 0;
  }

  lemma PairText()
    ensures ValueText(Pair(), 4) == "[\n" + (Indent(8) + StringText(Quotes() + Gap()) + (Gap() + StringText(Letters()) + "\n")) + Indent(4) + "]"
  {
    hide StringText, Indent, Quotes, Letters;
    var pair := Pair();
    assert ElemsText(pair, pair.elems, 2, 8) == "\n";
    assert ElemsText(pair, pair.elems, 1, 8) == Gap() + StringText(Letters()) + "\n";
    assert ElemsText(pair, pair.elems, 0, 8) == Indent(8) + StringText(Quotes() + Gap()) + ElemsText(pair, pair.elems, 1, 8);
  }

  lemma Joined(open: string, i8: string, e: string, gap: string, b: string, i4: string, more: string)
    ensures open + (i8 + ("\"" + e) + (gap + ("\"" + b) + "\n")) + i4 + "]" + more
      == open + (i8 + ("\"" + (e + (gap + ("\"" + (b + (['\n'] + (i4 + ([']'] + more)))))))))
  {
  }

  /** The whole text, from the array's value on. */
  lemma ValueIs(more: string)
    ensures ValueText(Pair(), 4) + more
      == ['['] + (['\n'] + (Indent(8) + ArrayText(Quotes(), Gap(), Letters(), ['\n'] + EndText(4, true, more))))
  {
    PairText();
    QuotesText();
    LettersText();
    hide StringText, Indent, Quotes, Letters, Gap, Escape, IsCut, Word, ValueText;
    Joined("[\n", Indent(8), Escape(Quotes()), Gap(), Letters(), Indent(4), more);
    assert "[\n" == ['['] + ['\n'];
  }

  lemma RootText(end: string)
    requires end == ['\n'] + EndText(0, false, "\n")
    ensures Write(Dict(Root())).0 == "{\n" + (Separator(0) + Indent(4) + (KeyText("a") + (ValueText(Pair(), 4) + end)))
  {
    hide ValueText, Indent, KeyText;
    assert MembersText(Dict(Root()), Root(), 1, 4) == "\n";
    assert EndText(0, false, "\n") == "}\n" by { NoIndent(); }
    assert "\n" + "}\n" == end;
  }

  lemma NoIndent()
    ensures Indent(0) == ""
  {
  }

  /** A root with one array as its only member. */
  lemma ArrayReads(arr: Var, inner: string, end: string)
    requires arr.Arr? && end == ['\n'] + EndText(0, false, "\n")
    requires Level(Arr([]), Start(WaitElem), inner, 1) == Done(true, arr, "]" + end)
    requires Write(Dict([Member("a", arr)])).0 == "{\n" + (Separator(0) + Indent(4) + (KeyText("a") + (['['] + inner)))
    ensures ComesBack([Member("a", arr)])
  {
    hide Level, Indent, EndText, KeyText, Write, Parse;
    var r0 := Start(Beginning).(st := WaitKey);
    var text := KeyText("a") + (['['] + inner);
    TextStarts(Null, Separator(0) + Indent(4) + text);
    ItemStarts(Null, r0, 0, 4, text, 0);
    var r1 := KeyRead(Null, r0, "a", ['['] + inner, 0);
    ContainerOpens(Null, r1, false, true, inner, arr, "]" + end, 0);
    assert ("]" + end)[1..] == end;
    assert Added(Null, "a", false, arr) == Dict([Member("a", arr)]);
    ItemsEnd(Dict([Member("a", arr)]), r1.(st := WaitKey), false, 1, 0, "\n", 0);
    assert Ending(1) + EndText(0, false, "\n") == end;
  }

  /** Two of its strings are cut off, and it comes back. */
  lemma PairComesBack()
    ensures Fits(Dict(Root()), 0) && Cuts(Dict(Root())) == 2 && ComesBack(Root())
  {
    PairFits();
    GapFits();
    LettersWord();
    hide Level, Indent, EndText, KeyText, ValueText, Fits, Cuts, Quotes, Letters, Gap, ArrayText, Write, Word, ComesBack;
    var end := ['\n'] + EndText(0, false, "\n");
    RootText(end);
    ValueIs(end);
    PairRead(Quotes(), Gap(), Letters(), end, 1);
    ArrayReads(Pair(), ['\n'] + (Indent(8) + ArrayText(Quotes(), Gap(), Letters(), ['\n'] + EndText(4, true, end))), end);
  }
}
