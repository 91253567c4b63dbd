/** Texts that the parser refuses or loses something of: wrong characters, parts that are too
    long, and texts that end in the middle. And what is printed of a root that is no dictionary. */
module JsonEdges {
  import opened Json
  import opened JsonTrip
  import opened JsonWords
  import opened JsonLoose
  import opened Wrappers

  // ---- Wrong characters ----

  /** Where a key may start nothing else may, but gaps, the closing brace and a quote. */
  lemma NoKey(v: Var, c: char, more: string)
    requires !NameChar(c) && !White(c) && c != ',' && c != '#' && c != '\"' && c != '}' && c != '{'
    ensures Parse(v, [c] + more) == Done(false, v, [c] + more)
  {
    CharsAre(c);
  }

  /** A brace opens the text once. */
  lemma NoBraceTwice(v: Var, more: string)
    ensures Parse(v, ['{'] + (['{'] + more)) == Done(false, v, ['{'] + more)
  {
    assert (['{'] + (['{'] + more))[1..] == ['{'] + more;
    Go(v, Start(Beginning), ['{'] + (['{'] + more), 0);
  }

  /** After a key and its gaps there must be a value. */
  lemma NoValue(v: Var, r: Regs, c: char, more: string, depth: nat)
    requires r.st.WaitValue? && !White(c) && c != ':' && c != '=' && c != '#'
    requires !WordChar(c) && c != '\"' && c != '{' && c != '['
    ensures Level(v, r, [c] + more, depth) == Done(false, v, [c] + more)
  {
    CharsAre(c);
  }

  lemma NoElem(v: Var, r: Regs, c: char, more: string, depth: nat)
    requires r.st.WaitElem? && !White(c) && c != ',' && c != '#'
    requires !NameChar(c) && c != '\"' && c != '{' && c != '[' && c != ']'
    ensures Level(v, r, [c] + more, depth) == Done(false, v, [c] + more)
  {
    CharsAre(c);
  }

  /** In the middle of a key or of a word every other character is refused, an equals sign too. */
  lemma BrokenOff(v: Var, r: Regs, c: char, more: string, depth: nat)
    requires match r.st
      case Key => !NameChar(c) && !White(c) && c != ':' && c != '#' && c != '{' && c != '['
      case Value(inArray) => !WordChar(c) && !White(c) && c != ',' && c != '#' && c != (if inArray then ']' else '}')
      case _ => false
    ensures Level(v, r, [c] + more, depth) == Done(false, v, [c] + more)
  {
    CharsAre(c);
  }

  // ---- Parts that are too long ----

  lemma FullKey(v: Var, r: Regs, t: string, depth: nat)
    requires r.st.Key? && |r.key| == 4095 && t != "" && NameChar(t[0])
    ensures Level(v, r, t, depth) == Done(false, v, t)
  {
    CharsAre(t[0]);
  }

  /** A key of 4096 characters is refused, and one of 4095 is read, as the grammar says. */
  lemma LongName(v: Var, w: string, more: string)
    requires |w| == 4096 && forall c :: c in w ==> NameChar(c)
    ensures Refused(Parse(v, w + more))
  {
    hide Level, KeyWord, GoodName, NameChar;
    var a, b := w[..4095], w[4095..];
    assert w + more == a + (b + more) && w[4095] in w;
    assert forall c :: c in a ==> c in w;
    assert GoodName(a) by {
      FitsName(a);
    }
    WordsAre(a);
    var r := KeyWordRead(v, Start(Beginning), a, b + more, 0);
    FullKey(v, r, b + more, 0);
  }

  lemma FitsName(w: string)
    requires 0 < |w| <= 4095 && forall c :: c in w ==> NameChar(c)
    ensures GoodName(w)
  {
  }

  lemma FullValue(v: Var, r: Regs, t: string, depth: nat)
    requires (r.st.Value? || r.st.Quoted?) && |r.val| == 4095 && t != "" && (if r.st.Value? then WordChar(t[0]) else t[0] != '\"')
    ensures Level(v, r, t, depth) == Done(false, v, t)
  {
    CharsAre(t[0]);
    ColonEndsNothing(t[0]);
  }

  lemma ColonEndsNothing(c: char)
    ensures WordChar(c) ==> !EndsValue(c, true) && !EndsValue(c, false)
  {
  }

  /** The same of a value, or of an element, without quotes. */
  lemma LongWord(v: Var, r: Regs, inArray: bool, w: string, more: string, depth: nat)
    requires r.st == Ready(inArray) && |w| == 4096 && (forall c :: c in w ==> WordChar(c))
    requires if inArray then NameChar(w[0]) else w[0] != ':'
    ensures Refused(Level(v, r, w + more, depth))
  {
    hide Level, NameChar, WordChar, HasNonDigit, CountDots;
    var a, b := w[..4095], w[4095..];
    assert w + more == a + (b + more) && w[4095] in w && a[0] == w[0] && a[0] in w;
    CharsAre(a[0]);
    assert AllValueChars(a) by {
      forall c | c in a ensures ValueChar(c) {
        assert c in w;
        CharsAre(c);
      }
    }
    var r1 := r.(st := Value(inArray), val := "", nondigits := false, dots := 0);
    WordStarts(v, r, inArray, a + (b + more), depth);
    ValueRun(v, r1, a, b + more, depth);
    var r2 := r1.(val := r1.val + a, dots := r1.dots + CountDots(a), nondigits := r1.nondigits || HasNonDigit(a));
    assert r2.val == a;
    FullValue(v, r2, b + more, depth);
  }

  /** And of what stands between quotes, where a backslash and its letter count once. */
  lemma LongText(v: Var, r: Regs, inArray: bool, ps: seq<Piece>, more: string, depth: nat)
    requires r.st == Ready(inArray) && |ps| == 4095 && GoodPieces(ps) && more != "" && more[0] != '\"'
    ensures Refused(Level(v, r, ['\"'] + (PiecesText(ps) + more), depth))
  {
    hide Level, PiecesText, Letters;
    assert ['\"'] + (PiecesText(ps) + more) == "\"" + (PiecesText(ps) + more);
    QuoteOpens(v, r, inArray, PiecesText(ps) + more, depth);
    var r1 := r.(st := Quoted(inArray), val := "");
    PiecesRead(v, r1, ps, more, depth);
    assert "" + Letters(ps, false) == Letters(ps, false);
    FullValue(v, r1.(val := "" + Letters(ps, false)), more, depth);
  }

  lemma LongPhrase(v: Var, ps: seq<Piece>, more: string)
    requires |ps| == 4095 && GoodPieces(ps) && more != "" && more[0] != '\"'
    ensures Refused(Parse(v, ['\"'] + (PiecesText(ps) + more)))
  {
    hide Level, PiecesText, Letters;
    var r := Start(Beginning);
    PhraseOpens(v, r, PiecesText(ps) + more, 0);
    var r1 := r.(st := KeyQuoted, key := "", val := "");
    PiecesRead(v, r1, ps, more, 0);
    assert "" + Letters(ps, true) == Letters(ps, true);
    FullPhrase(v, r1.(key := "" + Letters(ps, true)), more);
  }

  lemma FullPhrase(v: Var, r: Regs, t: string)
    requires r.st.KeyQuoted? && |r.key| == 4095 && t != "" && t[0] != '\"'
    ensures Refused(Level(v, r, t, 0))
  {
  }

  // ---- Texts that end in the middle ----

  /** A word at the very end of a text is lost, without an error. */
  lemma WordLost(v: Var, r: Regs, w: string)
    requires r.st.WaitValue? && GoodWord(w, false)
    ensures Level(v, r, w, 0) == Done(true, v, "")
  {
    WordsAre(w);
    hide Level, HasNonDigit, CountDots, ValueWord, GoodWord;
    assert w + "" == w;
    var r1 := r.(st := Value(false), val := "", nondigits := false, dots := 0);
    WordIs(w);
    WordStarts(v, r, false, w, 0);
    ValueRun(v, r1, w, "", 0);
    NothingLeft(v, r1.(val := r1.val + w, dots := r1.dots + CountDots(w), nondigits := r1.nondigits || HasNonDigit(w)));
  }

  lemma WordIs(w: string)
    requires ValueWord(w, false)
    ensures 0 < |w| <= 4095 && AllValueChars(w) && ValueChar(w[0])
  {
    assert w[0] in w;
  }

  /** So is a text that nothing closes, and a key without a value. */
  lemma TextLost(v: Var, r: Regs, ps: seq<Piece>)
    requires r.st.WaitValue? && GoodPieces(ps)
    ensures Level(v, r, ['\"'] + PiecesText(ps), 0) == Done(true, v, "") && Level(v, r, "", 0) == Done(true, v, "")
  {
    NothingLeft(v, r);
    hide Level, PiecesText, Letters;
    assert ['\"'] + PiecesText(ps) == "\"" + (PiecesText(ps) + "");
    QuoteOpens(v, r, false, PiecesText(ps) + "", 0);
    var r1 := r.(st := Quoted(false), val := "");
    PiecesRead(v, r1, ps, "", 0);
    NothingLeft(v, r1.(val := r1.val + Letters(ps, false)));
  }

  /** A line of a configuration without its line end. */
  lemma LineLost(key: string, w: string)
    requires GoodName(key) && GoodWord(w, false)
    ensures Parse(Null, key + ([':'] + ([' '] + w))) == Done(true, Null, "")
  {
    WordsAre(key);
    hide Level, KeyWord, GoodWord;
    var r := KeyWordRead(Null, Start(Beginning), key, [':'] + ([' '] + w), 0);
    Separated(Null, r, ':', [' '] + w, 0);
    Separated(Null, r.(st := WaitValue), ' ', w, 0);
    WordLost(Null, r.(st := WaitValue), w);
  }

  /** A backslash at the very end makes the parser read past it. */
  lemma BackslashLast(v: Var, r: Regs, ps: seq<Piece>, depth: nat)
    requires (r.st.KeyQuoted? && |r.key| + |ps| < 4095) || (r.st.Quoted? && |r.val| + |ps| < 4095)
    requires GoodPieces(ps)
    ensures Level(v, r, PiecesText(ps) + "\\", depth) == PastEnd
  {
    hide Level, PiecesText, Letters;
    PiecesRead(v, r, ps, "\\", depth);
    Slashed(v, if r.st.KeyQuoted? then r.(key := r.key + Letters(ps, true)) else r.(val := r.val + Letters(ps, false)), depth);
  }

  lemma Slashed(v: Var, r: Regs, depth: nat)
    requires (r.st.KeyQuoted? && |r.key| < 4095) || (r.st.Quoted? && |r.val| < 4095)
    ensures Level(v, r, "\\", depth) == PastEnd
  {
    assert "\\"[1..] == "";
  }

  /** So does a text that ends within a table or a list, after the brace that it lacks. */
  lemma TableOpen(v: Var, r: Regs, items: Items)
    requires r.st.WaitValue? && v == Dict([]) && GoodItems(items, false) && Meant(Dict([]), items, 1).Some?
    ensures Level(v, r, ['{'] + ItemsText(items), 0) == PastEnd
  {
    hide Level, GoodItems, Meant, ItemsText;
    assert ItemsText(items) + "" == ItemsText(items);
    assert Child(v, r, false) == Some(Dict([]));
    var r' := ItemsRead(Dict([]), Start(WaitKey), items, false, "", 1);
    NothingThere(Meant(Dict([]), items, 1).value, r', 1);
    NeverShut(v, r, ItemsText(items), Dict([]), 0);
  }

  lemma NothingThere(v: Var, r: Regs, depth: nat)
    ensures Level(v, r, "", depth) == Done(true, v, "")
  {
  }

  lemma NeverShut(v: Var, r: Regs, t: string, child: Var, depth: nat)
    requires Opening(r.st) && depth < MAX_DEPTH && Child(v, r, false) == Some(child)
    requires var inner := Level(child, Start(WaitKey), t, depth + 1); inner.Done? && inner.ok && inner.rest == ""
    ensures Level(v, r, ['{'] + t, depth) == PastEnd
  {
    var all := ['{'] + t;
    assert all[1..] == t && Step(v, r, all) == Open(false, r);
    hide Child;
  }

  // ---- What is printed ----

  lemma {:induction false} SpacesAre(n: nat)
    ensures Spaces(n) == seq(n, _ => ' ')
  {
    if n > 0 {
      SpacesAre(n - 1);
      assert " " + seq(n - 1, _ => ' ') == seq(n, _ => ' ');
    }
  }

  /** Four more blanks a level, and no more than 128. */
  lemma IndentIs(n: nat)
    ensures Indent(n) == seq(if n <= 128 then n else 128, _ => ' ')
    ensures Deeper(n) == |Indent(n)| + 4
  {
    SpacesAre(if n > 128 then 128 else n);
  }

  /** A dictionary at the root is printed as it is anywhere. An array is printed in braces, and of
      anything else there is nothing, which is an error. */
  lemma RootPrinted(v: Var)
    ensures v.Dict? ==> Write(v) == (ValueText(v, 0) + "\n", true)
    ensures v.Arr? ==> var t := ValueText(v, 0);
      |t| >= 3 && t == "[" + t[1..|t| - 1] + "]" && Write(v) == ("{" + t[1..|t| - 1] + "}\n", true)
    ensures !v.Dict? && !v.Arr? ==> Write(v) == ("{\n}\n", false)
  {
    assert Indent(0) == "";
    match v {
      case Arr(es) =>
        var inside := Json.ElemsText(v, es, 0, 4);
        assert ValueText(v, 0) == "[\n" + inside + "]";
        hide Json.ElemsText;
        assert ValueText(v, 0)[1..|ValueText(v, 0)| - 1] == "\n" + inside;
        assert "{" + ("\n" + inside) + "}\n" == "{\n" + inside + "}\n";
      case Dict(ms) =>
        var inside := Json.MembersText(v, ms, 0, 4);
        assert ValueText(v, 0) == "{\n" + inside + "}";
        hide Json.MembersText;
        assert "{\n" + inside + "}" + "\n" == "{\n" + inside + "}\n" by {
          assert "}" + "\n" == "}\n";
          assert ("{\n" + inside) + ("}" + "\n") == ("{\n" + inside + "}") + "\n";
        }
      case _ =>
    }
  }
}
