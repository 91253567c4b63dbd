/** Parsing the texts of the parser's own test, in both of the notations it has. */
module JsonSamples {
  import opened Json
  import opened JsonTrip
  import opened JsonWords
  import opened Wrappers

  // ---- Words of the test ----

  lemma LetterWord(w: string)
    requires w != "" && IsLetter(w[0])
    ensures forall x :: Means(w, x) ==> x == Str(w)
  {
    assert !OnlyDigits(w);
    forall i | 0 <= i < |w| ensures !DotOnlyAt(w, i) {
    }
  }

  lemma PortWord(x: Var)
    requires Means("3333", x)
    ensures x == Int(3333)
  {
    assert OnlyDigits("3333");
    assert "3333"[..3] == "333" && "333"[..2] == "33" && "33"[..1] == "3" && "3"[..0] == "";
    assert Tens("3") == 3;
    assert Tens("33") == 33;
    assert Tens("333") == 333;
    assert Tens("3333") == 3333;
  }

  lemma AddressWord(x: Var)
    requires Means("192.168.1.1", x)
    ensures x == Str("192.168.1.1")
  {
    TwoDots("192.168.1.1", 3, 7);
  }

  lemma TestWords()
    ensures KeyWord("collector") && KeyWord("listenport") && KeyWord("address") && KeyWord("key") && KeyWord("colors")
    ensures ValueWord("3333", false) && ValueWord("192.168.1.1", false)
    ensures ValueWord("red", true) && ValueWord("green", true) && ValueWord("blue", true)
  {
  }

  // ---- Parts of a line ----

  /** A comment up to the end of its line. */
  lemma CommentRead(v: Var, r: Regs, s: string, more: string, depth: nat) returns (r': Regs)
    requires r.st.WaitKey? && '\n' !in s
    ensures r'.st == WaitKey
    ensures Level(v, r, ['#'] + s + ['\n'] + more, depth) == Level(v, r', more, depth)
  {
    var t := s + ['\n'] + more;
    r' := r.(stnext := WaitKey, st := Comment);
    assert ['#'] + s + ['\n'] + more == ['#'] + t && (['#'] + t)[1..] == t;
    Go(v, r, ['#'] + t, depth);
    CommentRun(v, r', s, more, depth);
    r' := r'.(st := WaitKey);
  }

  lemma {:induction false} CommentRun(v: Var, r: Regs, s: string, more: string, depth: nat)
    requires r.st.Comment? && '\n' !in s
    ensures Level(v, r, s + ['\n'] + more, depth) == Level(v, r.(st := r.stnext), more, depth)
    decreases |s|
  {
    var t := s + ['\n'] + more;
    Go(v, r, t, depth);
    hide Level;
    if s == "" {
      assert t[1..] == more;
    } else {
      assert t[1..] == s[1..] + ['\n'] + more;
      CommentRun(v, r, s[1..], more, depth);
    }
  }

  /** A key and a number or name under it, after blanks, and what ends the word still to come. */
  lemma Setting(v: Var, r: Regs, n: nat, key: string, colon: string, w: string, more: string, depth: nat) returns (r': Regs, x: Var)
    requires r.st == WaitKey && KeyWord(key) && ValueWord(w, false) && w[0] != ':'
    requires colon == ":" || colon == ": " || colon == " "
    requires more != "" && EndsValue(more[0], false)
    ensures r'.st == WaitKey && Means(w, x) && !IsContainer(x) && !x.Null?
    ensures Level(v, r, Spaces(n) + key + colon + w + more, depth) == Level(SetScalar(v, key, x), r', more, depth)
  {
    assert key[0] in key;
    hide Level, Means, KeyWord, ValueWord, Spaces, EndsValue, SetScalar;
    var t := w + more;
    assert Spaces(n) + key + colon + w + more == Spaces(n) + (key + (colon + t));
    SkipSpaces(v, r, n, key + (colon + t), depth);
    var r1 := KeyWordRead(v, r, key, colon + t, depth);
    if colon == ": " {
      assert colon + t == [':'] + ([' '] + t);
      Separated(v, r1, ':', [' '] + t, depth);
      Separated(v, r1.(st := WaitValue), ' ', t, depth);
    } else {
      assert colon + t == [colon[0]] + t;
      Separated(v, r1, colon[0], t, depth);
    }
    r', x := WordRead(v, r1.(st := WaitValue), false, w, more, depth);
  }

  /** The same with a quoted value. */
  lemma QuotedSetting(v: Var, r: Regs, n: nat, key: string, colon: char, s: string, more: string, depth: nat) returns (r': Regs)
    requires r.st == WaitKey && KeyWord(key) && |s| <= BUFFER_MAX && (colon == ':' || colon == ' ')
    ensures r'.st == WaitKey
    ensures Level(v, r, Spaces(n) + key + [colon] + "\"" + Escape(s) + "\"" + more, depth) == Level(SetScalar(v, key, Str(s)), r', more, depth)
  {
    hide Level, KeyWord, Spaces, SetScalar, Escape;
    var t := "\"" + Escape(s) + "\"" + more;
    assert Spaces(n) + key + [colon] + "\"" + Escape(s) + "\"" + more == Spaces(n) + (key + ([colon] + t));
    SkipSpaces(v, r, n, key + ([colon] + t), depth);
    var r1 := KeyWordRead(v, r, key, [colon] + t, depth);
    Separated(v, r1, colon, t, depth);
    r' := StringRead(v, r1.(st := WaitValue), false, s, more, depth);
  }

  const SHANKS := "johnWithTheLongShanks"

  lemma PlainEscape()
    ensures Escape(SHANKS) == SHANKS
  {
    AsIs(SHANKS);
  }

  lemma {:induction false} AsIs(s: string)
    requires forall c :: c in s ==> IsLetter(c)
    ensures Escape(s) == s
  {
    if s != "" {
      assert s[0] in s;
      AsIs(s[1..]);
    }
  }

  // ---- The expected tree ----

  function Collector(): Var {
    Dict([Member("listenport", Int(3333)), Member("address", Str("192.168.1.1")), Member("key", Str(SHANKS))])
  }

  function Colors(): Var {
    Arr([Str("red"), Str("green"), Str("blue")])
  }

  lemma CollectorBuilt()
    ensures SetScalar(SetScalar(SetScalar(Dict([]), "listenport", Int(3333)), "address", Str("192.168.1.1")), "key", Str(SHANKS))
         == Collector()
  {
    hide SHANKS;
    KeysApart();
    NewMember([], "listenport", Int(3333));
    NewMember([Member("listenport", Int(3333))], "address", Str("192.168.1.1"));
    NewMember([Member("listenport", Int(3333)), Member("address", Str("192.168.1.1"))], "key", Str(SHANKS));
  }

  lemma KeysApart()
    ensures "address" != "listenport" && "key" != "listenport" && "key" != "address"
  {
    assert |"address"| == 7 && |"listenport"| == 10 && |"key"| == 3;
  }

  lemma NewMember(ms: seq<Member>, key: string, x: Var)
    requires 0 < |key| <= KEY_MAX && forall i :: 0 <= i < |ms| ==> ms[i].key != key
    ensures SetScalar(Dict(ms), key, x) == Dict(ms + [Member(key, x)])
  {
  }

  /** A top-level key before a brace or a bracket. */
  lemma Heading(v: Var, r: Regs, key: string, colon: string, more: string) returns (r': Regs)
    requires (r.st.WaitKey? || r.st.Beginning?) && KeyWord(key) && (colon == " " || colon == ": ")
    ensures r'.st == WaitValue && r'.key == key
    ensures Level(v, r, key + colon + more, 0) == Level(v, r', more, 0)
  {
    hide Level, KeyWord;
    assert key + colon + more == key + (colon + more);
    var r1 := KeyWordRead(v, r, key, colon + more, 0);
    if colon == ": " {
      assert colon + more == [':'] + ([' '] + more);
      Separated(v, r1, ':', [' '] + more, 0);
      Separated(v, r1.(st := WaitValue), ' ', more, 0);
    } else {
      assert colon + more == [' '] + more;
      Separated(v, r1, ' ', more, 0);
    }
    r' := r1.(st := WaitValue);
  }

  /** The first heading with its dictionary, and what separates it from the rest. */
  lemma AfterCollector(colon: string, inside: string, middle: char, tail: string) returns (r: Regs)
    requires (colon == " " || colon == ": ") && (middle == ',' || middle == '\n')
    requires Level(Dict([]), Start(WaitKey), inside + (['}'] + ([middle] + tail)), 1) == Done(true, Collector(), ['}'] + ([middle] + tail))
    ensures r.st == WaitKey
    ensures Parse(Null, "collector" + colon + (['{'] + (inside + (['}'] + ([middle] + tail)))))
         == Level(Dict([Member("collector", Collector())]), r, tail, 0)
  {
    TestWords();
    CollectorIs();
    FirstPlace("collector");
    FirstAdded("collector", Collector());
    hide Level, KeyWord, ValueWord, Collector, Added, Place;
    var rest := ['}'] + ([middle] + tail);
    var r1 := Heading(Null, Start(Beginning), "collector", colon, ['{'] + (inside + rest));
    ContainerOpens(Null, r1, false, false, inside + rest, Collector(), rest, 0);
    r := r1.(st := WaitKey);
    assert rest[1..] == [middle] + tail;
    SkipOne(Dict([Member("collector", Collector())]), r, middle, tail, 0);
  }

  /** The second heading with its array, and the end. */
  lemma AfterColors(r: Regs, colon: string, elems: string, end: string)
    requires r.st == WaitKey && (colon == " " || colon == ": ") && (end == "" || end == "\n")
    requires Level(Arr([]), Start(WaitElem), elems + ([']'] + end), 1) == Done(true, Colors(), [']'] + end)
    ensures Level(Dict([Member("collector", Collector())]), r, "colors" + colon + (['['] + (elems + ([']'] + end))), 0)
         == Done(true, Dict([Member("collector", Collector()), Member("colors", Colors())]), "")
  {
    TestWords();
    hide Level, KeyWord, ValueWord, Collector, Colors;
    var r1 := Heading(Dict([Member("collector", Collector())]), r, "colors", colon, ['['] + (elems + ([']'] + end)));
    ColorsThenEnd(r1, elems, end);
  }

  lemma ColorsThenEnd(r: Regs, elems: string, end: string)
    requires r.st == WaitValue && r.key == "colors" && (end == "" || end == "\n")
    requires Level(Arr([]), Start(WaitElem), elems + ([']'] + end), 1) == Done(true, Colors(), [']'] + end)
    ensures Level(Dict([Member("collector", Collector())]), r, ['['] + (elems + ([']'] + end)), 0)
         == Done(true, Dict([Member("collector", Collector()), Member("colors", Colors())]), "")
  {
    CollectorIs();
    hide Level, Collector, Colors, Added, Place;
    var v := Dict([Member("collector", Collector())]);
    SecondPlace(v);
    var last := [']'] + end;
    ContainerOpens(v, r, false, true, elems + last, Colors(), last, 0);
    assert last[1..] == end;
    Ends(Dict([Member("collector", Collector()), Member("colors", Colors())]), r.(st := WaitKey), end);
  }

  lemma CollectorIs()
    ensures Collector().Dict? && Colors().Arr?
  {
  }

  lemma FirstPlace(key: string)
    requires 0 < |key| <= KEY_MAX
    ensures Place(Null, key, false)
  {
  }

  lemma FirstAdded(key: string, x: Var)
    ensures Added(Null, key, false, x) == Dict([Member(key, x)])
  {
  }

  lemma SecondPlace(v: Var)
    requires v == Dict([Member("collector", Collector())])
    ensures Place(v, "colors", false)
    ensures Added(v, "colors", false, Colors()) == Dict([Member("collector", Collector()), Member("colors", Colors())])
  {
    assert "collector" != "colors" by {
      assert |"collector"| != |"colors"|;
    }
    hide Collector, Colors;
    assert v.members[1..] == [];
    assert FindKey([], "colors") == 0;
  }

  lemma Ends(v: Var, r: Regs, end: string)
    requires r.st == WaitKey && (end == "" || end == "\n")
    ensures Level(v, r, end, 0) == Done(true, v, "")
  {
    if end == "\n" {
      Go(v, r, end, 0);
      assert end[1..] == "";
    }
  }

  // ---- The notation without colons ----

  lemma PlainLines()
    ensures "  listenport 3333" == Spaces(2) + "listenport" + " " + "3333"
    ensures "  address 192.168.1.1" == Spaces(2) + "address" + " " + "192.168.1.1"
    ensures "  key \"johnWithTheLongShanks\"" == Spaces(2) + "key" + [' '] + "\"" + Escape(SHANKS) + "\""
  {
    TwoSpaces();
    PlainEscape();
    hide Spaces, Escape;
  }

  /** The settings of the first text, up to the closing brace. */
  lemma CollectorPlain(rest: string)
    ensures Level(Dict([]), Start(WaitKey), PlainSettings() + (['}'] + rest), 1) == Done(true, Collector(), ['}'] + rest)
  {
    TestWords();
    PlainLines();
    CollectorBuilt();
    hide Level, KeyWord, ValueWord, Means, SetScalar, Escape, Collector, Spaces, SHANKS;
    var a, b, c := "  listenport 3333", "  address 192.168.1.1", "  key \"johnWithTheLongShanks\"";
    var t3 := c + (['}'] + rest);
    var t2 := b + t3;
    var v0 := Dict([]);
    var r1, x := Setting(v0, Start(WaitKey), 2, "listenport", " ", "3333", t2, 1);
    PortWord(x);
    var v1 := SetScalar(v0, "listenport", x);
    var r2, y := Setting(v1, r1, 2, "address", " ", "192.168.1.1", t3, 1);
    AddressWord(y);
    var v2 := SetScalar(v1, "address", y);
    assert |SHANKS| <= BUFFER_MAX by {
      ShortShanks();
    }
    var r3 := QuotedSetting(v2, r2, 2, "key", ' ', SHANKS, ['}'] + rest, 1);
    assert PlainSettings() + (['}'] + rest) == a + t2;
    Closes(SetScalar(v2, "key", Str(SHANKS)), r3, false, rest, 1);
  }

  lemma ShortShanks()
    ensures |SHANKS| <= BUFFER_MAX
  {
  }

  lemma TwoSpaces()
    ensures Spaces(2) == "  "
  {
    assert Spaces(1) == " ";
  }

  function PlainSettings(): string {
    "  listenport 3333" + "  address 192.168.1.1" + "  key \"johnWithTheLongShanks\""
  }

  /** An unquoted name in an array, and the comma or bracket after it. */
  lemma NameElem(es: seq<Var>, r: Regs, w: string, more: string) returns (r': Regs)
    requires r.st == WaitElem && ValueWord(w, true) && IsLetter(w[0]) && more != "" && (more[0] == ',' || more[0] == ']')
    ensures r'.st == WaitElem
    ensures Level(Arr(es), r, w + more, 1) == Level(Arr(es + [Str(w)]), r', if more[0] == ',' then more[1..] else more, 1)
  {
    assert w != "";
    hide Level, Means, ValueWord;
    var x;
    r', x := WordRead(Arr(es), r, true, w, more, 1);
    LetterWord(w);
    if more[0] == ',' {
      assert more == [','] + more[1..];
      SkipOne(Arr(es + [Str(w)]), r', ',', more[1..], 1);
    }
  }

  lemma ColorsPlain(end: string)
    ensures Level(Arr([]), Start(WaitElem), NAMES + ([']'] + end), 1) == Done(true, Colors(), [']'] + end)
  {
    TestWords();
    hide Level, ValueWord;
    var t3 := "blue" + ([']'] + end);
    var t2 := "green" + ([','] + t3);
    assert "red,green,blue" == "red" + ([','] + ("green" + ([','] + "blue")));
    assert "red,green,blue" + ([']'] + end) == "red" + ([','] + t2);
    assert ([','] + t2)[1..] == t2 && ([','] + t3)[1..] == t3;
    var r1 := NameElem([], Start(WaitElem), "red", [','] + t2);
    var r2 := NameElem([Str("red")], r1, "green", [','] + t3);
    var r3 := NameElem([Str("red"), Str("green")], r2, "blue", [']'] + end);
    assert [Str("red")] + [Str("green")] == [Str("red"), Str("green")] && [] + [Str("red")] == [Str("red")];
    assert Colors() == Arr([Str("red"), Str("green")] + [Str("blue")]);
    Closes(Colors(), r3, true, end, 1);
  }

  const PLAIN_HEAD := "collector {"
  const PLAIN_COLORS := "colors [red,green,blue]"
  const NAMES := "red,green,blue"

  lemma PlainHeadLine()
    ensures PLAIN_HEAD == "collector" + " " + ['{']
    ensures PLAIN_COLORS == "colors" + " " + (['['] + (NAMES + ([']'] + "")))
  {
  }

  /** The first text of the test. */
  lemma PlainText()
    ensures Parse(Null, PLAIN_HEAD + PlainSettings() + (['}'] + [',']) + PLAIN_COLORS)
         == Done(true, Dict([Member("collector", Collector()), Member("colors", Colors())]), "")
  {
    PlainHeadLine();
    hide Level, Parse, PlainSettings, PLAIN_HEAD, PLAIN_COLORS, NAMES, Collector, Colors;
    CollectorPlain([','] + PLAIN_COLORS);
    ColorsPlain("");
    var r := AfterCollector(" ", PlainSettings(), ',', PLAIN_COLORS);
    AfterColors(r, " ", NAMES, "");
    ThreeParts(PLAIN_HEAD, "collector" + " ", PlainSettings(), ['}'] + [','], [','], PLAIN_COLORS);
  }

  // ---- The notation with colons, comments and quotes ----

  const NETWORK := "    # Network settings\n"
  const LISTEN := "    listenport:3333\n"
  const ADDRESS := "    address: 192.168.1.1# Primary\n"
  const KEY := "    key:\"johnWithTheLongShanks\"\n"
  const HEAD := "collector: {"
  const COLORS := "colors: [\"red\",\"green\",\"blue\"]\n"
  const FAULTY := "colors: <\"red\",\"green\",\"blue\"]\n"

  function QuotedSettings(): string {
    "\n" + NETWORK + LISTEN + ADDRESS + KEY
  }

  lemma NetworkLine()
    ensures NETWORK == Spaces(4) + (['#'] + " Network settings" + ['\n'])
  {
    FourSpaces();
    hide Spaces;
  }

  lemma ListenLine()
    ensures LISTEN == Spaces(4) + "listenport" + ":" + "3333" + ['\n']
  {
    FourSpaces();
    hide Spaces;
  }

  lemma AddressesLine()
    ensures ADDRESS == Spaces(4) + "address" + ": " + "192.168.1.1" + (['#'] + " Primary" + ['\n'])
  {
    FourSpaces();
    hide Spaces;
  }

  lemma KeyLine()
    ensures KEY == Spaces(4) + "key" + [':'] + "\"" + Escape(SHANKS) + "\"" + ['\n']
  {
    FourSpaces();
    PlainEscape();
    hide Spaces, Escape;
  }

  lemma HeadLine()
    ensures HEAD == "collector" + ": " + ['{']
  {
  }

  lemma ColorsLine()
    ensures COLORS == "colors" + ": " + (['['] + (THREE + ([']'] + "\n")))
  {
  }

  lemma FaultyLine()
    ensures FAULTY == "colors" + ": " + BAD && BAD != "" && BAD[0] == '<'
  {
  }

  const THREE := "\"red\",\"green\",\"blue\""
  const BAD := "<\"red\",\"green\",\"blue\"]\n"

  lemma FourSpaces()
    ensures Spaces(4) == "    "
  {
    assert Spaces(2) == "  ";
  }

  lemma QuotedPieces(close: string)
    ensures var t4 := KEY + close;
      var t3 := ADDRESS + t4;
      var t2 := LISTEN + t3;
      && QuotedSettings() + close == ['\n'] + (Spaces(4) + (['#'] + " Network settings" + ['\n'] + t2))
      && t2 == Spaces(4) + "listenport" + ":" + "3333" + (['\n'] + t3)
      && t3 == Spaces(4) + "address" + ": " + "192.168.1.1" + (['#'] + " Primary" + ['\n'] + t4)
      && t4 == Spaces(4) + "key" + [':'] + "\"" + Escape(SHANKS) + "\"" + (['\n'] + close)
  {
    NetworkLine();
    ListenLine();
    AddressesLine();
    KeyLine();
    hide Spaces, Escape, SHANKS, NETWORK, LISTEN, ADDRESS, KEY;
    Nested("\n", NETWORK, LISTEN, ADDRESS, KEY, close);
    var t4 := KEY + close;
    LineSplit(KEY, Spaces(4) + "key" + [':'] + "\"" + Escape(SHANKS) + "\"", ['\n'], close);
    LineSplit(ADDRESS, Spaces(4) + "address" + ": " + "192.168.1.1", ['#'] + " Primary" + ['\n'], t4);
    LineSplit(LISTEN, Spaces(4) + "listenport" + ":" + "3333", ['\n'], ADDRESS + t4);
    LineSplit(NETWORK, Spaces(4), ['#'] + " Network settings" + ['\n'], LISTEN + (ADDRESS + t4));
  }

  lemma Nested(n: string, c: string, l: string, a: string, k: string, close: string)
    ensures n + c + l + a + k + close == n + (c + (l + (a + (k + close))))
  {
  }

  lemma LineSplit(line: string, front: string, back: string, rest: string)
    requires line == front + back
    ensures line + rest == front + (back + rest)
  {
  }

  /** The first two settings of the second text. */
  lemma TwoSettings(t4: string) returns (r: Regs)
    ensures r.st == WaitKey
    ensures var t3 := Spaces(4) + "address" + ": " + "192.168.1.1" + (['#'] + " Primary" + ['\n'] + t4);
      var t2 := Spaces(4) + "listenport" + ":" + "3333" + (['\n'] + t3);
      Level(Dict([]), Start(WaitKey), ['\n'] + (Spaces(4) + (['#'] + " Network settings" + ['\n'] + t2)), 1)
        == Level(SetScalar(SetScalar(Dict([]), "listenport", Int(3333)), "address", Str("192.168.1.1")), r, t4, 1)
  {
    TestWords();
    hide Level, KeyWord, ValueWord, Means, SetScalar, Spaces;
    var t3 := Spaces(4) + "address" + ": " + "192.168.1.1" + (['#'] + " Primary" + ['\n'] + t4);
    var t2 := Spaces(4) + "listenport" + ":" + "3333" + (['\n'] + t3);
    var v0 := Dict([]);
    SkipOne(v0, Start(WaitKey), '\n', Spaces(4) + (['#'] + " Network settings" + ['\n'] + t2), 1);
    SkipSpaces(v0, Start(WaitKey), 4, ['#'] + " Network settings" + ['\n'] + t2, 1);
    var r0 := CommentRead(v0, Start(WaitKey), " Network settings", t2, 1);
    var r1, x := Setting(v0, r0, 4, "listenport", ":", "3333", ['\n'] + t3, 1);
    PortWord(x);
    var v1 := SetScalar(v0, "listenport", x);
    SkipOne(v1, r1, '\n', t3, 1);
    var r2, y := Setting(v1, r1, 4, "address", ": ", "192.168.1.1", ['#'] + " Primary" + ['\n'] + t4, 1);
    AddressWord(y);
    r := CommentRead(SetScalar(v1, "address", y), r2, " Primary", t4, 1);
  }

  /** The settings of the second text, up to the closing brace. */
  lemma CollectorQuoted(rest: string)
    ensures Level(Dict([]), Start(WaitKey), QuotedSettings() + (['}'] + rest), 1) == Done(true, Collector(), ['}'] + rest)
  {
    TestWords();
    CollectorBuilt();
    ShortShanks();
    hide Level, KeyWord, ValueWord, SetScalar, Escape, Collector, Spaces, SHANKS, QuotedSettings, NETWORK, LISTEN, ADDRESS, KEY;
    var close := ['}'] + rest;
    QuotedPieces(close);
    var r := TwoSettings(KEY + close);
    var v := SetScalar(SetScalar(Dict([]), "listenport", Int(3333)), "address", Str("192.168.1.1"));
    var r' := QuotedSetting(v, r, 4, "key", ':', SHANKS, ['\n'] + close, 1);
    SkipOne(SetScalar(v, "key", Str(SHANKS)), r', '\n', close, 1);
    Closes(SetScalar(v, "key", Str(SHANKS)), r', false, rest, 1);
  }

  /** A quoted name in an array, and the comma or bracket after it. */
  lemma QuotedElem(es: seq<Var>, r: Regs, w: string, more: string) returns (r': Regs)
    requires r.st == WaitElem && |w| <= 5 && (forall c :: c in w ==> IsLetter(c)) && more != "" && (more[0] == ',' || more[0] == ']')
    ensures r'.st == WaitElem
    ensures Level(Arr(es), r, "\"" + w + "\"" + more, 1) == Level(Arr(es + [Str(w)]), r', if more[0] == ',' then more[1..] else more, 1)
  {
    hide Level, Escape;
    AsIs(w);
    r' := StringRead(Arr(es), r, true, w, more, 1);
    if more[0] == ',' {
      assert more == [','] + more[1..];
      SkipOne(Arr(es + [Str(w)]), r', ',', more[1..], 1);
    }
  }

  lemma ColorsQuoted(end: string)
    ensures Level(Arr([]), Start(WaitElem), THREE + ([']'] + end), 1) == Done(true, Colors(), [']'] + end)
  {
    hide Level, THREE;
    var t3 := "\"" + "blue" + "\"" + ([']'] + end);
    var t2 := "\"" + "green" + "\"" + ([','] + t3);
    ThreeQuoted();
    assert THREE + ([']'] + end) == "\"" + "red" + "\"" + ([','] + t2);
    assert ([','] + t2)[1..] == t2 && ([','] + t3)[1..] == t3;
    var r1 := QuotedElem([], Start(WaitElem), "red", [','] + t2);
    var r2 := QuotedElem([Str("red")], r1, "green", [','] + t3);
    var r3 := QuotedElem([Str("red"), Str("green")], r2, "blue", [']'] + end);
    assert [Str("red")] + [Str("green")] == [Str("red"), Str("green")] && [] + [Str("red")] == [Str("red")];
    assert Colors() == Arr([Str("red"), Str("green")] + [Str("blue")]);
    Closes(Colors(), r3, true, end, 1);
  }

  lemma ThreeQuoted()
    ensures THREE == "\"" + "red" + "\"" + ([','] + ("\"" + "green" + "\"" + ([','] + ("\"" + "blue" + "\""))))
  {
  }

  lemma ThreeParts(head: string, front: string, inside: string, close: string, middle: string, last: string)
    requires head == front + ['{'] && close == ['}'] + middle
    ensures head + inside + close + last == front + (['{'] + (inside + (['}'] + (middle + last))))
  {
  }

  /** The second text of the test. */
  lemma QuotedText()
    ensures Parse(Null, HEAD + QuotedSettings() + (['}'] + ['\n']) + COLORS)
         == Done(true, Dict([Member("collector", Collector()), Member("colors", Colors())]), "")
  {
    HeadLine();
    ColorsLine();
    hide Level, Parse, QuotedSettings, HEAD, COLORS, THREE, Collector, Colors;
    CollectorQuoted(['\n'] + COLORS);
    ColorsQuoted("\n");
    var r := AfterCollector(": ", QuotedSettings(), '\n', COLORS);
    AfterColors(r, ": ", THREE, "\n");
    ThreeParts(HEAD, "collector" + ": ", QuotedSettings(), ['}'] + ['\n'], ['\n'], COLORS);
  }

  /** The faulty text of the test: it is refused at the character that starts no value. */
  lemma FaultyText()
    ensures Parse(Null, HEAD + QuotedSettings() + (['}'] + ['\n']) + FAULTY) == Done(false, Dict([Member("collector", Collector())]), BAD)
  {
    TestWords();
    HeadLine();
    FaultyLine();
    hide Level, Parse, KeyWord, QuotedSettings, HEAD, FAULTY, BAD, Collector;
    CollectorQuoted(['\n'] + FAULTY);
    var r := AfterCollector(": ", QuotedSettings(), '\n', FAULTY);
    var v := Dict([Member("collector", Collector())]);
    var r1 := Heading(v, r, "colors", ": ", BAD);
    Refused(v, r1, BAD);
    ThreeParts(HEAD, "collector" + ": ", QuotedSettings(), ['}'] + ['\n'], ['\n'], FAULTY);
  }

  lemma Refused(v: Var, r: Regs, t: string)
    requires r.st == WaitValue && t != "" && t[0] == '<'
    ensures Level(v, r, t, 0) == Done(false, v, t)
  {
  }

  // ---- What the tree prints as ----

  function Quoted(s: string): string {
    "\"" + s + "\""
  }

  predicate Simple(s: string) {
    |s| <= 100 && forall c :: c in s ==> IsLetter(c) || IsDigit(c) || c == '.'
  }

  lemma {:induction false} SimpleEscape(s: string)
    requires Simple(s)
    ensures Escape(s) == s
  {
    if s != "" {
      assert s[0] in s;
      SimpleEscape(s[1..]);
    }
  }

  lemma SimpleTexts(s: string)
    requires Simple(s)
    ensures KeyText(s) == Quoted(s) + ": " && StringText(s) == Quoted(s)
  {
    SimpleEscape(s);
    assert "\": " == "\"" + ": ";
    hide Escape;
  }

  lemma SimpleWords()
    ensures Simple("collector") && Simple("colors") && Simple("listenport") && Simple("address") && Simple("key")
    ensures Simple("red") && Simple("green") && Simple("blue") && Simple("192.168.1.1") && Simple(SHANKS)
  {
  }

  lemma PortText()
    ensures Printed(Digits(3333)) == "3333"
  {
    assert Digits(33) == "33";
    assert Digits(333) == "333";
  }

  lemma Indents()
    ensures Indent(0) == "" && Indent(4) == IN && Indent(8) == IN + IN
  {
    FourSpaces();
    assert Spaces(6) == "  " + Spaces(4);
    assert Spaces(8) == "  " + Spaces(6);
  }

  const IN := "    "

  function CollectorLines(): string {
    IN + IN + (Quoted("listenport") + ": ") + "3333"
    + (",\n" + (IN + IN) + (Quoted("address") + ": ") + Quoted("192.168.1.1")
    + (",\n" + (IN + IN) + (Quoted("key") + ": ") + Quoted(SHANKS)
    + "\n"))
  }

  function PrintedCollector(): string {
    "{\n" + CollectorLines() + IN + "}"
  }

  function PrintedColors(): string {
    "[\n" + (IN + IN + Quoted("red")
    + (",\n" + (IN + IN) + Quoted("green")
    + (",\n" + (IN + IN) + Quoted("blue")
    + "\n"))) + IN + "]"
  }

  lemma MemberLine(x: Var, ms: seq<Member>, k: nat, indent: nat, front: string, key: string, v: Var, text: string, rest: string)
    requires x == Dict(ms) && k < |ms| && ms[k] == Member(key, v) && Simple(key) && front == Separator(k) + Indent(indent)
    requires ValueText(v, indent) == text && MembersText(x, ms, k + 1, indent) == rest
    ensures MembersText(x, ms, k, indent) == front + (Quoted(key) + ": ") + text + rest
  {
    SimpleTexts(key);
    hide ValueText, KeyText, Indent, Separator, Quoted, Simple;
  }

  lemma ElemLine(x: Var, es: seq<Var>, k: nat, indent: nat, front: string, s: string)
    requires x == Arr(es) && k < |es| && es[k] == Str(s) && Simple(s) && front == Separator(k) + Indent(indent)
    ensures ElemsText(x, es, k, indent) == front + Quoted(s) + ElemsText(x, es, k + 1, indent)
  {
    SimpleTexts(s);
    assert ValueText(es[k], indent) == Quoted(s);
    hide ValueText, Indent, Separator, Quoted, Simple;
  }

  lemma LastMember(x: Var, ms: seq<Member>, indent: nat)
    requires x == Dict(ms) && ms != []
    ensures MembersText(x, ms, |ms|, indent) == "\n"
  {
  }

  lemma LastElem(x: Var, es: seq<Var>, indent: nat)
    requires x == Arr(es) && es != []
    ensures ElemsText(x, es, |es|, indent) == "\n"
  {
  }

  lemma Fronts()
    ensures Separator(0) + Indent(4) == IN && Separator(1) + Indent(4) == ",\n" + IN
    ensures Separator(0) + Indent(8) == IN + IN && Separator(1) + Indent(8) == Separator(2) + Indent(8) == ",\n" + (IN + IN)
  {
    Indents();
    hide Indent, IN;
  }

  lemma SettingTexts()
    ensures ValueText(Int(3333), 8) == "3333" && ValueText(Str("192.168.1.1"), 8) == Quoted("192.168.1.1")
    ensures ValueText(Str(SHANKS), 8) == Quoted(SHANKS)
  {
    SimpleWords();
    PortText();
    SimpleTexts("192.168.1.1");
    SimpleTexts(SHANKS);
    hide Printed, Digits, Simple, SHANKS, StringText, Quoted, KeyText;
  }

  lemma CollectorMembers(x: Var, ms: seq<Member>)
    requires ms == [Member("listenport", Int(3333)), Member("address", Str("192.168.1.1")), Member("key", Str(SHANKS))] && x == Dict(ms)
    ensures MembersText(x, ms, 0, 8) == CollectorLines()
  {
    hide Indent, Simple, IN, SHANKS, Separator, MembersText, Quoted, ValueText;
    SimpleWords();
    Fronts();
    SettingTexts();
    LastMember(x, ms, 8);
    var t2 := ",\n" + (IN + IN) + (Quoted("key") + ": ") + Quoted(SHANKS) + "\n";
    MemberLine(x, ms, 2, 8, ",\n" + (IN + IN), "key", Str(SHANKS), Quoted(SHANKS), "\n");
    var t1 := ",\n" + (IN + IN) + (Quoted("address") + ": ") + Quoted("192.168.1.1") + t2;
    MemberLine(x, ms, 1, 8, ",\n" + (IN + IN), "address", Str("192.168.1.1"), Quoted("192.168.1.1"), t2);
    MemberLine(x, ms, 0, 8, IN + IN, "listenport", Int(3333), "3333", t1);
  }

  lemma CollectorDumped()
    ensures ValueText(Collector(), 4) == PrintedCollector()
  {
    var x := Collector();
    CollectorMembers(x, x.members);
    Indents();
    hide Indent, IN, MembersText, CollectorLines, SHANKS;
  }

  lemma ColorsDumped()
    ensures ValueText(Colors(), 4) == PrintedColors()
  {
    var es := [Str("red"), Str("green"), Str("blue")];
    var x := Arr(es);
    assert Colors() == x;
    hide Indent, Quoted, Simple, IN, Separator, ElemsText;
    SimpleWords();
    Indents();
    Fronts();
    LastElem(x, es, 8);
    ElemLine(x, es, 0, 8, IN + IN, "red");
    ElemLine(x, es, 1, 8, ",\n" + (IN + IN), "green");
    ElemLine(x, es, 2, 8, ",\n" + (IN + IN), "blue");
  }

  lemma TreeMembers(x: Var, ms: seq<Member>)
    requires ms == [Member("collector", Collector()), Member("colors", Colors())] && x == Dict(ms)
    ensures MembersText(x, ms, 0, 4) ==
      IN + (Quoted("collector") + ": ") + PrintedCollector() + (",\n" + IN + (Quoted("colors") + ": ") + PrintedColors() + "\n")
  {
    hide Indent, ValueText, Collector, Colors, PrintedCollector, PrintedColors, Quoted, Simple, IN, Separator, MembersText;
    LastMember(x, ms, 4);
    SimpleWords();
    Fronts();
    CollectorDumped();
    ColorsDumped();
    var t := ",\n" + IN + (Quoted("colors") + ": ") + PrintedColors() + "\n";
    MemberLine(x, ms, 1, 4, ",\n" + IN, "colors", Colors(), PrintedColors(), "\n");
    MemberLine(x, ms, 0, 4, IN, "collector", Collector(), PrintedCollector(), t);
  }

  /** The printed form that the test expects. */
  lemma Dumped()
    ensures Write(Dict([Member("collector", Collector()), Member("colors", Colors())])) ==
      ("{\n" + (IN + (Quoted("collector") + ": ") + PrintedCollector()
       + (",\n" + IN + (Quoted("colors") + ": ") + PrintedColors()
       + "\n")) + "}\n", true)
  {
    hide Collector, Colors, PrintedCollector, PrintedColors, Quoted, IN, MembersText;
    var ms := [Member("collector", Collector()), Member("colors", Colors())];
    TreeMembers(Dict(ms), ms);
  }
}
