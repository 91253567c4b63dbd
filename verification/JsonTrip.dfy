/** Parsing what was printed. */
module JsonTrip {
  import opened Json
  import opened Wrappers

  // ---- Single steps ----

  lemma Go(v: Var, r: Regs, t: string, depth: nat)
    requires t != "" && Step(v, r, t).Next?
    ensures var a := Step(v, r, t); Level(v, r, t, depth) == Level(a.v, a.r, a.t, depth)
  {
  }

  /** States that pass over spaces, commas and line ends. */
  predicate Waits(st: State) {
    st.WaitKey? || st.WaitElem?
  }

  lemma SkipOne(v: Var, r: Regs, c: char, more: string, depth: nat)
    requires Waits(r.st) && (IsSpace(c) || c == ',')
    ensures Level(v, r, [c] + more, depth) == Level(v, r, more, depth)
  {
    var t := [c] + more;
    assert t[1..] == more;
    Go(v, r, t, depth);
  }

  lemma {:induction false} SkipSpaces(v: Var, r: Regs, n: nat, more: string, depth: nat)
    requires Waits(r.st)
    ensures Level(v, r, Spaces(n) + more, depth) == Level(v, r, more, depth)
  {
    hide Level;
    if n == 0 {
      assert Spaces(n) + more == more;
    } else {
      assert Spaces(n) + more == [' '] + (Spaces(n - 1) + more);
      SkipOne(v, r, ' ', Spaces(n - 1) + more, depth);
      SkipSpaces(v, r, n - 1, more, depth);
    }
  }

  // ---- Quoted text ----

  lemma QuotedChar(v: Var, r: Regs, c: char, more: string, depth: nat)
    requires r.st.Quoted? && |r.val| < BUFFER_MAX
    ensures Level(v, r, EscapeChar(c) + more, depth) == Level(v, r.(val := r.val + [c]), more, depth)
  {
    var t := EscapeChar(c) + more;
    assert |EscapeChar(c)| == 1 ==> t[1..] == more;
    assert |EscapeChar(c)| == 2 ==> t[2..] == more;
    Go(v, r, t, depth);
  }

  lemma {:induction false} QuotedRun(v: Var, r: Regs, s: string, more: string, depth: nat)
    requires r.st.Quoted? && |r.val| + |s| <= BUFFER_MAX
    ensures Level(v, r, Escape(s) + more, depth) == Level(v, r.(val := r.val + s), more, depth)
    decreases |s|
  {
    hide Level;
    if s == "" {
      assert Escape(s) + more == more && r.val + s == r.val;
    } else {
      assert Escape(s) + more == EscapeChar(s[0]) + (Escape(s[1..]) + more);
      QuotedChar(v, r, s[0], Escape(s[1..]) + more, depth);
      assert r.val + [s[0]] + s[1..] == r.val + s;
      QuotedRun(v, r.(val := r.val + [s[0]]), s[1..], more, depth);
    }
  }

  lemma KeyChar1(v: Var, r: Regs, c: char, more: string, depth: nat)
    requires r.st.KeyQuoted? && |r.key| < BUFFER_MAX && c != '\n'
    ensures Level(v, r, EscapeChar(c) + more, depth) == Level(v, r.(key := r.key + [c]), more, depth)
  {
    var t := EscapeChar(c) + more;
    assert |EscapeChar(c)| == 1 ==> t[1..] == more;
    assert |EscapeChar(c)| == 2 ==> t[1..][1..] == more;
    Go(v, r, t, depth);
  }

  lemma {:induction false} KeyRun(v: Var, r: Regs, s: string, more: string, depth: nat)
    requires r.st.KeyQuoted? && |r.key| + |s| <= BUFFER_MAX && '\n' !in s
    ensures Level(v, r, Escape(s) + more, depth) == Level(v, r.(key := r.key + s), more, depth)
    decreases |s|
  {
    hide Level;
    if s == "" {
      assert Escape(s) + more == more && r.key + s == r.key;
    } else {
      assert Escape(s) + more == EscapeChar(s[0]) + (Escape(s[1..]) + more);
      KeyChar1(v, r, s[0], Escape(s[1..]) + more, depth);
      assert r.key + [s[0]] + s[1..] == r.key + s;
      KeyRun(v, r.(key := r.key + [s[0]]), s[1..], more, depth);
    }
  }

  // ---- Unquoted text ----

  predicate AllValueChars(s: string) {
    forall c :: c in s ==> ValueChar(c)
  }

  predicate NonDigit(c: char) {
    c != '.' && !IsDigit(c)
  }

  function CountDots(s: string): nat {
    if s == "" then 0 else (if s[0] == '.' then 1 else 0) + CountDots(s[1..])
  }

  predicate HasNonDigit(s: string) {
    exists c :: c in s && NonDigit(c)
  }

  lemma ValueChar1(v: Var, r: Regs, c: char, more: string, depth: nat)
    requires r.st.Value? && |r.val| < BUFFER_MAX && ValueChar(c)
    ensures Level(v, r, [c] + more, depth)
         == Level(v, r.(val := r.val + [c], dots := if c == '.' then r.dots + 1 else r.dots, nondigits := r.nondigits || NonDigit(c)), more, depth)
  {
    var t := [c] + more;
    assert t[1..] == more;
    Go(v, r, t, depth);
  }

  lemma {:induction false} ValueRun(v: Var, r: Regs, s: string, more: string, depth: nat)
    requires r.st.Value? && |r.val| + |s| <= BUFFER_MAX && AllValueChars(s)
    ensures Level(v, r, s + more, depth)
         == Level(v, r.(val := r.val + s, dots := r.dots + CountDots(s), nondigits := r.nondigits || HasNonDigit(s)), more, depth)
    decreases |s|
  {
    hide Level, NonDigit, ValueChar;
    if s == "" {
      assert s + more == more && r.val + s == r.val;
    } else {
      var rest := s[1..] + more;
      assert s + more == [s[0]] + rest;
      ValueChar1(v, r, s[0], rest, depth);
      var r' := r.(val := r.val + [s[0]], dots := if s[0] == '.' then r.dots + 1 else r.dots, nondigits := r.nondigits || NonDigit(s[0]));
      assert r'.val + s[1..] == r.val + s;
      assert HasNonDigit(s) <==> NonDigit(s[0]) || HasNonDigit(s[1..]) by {
        assert s == [s[0]] + s[1..];
      }
      ValueRun(v, r', s[1..], more, depth);
    }
  }

  // ---- Numbers ----

  predicate AllDigits(s: string) {
    forall c :: c in s ==> IsDigit(c)
  }

  lemma DigitBack(d: nat)
    requires d < 10
    ensures IsDigit(DigitChar(d)) && DigitOf(DigitChar(d)) == d
  {
  }

  lemma {:induction false} DigitsBack(n: nat)
    ensures AllDigits(Digits(n)) && Number(Digits(n)) == n && Digits(n) != ""
  {
    DigitBack(n % 10);
    if n < 10 {
      assert Digits(n)[..0] == "";
    } else {
      DigitsBack(n / 10);
      assert Digits(n)[..|Digits(n)| - 1] == Digits(n / 10);
    }
  }

  lemma {:induction false} DigitsLength(n: nat, k: nat)
    requires k > 0 && n < Pow10(k)
    ensures |Digits(n)| <= k
  {
    if n >= 10 {
      assert k > 1 && n / 10 < Pow10(k - 1);
      DigitsLength(n / 10, k - 1);
    }
  }

  lemma {:induction false} PaddedBack(n: nat, k: nat)
    requires n < Pow10(k)
    ensures AllDigits(Padded(n, k)) && Number(Padded(n, k)) == n
  {
    if k > 0 {
      DigitBack(n % 10);
      assert n / 10 < Pow10(k - 1);
      PaddedBack(n / 10, k - 1);
      assert Padded(n, k)[..k - 1] == Padded(n / 10, k - 1);
    }
  }

  lemma {:induction false} NoDots(s: string)
    requires AllDigits(s)
    ensures CountDots(s) == 0 && DotAt(s) == |s|
  {
    if s != "" {
      assert s[0] in s && IsDigit(s[0]);
      NoDots(s[1..]);
    }
  }

  lemma {:induction false} DotsApart(s: string, more: string)
    ensures CountDots(s + more) == CountDots(s) + CountDots(more)
    ensures DotAt(s) == |s| ==> DotAt(s + more) == |s| + DotAt(more)
  {
    if s == "" {
      assert s + more == more;
    } else {
      assert (s + more)[1..] == s[1..] + more;
      DotsApart(s[1..], more);
    }
  }

  /** The digits before and after the dot, and what they amount to. */
  lemma DecimalParts(a: string, b: string)
    requires AllDigits(a) && AllDigits(b)
    ensures CountDots(a + "." + b) == 1 && DotAt(a + "." + b) == |a|
  {
    hide AllDigits;
    NoDots(a);
    NoDots(b);
    DotsApart(a, "." + b);
    DotsApart(".", b);
    assert a + "." + b == a + ("." + b);
  }

  lemma DecimalValue(a: string, b: string)
    requires AllDigits(a) && AllDigits(b)
    ensures ParseReal(a + "." + b) == Decimal(a, b)
  {
    DecimalParts(a, b);
    hide AllDigits, DotAt, Decimal;
    var s := a + "." + b;
    assert s[..|a|] == a && s[|a| + 1..] == b;
  }

  lemma DecimalChars(a: string, b: string)
    requires AllDigits(a) && AllDigits(b)
    ensures AllValueChars(a + "." + b) && !HasNonDigit(a + "." + b)
  {
    forall c | c in a + "." + b ensures ValueChar(c) && !NonDigit(c) {
      assert c in a || c == '.' || c in b;
    }
  }

  /** The least bound the model puts on doubles: those of the source are below it. */
  const MAX_DIGITS := 309

  function Magnitude(r: real): real {
    if r < 0.0 then -r else r
  }

  /** A double as it comes back: rounded to millionths. */
  function Rounded(r: real): real
    requires r >= 0.0
  {
    Micros(r) as real / 1000000.0
  }

  predicate FitsDouble(r: real) {
    Micros(Magnitude(r)) / MILLION < Pow10(MAX_DIGITS)
  }

  lemma SixDigits()
    ensures Pow10(6) == MILLION
  {
    assert Pow10(3) == 1000;
  }

  /** The text of a magnitude. */
  lemma MicrosBack(m: nat)
    requires m / MILLION < Pow10(MAX_DIGITS)
    ensures var s := MicrosText(m);
      && |s| <= MAX_DIGITS + 7 && s != "" && IsDigit(s[0])
      && AllValueChars(s) && CountDots(s) == 1 && !HasNonDigit(s)
      && ParseReal(s) == m as real / 1000000.0
  {
    var a, b := Digits(m / MILLION), Padded(m % MILLION, 6);
    SixDigits();
    DigitsBack(m / MILLION);
    DigitsLength(m / MILLION, MAX_DIGITS);
    PaddedBack(m % MILLION, 6);
    assert a[0] in a;
    hide AllDigits, Digits, Padded, Pow10, AllValueChars, HasNonDigit, CountDots, ParseReal;
    DecimalParts(a, b);
    DecimalValue(a, b);
    DecimalChars(a, b);
    MillionParts(m);
  }

  lemma MillionParts(m: nat)
    ensures (m / MILLION) as real + (m % MILLION) as real / 1000000.0 == m as real / 1000000.0
  {
    assert m == m / MILLION * MILLION + m % MILLION;
    assert m as real == (m / MILLION) as real * 1000000.0 + (m % MILLION) as real;
  }

  lemma MinusText(s: string)
    requires AllValueChars(s)
    ensures AllValueChars("-" + s) && CountDots("-" + s) == CountDots(s) && HasNonDigit("-" + s)
  {
    assert ("-" + s)[1..] == s;
    assert ("-" + s)[0] in "-" + s && NonDigit('-');
  }

  lemma FixedText(r: real)
    requires FitsDouble(r)
    ensures var s := Fixed(r);
      && |s| <= MAX_DIGITS + 8 && s != "" && AllValueChars(s) && KeyChar(s[0])
      && CountDots(s) == 1 && (HasNonDigit(s) <==> r < 0.0)
      && (r >= 0.0 ==> ParseReal(s) == Rounded(r))
  {
    var m := Micros(Magnitude(r));
    MicrosBack(m);
    hide MicrosText, Micros, AllValueChars, HasNonDigit, CountDots, ParseReal, Pow10;
    if r < 0.0 {
      MinusText(MicrosText(m));
    }
  }

  // ---- Which trees come back, and as what ----

  /** An id is a nonempty string of at most 127 characters. */
  predicate GoodKey(key: string) {
    0 < |key| <= KEY_MAX && '\n' !in key
  }

  predicate Distinct(ms: seq<Member>) {
    forall i, j :: 0 <= i < j < |ms| ==> ms[i].key != ms[j].key
  }

  /** Containers nest no deeper than the parser follows, keys are good and distinct, and numbers
      are those of the source's types. The depth is that of v itself. */
  predicate Fits(v: Var, depth: nat) {
    match v
    case Null => true
    case Int(i) => i < Json.U64
    case Dbl(r) => FitsDouble(r)
    case Str(s) => true
    case Dict(ms) => depth <= MAX_DEPTH && Distinct(ms) && forall m :: m in ms ==> GoodKey(m.key) && Fits(m.value, depth + 1)
    case Arr(es) => depth <= MAX_DEPTH && forall e :: e in es ==> Fits(e, depth + 1)
  }

  /** A string that the printer cuts off: it comes without its closing quote. */
  predicate IsCut(s: string) {
    |Escape(s)| + 2 > PRINT_MAX
  }

  /** How many strings of a tree are cut off. */
  function Cuts(v: Var): nat
    decreases v, 0
  {
    match v
    case Str(s) => if IsCut(s) then 1 else 0
    case Dict(ms) => MemberCuts(v, ms, 0)
    case Arr(es) => ElemCuts(v, es, 0)
    case _ => 0
  }

  /** Those of the members from k on. */
  function MemberCuts(v: Var, ms: seq<Member>, k: nat): nat
    requires v == Dict(ms)
    decreases v, 0, if k < |ms| then |ms| - k else 0
  {
    if k >= |ms| then 0 else Cuts(ms[k].value) + MemberCuts(v, ms, k + 1)
  }

  function ElemCuts(v: Var, es: seq<Var>, k: nat): nat
    requires v == Arr(es)
    decreases v, 0, if k < |es| then |es| - k else 0
  {
    if k >= |es| then 0 else Cuts(es[k]) + ElemCuts(v, es, k + 1)
  }

  lemma {:induction false} EscapeGrows(s: string)
    ensures |Escape(s)| >= |s|
  {
    if s != "" {
      EscapeGrows(s[1..]);
    }
  }

  lemma {:induction false} EscapeBound(s: string)
    ensures |Escape(s)| <= 2 * |s|
  {
    if s != "" {
      EscapeBound(s[1..]);
    }
  }

  /** A good key is printed in full. */
  lemma KeyPrinted(key: string)
    requires GoodKey(key)
    ensures KeyText(key) == "\"" + Escape(key) + "\": "
  {
    EscapeBound(key);
  }

  lemma StringPrinted(s: string)
    requires !IsCut(s)
    ensures StringText(s) == "\"" + Escape(s) + "\"" && |s| <= BUFFER_MAX
  {
    EscapeGrows(s);
  }

  /** What a tree comes back as: unset values as empty strings, negative doubles as their text,
      the other doubles rounded to millionths. */
  function Normal(v: Var): Var {
    match v
    case Null => Str("")
    case Int(i) => v
    case Dbl(r) => if r < 0.0 then Str(Fixed(r)) else Dbl(Rounded(r))
    case Str(s) => v
    case Dict(ms) => Dict(NormalMembers(v, ms, |ms|))
    case Arr(es) => Arr(NormalElems(v, es, |es|))
  }

  /** The first n members. */
  function NormalMembers(v: Var, ms: seq<Member>, n: nat): (r: seq<Member>)
    requires v == Dict(ms) && n <= |ms|
    ensures |r| == n
    decreases v, 0
  {
    seq(n, i requires 0 <= i < n => Member(ms[i].key, Normal(ms[i].value)))
  }

  function NormalElems(v: Var, es: seq<Var>, n: nat): (r: seq<Var>)
    requires v == Arr(es) && n <= |es|
    ensures |r| == n
    decreases v, 0
  {
    seq(n, i requires 0 <= i < n => Normal(es[i]))
  }

  // ---- Values without children ----

  predicate IsContainer(v: Var) {
    v.Dict? || v.Arr?
  }

  function Ready(inArray: bool): State {
    if inArray then WaitElem else WaitValue
  }

  /** What follows a value: a separator or the end of the last line. */
  predicate Follows(more: string) {
    more != "" && (more[0] == ',' || more[0] == '\n')
  }

  /** A number's text and what it means. */
  lemma NumberText(x: Var, indent: nat)
    requires (x.Int? || x.Dbl?) && Fits(x, 0)
    ensures var s := ValueText(x, indent);
      && 0 < |s| <= BUFFER_MAX && AllValueChars(s) && KeyChar(s[0])
      && Scalar(s, HasNonDigit(s), CountDots(s)) == Normal(x)
  {
    if x.Int? {
      DigitsBack(x.i);
      assert x.i < Pow10(20) by {
        assert Pow10(5) == 100000;
        assert Pow10(10) == 100000 * Pow10(5);
        TwentyDigits();
      }
      DigitsLength(x.i, 20);
      NoDots(Digits(x.i));
      assert Digits(x.i)[0] in Digits(x.i);
    } else {
      FixedText(x.r);
    }
  }

  lemma TwentyDigits()
    ensures Json.U64 < Pow10(20)
  {
    assert Pow10(4) == 10000;
    assert Pow10(8) == 100000000;
    assert Pow10(12) == 1000000000000;
    assert Pow10(16) == 10000000000000000;
  }

  lemma NumberStarts(v: Var, r: Regs, inArray: bool, t: string, depth: nat)
    requires r.st == Ready(inArray) && t != "" && KeyChar(t[0])
    ensures Level(v, r, t, depth) == Level(v, r.(st := Value(inArray), val := "", nondigits := false, dots := 0), t, depth)
  {
    Go(v, r, t, depth);
  }

  lemma NumberEnds(v: Var, r: Regs, inArray: bool, more: string, depth: nat)
    requires r.st == Value(inArray) && Follows(more)
    ensures Level(v, r, more, depth)
         == Level(Store(v, r.key, inArray, Scalar(r.val, r.nondigits, r.dots)), r.(st := Wait(inArray)), more, depth)
  {
    var v' := Store(v, r.key, inArray, Scalar(r.val, r.nondigits, r.dots));
    Go(v, r, more, depth);
    assert more == [more[0]] + more[1..];
    SkipOne(v', r.(st := Wait(inArray)), more[0], more[1..], depth);
  }

  lemma NumberRead(v: Var, r: Regs, inArray: bool, x: Var, indent: nat, more: string, depth: nat) returns (r': Regs)
    requires r.st == Ready(inArray) && (x.Int? || x.Dbl?) && Fits(x, 0) && Follows(more)
    ensures r'.st == Wait(inArray)
    ensures Level(v, r, ValueText(x, indent) + more, depth) == Level(Store(v, r.key, inArray, Normal(x)), r', more, depth)
  {
    hide Level, ValueText, Normal, Scalar, Store, HasNonDigit, CountDots, AllValueChars, KeyChar, Fits;
    var s := ValueText(x, indent);
    NumberText(x, indent);
    NumberStarts(v, r, inArray, s + more, depth);
    var r1 := r.(st := Value(inArray), val := "", nondigits := false, dots := 0);
    ValueRun(v, r1, s, more, depth);
    var r2 := r1.(val := r1.val + s, dots := r1.dots + CountDots(s), nondigits := r1.nondigits || HasNonDigit(s));
    assert r2.val == s;
    NumberEnds(v, r2, inArray, more, depth);
    r' := r2.(st := Wait(inArray));
  }

  lemma QuoteOpens(v: Var, r: Regs, inArray: bool, t: string, depth: nat)
    requires r.st == Ready(inArray)
    ensures Level(v, r, "\"" + t, depth) == Level(v, r.(st := Quoted(inArray), val := ""), t, depth)
  {
    assert ("\"" + t)[1..] == t;
    Go(v, r, "\"" + t, depth);
  }

  lemma QuoteCloses(v: Var, r: Regs, inArray: bool, t: string, depth: nat)
    requires r.st == Quoted(inArray)
    ensures Level(v, r, "\"" + t, depth) == Level(Store(v, r.key, inArray, Str(r.val)), r.(st := Wait(inArray)), t, depth)
  {
    assert ("\"" + t)[1..] == t;
    Go(v, r, "\"" + t, depth);
  }

  lemma StringRead(v: Var, r: Regs, inArray: bool, s: string, more: string, depth: nat) returns (r': Regs)
    requires r.st == Ready(inArray) && |s| <= BUFFER_MAX
    ensures r'.st == Wait(inArray)
    ensures Level(v, r, "\"" + Escape(s) + "\"" + more, depth) == Level(Store(v, r.key, inArray, Str(s)), r', more, depth)
  {
    hide Level, Store;
    var r1 := r.(st := Quoted(inArray), val := "");
    assert "\"" + Escape(s) + "\"" + more == "\"" + (Escape(s) + ("\"" + more));
    QuoteOpens(v, r, inArray, Escape(s) + ("\"" + more), depth);
    QuotedRun(v, r1, s, "\"" + more, depth);
    assert r1.val + s == s;
    QuoteCloses(v, r1.(val := s), inArray, more, depth);
    r' := r1.(val := s, st := Wait(inArray));
  }

  lemma ScalarRead(v: Var, r: Regs, inArray: bool, x: Var, indent: nat, more: string, depth: nat) returns (r': Regs)
    requires r.st == Ready(inArray) && !IsContainer(x) && Fits(x, 0) && Cuts(x) == 0 && Follows(more)
    ensures r'.st == Wait(inArray)
    ensures Level(v, r, ValueText(x, indent) + more, depth) == Level(Store(v, r.key, inArray, Normal(x)), r', more, depth)
  {
    hide Level, Store;
    match x
    case Null =>
      assert ValueText(x, indent) == "\"" + Escape("") + "\"";
      r' := StringRead(v, r, inArray, "", more, depth);
    case Str(s) =>
      StringPrinted(s);
      r' := StringRead(v, r, inArray, s, more, depth);
    case _ =>
      r' := NumberRead(v, r, inArray, x, indent, more, depth);
  }

  // ---- Containers ----

  /** The tree with one more value: under a new key, or at the end of an array. */
  function Added(v: Var, key: string, inArray: bool, value: Var): Var {
    if inArray then Append(v, value) else Dict(MembersOf(v) + [Member(key, value)])
  }

  /** The place for a value that the printer's output leads to: a key not yet there, or an array. */
  predicate Place(v: Var, key: string, inArray: bool) {
    if inArray then v.Arr? else TakesKeys(v) && 0 < |key| <= KEY_MAX && FindKey(MembersOf(v), key) == |MembersOf(v)|
  }

  lemma StoreAdds(v: Var, r: Regs, inArray: bool, value: Var)
    requires Place(v, r.key, inArray) && r.st == Ready(inArray)
    ensures Store(v, r.key, inArray, value) == Added(v, r.key, inArray, value) == WithChild(v, r, value)
    ensures Child(v, r, value.Arr?) == Some(Empty(value.Arr?))
  {
  }

  /** The opening of a container, and everything up to its end. */
  lemma ContainerOpens(v: Var, r: Regs, inArray: bool, isArray: bool, t: string, done: Var, rest: string, depth: nat)
    requires r.st == Ready(inArray) && Place(v, r.key, inArray) && depth < MAX_DEPTH
    requires rest != "" && done.Arr? == isArray
    requires Level(Empty(isArray), Start(Wait(isArray)), t, depth + 1) == Done(true, done, rest)
    ensures Level(v, r, [if isArray then '[' else '{'] + t, depth)
         == Level(Added(v, r.key, inArray, done), r.(st := Wait(inArray)), rest[1..], depth)
  {
    StoreAdds(v, r, inArray, done);
    var u := [if isArray then '[' else '{'] + t;
    assert u[1..] == t && u[0] == if isArray then '[' else '{';
    assert Step(v, r, u) == Open(isArray, r);
    hide Step, Child, WithChild, Added, Place;
  }

  lemma Closes(v: Var, r: Regs, isArray: bool, rest: string, depth: nat)
    requires r.st == Wait(isArray)
    ensures Level(v, r, [Closer(isArray)] + rest, depth) == Done(true, v, [Closer(isArray)] + rest)
  {
  }

  /** A key with its quotes and colon. */
  lemma KeyRead(v: Var, r: Regs, key: string, more: string, depth: nat) returns (r': Regs)
    requires r.st == WaitKey && GoodKey(key)
    ensures r'.st == WaitValue && r'.key == key
    ensures Level(v, r, KeyText(key) + more, depth) == Level(v, r', more, depth)
  {
    KeyPrinted(key);
    hide Escape, KeyText, Level;
    var e, t := Escape(key), "\"" + (": " + more);
    var r1 := r.(st := KeyQuoted, key := "", val := "");
    var r2 := r1.(key := key);
    KeyPieces(e, more);
    KeyOpens(v, r, e + t, depth);
    KeyRun(v, r1, key, t, depth);
    assert r1.key + key == key;
    KeyCloses(v, r2, more, depth);
    r' := r2.(st := WaitValue);
  }

  lemma KeyPieces(e: string, more: string)
    ensures "\"" + e + "\": " + more == "\"" + (e + ("\"" + (": " + more)))
    ensures "\"" + (": " + more) == "\": " + more
  {
    assert "\": " == "\"" + ": ";
  }

  lemma KeyOpens(v: Var, r: Regs, t: string, depth: nat)
    requires r.st == WaitKey
    ensures Level(v, r, "\"" + t, depth) == Level(v, r.(st := KeyQuoted, key := "", val := ""), t, depth)
  {
    assert ("\"" + t)[1..] == t;
    Go(v, r, "\"" + t, depth);
  }

  lemma KeyCloses(v: Var, r: Regs, more: string, depth: nat)
    requires r.st == KeyQuoted
    ensures Level(v, r, "\": " + more, depth) == Level(v, r.(st := WaitValue), more, depth)
  {
    var r' := r.(st := WaitValue);
    assert ("\": " + more)[1..] == ": " + more;
    Go(v, r, "\": " + more, depth);
    assert (": " + more)[1..] == " " + more;
    Go(v, r', ": " + more, depth);
    assert (" " + more)[1..] == more;
    Go(v, r', " " + more, depth);
  }

  /** What stands before item k. */
  lemma ItemStarts(v: Var, r: Regs, k: nat, indent: nat, more: string, depth: nat)
    requires Waits(r.st)
    ensures Level(v, r, Separator(k) + Indent(indent) + more, depth) == Level(v, r, more, depth)
  {
    hide Level;
    var n := if indent > 128 then 128 else indent;
    SkipSpaces(v, r, n, more, depth);
    if k > 0 {
      assert Separator(k) + Indent(indent) + more == [','] + (['\n'] + (Indent(indent) + more));
      SkipOne(v, r, ',', ['\n'] + (Indent(indent) + more), depth);
      SkipOne(v, r, '\n', Indent(indent) + more, depth);
    } else {
      assert Separator(k) + Indent(indent) + more == Indent(indent) + more;
    }
  }

  /** The last line of a container and what comes after it. */
  function EndText(indent: nat, isArray: bool, rest: string): string {
    Indent(indent) + ([Closer(isArray)] + rest)
  }

  /** What stands after the last item. */
  lemma ItemsEnd(v: Var, r: Regs, isArray: bool, n: nat, indent: nat, rest: string, depth: nat)
    requires r.st == Wait(isArray)
    ensures Level(v, r, Ending(n) + EndText(indent, isArray, rest), depth) == Done(true, v, [Closer(isArray)] + rest)
  {
    hide Level;
    var close := [Closer(isArray)] + rest;
    Closes(v, r, isArray, rest, depth);
    SkipSpaces(v, r, if indent > 128 then 128 else indent, close, depth);
    if n > 0 {
      SkipOne(v, r, '\n', Indent(indent) + close, depth);
    } else {
      assert Ending(n) + EndText(indent, isArray, rest) == Indent(indent) + close;
    }
  }

  /** A value of any kind, in a place of its own. */
  lemma {:induction false} ValueRead(v: Var, r: Regs, inArray: bool, x: Var, indent: nat, more: string, depth: nat) returns (r': Regs)
    requires r.st == Ready(inArray) && Place(v, r.key, inArray) && Fits(x, depth + 1) && Cuts(x) == 0 && Follows(more)
    ensures r'.st == Wait(inArray)
    ensures Level(v, r, ValueText(x, indent) + more, depth) == Level(Added(v, r.key, inArray, Normal(x)), r', more, depth)
    decreases x, 2, 0
  {
    hide Level, Place, Added;
    if IsContainer(x) {
      r' := ContainerRead(v, r, inArray, x, indent, more, depth);
    } else {
      StoreAdds(v, r, inArray, Normal(x));
      r' := ScalarRead(v, r, inArray, x, indent, more, depth);
    }
  }

  function Body(x: Var, indent: nat): string
    requires IsContainer(x)
  {
    if x.Dict? then MembersText(x, x.members, 0, indent) else ElemsText(x, x.elems, 0, indent)
  }

  lemma ContainerText(x: Var, indent: nat, more: string)
    requires IsContainer(x)
    ensures ValueText(x, indent) + more
      == [if x.Arr? then '[' else '{'] + (['\n'] + (Body(x, Deeper(indent)) + EndText(indent, x.Arr?, more)))
  {
    hide MembersText, ElemsText, Indent;
  }

  lemma {:induction false} ContainerRead(v: Var, r: Regs, inArray: bool, x: Var, indent: nat, more: string, depth: nat) returns (r': Regs)
    requires r.st == Ready(inArray) && Place(v, r.key, inArray) && IsContainer(x) && Fits(x, depth + 1) && Cuts(x) == 0 && Follows(more)
    ensures r'.st == Wait(inArray)
    ensures Level(v, r, ValueText(x, indent) + more, depth) == Level(Added(v, r.key, inArray, Normal(x)), r', more, depth)
    decreases x, 1, 0
  {
    hide Level, Place, Added, EndText;
    var isArray := x.Arr?;
    var start := Start(Wait(isArray));
    var inside := Body(x, Deeper(indent)) + EndText(indent, isArray, more);
    var rest := [Closer(isArray)] + more;
    ContainerText(x, indent, more);
    SkipOne(Empty(isArray), start, '\n', inside, depth + 1);
    if x.Dict? {
      assert NormalMembers(x, x.members, 0) == [];
      MembersRead(x, x.members, 0, Dict([]), start, Deeper(indent), indent, more, depth + 1);
    } else {
      assert NormalElems(x, x.elems, 0) == [];
      ElemsRead(x, x.elems, 0, Arr([]), start, Deeper(indent), indent, more, depth + 1);
    }
    ContainerOpens(v, r, inArray, isArray, ['\n'] + inside, Normal(x), rest, depth);
    assert rest[1..] == more;
    r' := r.(st := Wait(inArray));
  }

  lemma MemberText(x: Var, ms: seq<Member>, k: nat, indent: nat, end: string)
    requires x == Dict(ms) && k < |ms| && end != ""
    ensures MembersText(x, ms, k, indent) + end == Separator(k) + Indent(indent)
      + (KeyText(ms[k].key) + (ValueText(ms[k].value, indent) + (MembersText(x, ms, k + 1, indent) + end)))
    ensures Follows(MembersText(x, ms, k + 1, indent) + end)
  {
    hide ValueText, KeyText, Indent;
  }

  lemma ElemText(x: Var, es: seq<Var>, k: nat, indent: nat, end: string)
    requires x == Arr(es) && k < |es| && end != ""
    ensures ElemsText(x, es, k, indent) + end == Separator(k) + Indent(indent)
      + (ValueText(es[k], indent) + (ElemsText(x, es, k + 1, indent) + end))
    ensures Follows(ElemsText(x, es, k + 1, indent) + end)
  {
    hide ValueText, Indent;
  }

  /** Member k has a key that is not there yet. */
  lemma NewKey(x: Var, ms: seq<Member>, k: nat, v: Var)
    requires x == Dict(ms) && Distinct(ms) && k < |ms| && GoodKey(ms[k].key)
    requires v == Dict(NormalMembers(x, ms, k)) || (k == 0 && v == Null)
    ensures Place(v, ms[k].key, false)
    ensures Added(v, ms[k].key, false, Normal(ms[k].value)) == Dict(NormalMembers(x, ms, k + 1))
  {
    hide Normal;
    assert MembersOf(v) == NormalMembers(x, ms, k);
    assert NormalMembers(x, ms, k + 1) == NormalMembers(x, ms, k) + [Member(ms[k].key, Normal(ms[k].value))];
  }

  lemma FitMember(x: Var, ms: seq<Member>, k: nat, depth: nat)
    requires x == Dict(ms) && Fits(x, depth) && k < |ms|
    ensures Distinct(ms) && GoodKey(ms[k].key) && Fits(ms[k].value, depth + 1)
  {
    assert ms[k] in ms;
  }

  lemma {:induction false} MembersRead(x: Var, ms: seq<Member>, k: nat, v: Var, r: Regs, indent: nat, outer: nat, rest: string, depth: nat)
    requires x == Dict(ms) && Fits(x, depth) && MemberCuts(x, ms, k) == 0 && k <= |ms| && r.st == WaitKey
    requires v == Dict(NormalMembers(x, ms, k)) || (k == 0 && v == Null)
    ensures Level(v, r, MembersText(x, ms, k, indent) + EndText(outer, false, rest), depth)
         == Done(true, if |ms| == 0 then v else Normal(x), "}" + rest)
    decreases x, 0, |ms| - k
  {
    hide Level, Follows, Distinct, GoodKey, Place, Added, EndText, ValueText, KeyText, Indent, Cuts;
    if k == |ms| {
      ItemsEnd(v, r, false, |ms|, outer, rest, depth);
    } else {
      var m := ms[k];
      var end := EndText(outer, false, rest);
      var tail := MembersText(x, ms, k + 1, indent) + end;
      var atValue := ValueText(m.value, indent) + tail;
      var atKey := KeyText(m.key) + atValue;
      FitMember(x, ms, k, depth);
      EndNotEmpty(outer, false, rest);
      MemberText(x, ms, k, indent, end);
      ItemStarts(v, r, k, indent, atKey, depth);
      var r1 := KeyRead(v, r, m.key, atValue, depth);
      NewKey(x, ms, k, v);
      hide Fits, Normal, NormalMembers, MembersText;
      var r2 := ValueRead(v, r1, false, m.value, indent, tail, depth);
      MembersRead(x, ms, k + 1, Dict(NormalMembers(x, ms, k + 1)), r2, indent, outer, rest, depth);
    }
  }

  lemma EndNotEmpty(indent: nat, isArray: bool, rest: string)
    ensures EndText(indent, isArray, rest) != ""
  {
  }

  lemma NewElem(x: Var, es: seq<Var>, k: nat, key: string)
    requires x == Arr(es) && k < |es|
    ensures Added(Arr(NormalElems(x, es, k)), key, true, Normal(es[k])) == Arr(NormalElems(x, es, k + 1))
  {
    hide Normal;
    assert NormalElems(x, es, k + 1) == NormalElems(x, es, k) + [Normal(es[k])];
  }

  lemma {:induction false} ElemsRead(x: Var, es: seq<Var>, k: nat, v: Var, r: Regs, indent: nat, outer: nat, rest: string, depth: nat)
    requires x == Arr(es) && Fits(x, depth) && ElemCuts(x, es, k) == 0 && k <= |es| && r.st == WaitElem && v == Arr(NormalElems(x, es, k))
    ensures Level(v, r, ElemsText(x, es, k, indent) + EndText(outer, true, rest), depth) == Done(true, Normal(x), "]" + rest)
    decreases x, 0, |es| - k
  {
    hide Level, Follows, Added, EndText, ValueText, Indent, Cuts;
    if k == |es| {
      ItemsEnd(v, r, true, |es|, outer, rest, depth);
    } else {
      assert es[k] in es;
      var end := EndText(outer, true, rest);
      var tail := ElemsText(x, es, k + 1, indent) + end;
      var atValue := ValueText(es[k], indent) + tail;
      EndNotEmpty(outer, true, rest);
      ElemText(x, es, k, indent, end);
      ItemStarts(v, r, k, indent, atValue, depth);
      NewElem(x, es, k, r.key);
      var r1 := ValueRead(v, r, true, es[k], indent, tail, depth);
      ElemsRead(x, es, k + 1, Arr(NormalElems(x, es, k + 1)), r1, indent, outer, rest, depth);
    }
  }

  // ---- The whole text ----

  lemma TextStarts(v: Var, more: string)
    ensures Parse(v, "{\n" + more) == Level(v, Start(Beginning).(st := WaitKey), more, 0)
  {
    var t := "{\n" + more;
    assert t[1..] == ['\n'] + more;
    Go(v, Start(Beginning), t, 0);
    SkipOne(v, Start(Beginning).(st := WaitKey), '\n', more, 0);
  }

  /** Parsing what was printed succeeds at the closing brace, with the members in their order. */
  lemma PrintParse(ms: seq<Member>)
    requires Fits(Dict(ms), 0) && Cuts(Dict(ms)) == 0
    ensures Parse(Null, Write(Dict(ms)).0) == Done(true, if ms == [] then Null else Normal(Dict(ms)), "}\n")
  {
    hide Level, Normal, Fits, MembersText, Parse, MemberCuts;
    var x := Dict(ms);
    var more := MembersText(x, ms, 0, 4) + EndText(0, false, "\n");
    assert Write(x).0 == "{\n" + more;
    TextStarts(Null, more);
    MembersRead(x, ms, 0, Null, Start(Beginning).(st := WaitKey), 4, 0, "\n", 0);
  }

  /** No unset values, and no doubles but whole, nonnegative numbers of millionths. */
  predicate Exact(v: Var) {
    match v
    case Null => false
    case Int(i) => true
    case Dbl(r) => r >= 0.0 && (r * 1000000.0).Floor as real == r * 1000000.0
    case Str(s) => true
    case Dict(ms) => forall m :: m in ms ==> Exact(m.value)
    case Arr(es) => forall e :: e in es ==> Exact(e)
  }

  lemma WholeMicros(r: real)
    requires r >= 0.0
    ensures Rounded(r) == r <==> (r * 1000000.0).Floor as real == r * 1000000.0
  {
    var y := r * 1000000.0;
    if y.Floor as real == y {
      assert (y + 0.5).Floor == y.Floor;
      assert Rounded(r) == y / 1000000.0;
    } else {
      assert Rounded(r) * 1000000.0 == (y + 0.5).Floor as real;
    }
  }

  lemma {:induction false} NormalExact(v: Var)
    ensures Normal(v) == v <==> Exact(v)
    decreases v
  {
    match v
    case Dbl(r) =>
      if r >= 0.0 {
        WholeMicros(r);
      }
    case Dict(ms) =>
      forall m | m in ms ensures Normal(m.value) == m.value <==> Exact(m.value) {
        NormalExact(m.value);
      }
      DictSame(v, ms);
    case Arr(es) =>
      forall e | e in es ensures Normal(e) == e <==> Exact(e) {
        NormalExact(e);
      }
      ArrSame(v, es);
    case _ =>
  }

  lemma DictSame(v: Var, ms: seq<Member>)
    requires v == Dict(ms)
    ensures Normal(v) == v <==> forall m :: m in ms ==> Normal(m.value) == m.value
  {
    var ns := NormalMembers(v, ms, |ms|);
    if Normal(v) == v {
      forall i | 0 <= i < |ms| ensures Normal(ms[i].value) == ms[i].value {
        assert ns[i] == ms[i];
      }
    }
    if forall m :: m in ms ==> Normal(m.value) == m.value {
      assert forall i :: 0 <= i < |ms| ==> ms[i] in ms && ns[i] == ms[i];
      assert ns == ms;
    }
  }

  lemma ArrSame(v: Var, es: seq<Var>)
    requires v == Arr(es)
    ensures Normal(v) == v <==> forall e :: e in es ==> Normal(e) == e
  {
    var ns := NormalElems(v, es, |es|);
    if Normal(v) == v {
      forall i | 0 <= i < |es| ensures Normal(es[i]) == es[i] {
        assert ns[i] == es[i];
      }
    }
    if forall e :: e in es ==> Normal(e) == e {
      forall i | 0 <= i < |es| ensures ns[i] == es[i] {
        assert es[i] in es;
      }
      assert ns == es;
    }
  }
}
