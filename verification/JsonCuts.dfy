/** Strings that the printer cuts off, and which trees come back. The argument that an odd number
    of them is never made good: parsing creates no '#', so a text that yields its own tree has no
    comment, and then every quote outside of a string opens one and needs another to close it. */
module JsonCuts {
  import opened Json
  import opened JsonTrip
  import opened Wrappers

  // ---- Marks: the '#' characters of texts and trees ----

  function Hashes(s: string): nat {
    if s == "" then 0 else (if s[0] == '#' then 1 else 0) + Hashes(s[1..])
  }

  lemma {:induction false} HashesConcat(a: string, b: string)
    ensures Hashes(a + b) == Hashes(a) + Hashes(b)
  {
    if a == "" {
      assert a + b == b;
    } else {
      assert (a + b)[1..] == a[1..] + b;
      HashesConcat(a[1..], b);
    }
  }

  function Sum(ns: seq<nat>): nat {
    if ns == [] then 0 else ns[0] + Sum(ns[1..])
  }

  lemma {:induction false} SumSnoc(ns: seq<nat>, n: nat)
    ensures Sum(ns + [n]) == Sum(ns) + n
  {
    if ns == [] {
      assert ns + [n] == [n];
    } else {
      assert (ns + [n])[1..] == ns[1..] + [n];
      SumSnoc(ns[1..], n);
    }
  }

  lemma {:induction false} SumUpdate(ns: seq<nat>, i: nat, n: nat)
    requires i < |ns|
    ensures Sum(ns[i := n]) + ns[i] == Sum(ns) + n
  {
    if i > 0 {
      assert ns[i := n][1..] == ns[1..][i - 1 := n];
      SumUpdate(ns[1..], i - 1, n);
    } else {
      assert ns[i := n][1..] == ns[1..];
    }
  }

  function Marks(v: Var): nat
    decreases v, 1
  {
    match v
    case Str(s) => Hashes(s)
    case Dict(ms) => Sum(MemberMarks(v, ms))
    case Arr(es) => Sum(ElemMarks(v, es))
    case _ => 0
  }

  function MemberMarks(v: Var, ms: seq<Member>): (ns: seq<nat>)
    requires v == Dict(ms)
    ensures |ns| == |ms|
    decreases v, 0
  {
    seq(|ms|, i requires 0 <= i < |ms| => Hashes(ms[i].key) + Marks(ms[i].value))
  }

  function ElemMarks(v: Var, es: seq<Var>): (ns: seq<nat>)
    requires v == Arr(es)
    ensures |ns| == |es|
    decreases v, 0
  {
    seq(|es|, i requires 0 <= i < |es| => Marks(es[i]))
  }

  function MarksOf(ms: seq<Member>): seq<nat> {
    MemberMarks(Dict(ms), ms)
  }

  lemma CutHashes(key: string)
    ensures Hashes(CutKey(key)) <= Hashes(key)
  {
    if |key| > KEY_MAX {
      HashesConcat(key[..KEY_MAX], key[KEY_MAX..]);
      assert key[..KEY_MAX] + key[KEY_MAX..] == key;
    }
  }

  lemma LinkedMarks(ms: seq<Member>, key: string, value: Var)
    ensures Sum(MarksOf(LinkMember(ms, key, value))) <= Sum(MarksOf(ms)) + Hashes(key) + Marks(value)
  {
    CutHashes(key);
    hide Marks, Hashes, CutKey;
    var n := Hashes(CutKey(key)) + Marks(value);
    assert MarksOf(ms + [Member(CutKey(key), value)]) == MarksOf(ms) + [n];
    SumSnoc(MarksOf(ms), n);
  }

  lemma UpdatedMarks(ms: seq<Member>, i: nat, value: Var)
    requires i < |ms|
    ensures Sum(MarksOf(ms[i := Member(ms[i].key, value)])) + Marks(ms[i].value) == Sum(MarksOf(ms)) + Marks(value)
  {
    hide Marks, Hashes;
    var n := Hashes(ms[i].key) + Marks(value);
    assert MarksOf(ms[i := Member(ms[i].key, value)]) == MarksOf(ms)[i := n];
    SumUpdate(MarksOf(ms), i, n);
  }

  lemma MembersMarks(v: Var)
    ensures !v.Arr? && !v.Str? ==> Marks(v) == Sum(MarksOf(MembersOf(v)))
    ensures MarksOf([]) == []
  {
  }

  lemma AppendMarks(v: Var, value: Var)
    ensures Marks(Append(v, value)) <= Marks(v) + Marks(value)
  {
    if v.Arr? {
      var w := Arr(v.elems + [value]);
      assert ElemMarks(w, v.elems + [value]) == ElemMarks(v, v.elems) + [Marks(value)];
      SumSnoc(ElemMarks(v, v.elems), Marks(value));
    }
  }

  lemma SetMarks(v: Var, key: string, value: Var)
    ensures Marks(SetScalar(v, key, value)) <= Marks(v) + Hashes(key) + Marks(value)
  {
    var ms := MembersOf(v);
    var i := FindKey(ms, key);
    MembersMarks(v);
    if TakesKeys(v) {
      LinkedMarks(ms, key, value);
      if i < |ms| {
        UpdatedMarks(ms, i, value);
      }
      MembersMarks(SetScalar(v, key, value));
    }
    hide Marks, Hashes, MarksOf, Sum;
  }

  lemma StoreMarks(v: Var, key: string, inArray: bool, value: Var)
    ensures Marks(Store(v, key, inArray, value)) <= Marks(v) + (if inArray then 0 else Hashes(key)) + Marks(value)
  {
    AppendMarks(v, value);
    SetMarks(v, key, value);
    hide Marks, Append, SetScalar;
  }

  lemma EmptyMarks(isArray: bool)
    ensures Marks(Empty(isArray)) == 0
  {
  }

  /** A container that has been parsed into brings no more marks than it gained. */
  lemma ChildMarks(v: Var, r: Regs, isArray: bool, child: Var)
    requires Child(v, r, isArray).Some?
    ensures Marks(WithChild(v, r, child)) + Marks(Child(v, r, isArray).value)
      <= Marks(v) + (if r.st.WaitElem? then 0 else Hashes(r.key)) + Marks(child)
  {
    EmptyMarks(isArray);
    EmptyMarks(true);
    AppendMarks(v, child);
    hide Append;
    if !r.st.WaitElem? {
      ContainerMarks(v, r.key, isArray, child);
    }
  }

  lemma ContainerMarks(v: Var, key: string, isArray: bool, child: Var)
    requires GetContainer(v, key, isArray).Some?
    ensures Marks(SetContainer(v, key, child)) + Marks(GetContainer(v, key, isArray).value)
      <= Marks(v) + Hashes(key) + Marks(child)
  {
    var ms := MembersOf(v);
    var i := FindKey(ms, key);
    EmptyMarks(isArray);
    EmptyMarks(true);
    MembersMarks(v);
    if TakesKeys(v) {
      LinkedMarks(ms, key, child);
      if i < |ms| {
        UpdatedMarks(ms, i, child);
      }
      MembersMarks(SetContainer(v, key, child));
    }
    hide Marks, Hashes, MarksOf, Sum;
  }

  // ---- Inside and outside of quotes ----

  /** Where a text leads, read with quotes and escapes alone. Bad: a backslash or a comment
      outside of quotes. */
  datatype Mode = Out | In | Esc | Bad

  function Turn(m: Mode, c: char): Mode {
    match m
    case Out => if c == '\"' then In else if c == '\\' || c == '#' then Bad else Out
    case In => if c == '\"' then Out else if c == '\\' then Esc else In
    case Esc => In
    case Bad => Bad
  }

  function Scan(t: string, m: Mode): Mode {
    if t == "" then m else Scan(t[1..], Turn(m, t[0]))
  }

  lemma {:induction false} ScanConcat(a: string, b: string, m: Mode)
    ensures Scan(a + b, m) == Scan(b, Scan(a, m))
  {
    hide Turn;
    if a == "" {
      assert a + b == b;
    } else {
      assert (a + b)[1..] == a[1..] + b;
      ScanConcat(a[1..], b, Turn(m, a[0]));
    }
  }

  // ---- Parsing creates no marks, and keeps them only if it meets no comment ----

  function ModeOf(st: State): Mode {
    if st.KeyQuoted? || st.Quoted? then In else Out
  }

  /** The marks of a key or a value on their way into the tree. */
  function HeldIn(st: State, key: string, val: string): nat {
    match st
    case Key => Hashes(key)
    case KeyQuoted => Hashes(key)
    case WaitValue => Hashes(key)
    case Value(inArray) => (if inArray then 0 else Hashes(key)) + Hashes(val)
    case Quoted(inArray) => (if inArray then 0 else Hashes(key)) + Hashes(val)
    case _ => 0
  }

  function Held(r: Regs): nat {
    HeldIn(if r.st.Comment? then r.stnext else r.st, r.key, r.val)
  }

  function Total(v: Var, r: Regs, t: string): nat {
    Marks(v) + Held(r) + Hashes(t)
  }

  lemma ScalarMarks(s: string, nondigits: bool, dots: nat)
    ensures Marks(Scalar(s, nondigits, dots)) <= Hashes(s)
  {
    hide Hashes;
  }

  lemma HashesSnoc(s: string, c: char)
    ensures Hashes(s + [c]) == Hashes(s) + (if c == '#' then 1 else 0)
  {
    HashesConcat(s, [c]);
  }

  lemma Unfold(t: string, m: Mode)
    requires t != ""
    ensures Hashes(t) == (if t[0] == '#' then 1 else 0) + Hashes(t[1..])
    ensures Scan(t, m) == Scan(t[1..], Turn(m, t[0]))
  {
  }

  /** One step that goes on: marks do not grow, and if none is lost the text is read as it scans. */
  predicate Keeps(v: Var, r: Regs, t: string, v': Var, r': Regs, t': string) {
    && Total(v', r', t') <= Total(v, r, t)
    && (Total(v', r', t') == Total(v, r, t) && !r.st.Comment? ==>
         !r'.st.Comment? && Scan(t, ModeOf(r.st)) == Scan(t', ModeOf(r'.st)))
  }

  lemma PlainChar(c: char)
    ensures KeyChar(c) || ValueChar(c) || IsSpace(c) ==> c != '\"' && c != '\\' && c != '#'
  {
  }

  lemma StepKeeps(v: Var, r: Regs, t: string)
    requires t != ""
    ensures var a := Step(v, r, t); a.Next? ==> Keeps(v, r, t, a.v, a.r, a.t)
  {
    hide Keeps, StepQuoted, StepKeyQuoted, StepValue, StepKey, StepWaitKey, StepWaitElem, StepWaitValue;
    match r.st
    case Quoted(inArray) => QuotedKeeps(v, r, t, inArray);
    case KeyQuoted => KeyQuotedKeeps(v, r, t);
    case Value(inArray) => ValueKeeps(v, r, t, inArray);
    case Key => KeyKeeps(v, r, t);
    case WaitValue => WaitValueKeeps(v, r, t);
    case WaitElem => WaitElemKeeps(v, r, t);
    case Comment => CommentKeeps(v, r, t);
    case _ => WaitKeyKeeps(v, r, t);
  }

  lemma CommentHolds(r: Regs)
    requires r.stnext.Comment?
    ensures HeldIn(r.stnext, r.key, r.val) == 0
  {
  }

  /** A character that is passed over. */
  lemma Consumes(v: Var, r: Regs, t: string, r': Regs)
    requires t != "" && t[0] != '#' && !r.st.Comment? && !r'.st.Comment? && Held(r') <= Held(r)
    requires Turn(ModeOf(r.st), t[0]) == ModeOf(r'.st)
    ensures Keeps(v, r, t, v, r', t[1..])
  {
    Unfold(t, ModeOf(r.st));
    hide Marks, Hashes, Scan, HeldIn;
  }

  /** The start of a comment is a mark that is lost. */
  lemma CommentOpens(v: Var, r: Regs, t: string, after: State)
    requires t != "" && t[0] == '#' && HeldIn(after, r.key, r.val) <= Held(r)
    ensures Keeps(v, r, t, v, r.(stnext := after, st := Comment), t[1..])
  {
    Unfold(t, ModeOf(r.st));
    hide Marks, Hashes, Scan, HeldIn;
    if after.Comment? {
      CommentHolds(r.(stnext := after));
    }
  }

  /** A character that is left for the next step. */
  lemma Stays(v: Var, r: Regs, t: string, r': Regs)
    requires !r.st.Comment? && !r'.st.Comment? && Held(r') <= Held(r) && ModeOf(r.st) == ModeOf(r'.st)
    ensures Keeps(v, r, t, v, r', t)
  {
    hide Marks, Hashes, Scan, HeldIn;
  }

  lemma Waiting(r: Regs)
    ensures r.st in {Beginning, WaitKey, WaitElem} ==> Held(r) == 0
    ensures Hashes("") == 0
  {
  }

  lemma WaitKeyKeeps(v: Var, r: Regs, t: string)
    requires t != "" && (r.st.WaitKey? || r.st.Beginning?)
    ensures var a := StepWaitKey(v, r, t); a.Next? ==> Keeps(v, r, t, a.v, a.r, a.t)
    ensures t[0] == '{' ==> Keeps(v, r, t, v, r.(st := WaitKey), t[1..])
  {
    PlainChar(t[0]);
    var quoted, key := r.(st := KeyQuoted, key := "", val := ""), r.(st := Key, key := "", val := "");
    Waiting(r);
    Waiting(r.(st := WaitKey));
    assert Held(quoted) == Held(key) == 0;
    hide Keeps, Held, KeyChar, IsSpace;
    if t[0] == '#' {
      assert HeldIn(r.st, r.key, r.val) == 0;
      CommentOpens(v, r, t, r.st);
    } else if t[0] == '{' {
      Consumes(v, r, t, r.(st := WaitKey));
    } else if IsSpace(t[0]) || t[0] == ',' {
      Consumes(v, r, t, r);
    } else if t[0] == '\"' {
      Consumes(v, r, t, quoted);
    } else if KeyChar(t[0]) {
      Stays(v, r, t, key);
    }
  }

  lemma WaitElemKeeps(v: Var, r: Regs, t: string)
    requires t != "" && r.st.WaitElem?
    ensures var a := StepWaitElem(v, r, t); a.Next? ==> Keeps(v, r, t, a.v, a.r, a.t)
  {
    PlainChar(t[0]);
    var quoted, value := r.(st := Quoted(true), val := ""), r.(st := Value(true), val := "", nondigits := false, dots := 0);
    Waiting(r);
    assert Held(quoted) == Held(value) == 0;
    hide Keeps, Held, KeyChar, IsSpace;
    if t[0] == '#' {
      assert HeldIn(r.st, r.key, r.val) == 0;
      CommentOpens(v, r, t, r.st);
    } else if IsSpace(t[0]) || t[0] == ',' {
      Consumes(v, r, t, r);
    } else if t[0] == '\"' {
      Consumes(v, r, t, quoted);
    } else if KeyChar(t[0]) {
      Stays(v, r, t, value);
    }
  }

  lemma WaitValueKeeps(v: Var, r: Regs, t: string)
    requires t != "" && r.st.WaitValue?
    ensures var a := StepWaitValue(v, r, t); a.Next? ==> Keeps(v, r, t, a.v, a.r, a.t)
  {
    PlainChar(t[0]);
    var quoted, value := r.(st := Quoted(false), val := ""), r.(st := Value(false), val := "", nondigits := false, dots := 0);
    Waiting(r);
    assert Held(quoted) == Held(value) == Held(r) == HeldIn(r.st, r.key, r.val);
    hide Keeps, Held, ValueChar, IsSpace;
    if t[0] == '#' {
      CommentOpens(v, r, t, r.st);
    } else if IsSpace(t[0]) || t[0] == ':' || t[0] == '=' {
      Consumes(v, r, t, r);
    } else if t[0] == '\"' {
      Consumes(v, r, t, quoted);
    } else if ValueChar(t[0]) {
      Stays(v, r, t, value);
    }
  }

  lemma KeyKeeps(v: Var, r: Regs, t: string)
    requires t != "" && r.st.Key?
    ensures var a := StepKey(v, r, t); a.Next? ==> Keeps(v, r, t, a.v, a.r, a.t)
  {
    Unfold(t, Out);
    PlainChar(t[0]);
    HashesSnoc(r.key, t[0]);
    hide Marks, Hashes, Scan, KeyChar, IsSpace;
  }

  lemma CommentKeeps(v: Var, r: Regs, t: string)
    requires t != "" && r.st.Comment?
    ensures Keeps(v, r, t, v, if t[0] == '\n' then r.(st := r.stnext) else r, t[1..])
  {
    Unfold(t, Out);
    hide Marks, Hashes, Scan, HeldIn;
    if r.stnext.Comment? {
      CommentHolds(r);
    }
  }

  lemma QuotedKeeps(v: Var, r: Regs, t: string, inArray: bool)
    requires t != "" && r.st == Quoted(inArray)
    ensures var a := StepQuoted(v, r, t, inArray); a.Next? ==> Keeps(v, r, t, a.v, a.r, a.t)
  {
    hide Scan, Hashes, Marks, Store, Unescaped;
    Unfold(t, In);
    if t[0] == '\"' {
      StoreMarks(v, r.key, inArray, Str(r.val));
      StringMarks(r.val);
    } else if t[0] != '\\' {
      HashesSnoc(r.val, t[0]);
    } else if |t| > 1 {
      QuotedEscape(r, t);
    }
  }

  lemma StringMarks(s: string)
    ensures Marks(Str(s)) == Hashes(s)
  {
  }

  lemma QuotedEscape(r: Regs, t: string)
    requires |t| > 1 && t[0] == '\\'
    ensures Hashes(r.val + [Unescaped(t[1])]) + Hashes(t[2..]) == Hashes(r.val) + Hashes(t)
    ensures Scan(t, In) == Scan(t[2..], In)
  {
    Unfold(t, In);
    Unfold(t[1..], Esc);
    HashesSnoc(r.val, Unescaped(t[1]));
    assert t[1..][1..] == t[2..];
    hide Scan, Hashes;
  }

  lemma KeyQuotedKeeps(v: Var, r: Regs, t: string)
    requires t != "" && r.st == KeyQuoted
    ensures var a := StepKeyQuoted(v, r, t); a.Next? ==> Keeps(v, r, t, a.v, a.r, a.t)
  {
    hide Scan, Hashes, Marks;
    Unfold(t, In);
    if t[0] == '\\' && |t| > 1 {
      Unfold(t[1..], Esc);
      HashesSnoc(r.key, t[1]);
    } else {
      HashesSnoc(r.key, t[0]);
    }
  }

  lemma ValueKeeps(v: Var, r: Regs, t: string, inArray: bool)
    requires t != "" && r.st == Value(inArray)
    ensures var a := StepValue(v, r, t, inArray); a.Next? ==> Keeps(v, r, t, a.v, a.r, a.t)
  {
    hide Marks, Hashes, Scan, Store, Scalar, ValueChar, IsSpace;
    Unfold(t, Out);
    PlainChar(t[0]);
    if EndsValue(t[0], inArray) {
      ValueMarks(v, r, inArray);
    } else {
      HashesSnoc(r.val, t[0]);
    }
  }

  lemma ValueMarks(v: Var, r: Regs, inArray: bool)
    ensures Marks(Store(v, r.key, inArray, Scalar(r.val, r.nondigits, r.dots)))
      <= Marks(v) + (if inArray then 0 else Hashes(r.key)) + Hashes(r.val)
  {
    ScalarMarks(r.val, r.nondigits, r.dots);
    StoreMarks(v, r.key, inArray, Scalar(r.val, r.nondigits, r.dots));
    hide Marks, Hashes, Store, Scalar;
  }

  lemma CloseKeeps(v: Var, r: Regs, t: string)
    requires t != "" && Step(v, r, t).Close?
    ensures ModeOf(r.st) == Out && !r.st.Comment? && (t[0] == '}' || t[0] == ']')
    ensures Marks(Step(v, r, t).v) + Hashes(t) <= Total(v, r, t)
  {
    hide Marks, Hashes, Scalar, Store, KeyChar, ValueChar, IsSpace;
    if r.st.Value? {
      ValueMarks(v, r, r.st.inArray);
    }
  }

  lemma OpenKeeps(v: Var, r: Regs, t: string)
    requires t != "" && Step(v, r, t).Open?
    ensures var a := Step(v, r, t);
      && a.r == r && ModeOf(r.st) == Out && !r.st.Comment? && (t[0] == '{' || t[0] == '[')
      && Held(r) == if r.st.WaitElem? then 0 else Hashes(r.key)
  {
    hide Hashes, KeyChar, ValueChar, IsSpace, Store, Scalar;
  }

  /** A level that ends well before the end of the text ends at a closing character. */
  predicate EndsWell(o: Outcome) {
    o.Done? && o.ok && o.rest != ""
  }

  predicate Conserved(v: Var, r: Regs, t: string, v': Var, rest: string) {
    && Marks(v') + Hashes(rest) <= Total(v, r, t)
    && (Marks(v') + Hashes(rest) == Total(v, r, t) && !r.st.Comment? ==> Scan(t, ModeOf(r.st)) == Scan(rest, Out))
  }

  lemma {:induction false} LevelConserves(v: Var, r: Regs, t: string, depth: nat)
    requires EndsWell(Level(v, r, t, depth))
    ensures var o := Level(v, r, t, depth); (o.rest[0] == '}' || o.rest[0] == ']') && Conserved(v, r, t, o.v, o.rest)
    decreases |t|, Rank(r.st)
  {
    hide Marks, Hashes, Scan, Step;
    if t != "" {
      match Step(v, r, t)
      case Next(v', r', t') =>
        StepKeeps(v, r, t);
        LevelConserves(v', r', t', depth);
      case Close(v') =>
        CloseKeeps(v, r, t);
      case Open(isArray, r') =>
        OpenKeeps(v, r, t);
        OpenConserves(v, r, t, depth, isArray);
      case _ =>
    }
  }

  lemma {:induction false} OpenConserves(v: Var, r: Regs, t: string, depth: nat, isArray: bool)
    requires t != "" && Step(v, r, t) == Open(isArray, r) && EndsWell(Level(v, r, t, depth))
    requires ModeOf(r.st) == Out && !r.st.Comment? && (t[0] == '{' || t[0] == '[')
    requires Held(r) == if r.st.WaitElem? then 0 else Hashes(r.key)
    ensures var o := Level(v, r, t, depth); (o.rest[0] == '}' || o.rest[0] == ']') && Conserved(v, r, t, o.v, o.rest)
    decreases |t|, 0, 0
  {
    hide Marks, Hashes, Scan, Step, Child, WithChild;
    var child := Child(v, r, isArray).value;
    var start := Start(Wait(isArray));
    var o := Level(child, start, t[1..], depth + 1);
    LevelConserves(child, start, t[1..], depth + 1);
    var v', r', t' := WithChild(v, r, o.v), r.(st := Wait(r.st.WaitElem?)), o.rest[1..];
    LevelConserves(v', r', t', depth);
    ChildMarks(v, r, isArray, o.v);
    Unfold(t, Out);
    Unfold(o.rest, Out);
  }

  // ---- What the printer writes brings no more marks than the tree has ----

  predicate Plain(s: string) {
    forall c :: c in s ==> c != '\"' && c != '\\' && c != '#'
  }

  lemma {:induction false} PlainScan(s: string, m: Mode)
    requires Plain(s)
    ensures Hashes(s) == 0
    ensures Scan(s, m) == if m.Esc? && s != "" then In else m
  {
    if s != "" {
      assert s[0] in s && forall c :: c in s[1..] ==> c in s;
      PlainScan(s[1..], Turn(m, s[0]));
    }
  }

  lemma {:induction false} DigitsPlain(n: nat)
    ensures Plain(Digits(n))
  {
    if n >= 10 {
      DigitsPlain(n / 10);
    }
  }

  lemma {:induction false} PaddedPlain(n: nat, k: nat)
    ensures Plain(Padded(n, k))
    decreases k
  {
    if k > 0 {
      PaddedPlain(n / 10, k - 1);
    }
  }

  lemma FixedPlain(r: real)
    ensures Plain(Fixed(r))
  {
    var m := if r < 0.0 then Micros(-r) else Micros(r);
    DigitsPlain(m / MILLION);
    PaddedPlain(m % MILLION, 6);
    hide Digits, Padded, Micros;
  }

  lemma {:induction false} SpacesPlain(n: nat)
    ensures Plain(Spaces(n))
  {
    if n > 0 {
      SpacesPlain(n - 1);
    }
  }

  lemma PrintedPlain(s: string)
    requires Plain(s)
    ensures Plain(Printed(s))
  {
    assert forall c :: c in Printed(s) ==> c in s;
  }

  lemma IndentPlain(k: nat, indent: nat)
    ensures Plain(Indent(indent)) && Plain(Separator(k) + Indent(indent))
  {
    SpacesPlain(if indent > 128 then 128 else indent);
    hide Spaces;
  }

  lemma {:induction false} EscapeHashes(s: string)
    ensures Hashes(Escape(s)) == Hashes(s)
  {
    if s != "" {
      EscapeHashes(s[1..]);
      HashesConcat(EscapeChar(s[0]), Escape(s[1..]));
      assert Hashes(EscapeChar(s[0])) == if s[0] == '#' then 1 else 0;
    }
  }

  lemma PrintedHashes(s: string)
    ensures Hashes(Printed(s)) <= Hashes(s)
  {
    if |s| > PRINT_MAX {
      assert s == s[..PRINT_MAX] + s[PRINT_MAX..];
      HashesConcat(s[..PRINT_MAX], s[PRINT_MAX..]);
    }
  }

  lemma QuotedHashes(s: string)
    ensures Hashes(StringText(s)) <= Hashes(s) && Hashes(KeyText(s)) <= Hashes(s)
  {
    EscapeHashes(s);
    PlainTails();
    var e := Escape(s);
    HashesConcat("\"", e);
    HashesConcat("\"" + e, "\"");
    HashesConcat("\"" + e, "\": ");
    PrintedHashes("\"" + e + "\"");
    PrintedHashes("\"" + e + "\": ");
    hide Hashes, Escape, Printed;
  }

  lemma PlainTails()
    ensures Hashes("\"") == 0 && Hashes("\": ") == 0
  {
    assert "\": "[1..] == ": ";
  }

  lemma ThreeHashes(a: string, b: string, c: string)
    ensures Hashes(a + b + c) == Hashes(a) + Hashes(b) + Hashes(c)
  {
    HashesConcat(a, b);
    HashesConcat(a + b, c);
    hide Hashes;
  }

  lemma {:induction false} TextHashes(x: Var, indent: nat)
    ensures Hashes(ValueText(x, indent)) <= Marks(x)
    decreases x, 1, 0
  {
    hide Hashes, Indent, Digits, Fixed;
    match x
    case Null =>
      PlainTails();
      HashesConcat("\"", "\"");
      assert "\"" + "\"" == "\"\"";
    case Int(i) => DigitsPlain(i); PrintedPlain(Digits(i)); PlainScan(Printed(Digits(i)), Out);
    case Dbl(r) => FixedPlain(r); PrintedPlain(Fixed(r)); PlainScan(Printed(Fixed(r)), Out);
    case Str(s) => QuotedHashes(s);
    case Dict(ms) =>
      MembersHashes(x, ms, 0, Deeper(indent));
      BodyHashes("{\n", MembersText(x, ms, 0, Deeper(indent)), indent, "}");
      assert MemberMarks(x, ms)[0..] == MemberMarks(x, ms);
    case Arr(es) =>
      ElemsHashes(x, es, 0, Deeper(indent));
      BodyHashes("[\n", ElemsText(x, es, 0, Deeper(indent)), indent, "]");
      assert ElemMarks(x, es)[0..] == ElemMarks(x, es);
  }

  lemma BodyHashes(open: string, body: string, indent: nat, close: string)
    requires Plain(open) && Plain(close)
    ensures Hashes(open + body + Indent(indent) + close) == Hashes(body)
  {
    IndentPlain(0, indent);
    PlainScan(open, Out);
    PlainScan(Indent(indent), Out);
    PlainScan(close, Out);
    ThreeHashes(open, body, Indent(indent));
    HashesConcat(open + body + Indent(indent), close);
    hide Hashes, Indent;
  }

  lemma {:induction false} MembersHashes(x: Var, ms: seq<Member>, k: nat, indent: nat)
    requires x == Dict(ms) && k <= |ms|
    ensures Hashes(MembersText(x, ms, k, indent)) <= Sum(MemberMarks(x, ms)[k..])
    decreases x, 0, |ms| - k
  {
    hide Hashes, Marks, ValueText, KeyText, Indent;
    if k == |ms| {
      PlainScan(Ending(|ms|), Out);
    } else {
      var ns := MemberMarks(x, ms);
      assert ns[k..][0] == ns[k] && ns[k..][1..] == ns[k + 1..];
      var start, key := Separator(k) + Indent(indent), KeyText(ms[k].key);
      var value, rest := ValueText(ms[k].value, indent), MembersText(x, ms, k + 1, indent);
      IndentPlain(k, indent);
      PlainScan(start, Out);
      QuotedHashes(ms[k].key);
      TextHashes(ms[k].value, indent);
      MembersHashes(x, ms, k + 1, indent);
      ThreeHashes(start, key, value);
      HashesConcat(start + key + value, rest);
    }
  }

  lemma {:induction false} ElemsHashes(x: Var, es: seq<Var>, k: nat, indent: nat)
    requires x == Arr(es) && k <= |es|
    ensures Hashes(ElemsText(x, es, k, indent)) <= Sum(ElemMarks(x, es)[k..])
    decreases x, 0, |es| - k
  {
    hide Hashes, Marks, ValueText, Indent;
    if k == |es| {
      PlainScan(Ending(|es|), Out);
    } else {
      var ns := ElemMarks(x, es);
      assert ns[k..][0] == ns[k] && ns[k..][1..] == ns[k + 1..];
      IndentPlain(k, indent);
      PlainScan(Separator(k) + Indent(indent), Out);
      TextHashes(es[k], indent);
      ElemsHashes(x, es, k + 1, indent);
      ThreeHashes(Separator(k) + Indent(indent), ValueText(es[k], indent), ElemsText(x, es, k + 1, indent));
    }
  }

  // ---- A string that is cut off turns inside out what follows ----

  /** Swapped: the scanner is inside of quotes where the printer is outside. */
  predicate Phase(m: Mode, swapped: bool) {
    m == Bad || if swapped then m == In || m == Esc else m == Out
  }

  function Flip(swapped: bool, n: nat): bool {
    swapped != (n % 2 == 1)
  }

  lemma FlipSum(swapped: bool, a: nat, b: nat)
    ensures Flip(Flip(swapped, a), b) == Flip(swapped, a + b)
  {
  }

  lemma PlainPhase(s: string, m: Mode, swapped: bool)
    requires Plain(s) && Phase(m, swapped)
    ensures Phase(Scan(s, m), swapped) && (s != "" || m != Esc ==> Scan(s, m) != Esc)
  {
    PlainScan(s, m);
    hide Scan, Plain;
  }

  lemma {:induction false} EscapeIn(s: string, n: nat)
    requires n <= |Escape(s)|
    ensures Scan(Escape(s), In) == In
    ensures Scan(Escape(s)[..n], In) in {In, Esc}
  {
    if s != "" {
      var c, rest := EscapeChar(s[0]), Escape(s[1..]);
      ScanConcat(c, rest, In);
      EscapedIn(s[0]);
      if n <= |c| {
        EscapeIn(s[1..], 0);
        assert Escape(s)[..n] == c[..n];
        assert c[..n] == "" || c[..n] == c || (c[..n] == ['\\'] && n == 1);
      } else {
        EscapeIn(s[1..], n - |c|);
        assert Escape(s)[..n] == c + rest[..n - |c|];
        ScanConcat(c, rest[..n - |c|], In);
      }
    }
  }

  lemma EscapedIn(c: char)
    ensures Scan(EscapeChar(c), In) == In && Scan("\\", In) == Esc
  {
    var e := EscapeChar(c);
    if |e| == 2 {
      Unfold(e, In);
      Unfold(e[1..], Esc);
      assert e[1..][1..] == "";
    }
  }

  lemma {:induction false} BadScan(t: string)
    ensures Scan(t, Bad) == Bad
  {
    if t != "" {
      BadScan(t[1..]);
    }
  }

  lemma {:induction false} EscapeOut(s: string, n: nat)
    requires n <= |Escape(s)|
    ensures Scan(Escape(s)[..n], Out) in {Out, Bad}
  {
    if s != "" && n > 0 {
      var c, rest := EscapeChar(s[0]), Escape(s[1..]);
      var t := Escape(s)[..n];
      Unfold(t, Out);
      if Turn(Out, t[0]) == Bad {
        BadScan(t[1..]);
      } else {
        assert |c| == 1 && t[1..] == rest[..n - 1];
        EscapeOut(s[1..], n - 1);
      }
    }
  }

  lemma QuoteScan(t: string, m: Mode)
    ensures Scan("\"" + t, m) == Scan(t, Turn(m, '\"'))
  {
    assert ("\"" + t)[1..] == t;
  }

  /** The text between two quotes, or up to where it is cut off. */
  lemma InnerScan(s: string, n: nat, m: Mode, swapped: bool)
    requires n <= |Escape(s)| && Phase(m, swapped) && m != Esc
    ensures Phase(Scan("\"" + Escape(s)[..n], m), !swapped)
    ensures n == |Escape(s)| ==> Scan("\"" + Escape(s)[..n], m) != Esc
  {
    var e := Escape(s)[..n];
    QuoteScan(e, m);
    EscapeIn(s, n);
    EscapeOut(s, n);
    BadScan(e);
    assert n == |Escape(s)| ==> e == Escape(s);
    hide Escape, Scan;
  }

  lemma EndQuote(m: Mode, swapped: bool)
    requires Phase(m, swapped) && m != Esc
    ensures Scan("\"", m) != Esc && Phase(Scan("\"", m), !swapped)
  {
    QuoteScan("", m);
    assert "\"" + "" == "\"";
  }

  lemma StringScan(s: string, m: Mode, swapped: bool)
    requires Phase(m, swapped) && m != Esc
    ensures Phase(Scan(StringText(s), m), Flip(swapped, if IsCut(s) then 1 else 0))
  {
    var e := Escape(s);
    var whole := "\"" + e + "\"";
    if IsCut(s) {
      assert StringText(s) == "\"" + e[..PRINT_MAX - 1];
      InnerScan(s, PRINT_MAX - 1, m, swapped);
    } else {
      InnerScan(s, |e|, m, swapped);
      assert e[..|e|] == e;
      ScanConcat("\"" + e, "\"", m);
      EndQuote(Scan("\"" + e, m), !swapped);
    }
    hide Scan, Escape;
  }

  lemma KeyScan(key: string, m: Mode, swapped: bool)
    requires GoodKey(key) && Phase(m, swapped) && m != Esc
    ensures Phase(Scan(KeyText(key), m), swapped) && Scan(KeyText(key), m) != Esc
  {
    KeyPrinted(key);
    var e := Escape(key);
    InnerScan(key, |e|, m, swapped);
    assert e[..|e|] == e;
    var m1 := Scan("\"" + e, m);
    assert "\"" + e + "\": " == ("\"" + e) + ("\"" + ": ");
    ScanConcat("\"" + e, "\"" + ": ", m);
    ScanConcat("\"", ": ", m1);
    EndQuote(m1, !swapped);
    PlainPhase(": ", Scan("\"", m1), swapped);
    hide Scan, Escape;
  }

  lemma {:induction false} ValueScan(x: Var, indent: nat, depth: nat, m: Mode, swapped: bool)
    requires Fits(x, depth) && Phase(m, swapped) && m != Esc
    ensures Phase(Scan(ValueText(x, indent), m), Flip(swapped, Cuts(x)))
    decreases x, 1, 0
  {
    hide Scan, Phase, Indent, Digits, Fixed, StringText, IsCut;
    match x
    case Null =>
      EndQuote(m, swapped);
      QuoteScan("\"", m);
      EndQuote(Scan("\"", m), !swapped);
      ScanConcat("\"", "\"", m);
      assert "\"" + "\"" == "\"\"";
    case Int(i) => DigitsPlain(i); PrintedPlain(Digits(i)); PlainPhase(Printed(Digits(i)), m, swapped);
    case Dbl(r) => FixedPlain(r); PrintedPlain(Fixed(r)); PlainPhase(Printed(Fixed(r)), m, swapped);
    case Str(s) => StringScan(s, m, swapped);
    case Dict(ms) =>
      PlainPhase("{\n", m, swapped);
      MembersScan(x, ms, 0, Deeper(indent), depth, Scan("{\n", m), swapped);
      BodyScan("{\n", MembersText(x, ms, 0, Deeper(indent)), indent, "}", m, Flip(swapped, Cuts(x)));
    case Arr(es) =>
      PlainPhase("[\n", m, swapped);
      ElemsScan(x, es, 0, Deeper(indent), depth, Scan("[\n", m), swapped);
      BodyScan("[\n", ElemsText(x, es, 0, Deeper(indent)), indent, "]", m, Flip(swapped, Cuts(x)));
  }

  lemma BodyScan(open: string, body: string, indent: nat, close: string, m: Mode, swapped: bool)
    requires Plain(close) && Phase(Scan(body, Scan(open, m)), swapped)
    ensures Phase(Scan(open + body + Indent(indent) + close, m), swapped)
  {
    hide Scan, Indent, Phase, Plain;
    IndentPlain(0, indent);
    ScanConcat(open, body, m);
    ScanConcat(open + body, Indent(indent), m);
    ScanConcat(open + body + Indent(indent), close, m);
    PlainPhase(Indent(indent), Scan(open + body, m), swapped);
    PlainPhase(close, Scan(open + body + Indent(indent), m), swapped);
  }

  /** What stands before item k closes an escape that the item before left open. */
  lemma StartScan(k: nat, indent: nat, m: Mode, swapped: bool)
    requires Phase(m, swapped) && (k == 0 ==> m != Esc)
    ensures var m' := Scan(Separator(k) + Indent(indent), m); Phase(m', swapped) && m' != Esc
  {
    IndentPlain(k, indent);
    PlainPhase(Separator(k) + Indent(indent), m, swapped);
    hide Scan, Indent, Plain;
  }

  lemma {:induction false} MembersScan(x: Var, ms: seq<Member>, k: nat, indent: nat, depth: nat, m: Mode, swapped: bool)
    requires x == Dict(ms) && Fits(x, depth) && k <= |ms| && Phase(m, swapped) && (k == 0 ==> m != Esc)
    ensures Phase(Scan(MembersText(x, ms, k, indent), m), Flip(swapped, MemberCuts(x, ms, k)))
    decreases x, 0, |ms| - k
  {
    hide Scan, Phase, Indent, KeyText, ValueText, Cuts, Flip, GoodKey;
    if k == |ms| {
      PlainPhase(Ending(|ms|), m, swapped);
      NoFlip(swapped);
    } else {
      FitMember(x, ms, k, depth);
      hide Fits;
      var start, key, value := Separator(k) + Indent(indent), KeyText(ms[k].key), ValueText(ms[k].value, indent);
      var cuts := Cuts(ms[k].value);
      StartScan(k, indent, m, swapped);
      var m1 := Scan(start, m);
      KeyScan(ms[k].key, m1, swapped);
      var m2 := Scan(key, m1);
      ValueScan(ms[k].value, indent, depth + 1, m2, swapped);
      var m3 := Scan(value, m2);
      MembersScan(x, ms, k + 1, indent, depth, m3, Flip(swapped, cuts));
      FlipSum(swapped, cuts, MemberCuts(x, ms, k + 1));
      ScanConcat(start, key, m);
      ScanConcat(start + key, value, m);
      ScanConcat(start + key + value, MembersText(x, ms, k + 1, indent), m);
    }
  }

  lemma NoFlip(swapped: bool)
    ensures Flip(swapped, 0) == swapped
  {
  }

  lemma {:induction false} ElemsScan(x: Var, es: seq<Var>, k: nat, indent: nat, depth: nat, m: Mode, swapped: bool)
    requires x == Arr(es) && Fits(x, depth) && k <= |es| && Phase(m, swapped) && (k == 0 ==> m != Esc)
    ensures Phase(Scan(ElemsText(x, es, k, indent), m), Flip(swapped, ElemCuts(x, es, k)))
    decreases x, 0, |es| - k
  {
    hide Scan, Phase, Indent, ValueText, Cuts, Flip;
    if k == |es| {
      PlainPhase(Ending(|es|), m, swapped);
      NoFlip(swapped);
    } else {
      assert es[k] in es;
      var start, value := Separator(k) + Indent(indent), ValueText(es[k], indent);
      var cuts := Cuts(es[k]);
      StartScan(k, indent, m, swapped);
      var m1 := Scan(start, m);
      ValueScan(es[k], indent, depth + 1, m1, swapped);
      hide Fits;
      var m2 := Scan(value, m1);
      ElemsScan(x, es, k + 1, indent, depth, m2, Flip(swapped, cuts));
      FlipSum(swapped, cuts, ElemCuts(x, es, k + 1));
      ScanConcat(start, value, m);
      ScanConcat(start + value, ElemsText(x, es, k + 1, indent), m);
    }
  }

  // ---- Which trees come back ----

  /** Parsing what was printed yields the tree itself, at the closing brace. */
  predicate ComesBack(ms: seq<Member>) {
    Parse(Null, Write(Dict(ms)).0) == Done(true, Dict(ms), "}\n")
  }

  lemma TextOf(ms: seq<Member>)
    ensures Hashes(Write(Dict(ms)).0) <= Marks(Dict(ms))
    ensures Fits(Dict(ms), 0) ==> Phase(Scan(Write(Dict(ms)).0, Out), Flip(false, Cuts(Dict(ms))))
  {
    hide Hashes, Scan, Marks, MembersText, Fits, Cuts, MemberCuts;
    var x := Dict(ms);
    var body := MembersText(x, ms, 0, 4);
    MembersHashes(x, ms, 0, 4);
    RootMarks(ms);
    PlainScan("{\n", Out);
    PlainScan("}\n", Out);
    ThreeHashes("{\n", body, "}\n");
    if Fits(x, 0) {
      MembersScan(x, ms, 0, 4, 0, Out, false);
      ScanConcat("{\n", body, Out);
      ScanConcat("{\n" + body, "}\n", Out);
      PlainPhase("}\n", Scan("{\n" + body, Out), Flip(false, MemberCuts(x, ms, 0)));
      RootCuts(ms);
    }
  }

  lemma RootMarks(ms: seq<Member>)
    ensures Marks(Dict(ms)) == Sum(MemberMarks(Dict(ms), ms)[0..])
  {
    var ns := MemberMarks(Dict(ms), ms);
    assert ns[0..] == ns;
  }

  lemma RootCuts(ms: seq<Member>)
    ensures Cuts(Dict(ms)) == MemberCuts(Dict(ms), ms, 0)
  {
  }

  /** A tree in which an odd number of strings is cut off never comes back. */
  lemma OddCuts(ms: seq<Member>)
    requires Fits(Dict(ms), 0) && Cuts(Dict(ms)) % 2 == 1
    ensures !ComesBack(ms)
  {
    hide Hashes, Scan, Marks, Write, Fits, Cuts, Level;
    TextOf(ms);
    PlainScan("}\n", Out);
    if ComesBack(ms) {
      assert Marks(Null) == 0 by { MembersMarks(Null); assert Sum([]) == 0; }
      LevelConserves(Null, Start(Beginning), Write(Dict(ms)).0, 0);
      assert false;
    }
  }

  /** If no string is cut off, the same tree comes back exactly if it is not empty and holds
      nothing inexact. If an odd number is, one for instance, it does not come back. */
  lemma RoundTrip(ms: seq<Member>)
    requires Fits(Dict(ms), 0)
    ensures Cuts(Dict(ms)) == 0 ==> (ComesBack(ms) <==> ms != [] && Exact(Dict(ms)))
    ensures Cuts(Dict(ms)) % 2 == 1 ==> !ComesBack(ms)
  {
    hide Parse, Write, Fits, Exact, Normal, Cuts;
    if Cuts(Dict(ms)) == 0 {
      PrintParse(ms);
      NormalExact(Dict(ms));
    } else if Cuts(Dict(ms)) % 2 == 1 {
      OddCuts(ms);
    }
  }

  // ---- One string ----

  /** A string alone comes back exactly if it is not cut off. */
  lemma OneString(key: string, s: string)
    requires GoodKey(key)
    ensures ComesBack([Member(key, Str(s))]) <==> !IsCut(s)
  {
    hide ComesBack, IsCut, GoodKey;
    var ms := [Member(key, Str(s))];
    assert MemberCuts(Dict(ms), ms, 1) == 0;
    assert Cuts(Dict(ms)) == Cuts(Str(s));
    assert Fits(Str(s), 1) && Exact(Str(s));
    assert Fits(Dict(ms), 0) && Exact(Dict(ms));
    hide Fits, Exact, Cuts;
    RoundTrip(ms);
    assert Cuts(Str(s)) == if IsCut(s) then 1 else 0 by { CutString(s); }
  }

  lemma CutString(s: string)
    ensures Cuts(Str(s)) == if IsCut(s) then 1 else 0
  {
  }

  function Repeated(c: char, n: nat): string {
    seq(n, _ => c)
  }

  lemma {:induction false} RepeatedText(c: char, n: nat)
    ensures |Escape(Repeated(c, n))| == n * |EscapeChar(c)|
    ensures |EscapeChar(c)| == 1 ==> Escape(Repeated(c, n)) == Repeated(c, n)
  {
    if n > 0 {
      assert Repeated(c, n)[1..] == Repeated(c, n - 1);
      RepeatedText(c, n - 1);
    }
  }

  /** The longest run of one letter that comes back. */
  lemma LongestRun(n: nat)
    ensures ComesBack([Member("a", Str(Repeated('a', n)))]) <==> n <= 4093
  {
    hide ComesBack;
    RepeatedText('a', n);
    OneString("a", Repeated('a', n));
  }
}
