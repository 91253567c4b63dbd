/** The notation the parser accepts, as a grammar with a meaning: keys and words with or without
    quotes, any layout, comments, colons or none, and keys that occur again. Every text of the
    grammar is parsed to what it means, or refused if it means nothing. */
module JsonLoose {
  import opened Json
  import opened JsonTrip
  import opened JsonWords
  import opened Wrappers

  // ---- The grammar ----

  /** A character between the parts of a text, or a comment up to the end of its line. */
  datatype Gap = Blank(c: char) | Note(text: string)

  /** A character between quotes, as it is or after a backslash. */
  datatype Piece = Bare(c: char) | Slash(c: char)

  datatype Key = Name(w: string) | Phrase(pieces: seq<Piece>)

  datatype Form = Word(w: string) | Text(pieces: seq<Piece>) | Table(items: Items) | List(elems: Elems)

  datatype Items = NoItem(gaps: seq<Gap>) | Item(before: seq<Gap>, key: Key, sep: seq<Gap>, value: Form, rest: Items)

  datatype Elems = NoElem(gaps: seq<Gap>) | Elem(before: seq<Gap>, value: Form, rest: Elems)

  function GapText(g: Gap): string {
    match g
    case Blank(c) => [c]
    case Note(s) => ['#'] + (s + ['\n'])
  }

  function GapsText(gs: seq<Gap>): string {
    if gs == [] then "" else GapText(gs[0]) + GapsText(gs[1..])
  }

  function PieceText(p: Piece): string {
    if p.Bare? then [p.c] else ['\\', p.c]
  }

  function PiecesText(ps: seq<Piece>): string {
    if ps == [] then "" else PieceText(ps[0]) + PiecesText(ps[1..])
  }

  function NameText(k: Key): string {
    match k
    case Name(w) => w
    case Phrase(ps) => ['\"'] + (PiecesText(ps) + ['\"'])
  }

  function FormText(f: Form): string {
    match f
    case Word(w) => w
    case Text(ps) => ['\"'] + (PiecesText(ps) + ['\"'])
    case Table(items) => ['{'] + (ItemsText(items) + ['}'])
    case List(elems) => ['['] + (ElemsText(elems) + [']'])
  }

  function ItemsText(items: Items): string {
    match items
    case NoItem(gs) => GapsText(gs)
    case Item(before, key, sep, value, rest) =>
      GapsText(before) + (NameText(key) + (GapsText(sep) + (FormText(value) + ItemsText(rest))))
  }

  function ElemsText(elems: Elems): string {
    match elems
    case NoElem(gs) => GapsText(gs)
    case Elem(before, value, rest) => GapsText(before) + (FormText(value) + ElemsText(rest))
  }

  // ---- Which texts are of the grammar ----

  predicate White(c: char) {
    c == ' ' || 9 <= c as int <= 13
  }

  /** What may stand between items, and between a key and its value. */
  predicate GoodGap(g: Gap, afterKey: bool) {
    match g
    case Blank(c) => White(c) || (if afterKey then c == ':' || c == '=' else c == ',')
    case Note(s) => '\n' !in s
  }

  predicate GoodGaps(gs: seq<Gap>, afterKey: bool) {
    forall g :: g in gs ==> GoodGap(g, afterKey)
  }

  /** Letters, digits and five other characters; in a value a colon and a percent sign too, but no
      slash at the start of one in an array. */
  predicate NameChar(c: char) {
    'a' <= c <= 'z' || 'A' <= c <= 'Z' || '0' <= c <= '9' || c == '-' || c == '_' || c == '.' || c == '*' || c == '/'
  }

  predicate WordChar(c: char) {
    NameChar(c) || c == ':' || c == '%'
  }

  predicate GoodName(w: string) {
    0 < |w| <= 4095 && forall c :: c in w ==> NameChar(c)
  }

  predicate GoodWord(w: string, inArray: bool) {
    0 < |w| <= 4095 && (forall c :: c in w ==> WordChar(c)) && if inArray then NameChar(w[0]) else w[0] != ':'
  }

  predicate GoodPieces(ps: seq<Piece>) {
    |ps| <= 4095 && forall p :: p in ps && p.Bare? ==> p.c != '\"' && p.c != '\\'
  }

  predicate GoodKeyForm(k: Key, sep: seq<Gap>, value: Form) {
    match k
    case Name(w) => GoodName(w) && if sep == [] then value.Table? || value.List? else sep[0] != Blank('=')
    case Phrase(ps) => GoodPieces(ps)
  }

  predicate GoodForm(f: Form, inArray: bool) {
    match f
    case Word(w) => GoodWord(w, inArray)
    case Text(ps) => GoodPieces(ps)
    case Table(items) => GoodItems(items, true)
    case List(elems) => GoodElems(elems)
  }

  /** A word needs something after it to end at: the next gap, or the bracket that closes. */
  predicate GoodItems(items: Items, closed: bool) {
    match items
    case NoItem(gs) => GoodGaps(gs, false)
    case Item(before, key, sep, value, rest) =>
      && GoodGaps(before, false) && GoodGaps(sep, true) && GoodKeyForm(key, sep, value)
      && GoodForm(value, false) && GoodItems(rest, closed)
      && (value.Word? ==> if rest.Item? then rest.before != [] else closed || rest.gaps != [])
  }

  predicate GoodElems(elems: Elems) {
    match elems
    case NoElem(gs) => GoodGaps(gs, false)
    case Elem(before, value, rest) =>
      && GoodGaps(before, false) && GoodForm(value, true) && GoodElems(rest)
      && (value.Word? && rest.Elem? ==> rest.before != [])
  }

  // ---- What they mean ----

  /** After a backslash three letters stand for control characters, in a value. In a key they
      stand for themselves. */
  function Letter(p: Piece, inKey: bool): char {
    if p.Bare? || inKey then p.c
    else if p.c == 'n' then '\n'
    else if p.c == 't' then '\t'
    else if p.c == 'r' then '\r'
    else p.c
  }

  function Letters(ps: seq<Piece>, inKey: bool): (s: string)
    ensures |s| == |ps|
  {
    seq(|ps|, i requires 0 <= i < |ps| => Letter(ps[i], inKey))
  }

  function KeyOf(k: Key): string {
    match k
    case Name(w) => w
    case Phrase(ps) => Letters(ps, true)
  }

  ghost function WordValue(w: string): Var {
    if OnlyDigits(w) then Int(if Tens(w) < 0x1_0000_0000_0000_0000 then Tens(w) else 0xffff_ffff_ffff_ffff)
    else if OneDot(w) then
      var i :| 0 <= i < |w| && DotOnlyAt(w, i);
      Dbl(Tens(w[..i]) as real + Tens(w[i + 1..]) as real / Pow10(|w| - i - 1) as real)
    else Str(w)
  }

  /** What is under a key. */
  function Held(ms: seq<Member>, key: string): Option<Var> {
    if ms == [] then None else if ms[0].key == key then Some(ms[0].value) else Held(ms[1..], key)
  }

  function Kind(v: Var): nat {
    match v
    case Null => 0
    case Int(_) => 1
    case Dbl(_) => 2
    case Str(_) => 3
    case Dict(_) => 4
    case Arr(_) => 5
  }

  /** A value goes where its key is, if what is there is of its kind or nothing, and else is
      dropped; a key that is not there goes to the end, cut to 127 characters. */
  function Put(ms: seq<Member>, key: string, x: Var): seq<Member> {
    if ms == [] then (if key == "" then [] else [Member(if |key| <= 127 then key else key[..127], x)])
    else if ms[0].key != key then [ms[0]] + Put(ms[1..], key, x)
    else [Member(key, if Kind(ms[0].value) == 0 || Kind(ms[0].value) == Kind(x) then x else ms[0].value)] + ms[1..]
  }

  /** A table adds to the table under its key, and a list replaces the list under its key. If
      something else is under it the text means nothing, nor does it from the eighth level on. */
  ghost function Given(v: Var, key: string, f: Form, depth: nat): Option<Var>
    decreases f
  {
    var ms := if v.Dict? then v.members else [];
    var held := Held(ms, key);
    match f
    case Word(w) => Some(Dict(Put(ms, key, WordValue(w))))
    case Text(ps) => Some(Dict(Put(ms, key, Str(Letters(ps, false)))))
    case Table(items) =>
      if depth >= 7 || (held.Some? && !held.value.Dict?) then None
      else (match Meant(if held.Some? then held.value else Dict([]), items, depth + 1)
            case None => None
            case Some(x) => Some(Dict(Put(ms, key, x))))
    case List(elems) =>
      if depth >= 7 || (held.Some? && !held.value.Arr?) then None
      else (match Listed([], elems, depth + 1)
            case None => None
            case Some(es) => Some(Dict(Put(ms, key, Arr(es)))))
  }

  /** What a tree becomes by the items of a text, one after the other. */
  ghost function Meant(v: Var, items: Items, depth: nat): Option<Var>
    decreases items
  {
    match items
    case NoItem(_) => Some(v)
    case Item(_, key, _, value, rest) =>
      match Given(v, KeyOf(key), value, depth)
      case None => None
      case Some(v') => Meant(v', rest, depth)
  }

  ghost function Element(f: Form, depth: nat): Option<Var>
    decreases f
  {
    match f
    case Word(w) => Some(WordValue(w))
    case Text(ps) => Some(Str(Letters(ps, false)))
    case Table(items) => if depth >= 7 then None else Meant(Dict([]), items, depth + 1)
    case List(elems) =>
      if depth >= 7 then None
      else (match Listed([], elems, depth + 1)
            case None => None
            case Some(es) => Some(Arr(es)))
  }

  ghost function Listed(es: seq<Var>, elems: Elems, depth: nat): Option<seq<Var>>
    decreases elems
  {
    match elems
    case NoElem(_) => Some(es)
    case Elem(_, value, rest) =>
      match Element(value, depth)
      case None => None
      case Some(x) => Listed(es + [x], rest, depth)
  }

  // ---- Members ----

  lemma {:induction false} PutFinds(ms: seq<Member>, key: string, x: Var)
    ensures var i := FindKey(ms, key);
      && Held(ms, key) == (if i < |ms| then Some(ms[i].value) else None)
      && Put(ms, key, x) == (if i == |ms| then LinkMember(ms, key, x)
                             else if Kind(ms[i].value) == 0 || Kind(ms[i].value) == Kind(x) then ms[i := Member(key, x)]
                             else ms)
  {
    if ms != [] {
      assert ms == [ms[0]] + ms[1..];
      if ms[0].key != key {
        PutFinds(ms[1..], key, x);
      }
    }
  }

  lemma ScalarPut(v: Var, key: string, x: Var)
    requires TakesKeys(v) && !IsContainer(x) && !x.Null?
    ensures SetScalar(v, key, x) == Dict(Put(MembersOf(v), key, x))
  {
    PutFinds(MembersOf(v), key, x);
  }

  lemma ContainerPut(v: Var, key: string, isArray: bool, x: Var)
    requires TakesKeys(v) && (if isArray then x.Arr? else x.Dict?)
    ensures var held := Held(MembersOf(v), key);
      && GetContainer(v, key, isArray) == (match held
           case None => Some(Empty(isArray))
           case Some(y) => if isArray then (if y.Arr? then Some(Arr([])) else None) else if y.Dict? then Some(y) else None)
      && (GetContainer(v, key, isArray).Some? ==> SetContainer(v, key, x) == Dict(Put(MembersOf(v), key, x)))
  {
    PutFinds(MembersOf(v), key, x);
  }

  lemma WordMeans(w: string, x: Var)
    requires Means(w, x)
    ensures x == WordValue(w)
  {
  }

  lemma CharsAre(c: char)
    ensures NameChar(c) == KeyChar(c) && WordChar(c) == ValueChar(c) && White(c) == IsSpace(c)
  {
  }

  lemma WordsAre(w: string)
    ensures GoodName(w) ==> KeyWord(w)
    ensures GoodWord(w, false) ==> ValueWord(w, false) && w[0] != ':'
    ensures GoodWord(w, true) ==> ValueWord(w, true)
  {
    forall c ensures NameChar(c) == KeyChar(c) && WordChar(c) == ValueChar(c) {
      CharsAre(c);
    }
  }

  // ---- Gaps ----

  predicate InGap(st: State, afterKey: bool) {
    if afterKey then st.WaitValue? else st.WaitKey? || st.Beginning? || st.WaitElem?
  }

  lemma {:induction false} NoteRead(v: Var, r: Regs, s: string, more: string, depth: nat)
    requires r.st.Comment? && '\n' !in s
    ensures Level(v, r, s + (['\n'] + more), depth) == Level(v, r.(st := r.stnext), more, depth)
    decreases |s|
  {
    var t := s + (['\n'] + more);
    Go(v, r, t, depth);
    hide Level;
    if s == "" {
      assert t[1..] == more;
    } else {
      assert t[1..] == s[1..] + (['\n'] + more);
      NoteRead(v, r, s[1..], more, depth);
    }
  }

  lemma GapRead(v: Var, r: Regs, g: Gap, afterKey: bool, more: string, depth: nat) returns (r': Regs)
    requires InGap(r.st, afterKey) && GoodGap(g, afterKey)
    ensures r'.st == r.st && r'.key == r.key
    ensures Level(v, r, GapText(g) + more, depth) == Level(v, r', more, depth)
  {
    var t := GapText(g) + more;
    match g {
      case Blank(c) =>
        CharsAre(c);
        assert t[1..] == more;
        Go(v, r, t, depth);
        r' := r;
      case Note(s) =>
        assert t == ['#'] + (s + (['\n'] + more)) && t[1..] == s + (['\n'] + more);
        Go(v, r, t, depth);
        r' := r.(stnext := r.st, st := Comment);
        NoteRead(v, r', s, more, depth);
        r' := r'.(st := r.st);
    }
  }

  lemma {:induction false} GapsRead(v: Var, r: Regs, gs: seq<Gap>, afterKey: bool, more: string, depth: nat) returns (r': Regs)
    requires InGap(r.st, afterKey) && GoodGaps(gs, afterKey)
    ensures r'.st == r.st && r'.key == r.key
    ensures Level(v, r, GapsText(gs) + more, depth) == Level(v, r', more, depth)
    decreases |gs|
  {
    hide Level, GoodGap, GapText;
    r' := r;
    if gs == [] {
      assert GapsText(gs) + more == more;
    } else {
      assert GapsText(gs) + more == GapText(gs[0]) + (GapsText(gs[1..]) + more);
      r' := GapRead(v, r, gs[0], afterKey, GapsText(gs[1..]) + more, depth);
      r' := GapsRead(v, r', gs[1..], afterKey, more, depth);
    }
  }

  /** A gap ends a word, and so does a closing bracket. */
  lemma GapEnds(gs: seq<Gap>, more: string, inArray: bool)
    requires GoodGaps(gs, false) && gs != []
    ensures GapsText(gs) + more != "" && EndsValue((GapsText(gs) + more)[0], inArray)
  {
    assert gs[0] in gs;
    assert GapsText(gs) + more == GapText(gs[0]) + (GapsText(gs[1..]) + more);
    var g := gs[0];
    if g.Blank? {
      CharsAre(g.c);
    }
  }

  /** The gap after an unquoted key. */
  lemma NameEnds(v: Var, r: Regs, g: Gap, more: string, depth: nat) returns (r': Regs)
    requires r.st.Key? && GoodGap(g, true) && g != Blank('=')
    ensures r'.st == WaitValue && r'.key == r.key
    ensures Level(v, r, GapText(g) + more, depth) == Level(v, r', more, depth)
  {
    var t := GapText(g) + more;
    match g {
      case Blank(c) =>
        CharsAre(c);
        assert t[1..] == more;
        Go(v, r, t, depth);
        r' := r.(st := WaitValue);
      case Note(s) =>
        assert t == ['#'] + (s + (['\n'] + more)) && t[1..] == s + (['\n'] + more);
        Go(v, r, t, depth);
        r' := r.(stnext := WaitValue, st := Comment);
        NoteRead(v, r', s, more, depth);
        r' := r'.(st := WaitValue);
    }
  }

  // ---- Quoted keys and values ----

  lemma PieceRead(v: Var, r: Regs, p: Piece, more: string, depth: nat)
    requires (r.st.KeyQuoted? && |r.key| < BUFFER_MAX) || (r.st.Quoted? && |r.val| < BUFFER_MAX)
    requires p.Bare? ==> p.c != '\"' && p.c != '\\'
    ensures Level(v, r, PieceText(p) + more, depth)
         == Level(v, if r.st.KeyQuoted? then r.(key := r.key + [Letter(p, true)]) else r.(val := r.val + [Letter(p, false)]), more, depth)
  {
    var t := PieceText(p) + more;
    if p.Bare? {
      assert t[1..] == more;
    } else {
      assert t[1..] == [p.c] + more && t[2..] == more && t[1..][1..] == more;
    }
    Go(v, r, t, depth);
  }

  lemma {:induction false} PiecesRead(v: Var, r: Regs, ps: seq<Piece>, more: string, depth: nat)
    requires (r.st.KeyQuoted? && |r.key| + |ps| <= BUFFER_MAX) || (r.st.Quoted? && |r.val| + |ps| <= BUFFER_MAX)
    requires forall p :: p in ps && p.Bare? ==> p.c != '\"' && p.c != '\\'
    ensures Level(v, r, PiecesText(ps) + more, depth)
         == Level(v, if r.st.KeyQuoted? then r.(key := r.key + Letters(ps, true)) else r.(val := r.val + Letters(ps, false)), more, depth)
    decreases |ps|
  {
    hide Level, PieceText, Letter;
    if ps == [] {
      assert PiecesText(ps) + more == more && r.key + Letters(ps, true) == r.key && r.val + Letters(ps, false) == r.val;
    } else {
      assert ps[0] in ps && forall p :: p in ps[1..] ==> p in ps;
      assert PiecesText(ps) + more == PieceText(ps[0]) + (PiecesText(ps[1..]) + more);
      PieceRead(v, r, ps[0], PiecesText(ps[1..]) + more, depth);
      forall b ensures Letters(ps, b) == [Letter(ps[0], b)] + Letters(ps[1..], b) {
      }
      if r.st.KeyQuoted? {
        assert r.key + [Letter(ps[0], true)] + Letters(ps[1..], true) == r.key + Letters(ps, true);
        PiecesRead(v, r.(key := r.key + [Letter(ps[0], true)]), ps[1..], more, depth);
      } else {
        assert r.val + [Letter(ps[0], false)] + Letters(ps[1..], false) == r.val + Letters(ps, false);
        PiecesRead(v, r.(val := r.val + [Letter(ps[0], false)]), ps[1..], more, depth);
      }
    }
  }

  lemma PhraseOpens(v: Var, r: Regs, t: string, depth: nat)
    requires r.st.WaitKey? || r.st.Beginning?
    ensures Level(v, r, ['\"'] + t, depth) == Level(v, r.(st := KeyQuoted, key := "", val := ""), t, depth)
  {
    assert (['\"'] + t)[1..] == t;
    Go(v, r, ['\"'] + t, depth);
  }

  lemma PhraseCloses(v: Var, r: Regs, t: string, depth: nat)
    requires r.st.KeyQuoted?
    ensures Level(v, r, ['\"'] + t, depth) == Level(v, r.(st := WaitValue), t, depth)
  {
    assert (['\"'] + t)[1..] == t;
    Go(v, r, ['\"'] + t, depth);
  }

  lemma TextRead(v: Var, r: Regs, inArray: bool, ps: seq<Piece>, more: string, depth: nat) returns (r': Regs)
    requires r.st == Ready(inArray) && GoodPieces(ps)
    ensures r'.st == Wait(inArray)
    ensures Level(v, r, ['\"'] + (PiecesText(ps) + ['\"']) + more, depth) == Level(Store(v, r.key, inArray, Str(Letters(ps, false))), r', more, depth)
  {
    hide Level, Store, PiecesText, Letters;
    var t := PiecesText(ps) + ("\"" + more);
    assert ['\"'] + (PiecesText(ps) + ['\"']) + more == "\"" + t;
    QuoteOpens(v, r, inArray, t, depth);
    var r1 := r.(st := Quoted(inArray), val := "");
    PiecesRead(v, r1, ps, "\"" + more, depth);
    var r2 := r1.(val := "" + Letters(ps, false));
    assert "" + Letters(ps, false) == Letters(ps, false);
    QuoteCloses(v, r2, inArray, more, depth);
    r' := r2.(st := Wait(inArray));
  }

  lemma NameRead(v: Var, r: Regs, w: string, sep: seq<Gap>, more: string, depth: nat) returns (r': Regs)
    requires (r.st.WaitKey? || r.st.Beginning?) && GoodName(w) && GoodGaps(sep, true) && (sep != [] ==> sep[0] != Blank('='))
    ensures (if sep == [] then r'.st.Key? else r'.st.WaitValue?) && r'.key == w
    ensures Level(v, r, w + (GapsText(sep) + more), depth) == Level(v, r', more, depth)
  {
    hide Level, KeyWord, GoodName, GapText, GoodGap;
    WordsAre(w);
    r' := KeyWordRead(v, r, w, GapsText(sep) + more, depth);
    if sep == [] {
      assert GapsText(sep) + more == more;
    } else {
      assert GapsText(sep) + more == GapText(sep[0]) + (GapsText(sep[1..]) + more);
      r' := NameEnds(v, r', sep[0], GapsText(sep[1..]) + more, depth);
      r' := GapsRead(v, r', sep[1..], true, more, depth);
    }
  }

  lemma PhraseRead(v: Var, r: Regs, ps: seq<Piece>, sep: seq<Gap>, more: string, depth: nat) returns (r': Regs)
    requires (r.st.WaitKey? || r.st.Beginning?) && GoodPieces(ps) && GoodGaps(sep, true)
    ensures r'.st.WaitValue? && r'.key == Letters(ps, true)
    ensures Level(v, r, ['\"'] + (PiecesText(ps) + ['\"']) + (GapsText(sep) + more), depth) == Level(v, r', more, depth)
  {
    hide Level, GapsText, PiecesText, Letters, GoodGap;
    var t := GapsText(sep) + more;
    assert ['\"'] + (PiecesText(ps) + ['\"']) + t == ['\"'] + (PiecesText(ps) + (['\"'] + t));
    PhraseOpens(v, r, PiecesText(ps) + (['\"'] + t), depth);
    var r1 := r.(st := KeyQuoted, key := "", val := "");
    PiecesRead(v, r1, ps, ['\"'] + t, depth);
    assert "" + Letters(ps, true) == Letters(ps, true);
    var r2 := r1.(key := "" + Letters(ps, true));
    PhraseCloses(v, r2, t, depth);
    r' := GapsRead(v, r2.(st := WaitValue), sep, true, more, depth);
  }

  /** A key, and all that stands between it and its value. */
  lemma KeyFormRead(v: Var, r: Regs, k: Key, sep: seq<Gap>, value: Form, more: string, depth: nat) returns (r': Regs)
    requires (r.st.WaitKey? || r.st.Beginning?) && GoodKeyForm(k, sep, value) && GoodGaps(sep, true)
    ensures r'.st.WaitValue? || (r'.st.Key? && (value.Table? || value.List?))
    ensures r'.key == KeyOf(k)
    ensures Level(v, r, NameText(k) + (GapsText(sep) + more), depth) == Level(v, r', more, depth)
  {
    hide Level, GapsText, PiecesText, Letters, GoodName, GoodPieces, GoodGaps;
    match k
    case Name(w) => r' := NameRead(v, r, w, sep, more, depth);
    case Phrase(ps) => r' := PhraseRead(v, r, ps, sep, more, depth);
  }

  // ---- Containers ----

  predicate Refused(o: Outcome) {
    o.Done? && !o.ok
  }

  predicate Opening(st: State) {
    st.Key? || st.WaitValue? || st.WaitElem?
  }

  lemma WontOpen(v: Var, r: Regs, isArray: bool, t: string, depth: nat)
    requires Opening(r.st) && (depth >= MAX_DEPTH || Child(v, r, isArray).None?)
    ensures Refused(Level(v, r, [if isArray then '[' else '{'] + t, depth))
  {
    var all := [if isArray then '[' else '{'] + t;
    assert Step(v, r, all) == Open(isArray, r);
  }

  lemma Opens(v: Var, r: Regs, isArray: bool, t: string, child: Var, depth: nat)
    requires Opening(r.st) && depth < MAX_DEPTH && Child(v, r, isArray) == Some(child)
    ensures var inner := Level(child, Start(Wait(isArray)), t, depth + 1);
      var outer := Level(v, r, [if isArray then '[' else '{'] + t, depth);
      && (Refused(inner) ==> Refused(outer))
      && (inner.Done? && inner.ok && inner.rest != "" ==>
            outer == Level(WithChild(v, r, inner.v), r.(st := Wait(r.st.WaitElem?)), inner.rest[1..], depth))
  {
    var all := [if isArray then '[' else '{'] + t;
    assert all[1..] == t && Step(v, r, all) == Open(isArray, r);
    hide Child, WithChild;
  }

  lemma Shuts(v: Var, r: Regs, isArray: bool, more: string, depth: nat)
    requires r.st == Wait(isArray)
    ensures Level(v, r, [Closer(isArray)] + more, depth) == Done(true, v, [Closer(isArray)] + more)
  {
    Closes(v, r, isArray, more, depth);
  }

  // ---- Reading items ----

  /** The items of a table up to the end of its gaps. */
  lemma {:induction false} ItemsRead(v: Var, r: Regs, items: Items, closed: bool, more: string, depth: nat) returns (r': Regs)
    requires (r.st.WaitKey? || r.st.Beginning?) && TakesKeys(v) && GoodItems(items, closed)
    requires closed ==> more != "" && more[0] == '}'
    ensures match Meant(v, items, depth)
      case None => Refused(Level(v, r, ItemsText(items) + more, depth))
      case Some(v') => (r'.st.WaitKey? || r'.st.Beginning?) && TakesKeys(v') && (v.Dict? ==> v'.Dict?)
                       && Level(v, r, ItemsText(items) + more, depth) == Level(v', r', more, depth)
    decreases items, 0
  {
    hide Level, Refused, GapsText, GoodGaps, GoodKeyForm, FormText, NameText, KeyOf, Given;
    match items {
      case NoItem(gs) =>
        r' := GapsRead(v, r, gs, false, more, depth);
      case Item(before, key, sep, value, rest) =>
        hide ItemsText;
        var tail := ItemsText(rest) + more;
        ItemPieces(items, more);
        RestEnds(items, closed, more);
        r' := GapsRead(v, r, before, false, NameText(key) + (GapsText(sep) + (FormText(value) + tail)), depth);
        r' := KeyFormRead(v, r', key, sep, value, FormText(value) + tail, depth);
        r' := GivenRead(v, r', value, tail, depth);
        var got := Given(v, KeyOf(key), value, depth);
        if got.Some? {
          r' := ItemsRead(got.value, r', rest, closed, more, depth);
        }
    }
  }

  lemma ItemPieces(items: Items, more: string)
    requires items.Item?
    ensures ItemsText(items) + more
      == GapsText(items.before) + (NameText(items.key) + (GapsText(items.sep) + (FormText(items.value) + (ItemsText(items.rest) + more))))
  {
    hide GapsText, NameText, FormText;
  }

  lemma RestEnds(items: Items, closed: bool, more: string)
    requires items.Item? && GoodItems(items, closed) && (closed ==> more != "" && more[0] == '}')
    ensures items.value.Word? ==> ItemsText(items.rest) + more != "" && EndsValue((ItemsText(items.rest) + more)[0], false)
  {
    hide GapsText, GoodGaps, NameText, FormText, GoodForm, GoodKeyForm;
    if items.value.Word? {
      match items.rest {
        case NoItem(gs) =>
          if gs == [] {
            assert GapsText(gs) + more == more by {
              NoGaps();
            }
          } else {
            GapEnds(gs, more, false);
          }
        case Item(before, key, sep, value, rest) =>
          ItemPieces(items.rest, more);
          GapEnds(before, NameText(key) + (GapsText(sep) + (FormText(value) + (ItemsText(rest) + more))), false);
      }
    }
  }

  lemma NoGaps()
    ensures GapsText([]) == ""
  {
  }

  /** A value under the key that was read. */
  lemma {:induction false} GivenRead(v: Var, r: Regs, f: Form, more: string, depth: nat) returns (r': Regs)
    requires (r.st.WaitValue? || (r.st.Key? && (f.Table? || f.List?))) && TakesKeys(v) && GoodForm(f, false)
    requires f.Word? ==> more != "" && EndsValue(more[0], false)
    ensures match Given(v, r.key, f, depth)
      case None => Refused(Level(v, r, FormText(f) + more, depth))
      case Some(v') => r'.st.WaitKey? && v'.Dict? && Level(v, r, FormText(f) + more, depth) == Level(v', r', more, depth)
    decreases f, 1
  {
    match f {
      case Word(w) =>
        WordsAre(w);
        hide Level, Means, ValueWord, GoodWord, Put, EndsValue;
        var x;
        r', x := WordRead(v, r, false, w, more, depth);
        WordMeans(w, x);
        ScalarPut(v, r.key, x);
      case Text(ps) =>
        hide Level, PiecesText, Put, Letters;
        r' := TextRead(v, r, false, ps, more, depth);
        ScalarPut(v, r.key, Str(Letters(ps, false)));
      case Table(items) =>
        r' := TableRead(v, r, items, more, depth);
      case List(elems) =>
        r' := ListRead(v, r, elems, more, depth);
    }
  }

  lemma {:induction false} TableRead(v: Var, r: Regs, items: Items, more: string, depth: nat) returns (r': Regs)
    requires (r.st.WaitValue? || r.st.Key?) && TakesKeys(v) && GoodItems(items, true)
    ensures match Given(v, r.key, Table(items), depth)
      case None => Refused(Level(v, r, ['{'] + (ItemsText(items) + ['}']) + more, depth))
      case Some(v') => r'.st.WaitKey? && v'.Dict? && Level(v, r, ['{'] + (ItemsText(items) + ['}']) + more, depth) == Level(v', r', more, depth)
    decreases items, 1
  {
    hide Level, Put, ItemsText, Meant, Held;
    r' := r.(st := WaitKey);
    var close := ['}'] + more;
    var t := ItemsText(items) + close;
    assert ['{'] + (ItemsText(items) + ['}']) + more == ['{'] + t;
    ContainerPut(v, r.key, false, Dict([]));
    var child := Child(v, r, false);
    if depth >= MAX_DEPTH || child.None? {
      WontOpen(v, r, false, t, depth);
    } else {
      Opens(v, r, false, t, child.value, depth);
      var r1 := ItemsRead(child.value, Start(WaitKey), items, true, close, depth + 1);
      var got := Meant(child.value, items, depth + 1);
      if got.Some? {
        ContainerPut(v, r.key, false, got.value);
        BackInKey(got.value, r1, more, depth + 1);
        assert close[1..] == more;
      }
    }
  }

  /** The closing brace, also where a level began without reading anything. */
  lemma BackInKey(v: Var, r: Regs, more: string, depth: nat)
    requires r.st.WaitKey? || r.st.Beginning?
    ensures Level(v, r, ['}'] + more, depth) == Done(true, v, ['}'] + more)
  {
  }

  lemma {:induction false} ListRead(v: Var, r: Regs, elems: Elems, more: string, depth: nat) returns (r': Regs)
    requires (r.st.WaitValue? || r.st.Key?) && TakesKeys(v) && GoodElems(elems)
    ensures match Given(v, r.key, List(elems), depth)
      case None => Refused(Level(v, r, ['['] + (ElemsText(elems) + [']']) + more, depth))
      case Some(v') => r'.st.WaitKey? && v'.Dict? && Level(v, r, ['['] + (ElemsText(elems) + [']']) + more, depth) == Level(v', r', more, depth)
    decreases elems, 1
  {
    hide Level, Put, ElemsText, Listed, Held;
    r' := r.(st := WaitKey);
    var close := [']'] + more;
    var t := ElemsText(elems) + close;
    assert ['['] + (ElemsText(elems) + [']']) + more == ['['] + t;
    ContainerPut(v, r.key, true, Arr([]));
    var child := Child(v, r, true);
    if depth >= MAX_DEPTH || child.None? {
      WontOpen(v, r, true, t, depth);
    } else {
      Opens(v, r, true, t, Arr([]), depth);
      ElemsRead([], Start(WaitElem), elems, more, depth + 1);
      var got := Listed([], elems, depth + 1);
      if got.Some? {
        ContainerPut(v, r.key, true, Arr(got.value));
        assert close[1..] == more;
      }
    }
  }

  lemma {:induction false} ElemsRead(es: seq<Var>, r: Regs, elems: Elems, more: string, depth: nat)
    requires r.st.WaitElem? && GoodElems(elems)
    ensures match Listed(es, elems, depth)
      case None => Refused(Level(Arr(es), r, ElemsText(elems) + ([']'] + more), depth))
      case Some(es') => Level(Arr(es), r, ElemsText(elems) + ([']'] + more), depth) == Done(true, Arr(es'), [']'] + more)
    decreases elems, 0
  {
    hide Level, Refused, GapsText, GoodGaps, FormText, Element;
    var close := [']'] + more;
    match elems {
      case NoElem(gs) =>
        var r' := GapsRead(Arr(es), r, gs, false, close, depth);
        Shuts(Arr(es), r', true, more, depth);
      case Elem(before, value, rest) =>
        hide ElemsText;
        var tail := ElemsText(rest) + close;
        ElemPieces(elems, close);
        ElemRestEnds(elems, more);
        var r' := GapsRead(Arr(es), r, before, false, FormText(value) + tail, depth);
        r' := ElemRead(es, r', value, tail, depth);
        var got := Element(value, depth);
        if got.Some? {
          ElemsRead(es + [got.value], r', rest, more, depth);
        }
    }
  }

  lemma ElemPieces(elems: Elems, more: string)
    requires elems.Elem?
    ensures ElemsText(elems) + more == GapsText(elems.before) + (FormText(elems.value) + (ElemsText(elems.rest) + more))
  {
    hide GapsText, FormText;
  }

  lemma ElemRestEnds(elems: Elems, more: string)
    requires elems.Elem? && GoodElems(elems)
    ensures var t := ElemsText(elems.rest) + ([']'] + more); elems.value.Word? ==> t != "" && EndsValue(t[0], true)
  {
    hide GapsText, GoodGaps, FormText, GoodForm;
    var close := [']'] + more;
    if elems.value.Word? {
      match elems.rest {
        case NoElem(gs) =>
          if gs == [] {
            assert GapsText(gs) + close == close by {
              NoGaps();
            }
          } else {
            GapEnds(gs, close, true);
          }
        case Elem(before, value, rest) =>
          ElemPieces(elems.rest, close);
          GapEnds(before, FormText(value) + (ElemsText(rest) + close), true);
      }
    }
  }

  lemma {:induction false} ElemRead(es: seq<Var>, r: Regs, f: Form, more: string, depth: nat) returns (r': Regs)
    requires r.st.WaitElem? && GoodForm(f, true)
    requires f.Word? ==> more != "" && EndsValue(more[0], true)
    ensures match Element(f, depth)
      case None => Refused(Level(Arr(es), r, FormText(f) + more, depth))
      case Some(x) => r'.st.WaitElem? && Level(Arr(es), r, FormText(f) + more, depth) == Level(Arr(es + [x]), r', more, depth)
    decreases f, 1
  {
    match f {
      case Word(w) =>
        WordsAre(w);
        hide Level, Means, ValueWord, GoodWord, EndsValue;
        var x;
        r', x := WordRead(Arr(es), r, true, w, more, depth);
        WordMeans(w, x);
      case Text(ps) =>
        hide Level, PiecesText, Letters;
        r' := TextRead(Arr(es), r, true, ps, more, depth);
      case Table(items) =>
        r' := ElemTable(es, r, items, more, depth);
      case List(elems) =>
        r' := ElemList(es, r, elems, more, depth);
    }
  }

  lemma {:induction false} ElemTable(es: seq<Var>, r: Regs, items: Items, more: string, depth: nat) returns (r': Regs)
    requires r.st.WaitElem? && GoodItems(items, true)
    ensures var all := ['{'] + (ItemsText(items) + ['}']) + more;
      match Element(Table(items), depth)
      case None => Refused(Level(Arr(es), r, all, depth))
      case Some(x) => r'.st.WaitElem? && Level(Arr(es), r, all, depth) == Level(Arr(es + [x]), r', more, depth)
    decreases items, 1
  {
    hide Level, ItemsText, Meant;
    r' := r.(st := WaitElem);
    var close := ['}'] + more;
    var t := ItemsText(items) + close;
    assert ['{'] + (ItemsText(items) + ['}']) + more == ['{'] + t;
    if depth >= MAX_DEPTH {
      WontOpen(Arr(es), r, false, t, depth);
    } else {
      Opens(Arr(es), r, false, t, Dict([]), depth);
      var r1 := ItemsRead(Dict([]), Start(WaitKey), items, true, close, depth + 1);
      var got := Meant(Dict([]), items, depth + 1);
      if got.Some? {
        BackInKey(got.value, r1, more, depth + 1);
        assert close[1..] == more;
      }
    }
  }

  lemma {:induction false} ElemList(es: seq<Var>, r: Regs, elems: Elems, more: string, depth: nat) returns (r': Regs)
    requires r.st.WaitElem? && GoodElems(elems)
    ensures var all := ['['] + (ElemsText(elems) + [']']) + more;
      match Element(List(elems), depth)
      case None => Refused(Level(Arr(es), r, all, depth))
      case Some(x) => r'.st.WaitElem? && Level(Arr(es), r, all, depth) == Level(Arr(es + [x]), r', more, depth)
    decreases elems, 1
  {
    hide Level, ElemsText, Listed;
    r' := r.(st := WaitElem);
    var close := [']'] + more;
    var t := ElemsText(elems) + close;
    assert ['['] + (ElemsText(elems) + [']']) + more == ['['] + t;
    if depth >= MAX_DEPTH {
      WontOpen(Arr(es), r, true, t, depth);
    } else {
      Opens(Arr(es), r, true, t, Arr([]), depth);
      ElemsRead([], Start(WaitElem), elems, more, depth + 1);
      var got := Listed([], elems, depth + 1);
      if got.Some? {
        assert close[1..] == more;
      }
    }
  }

  // ---- Whole texts ----

  /** A text without braces around it, parsed into any dictionary. */
  lemma ParseMeans(v: Var, items: Items)
    requires (v.Null? || v.Dict?) && GoodItems(items, false)
    ensures match Meant(v, items, 0)
      case None => Refused(Parse(v, ItemsText(items)))
      case Some(v') => Parse(v, ItemsText(items)) == Done(true, v', "")
  {
    hide Level, Refused, Meant, GoodItems, ItemsText;
    var r := ItemsRead(v, Start(Beginning), items, false, "", 0);
    assert ItemsText(items) + "" == ItemsText(items);
    var got := Meant(v, items, 0);
    if got.Some? {
      NothingLeft(got.value, r);
    }
  }

  /** The same within braces. What follows the closing brace is not read. */
  lemma BracedMeans(v: Var, items: Items, more: string)
    requires (v.Null? || v.Dict?) && GoodItems(items, true)
    ensures var o := Parse(v, ['{'] + (ItemsText(items) + (['}'] + more)));
      match Meant(v, items, 0)
      case None => Refused(o)
      case Some(v') => o == Done(true, v', ['}'] + more)
  {
    hide Refused, Meant, GoodItems, ItemsText;
    var t := ItemsText(items) + (['}'] + more);
    assert (['{'] + t)[1..] == t;
    Go(v, Start(Beginning), ['{'] + t, 0);
    hide Level;
    var r := ItemsRead(v, Start(Beginning).(st := WaitKey), items, true, ['}'] + more, 0);
    var got := Meant(v, items, 0);
    if got.Some? {
      BackInKey(got.value, r, more, 0);
    }
  }
}
