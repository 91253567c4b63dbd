/** The sloppy JSON of configuration and API texts: trees, the printer, and the parser's state
    machine, on values. */
module Json {
  import opened Wrappers

  // ---- Trees ----

  /** Strings and keys are C strings. None of them holds the character NUL, which nothing here
      asks for or treats in a way of its own. */
  datatype Var = Null | Int(i: nat) | Dbl(r: real) | Str(s: string) | Dict(members: seq<Member>) | Arr(elems: seq<Var>)

  datatype Member = Member(key: string, value: Var)

  const U64 := 0x1_0000_0000_0000_0000

  /** How deep containers may nest below the root. */
  const MAX_DEPTH := 7

  /** What the parser's buffers for keys and values hold. */
  const BUFFER_MAX := 4095

  const KEY_MAX := 127

  /** What ioport_printf prints at most of one piece of text. */
  const PRINT_MAX := 4095

  /** var_find_key: the member of this key, or the end. */
  function FindKey(ms: seq<Member>, key: string): (i: nat)
    ensures i <= |ms|
    ensures i < |ms| ==> ms[i].key == key
    ensures forall j :: 0 <= j < i ==> ms[j].key != key
  {
    if ms == [] || ms[0].key == key then 0 else 1 + FindKey(ms[1..], key)
  }

  /** An unset tree becomes a dictionary as soon as a key is looked up in it. Anything else has
      no members, and none can be linked into it. */
  predicate TakesKeys(v: Var) {
    v.Null? || v.Dict?
  }

  function MembersOf(v: Var): seq<Member> {
    if v.Dict? then v.members else []
  }

  /** What the id of a tree's node holds of a key. */
  function CutKey(key: string): string {
    if |key| <= KEY_MAX then key else key[..KEY_MAX]
  }

  /** A member is put at the end of a dictionary. An empty key is not linked in. */
  function LinkMember(ms: seq<Member>, key: string, value: Var): seq<Member> {
    if key == "" then ms else ms + [Member(CutKey(key), value)]
  }

  predicate SameType(x: Var, y: Var) {
    x.Null? || (x.Int? && y.Int?) || (x.Dbl? && y.Dbl?) || (x.Str? && y.Str?)
  }

  /** var_set_int_forkey and the others: a value of another type is left alone. */
  function SetScalar(v: Var, key: string, value: Var): Var {
    var ms := MembersOf(v);
    var i := FindKey(ms, key);
    if !TakesKeys(v) then v
    else
      Dict(if i == |ms| then LinkMember(ms, key, value)
           else if SameType(ms[i].value, value) then ms[i := Member(key, value)] else ms)
  }

  function Empty(isArray: bool): Var {
    if isArray then Arr([]) else Dict([])
  }

  /** var_get_dict_forkey, or var_get_array_forkey and var_clear_array. */
  function GetContainer(v: Var, key: string, isArray: bool): Option<Var> {
    var ms := MembersOf(v);
    var i := FindKey(ms, key);
    if i == |ms| then Some(Empty(isArray))
    else if isArray then (if ms[i].value.Arr? then Some(Arr([])) else None)
    else if ms[i].value.Dict? then Some(ms[i].value) else None
  }

  /** The tree once its container of this key has become value. */
  function SetContainer(v: Var, key: string, value: Var): Var {
    var ms := MembersOf(v);
    var i := FindKey(ms, key);
    if !TakesKeys(v) then v
    else Dict(if i == |ms| then LinkMember(ms, key, value) else ms[i := Member(key, value)])
  }

  function Append(v: Var, value: Var): Var {
    if v.Arr? then Arr(v.elems + [value]) else v
  }

  // ---- Numbers as text ----

  function DigitChar(d: nat): char
    requires d < 10
  {
    '0' + d as char
  }

  function DigitOf(c: char): nat {
    if '0' <= c <= '9' then (c - '0') as nat else 0
  }

  predicate IsDigit(c: char) {
    '0' <= c <= '9'
  }

  function Digits(n: nat): string {
    if n < 10 then [DigitChar(n)] else Digits(n / 10) + [DigitChar(n % 10)]
  }

  /** The last k digits, with leading zeros. */
  function Padded(n: nat, k: nat): (s: string)
    ensures |s| == k
  {
    if k == 0 then "" else Padded(n / 10, k - 1) + [DigitChar(n % 10)]
  }

  function Number(s: string): nat {
    if s == "" then 0 else Number(s[..|s| - 1]) * 10 + DigitOf(s[|s| - 1])
  }

  function Pow10(k: nat): (p: nat)
    ensures p > 0
  {
    if k == 0 then 1 else 10 * Pow10(k - 1)
  }

  const MILLION := 1000000

  /** A magnitude in millionths, rounded. */
  function Micros(r: real): nat
    requires r >= 0.0
  {
    (r * 1000000.0 + 0.5).Floor
  }

  function MicrosText(m: nat): string {
    Digits(m / MILLION) + "." + Padded(m % MILLION, 6)
  }

  /** What %f prints. */
  function Fixed(r: real): string {
    if r < 0.0 then "-" + MicrosText(Micros(-r)) else MicrosText(Micros(r))
  }

  /** Where the first dot is, or the end. */
  function DotAt(s: string): (i: nat)
    ensures i <= |s|
  {
    if s == "" || s[0] == '.' then 0 else 1 + DotAt(s[1..])
  }

  function Decimal(whole: string, fraction: string): real {
    Number(whole) as real + Number(fraction) as real / Pow10(|fraction|) as real
  }

  /** atof on digits and a dot. */
  function ParseReal(s: string): real {
    var i := DotAt(s);
    Decimal(s[..i], if i < |s| then s[i + 1..] else "")
  }

  /** strtoull saturates. */
  function ParseInt(s: string): nat {
    if Number(s) < U64 then Number(s) else U64 - 1
  }

  /** What an unquoted value means. */
  function Scalar(s: string, nondigits: bool, dots: nat): Var {
    if !nondigits && dots < 2 then (if dots == 0 then Int(ParseInt(s)) else Dbl(ParseReal(s))) else Str(s)
  }

  // ---- The printer ----

  function EscapeChar(c: char): string {
    if c == '\\' || c == '\"' then ['\\', c] else if c == '\n' then "\\n" else [c]
  }

  /** var_escape_str. */
  function Escape(s: string): string {
    if s == "" then "" else EscapeChar(s[0]) + Escape(s[1..])
  }

  function Spaces(n: nat): string {
    if n == 0 then "" else " " + Spaces(n - 1)
  }

  /** At most as many as the source's row of spaces holds. */
  function Indent(n: nat): string {
    Spaces(if n > 128 then 128 else n)
  }

  function Deeper(n: nat): nat {
    (if n > 128 then 128 else n) + 4
  }

  /** ioport_printf: what comes of one formatted piece. The rest of a longer one is lost. */
  function Printed(s: string): (r: string)
    ensures |r| <= PRINT_MAX && (|s| <= PRINT_MAX ==> r == s)
  {
    if |s| <= PRINT_MAX then s else s[..PRINT_MAX]
  }

  function KeyText(key: string): string {
    Printed("\"" + Escape(key) + "\": ")
  }

  function StringText(s: string): string {
    Printed("\"" + Escape(s) + "\"")
  }

  function ValueText(v: Var, indent: nat): string
    decreases v, 0
  {
    match v
    case Null => "\"\""
    case Int(i) => Printed(Digits(i))
    case Dbl(r) => Printed(Fixed(r))
    case Str(s) => StringText(s)
    case Dict(ms) => "{\n" + MembersText(v, ms, 0, Deeper(indent)) + Indent(indent) + "}"
    case Arr(es) => "[\n" + ElemsText(v, es, 0, Deeper(indent)) + Indent(indent) + "]"
  }

  /** What comes before item k of n, and after the last. */
  function Separator(k: nat): string {
    if k == 0 then "" else ",\n"
  }

  function Ending(n: nat): string {
    if n == 0 then "" else "\n"
  }

  /** The members from k on. */
  function MembersText(v: Var, ms: seq<Member>, k: nat, indent: nat): string
    requires v == Dict(ms)
    decreases v, 0, if k < |ms| then |ms| - k else 0
  {
    if k >= |ms| then Ending(|ms|)
    else
      Separator(k) + Indent(indent) + KeyText(ms[k].key) + ValueText(ms[k].value, indent)
      + MembersText(v, ms, k + 1, indent)
  }

  function ElemsText(v: Var, es: seq<Var>, k: nat, indent: nat): string
    requires v == Arr(es)
    decreases v, 0, if k < |es| then |es| - k else 0
  {
    if k >= |es| then Ending(|es|)
    else Separator(k) + Indent(indent) + ValueText(es[k], indent) + ElemsText(v, es, k + 1, indent)
  }

  /** What var_write prints, and whether it says it could. */
  function Write(v: Var): (string, bool) {
    match v
    case Dict(ms) => ("{\n" + MembersText(v, ms, 0, 4) + "}\n", true)
    case Arr(es) => ("{\n" + ElemsText(v, es, 0, 4) + "}\n", true)
    case _ => ("{\n}\n", false)
  }

  // ---- The parser's state machine ----

  datatype State =
    | Beginning | WaitKey | Key | KeyQuoted | WaitValue | WaitElem
    | Value(inArray: bool) | Quoted(inArray: bool)
    | Comment

  /** The local variables of one level. */
  datatype Regs = Regs(st: State, stnext: State, key: string, val: string, nondigits: bool, dots: nat)

  /** What reading the next character leads to. Next may leave it to be read again. Overrun
      stands for reading past the end of the text. */
  datatype Action = Next(v: Var, r: Regs, t: string) | Open(isArray: bool, r: Regs) | Close(v: Var) | Fail | Overrun

  predicate IsSpace(c: char) {
    c == ' ' || '\t' <= c <= '\r'
  }

  predicate IsLetter(c: char) {
    'a' <= c <= 'z' || 'A' <= c <= 'Z'
  }

  /** VALIDUNQUOTED. */
  predicate KeyChar(c: char) {
    IsLetter(c) || IsDigit(c) || c in "-_.*/"
  }

  /** VALIDUNQUOTEDV. */
  predicate ValueChar(c: char) {
    IsLetter(c) || IsDigit(c) || c in "-_./:*%"
  }

  function Wait(inArray: bool): State {
    if inArray then WaitElem else WaitKey
  }

  function Closer(inArray: bool): char {
    if inArray then ']' else '}'
  }

  /** A value goes under the key, or to the end of the array. */
  function Store(v: Var, key: string, inArray: bool, value: Var): Var {
    if inArray then Append(v, value) else SetScalar(v, key, value)
  }

  function SkipComment(v: Var, r: Regs, t: string, after: State): Action
    requires t != ""
  {
    Next(v, r.(stnext := after, st := Comment), t[1..])
  }

  function StepWaitKey(v: Var, r: Regs, t: string): Action
    requires t != ""
  {
    var c := t[0];
    if c == '#' then SkipComment(v, r, t, r.st)
    else if IsSpace(c) || c == ',' then Next(v, r, t[1..])
    else if c == '}' then Close(v)
    else if c == '\"' then Next(v, r.(st := KeyQuoted, key := "", val := ""), t[1..])
    else if !KeyChar(c) then Fail
    else Next(v, r.(st := Key, key := "", val := ""), t)
  }

  function StepKey(v: Var, r: Regs, t: string): Action
    requires t != ""
  {
    var c := t[0];
    if c == '#' then SkipComment(v, r, t, WaitValue)
    else if IsSpace(c) then Next(v, r.(st := WaitValue), t[1..])
    else if c == '{' || c == '[' then Open(c == '[', r)
    else if c == ':' then Next(v, r.(st := WaitValue), t[1..])
    else if !KeyChar(c) || |r.key| >= BUFFER_MAX then Fail
    else Next(v, r.(key := r.key + [c]), t[1..])
  }

  function StepKeyQuoted(v: Var, r: Regs, t: string): Action
    requires t != ""
  {
    if t[0] == '\"' then Next(v, r.(st := WaitValue), t[1..])
    else
      var t' := if t[0] == '\\' then t[1..] else t;
      if |r.key| >= BUFFER_MAX then Fail
      else if t' == "" then Overrun
      else Next(v, r.(key := r.key + [t'[0]]), t'[1..])
  }

  function StepWaitValue(v: Var, r: Regs, t: string): Action
    requires t != ""
  {
    var c := t[0];
    if c == '#' then SkipComment(v, r, t, r.st)
    else if IsSpace(c) || c == ':' || c == '=' then Next(v, r, t[1..])
    else if c == '{' || c == '[' then Open(c == '[', r)
    else if c == '\"' then Next(v, r.(st := Quoted(false), val := ""), t[1..])
    else if !ValueChar(c) then Fail
    else Next(v, r.(st := Value(false), val := "", nondigits := false, dots := 0), t)
  }

  function StepWaitElem(v: Var, r: Regs, t: string): Action
    requires t != ""
  {
    var c := t[0];
    if c == '#' then SkipComment(v, r, t, r.st)
    else if IsSpace(c) || c == ',' then Next(v, r, t[1..])
    else if c == ']' then Close(v)
    else if c == '{' || c == '[' then Open(c == '[', r)
    else if c == '\"' then Next(v, r.(st := Quoted(true), val := ""), t[1..])
    else if !KeyChar(c) then Fail
    else Next(v, r.(st := Value(true), val := "", nondigits := false, dots := 0), t)
  }

  predicate EndsValue(c: char, inArray: bool) {
    IsSpace(c) || c == ',' || c == Closer(inArray) || c == '#'
  }

  function StepValue(v: Var, r: Regs, t: string, inArray: bool): Action
    requires t != ""
  {
    var c := t[0];
    if EndsValue(c, inArray) then
      var v' := Store(v, r.key, inArray, Scalar(r.val, r.nondigits, r.dots));
      if c == '#' then SkipComment(v', r, t, Wait(inArray))
      else if c == Closer(inArray) then Close(v')
      else Next(v', r.(st := Wait(inArray)), t[1..])
    else if !ValueChar(c) || |r.val| >= BUFFER_MAX then Fail
    else
      Next(v, r.(val := r.val + [c], dots := if c == '.' then r.dots + 1 else r.dots,
                 nondigits := r.nondigits || (c != '.' && !IsDigit(c))), t[1..])
  }

  function Unescaped(c: char): char {
    if c == 'n' then '\n' else if c == 't' then '\t' else if c == 'r' then '\r' else c
  }

  function StepQuoted(v: Var, r: Regs, t: string, inArray: bool): Action
    requires t != ""
  {
    if t[0] == '\"' then Next(Store(v, r.key, inArray, Str(r.val)), r.(st := Wait(inArray)), t[1..])
    else if |r.val| >= BUFFER_MAX then Fail
    else if t[0] != '\\' then Next(v, r.(val := r.val + [t[0]]), t[1..])
    else if |t| == 1 then Overrun
    else Next(v, r.(val := r.val + [Unescaped(t[1])]), t[2..])
  }

  /** States in which the next character is always consumed. */
  function Rank(st: State): nat {
    if st.Key? || st.Value? then 0 else 1
  }

  function Step(v: Var, r: Regs, t: string): (a: Action)
    requires t != ""
    ensures a.Next? ==> |a.t| < |t| || (a.t == t && Rank(a.r.st) < Rank(r.st))
  {
    match r.st
    case Beginning => if t[0] == '{' then Next(v, r.(st := WaitKey), t[1..]) else StepWaitKey(v, r, t)
    case WaitKey => StepWaitKey(v, r, t)
    case Key => StepKey(v, r, t)
    case KeyQuoted => StepKeyQuoted(v, r, t)
    case WaitValue => StepWaitValue(v, r, t)
    case WaitElem => StepWaitElem(v, r, t)
    case Value(inArray) => StepValue(v, r, t, inArray)
    case Quoted(inArray) => StepQuoted(v, r, t, inArray)
    case Comment => Next(v, if t[0] == '\n' then r.(st := r.stnext) else r, t[1..])
  }

  /** How a level ends: its success, its tree, and the text from the closing character on. */
  datatype Outcome = Done(ok: bool, v: Var, rest: string) | PastEnd

  /** The container to parse into, found or made in v. */
  function Child(v: Var, r: Regs, isArray: bool): Option<Var> {
    if r.st.WaitElem? then Some(Empty(isArray)) else GetContainer(v, r.key, isArray)
  }

  function WithChild(v: Var, r: Regs, child: Var): Var {
    if r.st.WaitElem? then Append(v, child) else SetContainer(v, r.key, child)
  }

  function Start(st: State): Regs {
    Regs(st, st, "", "", false, 0)
  }

  /** var_parse_json_level on the text t. A text that ends within a level ends it well. */
  function Level(v: Var, r: Regs, t: string, depth: nat): (o: Outcome)
    ensures o.Done? ==> |o.rest| <= |t|
    decreases |t|, Rank(r.st)
  {
    if t == "" then Done(true, v, t)
    else
      match Step(v, r, t)
      case Next(v', r', t') => Level(v', r', t', depth)
      case Close(v') => Done(true, v', t)
      case Fail => Done(false, v, t)
      case Overrun => PastEnd
      case Open(isArray, r') =>
        match Child(v, r', isArray)
        case None => Done(false, v, t)
        case Some(child) =>
          if depth + 1 > MAX_DEPTH then Done(false, WithChild(v, r', child), t)
          else
            match Level(child, Start(Wait(isArray)), t[1..], depth + 1)
            case PastEnd => PastEnd
            case Done(ok, child', rest) =>
              var v' := WithChild(v, r', child');
              if !ok then Done(false, v', rest)
              else if rest == "" then PastEnd
              else Level(v', r'.(st := Wait(r'.st.WaitElem?)), rest[1..], depth)
  }

  /** var_parse_json. */
  function Parse(into: Var, text: string): Outcome {
    Level(into, Start(Beginning), text, 0)
  }
}
