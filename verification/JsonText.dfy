/** The loops of the printer and the parser. */
module JsonText {
  import opened Json
  import opened Wrappers

  /** var_escape_str, with its two cursors. */
  method EscapeStr(str: string) returns (res: string)
    ensures res == Escape(str)
  {
    res := "";
    var i := 0;
    while i < |str|
      invariant 0 <= i <= |str|
      invariant res + Escape(str[i..]) == Escape(str)
    {
      EscapeStep(str, i, res);
      if str[i] == '\n' {
        res := res + ['\\'];
        res := res + ['n'];
      } else {
        if str[i] == '\\' || str[i] == '\"' {
          res := res + ['\\'];
        }
        res := res + [str[i]];
      }
      i := i + 1;
    }
  }

  lemma EscapeStep(str: string, i: nat, res: string)
    requires i < |str|
    ensures res + Escape(str[i..]) == (
      if str[i] == '\n' then res + ['\\'] + ['n']
      else (if str[i] == '\\' || str[i] == '\"' then res + ['\\'] else res) + [str[i]]) + Escape(str[i + 1..])
  {
    assert str[i..][1..] == str[i + 1..];
    assert Escape(str[i..]) == EscapeChar(str[i]) + Escape(str[i + 1..]);
  }

  /** What the printer makes of the children of v. */
  function ChildrenText(v: Var, indent: nat): string {
    match v
    case Dict(ms) => MembersText(v, ms, 0, indent)
    case Arr(es) => ElemsText(v, es, 0, indent)
    case _ => ""
  }

  /** var_write_indented. A value without children is refused. */
  method WriteIndented(v: Var, indent: nat) returns (ok: bool, text: string)
    ensures ok == (v.Dict? || v.Arr?)
    ensures text == ChildrenText(v, indent)
    decreases v, 1
  {
    ok := true;
    if v.Dict? {
      text := WriteMembers(v, indent);
    } else if v.Arr? {
      text := WriteElems(v, indent);
    } else {
      ok, text := false, "";
    }
  }

  /** What stands before item k is written. */
  function Started(text: string, k: nat, indent: nat): string {
    (if k == 0 then text else text + ",\n") + Indent(indent)
  }

  lemma Regroup(a: string, b: string, c: string, d: string, e: string)
    ensures a + (b + c + d + e) == a + b + c + d + e
  {
  }

  lemma MemberStep(v: Var, k: nat, indent: nat, text: string)
    requires v.Dict? && k < |v.members|
    ensures text + MembersText(v, v.members, k, indent) ==
      Started(text, k, indent) + KeyText(v.members[k].key) + ValueText(v.members[k].value, indent)
      + MembersText(v, v.members, k + 1, indent)
  {
    hide ValueText, KeyText, Indent;
    var key, value := KeyText(v.members[k].key), ValueText(v.members[k].value, indent);
    var rest := MembersText(v, v.members, k + 1, indent);
    assert MembersText(v, v.members, k, indent) == Separator(k) + Indent(indent) + key + value + rest;
    Regroup(text, Separator(k) + Indent(indent), key, value, rest);
    assert text + (Separator(k) + Indent(indent)) == Started(text, k, indent);
  }

  lemma ElemStep(v: Var, k: nat, indent: nat, text: string)
    requires v.Arr? && k < |v.elems|
    ensures text + ElemsText(v, v.elems, k, indent) ==
      Started(text, k, indent) + ValueText(v.elems[k], indent) + ElemsText(v, v.elems, k + 1, indent)
  {
    hide ValueText, Indent;
    var value, rest := ValueText(v.elems[k], indent), ElemsText(v, v.elems, k + 1, indent);
    assert ElemsText(v, v.elems, k, indent) == Separator(k) + Indent(indent) + value + rest;
    assert text + (Separator(k) + Indent(indent)) == Started(text, k, indent);
  }

  method WriteMembers(v: Var, indent: nat) returns (text: string)
    requires v.Dict?
    ensures text == MembersText(v, v.members, 0, indent)
    decreases v, 0
  {
    hide ValueText, Indent, Escape;
    text := "";
    var first := true;
    var k := 0;
    while k < |v.members|
      invariant 0 <= k <= |v.members| && first == (k == 0)
      invariant text + MembersText(v, v.members, k, indent) == MembersText(v, v.members, 0, indent)
    {
      MemberStep(v, k, indent, text);
      if first {
        first := false;
      } else {
        text := text + ",\n";
      }
      text := text + Indent(indent);
      var id := EscapeStr(v.members[k].key);
      text := text + Printed("\"" + id + "\": ");
      var value := WriteValue(v.members[k].value, indent);
      text := text + value;
      k := k + 1;
    }
    if !first {
      text := text + "\n";
    }
  }

  method WriteElems(v: Var, indent: nat) returns (text: string)
    requires v.Arr?
    ensures text == ElemsText(v, v.elems, 0, indent)
    decreases v, 0
  {
    hide ValueText, Indent;
    text := "";
    var first := true;
    var k := 0;
    while k < |v.elems|
      invariant 0 <= k <= |v.elems| && first == (k == 0)
      invariant text + ElemsText(v, v.elems, k, indent) == ElemsText(v, v.elems, 0, indent)
    {
      ElemStep(v, k, indent, text);
      if first {
        first := false;
      } else {
        text := text + ",\n";
      }
      text := text + Indent(indent);
      var value := WriteValue(v.elems[k], indent);
      text := text + value;
      k := k + 1;
    }
    if !first {
      text := text + "\n";
    }
  }

  method WriteValue(x: Var, indent: nat) returns (text: string)
    ensures text == ValueText(x, indent)
    decreases x, 2
  {
    match x {
      case Null => text := "\"\"";
      case Int(i) => text := Printed(Digits(i));
      case Dbl(r) => text := Printed(Fixed(r));
      case Str(s) =>
        var escaped := EscapeStr(s);
        text := Printed("\"" + escaped + "\"");
      case Dict(ms) =>
        var ok, inner := WriteIndented(x, Deeper(indent));
        text := "{\n" + inner + Indent(indent) + "}";
      case Arr(es) =>
        var ok, inner := WriteIndented(x, Deeper(indent));
        text := "[\n" + inner + Indent(indent) + "]";
    }
  }

  /** var_write. */
  method WriteVar(v: Var) returns (ok: bool, text: string)
    ensures (text, ok) == Write(v)
  {
    hide MembersText, ElemsText;
    var inner;
    ok, inner := WriteIndented(v, 4);
    assert !ok ==> "{\n" + inner + "}\n" == "{\n}\n";
    text := "{\n" + inner + "}\n";
  }

  /** var_parse_json_level: the loop over the text from position start on. */
  method ParseLevel(v: Var, buf: string, start: nat, st: State, depth: nat) returns (o: Outcome)
    requires start <= |buf|
    ensures o == Level(v, Start(st), buf[start..], depth)
    ensures o.Done? ==> |o.rest| <= |buf| - start && o.rest == buf[|buf| - |o.rest|..]
    decreases |buf| - start
  {
    hide Step, Child, WithChild;
    var tree, r, c := v, Start(st), start;
    while c < |buf|
      invariant start <= c <= |buf|
      invariant Level(tree, r, buf[c..], depth) == Level(v, Start(st), buf[start..], depth)
      decreases |buf| - c, Rank(r.st)
    {
      var a := Step(tree, r, buf[c..]);
      match a {
        case Next(v', r', t') =>
          Suffix(buf, c, tree, r);
          tree, r, c := v', r', |buf| - |t'|;
        case Close(v') =>
          return Done(true, v', buf[c..]);
        case Fail =>
          return Done(false, tree, buf[c..]);
        case Overrun =>
          return PastEnd;
        case Open(isArray, r') =>
          var child := Child(tree, r', isArray);
          if child.None? {
            return Done(false, tree, buf[c..]);
          }
          if depth + 1 > MAX_DEPTH {
            return Done(false, WithChild(tree, r', child.value), buf[c..]);
          }
          assert buf[c..][1..] == buf[c + 1..];
          var inner := ParseLevel(child.value, buf, c + 1, Wait(isArray), depth + 1);
          if inner.PastEnd? {
            return PastEnd;
          }
          tree := WithChild(tree, r', inner.v);
          if !inner.ok {
            return Done(false, tree, inner.rest);
          }
          if inner.rest == "" {
            return PastEnd;
          }
          c := |buf| - |inner.rest| + 1;
          r := r'.(st := Wait(r'.st.WaitElem?));
      }
    }
    o := Done(true, tree, "");
  }

  /** Every step leaves a rest of the text. */
  lemma Suffix(buf: string, c: nat, v: Var, r: Regs)
    requires c < |buf| && Step(v, r, buf[c..]).Next?
    ensures var t := Step(v, r, buf[c..]).t; |t| <= |buf| - c && t == buf[|buf| - |t|..]
  {
  }
}
