/** The limits of the printer and the parser are where they are said to be: keys of up to 127
    characters without a line end, and containers seven deep below the root. */
module JsonLimits {
  import opened Json
  import opened JsonCuts
  import opened JsonTrip
  import opened Wrappers

  // ---- Keys ----

  /** The parser takes the letter after a backslash in a key as it is. */
  function Unlined(s: string): (r: string)
    ensures |r| == |s|
  {
    seq(|s|, i requires 0 <= i < |s| => if s[i] == '\n' then 'n' else s[i])
  }

  lemma AnyKeyChar(v: Var, r: Regs, c: char, more: string, depth: nat)
    requires r.st.KeyQuoted? && |r.key| < BUFFER_MAX
    ensures Level(v, r, EscapeChar(c) + more, depth) == Level(v, r.(key := r.key + [if c == '\n' then 'n' else c]), more, depth)
  {
    var t := EscapeChar(c) + more;
    assert |EscapeChar(c)| == 1 ==> t[1..] == more;
    assert |EscapeChar(c)| == 2 ==> t[1..][1..] == more;
    Go(v, r, t, depth);
  }

  lemma {:induction false} AnyKeyRun(v: Var, r: Regs, s: string, more: string, depth: nat)
    requires r.st.KeyQuoted? && |r.key| + |s| <= BUFFER_MAX
    ensures Level(v, r, Escape(s) + more, depth) == Level(v, r.(key := r.key + Unlined(s)), more, depth)
    decreases |s|
  {
    hide Level;
    if s == "" {
      assert Escape(s) + more == more && r.key + Unlined(s) == r.key;
    } else {
      assert Escape(s) + more == EscapeChar(s[0]) + (Escape(s[1..]) + more);
      AnyKeyChar(v, r, s[0], Escape(s[1..]) + more, depth);
      var r1 := r.(key := r.key + [Unlined(s)[0]]);
      assert r1.key + Unlined(s[1..]) == r.key + Unlined(s);
      AnyKeyRun(v, r1, s[1..], more, depth);
    }
  }

  lemma AnyKeyRead(v: Var, r: Regs, key: string, more: string, depth: nat) returns (r': Regs)
    requires r.st == WaitKey && |Escape(key)| + 4 <= PRINT_MAX
    ensures r'.st == WaitValue && r'.key == Unlined(key)
    ensures Level(v, r, KeyText(key) + more, depth) == Level(v, r', more, depth)
  {
    EscapeGrows(key);
    assert KeyText(key) == "\"" + Escape(key) + "\": ";
    hide Escape, KeyText, Level, Unlined;
    var e, t := Escape(key), "\"" + (": " + more);
    var r1 := r.(st := KeyQuoted, key := "", val := "");
    var r2 := r1.(key := Unlined(key));
    KeyPieces(e, more);
    KeyOpens(v, r, e + t, depth);
    AnyKeyRun(v, r1, key, t, depth);
    assert r1.key + Unlined(key) == Unlined(key);
    KeyCloses(v, r2, more, depth);
    r' := r2.(st := WaitValue);
  }

  /** A key and a number under it, and the rest of the text. */
  lemma EntryRead(r: Regs, key: string, tail: string) returns (r': Regs)
    requires r.st == WaitKey && |Escape(key)| + 4 <= PRINT_MAX && Follows(tail)
    ensures r'.st == WaitKey
    ensures Level(Null, r, Indent(4) + (KeyText(key) + (ValueText(Int(1), 4) + tail)), 0)
         == Level(SetScalar(Null, Unlined(key), Int(1)), r', tail, 0)
  {
    hide Level, ValueText, KeyText, Indent, Unlined, Follows, SetScalar, Escape;
    var atValue := ValueText(Int(1), 4) + tail;
    ItemStarts(Null, r, 0, 4, KeyText(key) + atValue, 0);
    assert Separator(0) + Indent(4) == Indent(4);
    var r1 := AnyKeyRead(Null, r, key, atValue, 0);
    r' := NumberRead(Null, r1, false, Int(1), 4, tail, 0);
  }

  lemma EntryText(x: Var, ms: seq<Member>, key: string)
    requires x == Dict(ms) && ms == [Member(key, Int(1))]
    ensures Write(x).0 == "{\n" + (Indent(4) + (KeyText(key) + (ValueText(Int(1), 4) + (Ending(1) + EndText(0, false, "\n")))))
    ensures Follows(Ending(1) + EndText(0, false, "\n"))
  {
    hide KeyText, ValueText, Indent;
    assert MembersText(x, ms, 1, 4) == Ending(1);
    assert Separator(0) + Indent(4) == Indent(4);
    assert Indent(0) == "" by {
      NoIndent();
    }
  }

  lemma NoIndent()
    ensures Indent(0) == ""
  {
  }

  /** A key that is printed in full comes back cut off at 127 characters, each line end as an n,
      and not at all if it is empty. */
  lemma AnyKey(key: string)
    requires |Escape(key)| + 4 <= PRINT_MAX
    ensures Parse(Null, Write(Dict([Member(key, Int(1))])).0)
      == Done(true, Dict(if key == "" then [] else [Member(CutKey(Unlined(key)), Int(1))]), "}\n")
  {
    hide Level, ValueText, KeyText, Indent, Parse, EndText, Unlined, Follows, Escape, Write;
    var ms, tail := [Member(key, Int(1))], Ending(1) + EndText(0, false, "\n");
    var more := Indent(4) + (KeyText(key) + (ValueText(Int(1), 4) + tail));
    EntryText(Dict(ms), ms, key);
    TextStarts(Null, more);
    var r := EntryRead(Start(Beginning).(st := WaitKey), key, tail);
    ItemsEnd(SetScalar(Null, Unlined(key), Int(1)), r, false, 1, 0, "\n", 0);
    assert [Closer(false)] + "\n" == "}\n";
    assert key == "" <==> Unlined(key) == "";
    assert [] + [Member(CutKey(Unlined(key)), Int(1))] == [Member(CutKey(Unlined(key)), Int(1))];
  }

  /** So the keys that come back are exactly the good ones. */
  lemma KeyLimits(key: string)
    requires |Escape(key)| + 4 <= PRINT_MAX
    ensures ComesBack([Member(key, Int(1))]) <==> GoodKey(key)
  {
    AnyKey(key);
    hide Parse, Write, Escape;
    var back := CutKey(Unlined(key));
    if '\n' in key && |key| <= KEY_MAX {
      var i :| 0 <= i < |key| && key[i] == '\n';
      assert back[i] == 'n';
    } else if '\n' !in key {
      assert Unlined(key) == key;
    }
    assert key != "" ==> (ComesBack([Member(key, Int(1))]) <==> [Member(back, Int(1))] == [Member(key, Int(1))]);
    assert [Member(back, Int(1))] == [Member(key, Int(1))] <==> back == key by {
      assert [Member(back, Int(1))][0].key == back;
    }
  }

  // ---- Depth ----

  /** n dictionaries inside each other, and a number in the innermost. */
  function Nested(n: nat): Var {
    if n == 0 then Int(1) else Dict([Member("a", Nested(n - 1))])
  }

  lemma {:induction false} NestedFits(n: nat, depth: nat)
    requires n == 0 || depth + n - 1 <= MAX_DEPTH
    ensures Fits(Nested(n), depth) && Cuts(Nested(n)) == 0 && Normal(Nested(n)) == Nested(n)
  {
    if n > 0 {
      NestedFits(n - 1, depth + 1);
      assert GoodKey("a");
      hide GoodKey;
      var x, ms := Nested(n), [Member("a", Nested(n - 1))];
      assert MemberCuts(x, ms, 1) == 0;
      assert NormalMembers(x, ms, 1) == ms;
    }
  }

  /** Where a dictionary would be nested too deep, the parser gives up. */
  lemma {:induction false} TooDeep(v: Var, r: Regs, n: nat, indent: nat, more: string, depth: nat)
    requires r.st == WaitValue && Place(v, r.key, false) && depth <= MAX_DEPTH < depth + n && more != ""
    ensures var o := Level(v, r, ValueText(Nested(n), indent) + more, depth); o.Done? && !o.ok
    decreases n, 1
  {
    var body := MembersText(Nested(n), Nested(n).members, 0, Deeper(indent)) + EndText(indent, false, more);
    ContainerText(Nested(n), indent, more);
    if depth < MAX_DEPTH {
      SkipOne(Dict([]), Start(WaitKey), '\n', body, depth + 1);
      InsideFails(Dict([]), Start(WaitKey), n, Deeper(indent), EndText(indent, false, more), depth + 1);
    }
    hide Level, MembersText, EndText, Place;
    DictOpens(v, r, ['\n'] + body, depth);
  }

  lemma {:induction false} InsideFails(v: Var, r: Regs, n: nat, indent: nat, end: string, depth: nat)
    requires r.st == WaitKey && (v == Null || v == Dict([])) && n > 0 && depth <= MAX_DEPTH < depth + n - 1 && end != ""
    ensures var o := Level(v, r, MembersText(Nested(n), Nested(n).members, 0, indent) + end, depth); o.Done? && !o.ok
    decreases n, 0
  {
    hide Level, ValueText, KeyText, Indent, Follows, MembersText;
    var ms := Nested(n).members;
    var tail := MembersText(Nested(n), ms, 1, indent) + end;
    MemberText(Nested(n), ms, 0, indent, end);
    ItemStarts(v, r, 0, indent, KeyText("a") + (ValueText(Nested(n - 1), indent) + tail), depth);
    var r1 := KeyRead(v, r, "a", ValueText(Nested(n - 1), indent) + tail, depth);
    TooDeep(v, r1, n - 1, indent, tail, depth);
  }

  lemma {:induction false} DictOpens(v: Var, r: Regs, t: string, depth: nat)
    requires r.st == WaitValue && Place(v, r.key, false) && depth <= MAX_DEPTH
    requires depth < MAX_DEPTH ==> var o := Level(Dict([]), Start(WaitKey), t, depth + 1); o.Done? && !o.ok
    ensures var o := Level(v, r, ['{'] + t, depth); o.Done? && !o.ok
  {
  }

  /** So the trees that come back nest at most seven deep below the root. */
  lemma DepthLimit(n: nat)
    ensures ComesBack([Member("a", Nested(n))]) <==> n <= MAX_DEPTH
  {
    var x := Nested(n + 1);
    assert x == Dict([Member("a", Nested(n))]);
    hide Level, MembersText, Parse, Fits, Cuts, Normal;
    if n <= MAX_DEPTH {
      NestedFits(n + 1, 0);
      PrintParse(x.members);
    } else {
      var end := EndText(0, false, "\n");
      assert Write(x).0 == "{\n" + (MembersText(x, x.members, 0, 4) + end);
      TextStarts(Null, MembersText(x, x.members, 0, 4) + end);
      InsideFails(Null, Start(Beginning).(st := WaitKey), n + 1, 4, end, 0);
    }
  }
}
