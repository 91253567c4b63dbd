/** Emptied arrays and retyped meters, told by names: when the children of an emptied array are
    emptied, and what becomes of a host where they are not. */
module EmptiedArrays {
  import opened WireText
  import opened Wrappers
  import opened IoPort
  import opened HostNames
  import opened IdNames
  import opened Ids
  import opened Meters
  import opened MeterTrip
  import opened MeterUpdate

  predicate NamedRow(ms: seq<Meter>, names: seq<string>) {
    |names| == |ms| && forall i :: 0 <= i < |ms| ==> Bare(ms[i].id) && Named(ms[i], names[i])
  }

  /** The name of the meter starts with p and a slash. */
  predicate ChildOf(v: Meter, p: string) {
    StartsWith(IdName(v.id), p + "/")
  }

  // ---- Which meters are left ----

  lemma {:induction false} RemovedHas(ms: seq<Meter>, p: Id, v: Meter)
    ensures v in RemoveName(ms, p) <==> v in ms && NameOf(v.id) != NameOf(p)
  {
    hide NameOf;
    if ms != [] {
      RemovedHas(ms[1..], p, v);
      assert v in ms <==> v == ms[0] || v in ms[1..];
    }
  }

  /** A meter of another name than the one sent and its prefix stays, as it is. */
  lemma {:induction false} OtherStays(us: seq<Meter>, m: Meter, lastpfx: Id, v: Meter)
    requires m.count < 32 && GoodMeter(m) && v in us && NameOf(v.id) != NameOf(m.id)
    requires GetPrefix(WireId(m)) != 0 ==> NameOf(v.id) != NameOf(GetPrefix(WireId(m)))
    ensures v in Settled(Left(us, m, lastpfx), m)
  {
    LeftHas(us, m, lastpfx, v);
    hide WireId, GetPrefix, GoodMeter, Left, Settled, NameOf;
    SettledHas(Left(us, m, lastpfx), m, v);
  }

  lemma {:induction false} LeftHas(us: seq<Meter>, m: Meter, lastpfx: Id, v: Meter)
    requires m.count < 32 && GoodMeter(m) && v in us && NameOf(v.id) != NameOf(m.id)
    requires GetPrefix(WireId(m)) != 0 ==> NameOf(v.id) != NameOf(GetPrefix(WireId(m)))
    ensures v in Left(us, m, lastpfx)
  {
    hide NameOf, WireId, GetPrefix, GoodMeter, FindName, CountOf, SetCount, RemoveName, LastText;
    SlotFound(us, m);
    BeforeFirst(us, m.id);
    RemovedHas(Emptied(us, WireId(m)), GetPrefix(WireId(m)), v);
    var i :| 0 <= i < |us| && us[i] == v;
    assert Emptied(us, WireId(m))[i] == v;
  }

  lemma {:induction false} SettledHas(ws: seq<Meter>, m: Meter, v: Meter)
    requires m.count < 32 && v in ws && NameOf(v.id) != NameOf(m.id)
    ensures v in Settled(ws, m)
  {
    BeforeFirst(ws, m.id);
    hide NameOf, WireId, FindName, Fits, Received, Resize;
    var j :| 0 <= j < |ws| && ws[j] == v;
    assert |Settled(ws, m)| >= |ws| && Settled(ws, m)[j] == v;
  }

  /** Nothing new but the meter sent. */
  lemma {:induction false} NothingElse(us: seq<Meter>, m: Meter, lastpfx: Id, v: Meter)
    requires m.count == EMPTY_ARRAY && GoodMeter(m) && v in Settled(Left(us, m, lastpfx), m)
    ensures v == Received(m) || v in us || exists u :: u in us && v == SetCount(u, EMPTY_ARRAY)
  {
    RemovedHas(Emptied(us, WireId(m)), GetPrefix(WireId(m)), v);
    hide NameOf, WireId, GetPrefix, Holds, Bare, FindName, Received, Resize, CountOf, SetCount, RemoveName, LastText;
    var ws := Left(us, m, lastpfx);
    if v != Received(m) {
      assert v in ws;
    }
  }

  /** Afterwards all meters under the name of an emptied array are empty arrays, exactly if the
      first meter of the list is not one of them, or is one already. */
  lemma {:induction false} EmptiedIff(us: seq<Meter>, m: Meter, lastpfx: Id)
    requires GoodMeter(m) && m.count == EMPTY_ARRAY && us != []
    requires UnderPrefix(us[0].id, WireId(m)) ==> NameOf(us[0].id) != NameOf(m.id)
    requires UnderPrefix(us[0].id, WireId(m)) && GetPrefix(WireId(m)) != 0 ==> NameOf(us[0].id) != NameOf(GetPrefix(WireId(m)))
    ensures (forall v :: v in After(us, m, lastpfx) && UnderPrefix(v.id, WireId(m)) ==> v.count == EMPTY_ARRAY)
      <==> (UnderPrefix(us[0].id, WireId(m)) ==> us[0].count == EMPTY_ARRAY)
  {
    FindsIs(us, m);
    KeepsName(m);
    hide UnderPrefix, WireId, Left, Finds, GoodMeter, Settled, GetPrefix, NameOf, Received;
    var row := After(us, m, lastpfx);
    if Finds(us, m) {
      assert row[0] == us[0];
      forall i | 0 <= i < |us| ensures row[i].id == us[i].id && (0 < i && UnderPrefix(us[i].id, WireId(m)) ==> row[i].count == EMPTY_ARRAY) {
        KeepsId(us[i]);
      }
    } else {
      forall v | v in row && UnderPrefix(v.id, WireId(m)) ensures v.count == EMPTY_ARRAY || v == us[0] {
        NothingElse(us, m, lastpfx, v);
      }
      if UnderPrefix(us[0].id, WireId(m)) {
        OtherStays(us, m, lastpfx, us[0]);
      }
    }
  }

  // ---- On names ----

  /** A child of p has neither the name p nor that of the prefix of p. */
  lemma ChildIsOther(u: Meter, name: string, m: Meter, p: string)
    requires GoodMeter(m) && Named(m, p) && Named(u, name) && UnderPrefix(u.id, WireId(m))
    ensures StartsWith(name, p + "/")
    ensures NameOf(u.id) != NameOf(m.id)
    ensures GetPrefix(WireId(m)) != 0 ==> NameOf(u.id) != NameOf(GetPrefix(WireId(m)))
  {
    WireName(m, p);
    hide Spells, Clean, IsName, GoodMeter, WireId, UnderPrefix, GetPrefix, NameOf;
    UnderIsStart(u.id, name, WireId(m), p);
    assert |name| > |p|;
    if NameOf(u.id) == NameOf(m.id) {
      SameSpelling(u.id, m.id, name, p);
    }
    PrefixApart(m, p, u, name);
  }

  lemma ChildIs(v: Meter, name: string, m: Meter, p: string)
    requires GoodMeter(m) && Named(m, p) && Named(v, name)
    ensures ChildOf(v, p) <==> UnderPrefix(v.id, WireId(m))
    ensures ChildOf(v, p) <==> StartsWith(name, p + "/")
  {
    WireName(m, p);
    SpelledName(v.id, name);
    hide Spells, Clean, IsName, GoodMeter, WireId, UnderPrefix;
    UnderIsStart(v.id, name, WireId(m), p);
  }

  /** Every meter afterwards has the name of one before, or p. */
  lemma {:induction false} AfterNamed(us: seq<Meter>, names: seq<string>, m: Meter, p: string, lastpfx: Id, v: Meter)
    returns (name: string)
    requires GoodMeter(m) && m.count == EMPTY_ARRAY && Named(m, p) && NamedRow(us, names) && v in After(us, m, lastpfx)
    ensures Named(v, name)
  {
    KeepsName(m);
    hide Spells, Clean, IsName, WireId, UnderPrefix, Left, Finds, GoodMeter, Settled, Received;
    var row := After(us, m, lastpfx);
    if Finds(us, m) {
      var i :| 0 <= i < |us| && row[i] == v;
      KeepsId(us[i]);
      name := names[i];
    } else {
      NothingElse(us, m, lastpfx, v);
      if v == Received(m) {
        name := p;
      } else {
        var u :| u in us && (v == u || v == SetCount(u, EMPTY_ARRAY));
        KeepsId(u);
        var i :| 0 <= i < |us| && us[i] == u;
        name := names[i];
      }
    }
  }

  /** Decoding an emptied array of the name p empties every meter whose name starts with p and a
      slash, exactly if the first meter of the list is not one of them, or is an empty array. */
  lemma {:induction false} ChildrenEmptied(us: seq<Meter>, names: seq<string>, m: Meter, p: string, rest: seq<bv8>, lastpfx: Id, strbuf: Text)
    returns (row: seq<Meter>, strbuf': Text)
    requires GoodMeter(m) && m.count == EMPTY_ARRAY && Named(m, p) && NamedRow(us, names) && us != []
    ensures DecHost(EncMeter(m) + rest, us, lastpfx, strbuf) == DecHost(rest, row, Remembered(us, m, lastpfx), strbuf')
    ensures (forall v :: v in row && ChildOf(v, p) ==> v.count == EMPTY_ARRAY)
      <==> (StartsWith(names[0], p + "/") ==> us[0].count == EMPTY_ARRAY)
  {
    row := After(us, m, lastpfx);
    hide Named, Bare, Holds, WireId, UnderPrefix, After, ChildOf, StartsWith, DecHost, EncMeter, NameOf, GetPrefix, Remembered;
    strbuf' := MeterUpdates(us, m, rest, lastpfx, strbuf);
    ChildIs(us[0], names[0], m, p);
    if UnderPrefix(us[0].id, WireId(m)) {
      ChildIsOther(us[0], names[0], m, p);
    }
    EmptiedIff(us, m, lastpfx);
    forall v | v in row ensures ChildOf(v, p) <==> UnderPrefix(v.id, WireId(m)) {
      var name := AfterNamed(us, names, m, p, lastpfx, v);
      ChildIs(v, name, m, p);
    }
  }

  // ---- The first meter is the only child ----

  /** An integer p/x, and the array p sent as an empty one. */
  function Child(): Meter {
    Meter(MakeId("p/x", TYPE_INT), 0, Ints([5]))
  }

  function Parent(): Meter {
    Meter(MakeId("p", TYPE_INT), EMPTY_ARRAY, Null)
  }

  lemma ParentNamed()
    ensures GoodMeter(Parent()) && Named(Parent(), "p") && Parent().count == EMPTY_ARRAY && Received(Parent()) == Parent()
  {
    MadeNamed("p", TYPE_INT);
    hide MakeId, Spells, Clean, Bare, NameOf;
  }

  lemma ChildNamed()
    ensures Bare(Child().id) && Named(Child(), "p/x") && Child().data == Ints([5])
  {
    MadeNamed("p/x", TYPE_INT);
    hide MakeId, Spells, Clean, Bare, NameOf;
  }

  lemma MadeNamed(name: string, t: Id)
    requires IsName(name) && IsType(t)
    ensures Bare(MakeId(name, t)) && Clean(MakeId(name, t)) && Spells(MakeId(name, t), name) && NameOf(MakeId(name, t)) != 0
    ensures TypeOf(MakeId(name, t)) == t
  {
    MakeSpells(name, t);
    MadeId(name, t);
    SpelledNotZero(MakeId(name, t), name);
    hide MakeId, Spells;
  }

  lemma SpelledNotZero(id: Id, name: string)
    requires Spells(id, name) && IsName(name)
    ensures NameOf(id) != 0
  {
    NameLetter(id, 0);
    LetterOfZero(0);
    assert name[0] in name;
    CharBack(name[0]);
    assert LetterCode(id, 0) == CodeAt(name, 0);
    hide NameOf, CodeOf;
  }

  /** The array has no prefix, and another name than the child. */
  lemma ParentPlain()
    ensures GetPrefix(WireId(Parent())) == 0
    ensures NameOf(Child().id) != NameOf(Parent().id) && UnderPrefix(Child().id, WireId(Parent()))
  {
    ParentNamed();
    ChildNamed();
    hide GoodMeter, Spells, Clean, WireId, GetPrefix, UnderPrefix, NameOf, Parent, Child;
    assert "p/x"[..2] == "p/";
    WireName(Parent(), "p");
    PrefixSpells(WireId(Parent()), "p");
    assert PrefixName("p").None?;
    ChildIs(Child(), "p/x", Parent(), "p");
    ChildIsOther(Child(), "p/x", Parent(), "p");
  }

  /** The child keeps its value, and the array becomes a meter beside it. */
  lemma FirstChildKeeps(rest: seq<bv8>, strbuf: Text) returns (strbuf': Text)
    ensures ChildOf(Child(), "p") && Child().data == Ints([5])
    ensures DecHost(EncMeter(Parent()) + rest, [Child()], 0, strbuf) == DecHost(rest, [Child(), Parent()], 0, strbuf')
  {
    ParentNamed();
    ChildNamed();
    ParentPlain();
    hide GoodMeter, Bare, Named, WireId, GetPrefix, UnderPrefix, NameOf, DecHost, EncMeter, CountOf, Child, Parent, Received;
    assert "p/x"[..2] == "p/";
    ChildIs(Child(), "p/x", Parent(), "p");
    strbuf' := MeterUpdates([Child()], Parent(), rest, 0, strbuf);
    NewBeside(Child(), Parent());
  }

  lemma {:induction false} NewBeside(u: Meter, m: Meter)
    requires GoodMeter(m) && m.count == EMPTY_ARRAY && GetPrefix(WireId(m)) == 0 && NameOf(u.id) != NameOf(m.id)
    ensures After([u], m, 0) == [u, Received(m)] && Remembered([u], m, 0) == 0
  {
    hide GoodMeter, WireId, GetPrefix, UnderPrefix, NameOf, CountOf, Received, Fits, Resize;
    var us := [u];
    SlotFound(us, m);
    assert FindName(us[1..], m.id) == 0;
    assert Emptied(us, WireId(m)) == us && Left(us, m, 0) == us;
    assert us + [Received(m)] == [u, Received(m)];
  }

  // ---- A number that becomes a text, and a text that becomes a number ----

  function Number(): Meter {
    Meter(MakeId("x", TYPE_INT), 0, Ints([5]))
  }

  function Words(): Meter {
    Meter(MakeId("x", TYPE_STR), 0, Strs([[0x41]]))
  }

  lemma BothGood()
    ensures GoodMeter(Number()) && GoodMeter(Words()) && NameOf(Number().id) == NameOf(Words().id)
    ensures TypeOf(Number().id) == TYPE_INT && TypeOf(Words().id) == TYPE_STR
    ensures Named(Number(), "x") && Named(Words(), "x") && Bare(Number().id) && Bare(Words().id)
  {
    NumberGood();
    WordsGood();
    hide MakeId, Spells, Clean, Bare, NameOf, TypeOf, GoodMeter, IsName;
    SameBits(MakeId("x", TYPE_INT), MakeId("x", TYPE_STR), "x");
  }

  lemma NumberGood()
    ensures GoodMeter(Number()) && TypeOf(Number().id) == TYPE_INT && Named(Number(), "x") && Bare(Number().id)
  {
    MadeNamed("x", TYPE_INT);
    hide MakeId, Spells, Clean, Bare, NameOf, TypeOf;
  }

  lemma WordsGood()
    ensures GoodMeter(Words()) && TypeOf(Words().id) == TYPE_STR && Named(Words(), "x") && Bare(Words().id)
  {
    MadeNamed("x", TYPE_STR);
    OneByte();
    hide MakeId, Spells, Clean, Bare, NameOf, TypeOf, Sendable;
  }

  lemma OneByte()
    ensures Sendable([0x41])
  {
  }

  lemma SameBits(x: Id, y: Id, name: string)
    requires Spells(x, name) && Spells(y, name) && Clean(x) && Clean(y)
    ensures NameOf(x) == NameOf(y)
  {
    forall k | 0 <= k < LETTERS ensures Letter(x, k) == Letter(y, k) {
      assert LetterCode(x, k) == LetterCode(y, k);
      CodeBack(x, k);
      CodeBack(y, k);
    }
    hide Letter, LetterCode, Clean, NameOf;
    SameName(x, y);
  }

  lemma {:induction false} OneOver(u: Meter, m: Meter)
    requires GoodMeter(m) && m.count == 0 && GetPrefix(WireId(m)) == 0 && NameOf(u.id) == NameOf(m.id)
    ensures After([u], m, 0) == [if Fits(u.id, m) then Received(m) else Resize(u, WireId(m))] && Remembered([u], m, 0) == 0
  {
    NotAnArray(m);
    hide GoodMeter, WireId, GetPrefix, UnderPrefix, NameOf, CountOf, Received, Fits, Resize;
    assert FindName([u], m.id) == 0;
  }

  lemma {:induction false} NotAnArray(m: Meter)
    requires GoodMeter(m) && m.count == 0
    ensures forall us :: Emptied(us, WireId(m)) == us
  {
    WireFacts(m);
  }

  lemma NoPrefix(m: Meter)
    requires GoodMeter(m) && Named(m, "x")
    ensures GetPrefix(WireId(m)) == 0
  {
    WireName(m, "x");
    hide GoodMeter, Spells, Clean, WireId, GetPrefix;
    PrefixSpells(WireId(m), "x");
    assert HostNames.PrefixName("x").None?;
  }

  /** A text does not fit what was made for a number; a number fits what was made for a text. */
  lemma TextOverNumber(rest: seq<bv8>, strbuf: Text) returns (row: seq<Meter>, a: Text, b: Text)
    ensures DecHost(EncMeter(Words()) + rest, [Number()], 0, strbuf) == DecHost(rest, row, 0, a)
    ensures |row| == 1 && row[0].data == Mangled
    ensures DecHost(EncMeter(Number()) + rest, [Words()], 0, strbuf) == DecHost(rest, [Number()], 0, b)
  {
    BothGood();
    SomeValue();
    hide GoodMeter, Named, Bare, WireId, GetPrefix, NameOf, TypeOf, DecHost, EncMeter, Number, Words, Received, Resize, After;
    NoPrefix(Words());
    NoPrefix(Number());
    a := MeterUpdates([Number()], Words(), rest, 0, strbuf);
    b := MeterUpdates([Words()], Number(), rest, 0, strbuf);
    OneOver(Number(), Words());
    OneOver(Words(), Number());
    ResizedFor(Number(), Words());
    row := After([Number()], Words(), 0);
  }

  lemma SomeValue()
    ensures Number().count == Words().count == 0 && Received(Number()) == Number()
  {
    hide MakeId;
  }
}
