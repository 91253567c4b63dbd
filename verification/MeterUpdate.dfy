/** Decoding a packet into a host that has meters already: an update of the host as a map from
    names to meters. */
module MeterUpdate {
  import opened Wrappers
  import opened Wire
  import opened WireText
  import opened IoPort
  import opened HostNames
  import opened Ids
  import opened Meters
  import opened MeterTrip

  // ---- What a packet means ----

  /** A name, as the bits of the ids that spell it. */
  datatype Name = Name(bits: Id)

  type NamedMeters = map<Name, Meter>

  function NameFor(id: Id): Name {
    Name(NameOf(id))
  }

  /** A host as a map from names, the first meter of a name counting. */
  function Names(ms: seq<Meter>): NamedMeters {
    if ms == [] then map[] else Names(ms[1..])[NameFor(ms[0].id) := ms[0]]
  }

  predicate Parent(h: NamedMeters, p: Id) {
    exists k :: k in h && UnderPrefix(k.bits, p)
  }

  /** All meters under a name become empty arrays. */
  function EmptiedMap(h: NamedMeters, p: Id): NamedMeters {
    map k | k in h :: if UnderPrefix(k.bits, p) then SetCount(h[k], EMPTY_ARRAY) else h[k]
  }

  function Without(h: NamedMeters, p: Id): NamedMeters {
    if p == 0 then h else h - {NameFor(p)}
  }

  /** What one meter of a packet means: an empty array that has children empties those instead.
      Any other meter gets rid of one named like its prefix and takes the place of the meter of
      its name. */
  function Meant(h: NamedMeters, m: Meter): NamedMeters
    requires m.count < 32
  {
    if m.count == EMPTY_ARRAY && Parent(h, WireId(m)) then EmptiedMap(h, WireId(m))
    else Without(h, GetPrefix(WireId(m)))[NameFor(m.id) := Received(m)]
  }

  function MeantAll(h: NamedMeters, ms: seq<Meter>): NamedMeters
    requires forall m :: m in ms ==> m.count < 32
    decreases |ms|
  {
    if ms == [] then h else MeantAll(Meant(h, ms[0]), ms[1..])
  }

  function At(h: NamedMeters, k: Name): Option<Meter> {
    if k in h then Some(h[k]) else None
  }

  /** The last meter of a name. */
  function LastOf(ms: seq<Meter>, k: Name): Option<Meter> {
    if ms == [] then None
    else if LastOf(ms[1..], k).Some? then LastOf(ms[1..], k)
    else if NameFor(ms[0].id) == k then Some(ms[0])
    else None
  }

  /** Of a packet without empty arrays, a name that is no meter's prefix has what was sent last,
      and what it had before if nothing was. */
  lemma {:induction false} LastWins(h: NamedMeters, ms: seq<Meter>, k: Name)
    requires forall m :: m in ms ==> m.count < EMPTY_ARRAY && NameFor(GetPrefix(WireId(m))) != k
    ensures At(MeantAll(h, ms), k) == match LastOf(ms, k) case Some(m) => Some(Received(m)) case None => At(h, k)
    decreases |ms|
  {
    hide NameFor, GetPrefix, WireId, Received;
    if ms != [] {
      assert ms[0] in ms;
      LastWins(Meant(h, ms[0]), ms[1..], k);
    }
  }

  // ---- Rows as maps ----

  lemma {:induction false} NamesFind(ms: seq<Meter>, id: Id)
    ensures NameFor(id) in Names(ms) <==> FindName(ms, id) < |ms|
    ensures FindName(ms, id) < |ms| ==> Names(ms)[NameFor(id)] == ms[FindName(ms, id)]
  {
    hide NameOf;
    if ms != [] {
      NamesFind(ms[1..], id);
    }
  }

  lemma {:induction false} NamesHold(ms: seq<Meter>, k: Name)
    ensures k in Names(ms) <==> exists i :: 0 <= i < |ms| && NameFor(ms[i].id) == k
  {
    hide NameFor;
    if ms != [] {
      NamesHold(ms[1..], k);
      assert k in Names(ms) <==> k == NameFor(ms[0].id) || k in Names(ms[1..]);
      if i :| 0 <= i < |ms[1..]| && NameFor(ms[1..][i].id) == k {
        assert ms[i + 1] == ms[1..][i];
      }
      if i :| 1 <= i < |ms| && NameFor(ms[i].id) == k {
        assert ms[1..][i - 1] == ms[i];
      }
    }
  }

  lemma {:induction false} NamesReplace(ms: seq<Meter>, id: Id, r: Meter)
    requires FindName(ms, id) < |ms| && NameOf(r.id) == NameOf(id)
    ensures Names(ms[FindName(ms, id) := r]) == Names(ms)[NameFor(id) := r]
  {
    hide NameOf;
    var i := FindName(ms, id);
    if i > 0 {
      NamesReplace(ms[1..], id, r);
      assert ms[i := r][1..] == ms[1..][i - 1 := r] && ms[i := r][0] == ms[0];
    } else {
      assert ms[i := r][1..] == ms[1..];
    }
  }

  lemma {:induction false} NamesAppend(ms: seq<Meter>, r: Meter)
    requires FindName(ms, r.id) == |ms|
    ensures Names(ms + [r]) == Names(ms)[NameFor(r.id) := r]
  {
    hide NameOf;
    if ms != [] {
      NamesAppend(ms[1..], r);
      assert (ms + [r])[1..] == ms[1..] + [r];
    }
  }

  lemma {:induction false} NamesRemove(ms: seq<Meter>, p: Id)
    ensures Names(RemoveName(ms, p)) == Names(ms) - {NameFor(p)}
  {
    hide NameOf;
    if ms != [] {
      NamesRemove(ms[1..], p);
      var rest := RemoveName(ms[1..], p);
      assert ([ms[0]] + rest)[1..] == rest;
    }
  }

  /** All meters under a prefix, the first in the list too. */
  function EmptyAll(ms: seq<Meter>, p: Id): (r: seq<Meter>)
    ensures |r| == |ms|
  {
    seq(|ms|, i requires 0 <= i < |ms| => if UnderPrefix(ms[i].id, p) then SetCount(ms[i], EMPTY_ARRAY) else ms[i])
  }

  lemma {:induction false} NamesEmptied(ms: seq<Meter>, p: Id)
    ensures Names(EmptyAll(ms, p)) == EmptiedMap(Names(ms), p)
  {
    hide NameOf, UnderPrefix, SetCount;
    if ms != [] {
      NamesEmptied(ms[1..], p);
      assert EmptyAll(ms, p)[1..] == EmptyAll(ms[1..], p);
      KeepsId(ms[0]);
      UnderByName(ms[0].id, p);
    }
  }

  lemma ParentRow(ms: seq<Meter>, p: Id)
    ensures Parent(Names(ms), p) <==> exists i :: 0 <= i < |ms| && UnderPrefix(ms[i].id, p)
  {
    hide NameOf, UnderPrefix, Names;
    forall i | 0 <= i < |ms| ensures UnderPrefix(ms[i].id, p) == UnderPrefix(NameFor(ms[i].id).bits, p) {
      UnderByName(ms[i].id, p);
    }
    forall k ensures k in Names(ms) <==> exists i :: 0 <= i < |ms| && NameFor(ms[i].id) == k {
      NamesHold(ms, k);
    }
  }

  // ---- Which meters go as they are meant ----

  /** The storage made for a meter of one id holds the values of m. */
  predicate Fits(id: Id, m: Meter) {
    m.count >= EMPTY_VAL || (IsType(TypeOf(id)) && (TypeOf(id) == TYPE_STR || TypeOf(m.id) != TYPE_STR))
  }

  /** What is left of the host when the decoder looks for the meter of the name. */
  function Left(us: seq<Meter>, m: Meter, lastpfx: Id): seq<Meter>
    requires m.count < 32
  {
    DropPrefix(Emptied(us, WireId(m)), GetPrefix(WireId(m)), lastpfx, []).0
  }

  /** An empty array finds children to empty: meters under it after the first in the list. */
  predicate Finds(us: seq<Meter>, m: Meter)
    requires m.count < 32
  {
    m.count == EMPTY_ARRAY && FindPrefix(us, WireId(m), 1) < |us|
  }

  /** What has the meter's name must fit it, or there must be room. */
  predicate Accepts(ws: seq<Meter>, m: Meter) {
    var i := FindName(ws, m.id);
    if i < |ws| then Fits(ws[i].id, m) else |ws| <= MAX_METERS
  }

  /** An empty array with children must not have the first meter of the list for its only one,
      and has it for one only if that is an empty array already. For any other meter, one named
      like its prefix must not be there if the packet's last prefix was the same, and what is
      left must accept it. */
  predicate Goes(us: seq<Meter>, m: Meter, lastpfx: Id)
    requires m.count < 32
  {
    if m.count == EMPTY_ARRAY && exists i :: 0 <= i < |us| && UnderPrefix(us[i].id, WireId(m)) then
      Finds(us, m) && (UnderPrefix(us[0].id, WireId(m)) ==> SetCount(us[0], EMPTY_ARRAY) == us[0])
    else
      var pfx := GetPrefix(WireId(m));
      (pfx != 0 && pfx == lastpfx ==> FindName(us, pfx) == |us|) && Accepts(Left(us, m, lastpfx), m)
  }

  /** The meter of the name is set up for the one sent, or a new one is, if there is room. */
  function Settled(ws: seq<Meter>, m: Meter): seq<Meter>
    requires m.count < 32
  {
    var i := FindName(ws, m.id);
    if i < |ws| then ws[i := if Fits(ws[i].id, m) then Received(m) else Resize(ws[i], WireId(m))]
    else if |ws| <= MAX_METERS then ws + [Received(m)]
    else ws
  }

  /** The host once the meter is decoded, and the prefix the decoder remembers then. */
  function After(us: seq<Meter>, m: Meter, lastpfx: Id): seq<Meter>
    requires m.count < 32
  {
    if Finds(us, m) then EmptyUnder(us, WireId(m)) else Settled(Left(us, m, lastpfx), m)
  }

  function Remembered(us: seq<Meter>, m: Meter, lastpfx: Id): Id
    requires m.count < 32
  {
    if Finds(us, m) || GetPrefix(WireId(m)) == 0 then lastpfx else GetPrefix(WireId(m))
  }

  predicate BareIds(ms: seq<Meter>) {
    forall i :: 0 <= i < |ms| ==> Bare(ms[i].id)
  }

  // ---- Values that arrive, and values that do not ----

  /** A value that is set changes nothing. */
  predicate Deaf(u: Meter) {
    u.count >= EMPTY_VAL || u.data == Mangled
  }

  lemma {:induction false} ValuesLost(m: Meter, pos: nat, ms: seq<Meter>, at: nat, rest: seq<bv8>, strbuf: Text)
    returns (strbuf': Text)
    requires Holds(m) && m.count < EMPTY_VAL && pos <= Elements(m.count) && (at < |ms| ==> Deaf(ms[at]))
    ensures DecValues(EncValues(m, pos) + rest, ms, at, TypeOf(m.id), pos, Elements(m.count), strbuf) == (true, rest, ms, strbuf')
    decreases Elements(m.count) - pos
  {
    hide EncValue, DecValue, Holds, TypeOf;
    if pos == Elements(m.count) {
      strbuf' := strbuf;
      assert EncValues(m, pos) + rest == rest;
    } else {
      var more := EncValues(m, pos + 1) + rest;
      assert EncValues(m, pos) + rest == EncValue(m, pos) + more;
      var next := ValueReads(m, pos, more, strbuf);
      if at < |ms| {
        assert SetAt(ms, at, SetValue(ms[at], pos, ValueOf(m, pos))) == ms;
      }
      strbuf' := ValuesLost(m, pos + 1, ms, at, rest, next);
    }
  }

  lemma RetypedId(u: Id, m: Meter)
    requires GoodMeter(m) && Bare(u) && NameOf(u) == NameOf(m.id)
    ensures Retype(u, WireId(m)) == m.id
  {
    WireFacts(m);
    RetypedBits(u, WireId(m), m.id);
    hide Bare, NameOf, TypeOf, Retype, WireId, Holds;
  }

  lemma RetypedBits(u: Id, t: Id, id: Id)
    requires Bare(u) && Bare(id) && NameOf(u) == NameOf(id) && TypeOf(t) == TypeOf(id)
    ensures Retype(u, t) == id
  {
  }

  /** A meter of the same name, sized and typed for m, is as new exactly if m fits its storage,
      and deaf otherwise. */
  lemma ResizedFor(u: Meter, m: Meter)
    requires GoodMeter(m) && Bare(u.id) && NameOf(u.id) == NameOf(m.id)
    ensures Resize(u, WireId(m)).id == m.id
    ensures Fits(u.id, m) ==> Resize(u, WireId(m)) == Fresh(m)
    ensures !Fits(u.id, m) ==> Deaf(Resize(u, WireId(m))) && Resize(u, WireId(m)) != Received(m)
    ensures Resize(u, WireId(m)).data == Mangled <==>
      m.count < EMPTY_VAL && TypeOf(m.id) == TYPE_STR && (TypeOf(u.id) == TYPE_INT || TypeOf(u.id) == TYPE_FRAC)
  {
    ResizedParts(u, m);
    hide WireId, TypeOf, NameOf, Arrived, Bare, Blank, Resize, Holds, SentAll;
    if m.count < EMPTY_VAL {
      TypeKept(m);
      HasValues(m);
      BlankArrives(m);
    } else {
      NoValues(m);
    }
  }

  lemma ResizedParts(u: Meter, m: Meter)
    requires GoodMeter(m) && Bare(u.id) && NameOf(u.id) == NameOf(m.id)
    ensures var t, s, n := TypeOf(u.id), TypeOf(m.id), Elements(m.count);
      Resize(u, WireId(m)) ==
        if m.count >= EMPTY_VAL then Meter(m.id, m.count, Null)
        else if !IsType(t) then Meter(m.id, EMPTY_VAL, Null)
        else Meter(m.id, m.count, if s == TYPE_STR && t != TYPE_STR then Mangled else Blank(s, n))
  {
    RetypedId(u.id, m);
    WireFacts(m);
    hide CountOf, WireId, Retype, TypeOf, NameOf, Bare, Blank, Resize, Holds, IsType;
    ResizedIs(u, WireId(m));
    if m.count < EMPTY_VAL {
      TypeKept(m);
    }
  }

  lemma HasValues(m: Meter)
    requires Holds(m) && m.count < EMPTY_VAL
    ensures Received(m).data != Null && Received(m).data != Mangled
  {
  }

  // ---- One meter of the packet ----

  lemma {:induction false} LeftIds(us: seq<Meter>, m: Meter, lastpfx: Id)
    requires m.count < 32 && BareIds(us)
    ensures BareIds(Left(us, m, lastpfx))
  {
    var ms := Emptied(us, WireId(m));
    forall i | 0 <= i < |ms| ensures Bare(ms[i].id) {
      KeepsId(us[i]);
    }
    RemovedIds(ms, GetPrefix(WireId(m)));
    hide Bare, Emptied, WireId, GetPrefix, RemoveName;
  }

  lemma {:induction false} RemovedIds(ms: seq<Meter>, p: Id)
    requires BareIds(ms)
    ensures BareIds(RemoveName(ms, p))
  {
    hide Bare, NameOf;
    if ms != [] {
      RemovedIds(ms[1..], p);
    }
  }

  /** The row with the meter at a place set up for an id, if it is in the row. */
  function SetUp(ms: seq<Meter>, at: nat, mid: Id): seq<Meter> {
    if at < |ms| then SetAt(ms, at, Resize(ms[at], mid)) else ms
  }

  /** The values of a meter are decoded into its slot of the row ws. */
  lemma {:induction false} SettledReads(ws: seq<Meter>, m: Meter, rest: seq<bv8>, strbuf: Text) returns (strbuf': Text)
    requires GoodMeter(m) && BareIds(ws)
    ensures var (ms, at) := Slot(ws, WireId(m));
      DecValues(EncValues(m, 0) + rest, SetUp(ms, at, WireId(m)), at, TypeOf(WireId(m)), 0,
                if m.count >= EMPTY_VAL then 0 else Elements(m.count), strbuf)
        == (true, rest, Settled(ws, m), strbuf')
  {
    SlotFound(ws, m);
    hide TypeOf, WireId, FindName, Resize, DecValues, GoodMeter, NewMeter, EncValues, BareIds;
    if FindName(ws, m.id) < |ws| {
      strbuf' := OldReads(ws, m, rest, strbuf);
    } else if |ws| <= MAX_METERS {
      strbuf' := NewReads(ws, m, rest, strbuf);
    } else {
      strbuf' := NoneReads(m, ws, |ws|, rest, strbuf);
    }
  }

  lemma {:induction false} OldReads(ws: seq<Meter>, m: Meter, rest: seq<bv8>, strbuf: Text) returns (strbuf': Text)
    requires GoodMeter(m) && BareIds(ws) && FindName(ws, m.id) < |ws|
    ensures var i := FindName(ws, m.id);
      DecValues(EncValues(m, 0) + rest, ws[i := Resize(ws[i], WireId(m))], i, TypeOf(WireId(m)), 0,
                if m.count >= EMPTY_VAL then 0 else Elements(m.count), strbuf)
        == (true, rest, Settled(ws, m), strbuf')
  {
    var i := FindName(ws, m.id);
    BeforeFirst(ws, m.id);
    hide Bare, NameOf, TypeOf, WireId, FindName, Resize, Fits, Received, DecValues, EncValues;
    strbuf' := SetUpReads(ws[..i], ws[i], m, ws[i + 1..], rest, strbuf);
    assert ws[i := Resize(ws[i], WireId(m))] == ws[..i] + [Resize(ws[i], WireId(m))] + ws[i + 1..];
    assert Settled(ws, m) == ws[..i] + [if Fits(ws[i].id, m) then Received(m) else Resize(ws[i], WireId(m))] + ws[i + 1..];
  }

  lemma {:induction false} NewReads(ws: seq<Meter>, m: Meter, rest: seq<bv8>, strbuf: Text) returns (strbuf': Text)
    requires GoodMeter(m)
    ensures DecValues(EncValues(m, 0) + rest, SetUp(ws + [NewMeter(WireId(m))], |ws|, WireId(m)), |ws|, TypeOf(WireId(m)), 0,
                      if m.count >= EMPTY_VAL then 0 else Elements(m.count), strbuf)
         == (true, rest, ws + [Received(m)], strbuf')
  {
    NewId(m);
    Resized(NewMeter(WireId(m)), m);
    hide TypeOf, WireId, Resize, Received, DecValues, Fresh, NewMeter, GoodMeter, EncValues;
    strbuf' := DecodedValues(ws, m, [], rest, strbuf);
    assert (ws + [NewMeter(WireId(m))])[|ws| := Fresh(m)] == ws + [Fresh(m)] + [];
    assert ws + [Received(m)] + [] == ws + [Received(m)];
  }

  lemma {:induction false} SlotFound(ws: seq<Meter>, m: Meter)
    requires GoodMeter(m)
    ensures FindName(ws, WireId(m)) == FindName(ws, m.id)
  {
    WireFacts(m);
    hide WireId, NameOf;
    SameFind(ws, ws, m.id, WireId(m));
  }

  lemma {:induction false} SameFind(xs: seq<Meter>, ys: seq<Meter>, a: Id, b: Id)
    requires |xs| == |ys| && NameOf(a) == NameOf(b) && forall i :: 0 <= i < |xs| ==> xs[i].id == ys[i].id
    ensures FindName(xs, a) == FindName(ys, b)
  {
    hide NameOf;
    if xs != [] {
      SameFind(xs[1..], ys[1..], a, b);
    }
  }

  /** Values nobody takes. */
  lemma {:induction false} NoneReads(m: Meter, ms: seq<Meter>, at: nat, rest: seq<bv8>, strbuf: Text) returns (strbuf': Text)
    requires GoodMeter(m) && (at < |ms| ==> Deaf(ms[at]))
    ensures DecValues(EncValues(m, 0) + rest, ms, at, TypeOf(WireId(m)), 0,
                      if m.count >= EMPTY_VAL then 0 else Elements(m.count), strbuf)
         == (true, rest, ms, strbuf')
  {
    WireFacts(m);
    hide Bare, NameOf, TypeOf, WireId, Holds;
    if m.count < EMPTY_VAL {
      strbuf' := ValuesLost(m, 0, ms, at, rest, strbuf);
    } else {
      strbuf' := strbuf;
      assert EncValues(m, 0) + rest == rest;
    }
  }

  lemma {:induction false} SetUpReads(pre: seq<Meter>, u: Meter, m: Meter, post: seq<Meter>, rest: seq<bv8>, strbuf: Text)
    returns (strbuf': Text)
    requires GoodMeter(m) && Bare(u.id) && NameOf(u.id) == NameOf(m.id)
    ensures DecValues(EncValues(m, 0) + rest, pre + [Resize(u, WireId(m))] + post, |pre|, TypeOf(WireId(m)), 0,
                      if m.count >= EMPTY_VAL then 0 else Elements(m.count), strbuf)
         == (true, rest, pre + [if Fits(u.id, m) then Received(m) else Resize(u, WireId(m))] + post, strbuf')
  {
    ResizedFor(u, m);
    hide Bare, NameOf, TypeOf, WireId, Holds, Resize, Fits, Received, Deaf, DecValues, Fresh, EncValues;
    if Fits(u.id, m) {
      strbuf' := DecodedValues(pre, m, post, rest, strbuf);
    } else {
      strbuf' := NoneReads(m, pre + [Resize(u, WireId(m))] + post, |pre|, rest, strbuf);
    }
  }

  lemma {:induction false} FirstRead(mid: Id, s: seq<bv8>, ms: seq<Meter>, lastpfx: Id, strbuf: Text)
    requires mid != 0
    ensures DecHost(EncU64(mid) + s, ms, lastpfx, strbuf) ==
      if CountOf(mid) == EMPTY_ARRAY && FindPrefix(ms, mid, 1) < |ms| then DecHost(s, EmptyUnder(ms, mid), lastpfx, strbuf)
      else
        var (row, at, pfx, buf) := Prepare(ms, mid, lastpfx, strbuf);
        var d := DecValues(s, row, at, TypeOf(mid), 0, if CountOf(mid) >= EMPTY_VAL then 0 else Elements(CountOf(mid)), buf);
        if d.0 then DecHost(d.1, d.2, pfx, d.3) else (false, d.2)
  {
    U64Reads(mid, s);
    hide EncU64, TakeU64, CountOf, FindPrefix, EmptyUnder, Prepare, DecValues, TypeOf;
  }

  lemma {:induction false} EntryReads(us: seq<Meter>, m: Meter, rest: seq<bv8>, lastpfx: Id, strbuf: Text) returns (strbuf': Text)
    requires GoodMeter(m) && BareIds(us) && !Finds(us, m)
    ensures var (row, at, pfx, buf) := Prepare(us, WireId(m), lastpfx, strbuf);
      pfx == Remembered(us, m, lastpfx) &&
      DecValues(EncValues(m, 0) + rest, row, at, TypeOf(WireId(m)), 0,
                if m.count >= EMPTY_VAL then 0 else Elements(m.count), buf)
        == (true, rest, After(us, m, lastpfx), strbuf')
  {
    LeftIds(us, m, lastpfx);
    hide WireId, GetPrefix, DecValues, TypeOf, Settled, Slot, Resize, Emptied, RemoveName, LastText, EncValues, GoodMeter, BareIds, Finds;
    var (ws, pfx, buf) := DropPrefix(Emptied(us, WireId(m)), GetPrefix(WireId(m)), lastpfx, strbuf);
    assert ws == Left(us, m, lastpfx);
    strbuf' := SettledReads(ws, m, rest, buf);
  }

  /** One meter is decoded as After says, whatever follows. */
  lemma {:induction false} MeterUpdates(us: seq<Meter>, m: Meter, rest: seq<bv8>, lastpfx: Id, strbuf: Text) returns (strbuf': Text)
    requires GoodMeter(m) && BareIds(us)
    ensures DecHost(EncMeter(m) + rest, us, lastpfx, strbuf)
         == DecHost(rest, After(us, m, lastpfx), Remembered(us, m, lastpfx), strbuf')
  {
    WireKnown(m);
    hide GoodMeter, BareIds, TypeOf, CountOf, WireId, FindPrefix, DecHost, Prepare, DecValues, Left, Settled, EmptyUnder, EncValues,
      EncU64, GetPrefix;
    var mid, values := WireId(m), EncValues(m, 0) + rest;
    assert EncMeter(m) + rest == EncU64(mid) + values;
    FirstRead(mid, values, us, lastpfx, strbuf);
    if Finds(us, m) {
      strbuf' := strbuf;
      NoBytes(m);
      assert values == rest;
    } else {
      strbuf' := EntryReads(us, m, rest, lastpfx, strbuf);
    }
  }

  lemma {:induction false} WireKnown(m: Meter)
    requires GoodMeter(m)
    ensures m.count < 32 && WireId(m) != 0 && CountOf(WireId(m)) == m.count
  {
    WireFacts(m);
  }

  lemma {:induction false} NoBytes(m: Meter)
    requires m.count >= EMPTY_VAL
    ensures EncValues(m, 0) == []
  {
  }

  // ---- One meter, as a map ----

  lemma {:induction false} EmptiedNames(us: seq<Meter>, m: Meter, r: Meter)
    requires GoodMeter(m)
    ensures Names(Emptied(us, WireId(m)))[NameFor(m.id) := r] == Names(us)[NameFor(m.id) := r]
    ensures forall k :: k in Names(us) ==> k in Names(Emptied(us, WireId(m)))
  {
    WireFacts(m);
    SlotFound(us, m);
    hide Bare, NameOf, TypeOf, CountOf, WireId, Holds, SetCount, FindName, Names;
    var i := FindName(us, m.id);
    if i < |us| {
      BeforeFirst(us, m.id);
      KeepsId(us[i]);
      NamesReplace(us, m.id, SetCount(us[i], EMPTY_ARRAY));
    }
  }

  /** The meter named like the prefix is gone, unless the prefix was just met. */
  lemma {:induction false} LeftNames(us: seq<Meter>, m: Meter, lastpfx: Id, r: Meter)
    requires GoodMeter(m)
    requires var p := GetPrefix(WireId(m)); p == 0 || p != lastpfx || FindName(us, p) == |us|
    ensures Names(Left(us, m, lastpfx))[NameFor(m.id) := r] == Without(Names(us), GetPrefix(WireId(m)))[NameFor(m.id) := r]
  {
    assert m.count < 32;
    hide GoodMeter, NameFor, WireId, GetPrefix, Emptied, FindName, Names, DropPrefix;
    EmptiedNames(us, m, r);
    var p, g, h, k := GetPrefix(WireId(m)), Names(Emptied(us, WireId(m))), Names(us), NameFor(m.id);
    DroppedNames(Emptied(us, WireId(m)), p, lastpfx);
    if p != 0 {
      PutBack(g, h, k, r, NameFor(p));
      NamesFind(us, p);
      if p == lastpfx {
        assert h - {NameFor(p)} == h;
      }
    }
  }

  lemma {:induction false} PrefixLeft(us: seq<Meter>, m: Meter, p: Id)
    requires GoodMeter(m) && p == GetPrefix(WireId(m)) && FindName(us, p) < |us|
    ensures NameFor(p) in Names(Left(us, m, p))
  {
    assert m.count < 32;
    hide GoodMeter, NameFor, WireId, GetPrefix, Emptied, FindName, Names, DropPrefix;
    EmptiedNames(us, m, m);
    DroppedNames(Emptied(us, WireId(m)), p, p);
    NamesFind(us, p);
  }

  lemma {:induction false} DroppedNames(ms: seq<Meter>, p: Id, lastpfx: Id)
    ensures Names(DropPrefix(ms, p, lastpfx, []).0) == if p != 0 && p != lastpfx then Names(ms) - {NameFor(p)} else Names(ms)
  {
    NamesRemove(ms, p);
    hide RemoveName, Names, NameFor, LastText;
  }

  lemma PutBack(g: NamedMeters, h: NamedMeters, k: Name, r: Meter, p: Name)
    requires g[k := r] == h[k := r]
    ensures (g - {p})[k := r] == (h - {p})[k := r]
  {
    assert (g - {p})[k := r] == (g[k := r] - {p})[k := r];
    assert (h - {p})[k := r] == (h[k := r] - {p})[k := r];
  }

  lemma {:induction false} SettledNames(ws: seq<Meter>, m: Meter)
    requires GoodMeter(m) && BareIds(ws)
    ensures var k := NameFor(m.id);
      && (Accepts(ws, m) ==> Names(Settled(ws, m)) == Names(ws)[k := Received(m)])
      && (!Accepts(ws, m) ==> k in Names(Settled(ws, m)) ==> Names(Settled(ws, m))[k] != Received(m))
      && (forall j :: j in Names(ws) ==> j in Names(Settled(ws, m)))
  {
    var i, r := FindName(ws, m.id), Received(m);
    NamesFind(ws, m.id);
    BeforeFirst(ws, m.id);
    hide NameOf, Bare, Holds, Received, Fits, Resize, WireId, FindName, Names;
    assert r.id == m.id by {
      KeepsName(m);
    }
    if i < |ws| {
      assert Bare(ws[i].id);
      ResizedFor(ws[i], m);
      NamesReplace(ws, m.id, if Fits(ws[i].id, m) then r else Resize(ws[i], WireId(m)));
    } else if |ws| <= MAX_METERS {
      SameFind(ws, ws, m.id, r.id);
      NamesAppend(ws, r);
    }
  }

  lemma KeepsName(m: Meter)
    ensures Received(m).id == m.id
  {
  }

  lemma {:induction false} FindsIs(us: seq<Meter>, m: Meter)
    requires m.count < 32
    ensures Finds(us, m) <==> m.count == EMPTY_ARRAY && exists i :: 1 <= i < |us| && UnderPrefix(us[i].id, WireId(m))
  {
    hide UnderPrefix, WireId;
    FirstUnder(us, WireId(m), 1);
  }

  lemma {:induction false} EmptyIsAll(us: seq<Meter>, p: Id)
    requires us != [] && (UnderPrefix(us[0].id, p) ==> SetCount(us[0], EMPTY_ARRAY) == us[0])
    ensures EmptyUnder(us, p) == EmptyAll(us, p)
  {
    hide UnderPrefix, SetCount;
  }

  /** A meter that goes leaves the host as it is meant to. */
  lemma {:induction false} GoesAsMeant(us: seq<Meter>, m: Meter, lastpfx: Id)
    requires GoodMeter(m) && BareIds(us) && Goes(us, m, lastpfx)
    ensures Names(After(us, m, lastpfx)) == Meant(Names(us), m)
  {
    FindsIs(us, m);
    ParentRow(us, WireId(m));
    LeftIds(us, m, lastpfx);
    hide UnderPrefix, WireId, GetPrefix, BareIds, Left, Settled, EmptyUnder, Names, EmptiedMap, Parent, SetCount, FindName, Fits, Finds,
      Received, Holds, Bare, NameOf, Without;
    if Finds(us, m) {
      EmptyIsAll(us, WireId(m));
      NamesEmptied(us, WireId(m));
    } else {
      LeftNames(us, m, lastpfx, Received(m));
      SettledNames(Left(us, m, lastpfx), m);
    }
  }

  /** There is room, and the array whose children are to be emptied is not itself a meter. */
  predicate Apart(us: seq<Meter>, m: Meter)
    requires m.count < 32
  {
    m.count == EMPTY_ARRAY && Parent(Names(us), WireId(m)) ==> |us| <= MAX_METERS && FindName(us, m.id) == |us|
  }

  /** And a meter that does not go does not. */
  lemma {:induction false} OnlyThenMeant(us: seq<Meter>, m: Meter, lastpfx: Id)
    requires GoodMeter(m) && BareIds(us) && Apart(us, m) && !Goes(us, m, lastpfx)
    ensures Names(After(us, m, lastpfx)) != Meant(Names(us), m)
  {
    FindsIs(us, m);
    ParentRow(us, WireId(m));
    hide UnderPrefix, WireId, BareIds, Left, EmptyUnder, Names, EmptiedMap, Parent, SetCount, Finds, GoodMeter, Accepts, After, FindName, GetPrefix;
    if Finds(us, m) {
      FirstStays(us, WireId(m));
      assert After(us, m, lastpfx) == EmptyUnder(us, WireId(m)) by {
        AfterIs(us, m, lastpfx);
      }
    } else if m.count == EMPTY_ARRAY && Parent(Names(us), WireId(m)) {
      OnlyChildStays(us, m, lastpfx);
    } else {
      NotAccepted(us, m, lastpfx);
    }
  }

  lemma {:induction false} AfterIs(us: seq<Meter>, m: Meter, lastpfx: Id)
    requires m.count < 32
    ensures After(us, m, lastpfx) == if Finds(us, m) then EmptyUnder(us, WireId(m)) else Settled(Left(us, m, lastpfx), m)
  {
    hide Finds, WireId, EmptyUnder, Settled, Left;
  }

  /** The only child is the first meter: the array becomes a meter beside it. */
  lemma {:induction false} OnlyChildStays(us: seq<Meter>, m: Meter, lastpfx: Id)
    requires GoodMeter(m) && BareIds(us) && m.count == EMPTY_ARRAY && !Finds(us, m)
    requires |us| <= MAX_METERS && FindName(us, m.id) == |us|
    ensures NameFor(m.id) in Names(After(us, m, lastpfx)) && NameFor(m.id) !in EmptiedMap(Names(us), WireId(m))
  {
    LeftIds(us, m, lastpfx);
    SettledNames(Left(us, m, lastpfx), m);
    NamesFind(us, m.id);
    LeftShorter(us, m, lastpfx);
    ArrayAccepted(Left(us, m, lastpfx), m);
    hide WireId, BareIds, Left, Settled, EmptyUnder, Names, SetCount, Finds, GoodMeter, Accepts, FindName, Received, NameFor, UnderPrefix;
  }

  lemma {:induction false} NotAccepted(us: seq<Meter>, m: Meter, lastpfx: Id)
    requires GoodMeter(m) && BareIds(us) && !Finds(us, m)
    requires var p := GetPrefix(WireId(m)); !((p != 0 && p == lastpfx ==> FindName(us, p) == |us|) && Accepts(Left(us, m, lastpfx), m))
    ensures Names(After(us, m, lastpfx)) != Without(Names(us), GetPrefix(WireId(m)))[NameFor(m.id) := Received(m)]
  {
    LeftIds(us, m, lastpfx);
    SettledNames(Left(us, m, lastpfx), m);
    PrefixDiffers(m);
    hide WireId, GetPrefix, BareIds, Left, Settled, EmptyUnder, Names, Finds, GoodMeter, Accepts, FindName, Received, NameFor;
    if GetPrefix(WireId(m)) != 0 && GetPrefix(WireId(m)) == lastpfx && FindName(us, lastpfx) < |us| {
      PrefixLeft(us, m, lastpfx);
    }
  }

  lemma {:induction false} LeftShorter(us: seq<Meter>, m: Meter, lastpfx: Id)
    requires m.count < 32
    ensures |Left(us, m, lastpfx)| <= |us|
  {
    hide WireId, GetPrefix, Emptied, RemoveName;
  }

  lemma ArrayAccepted(ws: seq<Meter>, m: Meter)
    requires m.count == EMPTY_ARRAY && |ws| <= MAX_METERS
    ensures Accepts(ws, m)
  {
  }

  lemma EmptiedKeys(h: NamedMeters, p: Id)
    ensures forall k :: k in EmptiedMap(h, p) <==> k in h
  {
  }

  lemma PrefixDiffers(m: Meter)
    requires GoodMeter(m)
    ensures var p := GetPrefix(WireId(m)); p != 0 ==> NameFor(p) != NameFor(m.id)
  {
    WireFacts(m);
    hide Bare, NameOf, WireId, GetPrefix, Holds, TypeOf, CountOf;
    if GetPrefix(WireId(m)) != 0 {
      PrefixIsOther(WireId(m));
    }
  }

  /** The first meter of the list is not emptied. */
  lemma {:induction false} FirstStays(us: seq<Meter>, p: Id)
    requires us != [] && UnderPrefix(us[0].id, p) && SetCount(us[0], EMPTY_ARRAY) != us[0]
    ensures Names(EmptyUnder(us, p)) != EmptiedMap(Names(us), p)
  {
    UnderByName(us[0].id, p);
    hide UnderPrefix, SetCount, NameFor;
    var k := NameFor(us[0].id);
    assert EmptyUnder(us, p)[0] == us[0];
    assert k in Names(us) && Names(us)[k] == us[0];
    assert Names(EmptyUnder(us, p))[k] == us[0];
    assert UnderPrefix(k.bits, p) by {
      assert k == Name(NameOf(us[0].id));
    }
    assert EmptiedMap(Names(us), p)[k] == SetCount(us[0], EMPTY_ARRAY);
  }

  /** Decoding one meter into a host does what the meter means if and only if it goes. */
  lemma {:induction false} MeterMeant(us: seq<Meter>, m: Meter, rest: seq<bv8>, lastpfx: Id, strbuf: Text)
    returns (row: seq<Meter>, strbuf': Text)
    requires GoodMeter(m) && BareIds(us) && Apart(us, m)
    ensures DecHost(EncMeter(m) + rest, us, lastpfx, strbuf) == DecHost(rest, row, Remembered(us, m, lastpfx), strbuf')
    ensures Names(row) == Meant(Names(us), m) <==> Goes(us, m, lastpfx)
  {
    hide GoodMeter, BareIds, Apart, After, Remembered, DecHost, EncMeter, Names, Meant, Goes;
    assert m.count < 32 by {
      WireKnown(m);
    }
    row := After(us, m, lastpfx);
    strbuf' := MeterUpdates(us, m, rest, lastpfx, strbuf);
    if Goes(us, m, lastpfx) {
      GoesAsMeant(us, m, lastpfx);
    } else {
      OnlyThenMeant(us, m, lastpfx);
    }
  }

  // ---- The whole packet ----

  /** Each meter of the packet goes, in the host as those before it leave it. */
  predicate Updates(us: seq<Meter>, ms: seq<Meter>, lastpfx: Id)
    decreases |ms|
  {
    ms == [] ||
    (GoodMeter(ms[0]) && Goes(us, ms[0], lastpfx)
     && Updates(After(us, ms[0], lastpfx), ms[1..], Remembered(us, ms[0], lastpfx)))
  }

  lemma {:induction false} AllGood(us: seq<Meter>, ms: seq<Meter>, lastpfx: Id)
    requires Updates(us, ms, lastpfx)
    ensures forall m :: m in ms ==> m.count < 32
    decreases |ms|
  {
    hide Goes, Holds, Bare, After, Remembered;
    if ms != [] {
      AllGood(After(us, ms[0], lastpfx), ms[1..], Remembered(us, ms[0], lastpfx));
    }
  }

  lemma {:induction false} AfterBare(us: seq<Meter>, m: Meter, lastpfx: Id)
    requires GoodMeter(m) && BareIds(us)
    ensures BareIds(After(us, m, lastpfx))
  {
    LeftIds(us, m, lastpfx);
    EmptiedBare(us, WireId(m));
    SettledBare(Left(us, m, lastpfx), m);
    hide BareIds, WireId, Settled, EmptyUnder, Left, Finds, GoodMeter;
  }

  lemma {:induction false} EmptiedBare(us: seq<Meter>, p: Id)
    requires BareIds(us)
    ensures BareIds(EmptyUnder(us, p))
  {
    hide Bare, UnderPrefix;
    forall i | 0 <= i < |us| ensures Bare(EmptyUnder(us, p)[i].id) {
      KeepsId(us[i]);
    }
  }

  lemma {:induction false} SettledBare(ws: seq<Meter>, m: Meter)
    requires GoodMeter(m) && BareIds(ws)
    ensures BareIds(Settled(ws, m))
  {
    KeepsName(m);
    if FindName(ws, m.id) < |ws| {
      BeforeFirst(ws, m.id);
      ResizedFor(ws[FindName(ws, m.id)], m);
    }
    hide Bare, WireId, FindName, Fits, Received, Holds, Resize, NameOf;
  }

  lemma {:induction false} UpdatesParts(us: seq<Meter>, ms: seq<Meter>, lastpfx: Id)
    requires Updates(us, ms, lastpfx) && ms != []
    ensures GoodMeter(ms[0]) && Goes(us, ms[0], lastpfx)
    ensures Updates(After(us, ms[0], lastpfx), ms[1..], Remembered(us, ms[0], lastpfx))
  {
    hide Goes, GoodMeter, After, Remembered;
  }

  lemma {:induction false} FirstUpdates(us: seq<Meter>, ms: seq<Meter>, rest: seq<bv8>, lastpfx: Id, strbuf: Text)
    returns (strbuf': Text)
    requires ms != [] && (forall m :: m in ms ==> m.count < 32) && GoodMeter(ms[0]) && BareIds(us)
    ensures DecHost(EncHost(ms) + rest, us, lastpfx, strbuf)
         == DecHost(EncHost(ms[1..]) + rest, After(us, ms[0], lastpfx), Remembered(us, ms[0], lastpfx), strbuf')
  {
    hide BareIds, GoodMeter, After, Remembered, DecHost, EncMeter;
    assert EncHost(ms) + rest == EncMeter(ms[0]) + (EncHost(ms[1..]) + rest);
    strbuf' := MeterUpdates(us, ms[0], EncHost(ms[1..]) + rest, lastpfx, strbuf);
  }

  lemma {:induction false} MetersUpdate(us: seq<Meter>, ms: seq<Meter>, rest: seq<bv8>, lastpfx: Id, strbuf: Text)
    returns (row: seq<Meter>)
    requires BareIds(us) && Updates(us, ms, lastpfx) && TakeU64(rest).0 == 0
    ensures forall m :: m in ms ==> m.count < 32
    ensures DecHost(EncHost(ms) + rest, us, lastpfx, strbuf) == (true, row)
    ensures Names(row) == MeantAll(Names(us), ms)
    decreases |ms|
  {
    AllGood(us, ms, lastpfx);
    hide BareIds, GoodMeter, Goes, After, Remembered, DecHost, EncMeter, Names, Meant, TakeU64, Updates;
    if ms == [] {
      assert EncHost(ms) + rest == rest;
      NoMore(rest, us, lastpfx, strbuf);
      row := us;
    } else {
      UpdatesParts(us, ms, lastpfx);
      AfterBare(us, ms[0], lastpfx);
      GoesAsMeant(us, ms[0], lastpfx);
      var strbuf' := FirstUpdates(us, ms, rest, lastpfx, strbuf);
      row := MetersUpdate(After(us, ms[0], lastpfx), ms[1..], rest, Remembered(us, ms[0], lastpfx), strbuf');
    }
  }

  /** Decoding a packet into a host of any meters does to the host's map from names what each
      meter of the packet means, one after the other. */
  lemma {:induction false} HostUpdate(us: seq<Meter>, ms: seq<Meter>, rest: seq<bv8>, strbuf: Text)
    requires BareIds(us) && Updates(us, ms, 0) && TakeU64(rest).0 == 0
    ensures forall m :: m in ms ==> m.count < 32
    ensures var (ok, row) := DecHost(EncHost(ms) + rest, us, 0, strbuf);
      ok && Names(row) == MeantAll(Names(us), ms)
  {
    hide BareIds, Updates, DecHost, EncHost, Names, MeantAll, TakeU64;
    var row := MetersUpdate(us, ms, rest, 0, strbuf);
  }

  // ---- A condition to check beforehand ----

  /** Meter m can be decoded where a meter of this id is: if the names agree it fits, and that one
      is not named like the prefix of m. */
  predicate Beside(m: Meter, id: Id)
    requires m.count < 32
  {
    && (NameOf(id) == NameOf(m.id) ==> Fits(id, m))
    && (GetPrefix(WireId(m)) != 0 ==> NameOf(id) != NameOf(GetPrefix(WireId(m))))
  }

  predicate AllBeside(m: Meter, vs: seq<Meter>)
    requires m.count < 32
  {
    forall i :: 0 <= i < |vs| ==> Beside(m, vs[i].id)
  }

  /** Meter m can be decoded beside the host's meters and the packet's. The first of all must not
      lie under it if it is an empty array. */
  predicate Joins(m: Meter, us: seq<Meter>, ms: seq<Meter>) {
    && GoodMeter(m) && AllBeside(m, us) && AllBeside(m, ms)
    && (m.count == EMPTY_ARRAY && us + ms != [] ==> !UnderPrefix((us + ms)[0].id, WireId(m)))
  }

  predicate Compatible(us: seq<Meter>, ms: seq<Meter>) {
    |us| + |ms| <= MAX_METERS + 1 && forall i :: 0 <= i < |ms| ==> Joins(ms[i], us, ms)
  }

  lemma {:induction false} EmptiedSame(us: seq<Meter>, mid: Id)
    ensures var ms := Emptied(us, mid); forall i :: 0 <= i < |us| ==> ms[i].id == us[i].id
  {
    forall i | 0 <= i < |us| ensures SetCount(us[i], EMPTY_ARRAY).id == us[i].id {
      KeepsId(us[i]);
    }
    hide SetCount, FindName, CountOf;
  }

  lemma {:induction false} NoPrefixBeside(us: seq<Meter>, ms: seq<Meter>, m: Meter)
    requires m.count < 32 && AllBeside(m, us) && GetPrefix(WireId(m)) != 0
    requires |ms| == |us| && forall i :: 0 <= i < |us| ==> ms[i].id == us[i].id
    ensures RemoveName(ms, GetPrefix(WireId(m))) == ms && FindName(ms, GetPrefix(WireId(m))) == |ms|
  {
    hide WireId, GetPrefix, NameOf, Fits;
    forall v | v in ms ensures NameOf(v.id) != NameOf(GetPrefix(WireId(m))) {
      var i :| 0 <= i < |ms| && ms[i] == v;
      assert Beside(m, us[i].id);
    }
    NothingNamed(ms, GetPrefix(WireId(m)), []);
  }

  lemma {:induction false} LeftSame(us: seq<Meter>, m: Meter, lastpfx: Id)
    requires m.count < 32 && AllBeside(m, us)
    ensures var ws := Left(us, m, lastpfx); |ws| == |us| && forall i :: 0 <= i < |us| ==> ws[i].id == us[i].id
    ensures GetPrefix(WireId(m)) != 0 ==> FindName(us, GetPrefix(WireId(m))) == |us|
  {
    EmptiedSame(us, WireId(m));
    hide WireId, GetPrefix, FindName, Emptied, AllBeside, RemoveName, LastText;
    if GetPrefix(WireId(m)) != 0 {
      NoPrefixBeside(us, us, m);
      NoPrefixBeside(us, Emptied(us, WireId(m)), m);
    }
  }

  lemma {:induction false} CompatibleGoes(us: seq<Meter>, m: Meter, lastpfx: Id)
    requires GoodMeter(m) && AllBeside(m, us) && |us| <= MAX_METERS
    requires us != [] && m.count == EMPTY_ARRAY ==> !UnderPrefix(us[0].id, WireId(m))
    ensures Goes(us, m, lastpfx)
  {
    LeftSame(us, m, lastpfx);
    FindsIs(us, m);
    hide WireId, GetPrefix, FindName, UnderPrefix, Finds, Left, GoodMeter, Accepts, AllBeside;
    BesideAccepts(us, Left(us, m, lastpfx), m);
  }

  lemma {:induction false} BesideAccepts(us: seq<Meter>, ws: seq<Meter>, m: Meter)
    requires m.count < 32 && AllBeside(m, us) && |us| <= MAX_METERS
    requires |ws| == |us| && forall i :: 0 <= i < |us| ==> ws[i].id == us[i].id
    ensures Accepts(ws, m)
  {
    BeforeFirst(ws, m.id);
    hide WireId, GetPrefix, NameOf, FindName, Fits;
    if FindName(ws, m.id) < |ws| {
      assert Beside(m, us[FindName(ws, m.id)].id);
    }
  }

  /** Afterwards there is no other id than before and that of m, and the first name stays. */
  predicate Grew(us: seq<Meter>, vs: seq<Meter>, m: Meter) {
    && |us| <= |vs| <= |us| + 1 && vs != [] && NameOf(vs[0].id) == NameOf((us + [m])[0].id)
    && forall i :: 0 <= i < |vs| ==> vs[i].id == m.id || exists j :: 0 <= j < |us| && us[j].id == vs[i].id
  }

  lemma {:induction false} SettledGrew(ws: seq<Meter>, m: Meter)
    requires GoodMeter(m) && BareIds(ws) && |ws| <= MAX_METERS
    ensures Grew(ws, Settled(ws, m), m)
  {
    KeepsName(m);
    var i := FindName(ws, m.id);
    BeforeFirst(ws, m.id);
    if i < |ws| {
      assert Bare(ws[i].id);
      ResizedFor(ws[i], m);
    }
    hide NameOf, WireId, FindName, Fits, Received, Resize, GoodMeter, BareIds;
  }

  lemma {:induction false} CompatibleAfter(us: seq<Meter>, m: Meter, lastpfx: Id)
    requires GoodMeter(m) && AllBeside(m, us) && BareIds(us) && |us| <= MAX_METERS
    ensures Grew(us, After(us, m, lastpfx), m)
  {
    LeftSame(us, m, lastpfx);
    LeftIds(us, m, lastpfx);
    SettledGrew(Left(us, m, lastpfx), m);
    hide WireId, Left, Settled, GoodMeter, BareIds, Finds, AllBeside, EmptyUnder, NameOf;
    if Finds(us, m) {
      FindsIs(us, m);
      EmptiedGrew(us, m);
    } else {
      SameGrew(us, Left(us, m, lastpfx), Settled(Left(us, m, lastpfx), m), m);
    }
  }

  lemma {:induction false} EmptiedGrew(us: seq<Meter>, m: Meter)
    requires m.count < 32 && us != []
    ensures Grew(us, EmptyUnder(us, WireId(m)), m)
  {
    hide UnderPrefix, NameOf, WireId;
    forall i | 0 <= i < |us| ensures EmptyUnder(us, WireId(m))[i].id == us[i].id {
      KeepsId(us[i]);
    }
  }

  lemma {:induction false} SameGrew(us: seq<Meter>, ws: seq<Meter>, vs: seq<Meter>, m: Meter)
    requires Grew(ws, vs, m) && |ws| == |us| && forall i :: 0 <= i < |us| ==> ws[i].id == us[i].id
    ensures Grew(us, vs, m)
  {
    hide NameOf;
    forall i | 0 <= i < |vs| ensures vs[i].id == m.id || exists j :: 0 <= j < |us| && us[j].id == vs[i].id {
      if vs[i].id != m.id {
        var j :| 0 <= j < |ws| && ws[j].id == vs[i].id;
        assert us[j].id == vs[i].id;
      }
    }
  }

  lemma {:induction false} BesideGrown(x: Meter, us: seq<Meter>, vs: seq<Meter>, m: Meter)
    requires x.count < 32 && AllBeside(x, us) && Beside(x, m.id) && Grew(us, vs, m)
    ensures AllBeside(x, vs)
  {
    hide Beside, NameOf;
  }

  lemma {:induction false} JoinsGrown(x: Meter, us: seq<Meter>, ms: seq<Meter>, vs: seq<Meter>)
    requires ms != [] && Joins(x, us, ms) && Grew(us, vs, ms[0])
    ensures Joins(x, vs, ms[1..])
  {
    assert Beside(x, ms[0].id);
    BesideGrown(x, us, vs, ms[0]);
    UnderByName((us + ms)[0].id, WireId(x));
    UnderByName(vs[0].id, WireId(x));
    assert (us + ms)[0] == (us + [ms[0]])[0] && (vs + ms[1..])[0] == vs[0];
    hide Beside, NameOf, UnderPrefix, GoodMeter, WireId;
    assert forall i :: 0 <= i < |ms[1..]| ==> ms[1..][i] == ms[i + 1];
  }

  /** So it can be told beforehand that a packet updates a host. */
  lemma {:induction false} CompatibleUpdates(us: seq<Meter>, ms: seq<Meter>, lastpfx: Id)
    requires Compatible(us, ms) && BareIds(us)
    ensures Updates(us, ms, lastpfx)
    decreases |ms|
  {
    hide Goes, Beside, After, Remembered, UnderPrefix, WireId, Grew, Bare, Holds, NameOf;
    if ms != [] {
      var m := ms[0];
      assert Joins(m, us, ms);
      assert us != [] ==> (us + ms)[0] == us[0];
      CompatibleGoes(us, m, lastpfx);
      CompatibleAfter(us, m, lastpfx);
      AfterBare(us, m, lastpfx);
      forall i | 0 <= i < |ms[1..]| ensures Joins(ms[1..][i], After(us, m, lastpfx), ms[1..]) {
        assert ms[1..][i] == ms[i + 1];
        JoinsGrown(ms[i + 1], us, ms, After(us, m, lastpfx));
      }
      assert |After(us, m, lastpfx)| <= |us| + 1 by {
        LengthGrew(us, After(us, m, lastpfx), m);
      }
      CompatibleUpdates(After(us, m, lastpfx), ms[1..], Remembered(us, m, lastpfx));
    }
  }

  lemma LengthGrew(us: seq<Meter>, vs: seq<Meter>, m: Meter)
    requires Grew(us, vs, m)
    ensures |vs| <= |us| + 1
  {
  }
}
