/** What importing a permitted tree into a fresh host leaves: one meter for each plain member, and
    one for each column of a group. */
module Flattening {
  import opened Wrappers
  import opened HostImport
  import opened IdNames
  import opened Ids
  import opened Json
  import opened JsonCodec
  import opened Strings
  import M = Meters
  import T = MeterTrip
  import F = WireFrac

  // ---- Permitted trees ----

  predicate GoodScalar(v: Var) {
    KindOf(v).Some? && (v.Str? ==> |v.s| <= 127 && AllBytes(v.s))
  }

  /** The same keys in the same order, with values of the same types. */
  predicate SameShape(cols: seq<Member>, row: seq<Member>) {
    && |row| == |cols|
    && forall k :: 0 <= k < |cols| ==>
      row[k].key == cols[k].key && GoodScalar(row[k].value) && KindOf(row[k].value) == KindOf(cols[k].value)
  }

  predicate GoodColumns(prefix: string, cols: seq<Member>) {
    && cols != []
    && (forall k :: 0 <= k < |cols| ==> IsPath(prefix, cols[k].key) && GoodScalar(cols[k].value))
    && (forall i, j :: 0 <= i < j < |cols| ==> cols[i].key != cols[j].key)
  }

  predicate GoodElems(es: seq<Var>) {
    forall i :: 0 <= i < |es| ==> GoodScalar(es[i]) && KindOf(es[i]) == KindOf(es[0])
  }

  predicate GoodTable(prefix: string, rows: seq<Var>) {
    && rows != [] && (forall i :: 0 <= i < |rows| ==> rows[i].Dict?)
    && GoodColumns(prefix, rows[0].members)
    && forall i :: 0 <= i < |rows| ==> SameShape(rows[0].members, rows[i].members)
  }

  /** The forms a member may take. */
  predicate GoodMember(m: Member) {
    IsPart(m.key) && |m.key| <= 11 &&
    match m.value
    case Null => false
    case Dict(group) => GoodColumns(m.key, group)
    case Arr(es) => |es| <= 29 && (GoodElems(es) || GoodTable(m.key, es))
    case v => GoodScalar(v)
  }

  /** Members that become several meters. */
  predicate Grouped(m: Member) {
    m.value.Dict? || (m.value.Arr? && m.value.elems != [] && m.value.elems[0].Dict?)
  }

  function Groups(members: seq<Member>, n: nat): nat
    requires n <= |members|
  {
    if n == 0 then 0 else Groups(members, n - 1) + (if Grouped(members[n - 1]) then 1 else 0)
  }

  /** No later key starts with the key of member k. */
  predicate Untaken(members: seq<Member>, k: nat)
    requires k < |members|
  {
    forall j :: k < j < |members| ==> !StartsWith(members[j].key, members[k].key)
  }

  /** The writer gives member k back: a group must not take in a later member, and be among those
      that the writer keeps track of. */
  predicate Fine(members: seq<Member>, k: nat)
    requires k < |members|
  {
    Grouped(members[k]) ==> Untaken(members, k) && Groups(members, k) < 128
  }

  /** No group's key is the beginning of a later key, and there are no more groups than the
      writer keeps track of. */
  predicate Separate(members: seq<Member>) {
    && (forall i, j :: 0 <= i < j < |members| && Grouped(members[i]) ==> !StartsWith(members[j].key, members[i].key))
    && Groups(members, |members|) <= 128
  }

  // ---- The meters of a tree ----

  /** A meter's values once the first n of vals are stored. */
  function DataOf(t: Id, vals: seq<Var>, n: nat): M.Data {
    if t == TYPE_INT then
      M.Ints(seq(|vals|, i requires 0 <= i < |vals| => if i < n && vals[i].Int? then vals[i].i else 0))
    else if t == TYPE_FRAC then
      M.Fracs(seq(|vals|, i requires 0 <= i < |vals| => F.Finite(if i < n && vals[i].Dbl? then vals[i].r else 0.0)))
    else
      M.Strs(seq(|vals|, i requires 0 <= i < |vals| => if i < n && vals[i].Str? then BytesOf(vals[i].s) else []))
  }

  function Column(name: string, t: Id, count: nat, vals: seq<Var>): M.Meter {
    M.Meter(MakeId(name, t), count, DataOf(t, vals, |vals|))
  }

  function TypeFor(v: Var): Id {
    if KindOf(v).Some? then KindOf(v).value else 0
  }

  predicate AllOf(t: Id, vals: seq<Var>) {
    forall i :: 0 <= i < |vals| ==> GoodScalar(vals[i]) && KindOf(vals[i]) == Some(t)
  }

  // ---- Filling one meter ----

  function Typed(t: Id, vals: seq<Var>, c: Libc): (r: seq<M.Value>)
    ensures |r| == |vals|
  {
    Elems(c, t, vals, |vals|)
  }

  lemma StoresOne(m: M.Meter, t: Id, vals: seq<Var>, n: nat, c: Libc)
    requires AllOf(t, vals) && IsType(t) && n < |vals| == M.Elements(m.count) && m.count < M.EMPTY_VAL
    requires TypeOf(m.id) == t && m.data == DataOf(t, vals, n)
    ensures M.SetValue(m, n, AsType(c, t, vals[n])) == m.(data := DataOf(t, vals, n + 1))
  {
    hide TypeOf, BytesOf;
    assert KindOf(vals[n]) == Some(t) && GoodScalar(vals[n]);
    TypesDiffer();
    var now, next := DataOf(t, vals, n), DataOf(t, vals, n + 1);
    if t == TYPE_INT {
      assert M.PutAt(now.ints, n, vals[n].i) == next.ints;
    } else if t == TYPE_FRAC {
      assert M.PutAt(now.fracs, n, F.Finite(vals[n].r)) == next.fracs;
    } else {
      assert M.PutAt(now.strs, n, BytesOf(vals[n].s)) == next.strs;
    }
  }

  lemma {:induction false} FillsAll(m: M.Meter, t: Id, vals: seq<Var>, n: nat, c: Libc)
    requires AllOf(t, vals) && IsType(t) && n <= |vals| == M.Elements(m.count) && m.count < M.EMPTY_VAL
    requires TypeOf(m.id) == t && m.data == DataOf(t, vals, n)
    ensures Fill(m, Typed(t, vals, c), n) == m.(data := DataOf(t, vals, |vals|))
    decreases |vals| - n
  {
    hide TypeOf, DataOf, M.SetValue, AsType, AllOf, IsType;
    if n < |vals| {
      StoresOne(m, t, vals, n, c);
      FillsAll(m.(data := DataOf(t, vals, n + 1)), t, vals, n + 1, c);
    }
  }

  lemma StartsBlank(id: Id, t: Id, count: nat, vals: seq<Var>)
    requires IsType(t) && TypeOf(id) == t && |vals| == M.Elements(count) && count < M.EMPTY_VAL
    ensures M.SetCount(M.Meter(id, M.EMPTY_VAL, M.Null), count) == M.Meter(id, count, DataOf(t, vals, 0))
  {
    hide TypeOf;
    TypesDiffer();
  }

  lemma TypesDiffer()
    ensures TYPE_INT != TYPE_FRAC && TYPE_INT != TYPE_STR && TYPE_FRAC != TYPE_STR
  {
  }

  lemma NewMade(name: string, t: Id)
    requires IsType(t)
    ensures M.NewMeter(MakeId(name, t)) == M.Meter(MakeId(name, t), M.EMPTY_VAL, M.Null)
  {
    MadeId(name, t);
    hide MakeId;
    T.CleanId(MakeId(name, t));
  }

  /** No meter has this name. */
  predicate Unnamed(ms: seq<M.Meter>, id: Id) {
    forall v :: v in ms ==> NameOf(v.id) != NameOf(id)
  }

  lemma GetsNew(ms: seq<M.Meter>, id: Id)
    requires Unnamed(ms, id)
    ensures Get(ms, id) == (ms + [M.NewMeter(id)], |ms|)
  {
    hide NameOf;
    M.NothingNamed(ms, id, []);
    M.NothingTaken(ms, id);
  }

  /** A name not yet there becomes a meter of its own at the end. */
  lemma PutsColumn(ms: seq<M.Meter>, name: string, t: Id, count: nat, vals: seq<Var>, c: Libc)
    requires Unnamed(ms, MakeId(name, t)) && IsType(t) && AllOf(t, vals)
    requires |vals| == M.Elements(count) && count < M.EMPTY_VAL
    ensures Put(ms, name, t, count, Typed(t, vals, c)) == ms + [Column(name, t, count, vals)]
  {
    MadeId(name, t);
    NewMade(name, t);
    hide MakeId, TypeOf, Unnamed, AllOf, DataOf, Typed, M.SetCount, IsType, Get, M.NewMeter;
    var id := MakeId(name, t);
    GetsNew(ms, id);
    StartsBlank(id, t, count, vals);
    FillsAll(M.Meter(id, count, DataOf(t, vals, 0)), t, vals, 0, c);
    assert (ms + [M.NewMeter(id)])[|ms|] == M.NewMeter(id);
    assert (ms + [M.NewMeter(id)])[|ms| := Column(name, t, count, vals)] == ms + [Column(name, t, count, vals)];
  }

  lemma PutsEmptyArray(ms: seq<M.Meter>, name: string)
    requires Unnamed(ms, MakeId(name, TYPE_INT))
    ensures Put(ms, name, TYPE_INT, M.EMPTY_ARRAY, []) == ms + [M.Meter(MakeId(name, TYPE_INT), M.EMPTY_ARRAY, M.Null)]
  {
    NewMade(name, TYPE_INT);
    hide MakeId, Unnamed, Get, M.NewMeter;
    var id := MakeId(name, TYPE_INT);
    GetsNew(ms, id);
    assert (ms + [M.NewMeter(id)])[|ms|] == M.NewMeter(id);
    var m := M.Meter(id, M.EMPTY_ARRAY, M.Null);
    assert (ms + [M.NewMeter(id)])[|ms| := m] == ms + [m];
  }

  // ---- The meters of a member ----

  /** One meter a column: the group's own values, or those of every row. */
  function Columns(prefix: string, rows: seq<seq<Member>>, count: nat): (ms: seq<M.Meter>)
    requires rows != [] && forall r :: 0 <= r < |rows| ==> |rows[r]| == |rows[0]|
    ensures |ms| == |rows[0]|
  {
    seq(|rows[0]|, k requires 0 <= k < |rows[0]| =>
      Column(Path(prefix, rows[0][k].key), TypeFor(rows[0][k].value), count, ColumnOf(rows, k)))
  }

  function ColumnOf(rows: seq<seq<Member>>, k: nat): (vals: seq<Var>)
    requires forall r :: 0 <= r < |rows| ==> k < |rows[r]|
    ensures |vals| == |rows|
  {
    seq(|rows|, r requires 0 <= r < |rows| => rows[r][k].value)
  }

  function MembersOfAll(es: seq<Var>): (rows: seq<seq<Member>>)
    ensures |rows| == |es|
  {
    seq(|es|, i requires 0 <= i < |es| => MembersOf(es[i]))
  }

  function Flatten(m: Member): seq<M.Meter>
    requires GoodMember(m)
  {
    match m.value
    case Dict(group) => Columns(m.key, [group], 0)
    case Arr(es) =>
      if es == [] then [M.Meter(MakeId(m.key, TYPE_INT), M.EMPTY_ARRAY, M.Null)]
      else if es[0].Dict? then
        TableShape(m.key, es);
        Columns(m.key, MembersOfAll(es), |es|)
      else [Column(m.key, TypeFor(es[0]), |es|, es)]
    case v => [Column(m.key, TypeFor(v), 0, [v])]
  }

  lemma TableShape(prefix: string, es: seq<Var>)
    requires es != [] && es[0].Dict? && (GoodElems(es) || GoodTable(prefix, es))
    ensures GoodTable(prefix, es)
    ensures forall r :: 0 <= r < |es| ==> |MembersOfAll(es)[r]| == |MembersOfAll(es)[0]|
  {
    assert !GoodScalar(es[0]);
  }

  // ---- Importing one member ----

  /** The first n names of the columns are new. */
  predicate NewColumns(ms: seq<M.Meter>, prefix: string, cols: seq<Member>, from: nat) {
    forall k :: from <= k < |cols| ==> Unnamed(ms, MakeId(Path(prefix, cols[k].key), TypeFor(cols[k].value)))
  }

  lemma PathsDiffer(p: string, q: string, q': string)
    requires Path(p, q) == Path(p, q')
    ensures q == q'
  {
    assert Path(p, q)[|p| + 1..] == q;
    assert Path(p, q')[|p| + 1..] == q';
  }

  /** Names made into ids stay apart. */
  lemma MadeApart(a: string, t: Id, b: string, u: Id)
    requires IsName(a) && IsName(b) && IsType(t) && IsType(u) && a != b
    ensures NameOf(MakeId(a, t)) != NameOf(MakeId(b, u))
  {
    MakeSpells(a, t);
    MakeSpells(b, u);
    hide MakeId, NameOf, Spells, IsName, IsType;
    if NameOf(MakeId(a, t)) == NameOf(MakeId(b, u)) {
      SameSpelling(MakeId(a, t), MakeId(b, u), a, b);
    }
  }

  lemma KindIsType(v: Var)
    requires KindOf(v).Some?
    ensures IsType(TypeFor(v)) && KindOf(v) == Some(TypeFor(v))
  {
  }

  /** Adding column k leaves the later ones new. */
  lemma StillNew(ms: seq<M.Meter>, prefix: string, cols: seq<Member>, k: nat, m: M.Meter)
    requires GoodColumns(prefix, cols) && k < |cols| && NewColumns(ms, prefix, cols, k)
    requires m.id == MakeId(Path(prefix, cols[k].key), TypeFor(cols[k].value))
    ensures NewColumns(ms + [m], prefix, cols, k + 1)
  {
    hide MakeId, NameOf, Path, IsPath, IsName, IsType, TypeFor;
    forall j | k + 1 <= j < |cols|
      ensures Unnamed(ms + [m], MakeId(Path(prefix, cols[j].key), TypeFor(cols[j].value)))
    {
      PathIsName(prefix, cols[j].key);
      PathIsName(prefix, cols[k].key);
      KindIsType(cols[j].value);
      KindIsType(cols[k].value);
      if Path(prefix, cols[j].key) == Path(prefix, cols[k].key) {
        PathsDiffer(prefix, cols[j].key, cols[k].key);
      }
      MadeApart(Path(prefix, cols[k].key), TypeFor(cols[k].value), Path(prefix, cols[j].key), TypeFor(cols[j].value));
      assert Unnamed(ms, MakeId(Path(prefix, cols[j].key), TypeFor(cols[j].value)));
    }
  }

  lemma {:induction false} GroupReads(c: Libc, ms: seq<M.Meter>, prefix: string, group: seq<Member>, k: nat)
    requires GoodColumns(prefix, group) && k <= |group| && NewColumns(ms, prefix, group, k)
    ensures Group(c, ms, prefix, group, k) == Imported(true, ms + Columns(prefix, [group], 0)[k..])
    decreases |group| - k
  {
    hide NewColumns, Put, Unnamed, Path, AllOf, Column, IsPath;
    var block := Columns(prefix, [group], 0);
    if k == |group| {
      assert ms + block[k..] == ms;
    } else {
      var v := group[k].value;
      var name := Path(prefix, group[k].key);
      assert IsPath(prefix, group[k].key) && GoodScalar(v);
      KindIsType(v);
      ThisNew(ms, prefix, group, k);
      ScalarAll(v);
      PutsColumn(ms, name, TypeFor(v), 0, [v], c);
      assert Typed(TypeFor(v), [v], c) == [AsType(c, TypeFor(v), v)];
      assert ColumnOf([group], k) == [v];
      var m := Column(name, TypeFor(v), 0, [v]);
      assert block[k] == m;
      ColumnId(name, TypeFor(v), 0, [v]);
      StillNew(ms, prefix, group, k, m);
      GroupReads(c, ms + [m], prefix, group, k + 1);
      assert ms + [m] + block[k + 1..] == ms + block[k..];
      PathLength(prefix, group[k].key);
    }
  }

  lemma PathLength(p: string, q: string)
    requires IsPath(p, q)
    ensures |p| + |q| <= 10
  {
  }

  lemma ColumnId(name: string, t: Id, count: nat, vals: seq<Var>)
    ensures Column(name, t, count, vals).id == MakeId(name, t)
  {
  }

  lemma ThisNew(ms: seq<M.Meter>, prefix: string, cols: seq<Member>, k: nat)
    requires NewColumns(ms, prefix, cols, k) && k < |cols|
    ensures Unnamed(ms, MakeId(Path(prefix, cols[k].key), TypeFor(cols[k].value)))
  {
    hide Unnamed;
  }

  lemma ScalarAll(v: Var)
    requires GoodScalar(v)
    ensures AllOf(TypeFor(v), [v])
  {
  }

  /** A row of a table holds column k's value under column k's key. */
  lemma RowLookup(prefix: string, es: seq<Var>, r: nat, k: nat)
    requires GoodTable(prefix, es) && r < |es| && k < |es[0].members|
    ensures k < |MembersOfAll(es)[r]| && Lookup(es[r], es[0].members[k].key) == MembersOfAll(es)[r][k].value
  {
    hide KindOf, GoodScalar, IsPath;
    var cols, row := es[0].members, es[r].members;
    assert SameShape(cols, row);
    var i := FindKey(row, cols[k].key);
    assert row[k].key == cols[k].key;
    assert i <= k;
    assert cols[i].key == row[i].key;
  }

  lemma RowTyped(c: Libc, prefix: string, es: seq<Var>, k: nat)
    requires GoodTable(prefix, es) && k < |es[0].members|
    requires forall r :: 0 <= r < |es| ==> k < |MembersOfAll(es)[r]|
    ensures var t := TypeFor(es[0].members[k].value);
      Row(c, t, es, es[0].members[k].key, |es|) == Typed(t, ColumnOf(MembersOfAll(es), k), c)
  {
    hide MembersOfAll, Lookup, AsType, GoodColumns, SameShape;
    forall r | 0 <= r < |es| ensures Lookup(es[r], es[0].members[k].key) == MembersOfAll(es)[r][k].value {
      RowLookup(prefix, es, r, k);
    }
  }

  lemma TableColumn(prefix: string, es: seq<Var>, k: nat)
    requires GoodTable(prefix, es) && k < |es[0].members|
    ensures forall r :: 0 <= r < |es| ==> k < |MembersOfAll(es)[r]|
    ensures AllOf(TypeFor(es[0].members[k].value), ColumnOf(MembersOfAll(es), k))
    ensures MembersOfAll(es)[0] == es[0].members
  {
    forall r | 0 <= r < |es| ensures SameShape(es[0].members, es[r].members) && MembersOfAll(es)[r] == es[r].members {
    }
    KindIsType(es[0].members[k].value);
  }

  lemma {:induction false} TableReads(c: Libc, ms: seq<M.Meter>, prefix: string, es: seq<Var>, k: nat)
    requires GoodTable(prefix, es) && |es| <= MAX_ARRAY && k <= |es[0].members|
    requires NewColumns(ms, prefix, es[0].members, k)
    requires |MembersOfAll(es)[0]| == |es[0].members|
    requires forall r :: 0 <= r < |es| ==> |MembersOfAll(es)[r]| == |MembersOfAll(es)[0]|
    ensures Table(c, ms, prefix, es, es[0].members, k) == ms + Columns(prefix, MembersOfAll(es), |es|)[k..]
    decreases |es[0].members| - k
  {
    hide NewColumns, Put, Unnamed, Path, AllOf, Column, IsPath, Row, MembersOfAll, SameShape;
    var cols := es[0].members;
    var block := Columns(prefix, MembersOfAll(es), |es|);
    if k == |cols| {
      SameColumns(es);
      assert ms + block[k..] == ms;
    } else {
      var v := cols[k].value;
      var name := Path(prefix, cols[k].key);
      assert forall r :: 0 <= r < |es| ==> k < |MembersOfAll(es)[r]|;
      var vals := ColumnOf(MembersOfAll(es), k);
      TableColumn(prefix, es, k);
      assert IsPath(prefix, cols[k].key) && GoodScalar(v);
      KindIsType(v);
      ThisNew(ms, prefix, cols, k);
      PutsColumn(ms, name, TypeFor(v), |es|, vals, c);
      RowTyped(c, prefix, es, k);
      var m := Column(name, TypeFor(v), |es|, vals);
      assert block[k] == m;
      ColumnId(name, TypeFor(v), |es|, vals);
      StillNew(ms, prefix, cols, k, m);
      TableReads(c, ms + [m], prefix, es, k + 1);
      assert ms + [m] + block[k + 1..] == ms + block[k..];
      PathLength(prefix, cols[k].key);
    }
  }

  lemma SameColumns(es: seq<Var>)
    requires es != [] && es[0].Dict?
    ensures MembersOfAll(es)[0] == es[0].members
  {
  }

  /** No meter has the name of any meter of the member. */
  predicate NewMember(ms: seq<M.Meter>, m: Member)
    requires GoodMember(m)
  {
    forall x :: x in Flatten(m) ==> Unnamed(ms, x.id)
  }

  lemma NewGroup(ms: seq<M.Meter>, m: Member)
    requires GoodMember(m) && NewMember(ms, m) && m.value.Dict?
    ensures NewColumns(ms, m.key, m.value.members, 0)
  {
    hide Unnamed, Path, IsPath, KindOf, GoodScalar;
    var group := m.value.members;
    forall k | 0 <= k < |group| ensures Unnamed(ms, MakeId(Path(m.key, group[k].key), TypeFor(group[k].value))) {
      assert Flatten(m)[k] in Flatten(m);
    }
  }

  lemma NewTable(ms: seq<M.Meter>, m: Member)
    requires GoodMember(m) && NewMember(ms, m) && m.value.Arr? && m.value.elems != [] && m.value.elems[0].Dict?
    ensures NewColumns(ms, m.key, m.value.elems[0].members, 0)
  {
    var es := m.value.elems;
    TableShape(m.key, es);
    SameColumns(es);
    hide Unnamed, Path, IsPath, KindOf, GoodScalar, GoodTable, MembersOfAll;
    forall k | 0 <= k < |es[0].members|
      ensures Unnamed(ms, MakeId(Path(m.key, es[0].members[k].key), TypeFor(es[0].members[k].value)))
    {
      assert Flatten(m)[k] in Flatten(m);
    }
  }

  lemma PlainReads(c: Libc, ms: seq<M.Meter>, key: string, es: seq<Var>)
    requires es != [] && |es| <= MAX_ARRAY && GoodElems(es) && Unnamed(ms, MakeId(key, TypeFor(es[0])))
    ensures KindOf(es[0]).Some? && Plain(c, ms, key, es) == Imported(true, ms + [Column(key, TypeFor(es[0]), |es|, es)])
  {
    var t := TypeFor(es[0]);
    assert GoodScalar(es[0]);
    KindIsType(es[0]);
    assert AllOf(t, es);
    if t == TYPE_STR {
      TypesDiffer();
      forall i | 0 <= i < |es| ensures es[i].Str? {
        assert KindOf(es[i]) == KindOf(es[0]);
      }
    }
    hide Put, Unnamed, MakeId, Column, AllOf, Typed, Elems, GoodElems;
    PutsColumn(ms, key, t, |es|, es, c);
    TypedElems(t, es, c);
  }

  lemma TypedElems(t: Id, es: seq<Var>, c: Libc)
    ensures Typed(t, es, c) == Elems(c, t, es, |es|)
  {
  }

  /** A member whose names are new adds its meters to the host. */
  lemma MemberReads(c: Libc, ms: seq<M.Meter>, m: Member)
    requires GoodMember(m) && NewMember(ms, m)
    ensures Import1(c, ms, m) == Imported(true, ms + Flatten(m))
  {
    hide Unnamed, Put, Column, AllOf, MakeId, Table, Group, Columns, MembersOfAll;
    match m.value
    case Dict(group) =>
      NewGroup(ms, m);
      GroupReads(c, ms, m.key, group, 0);
      assert Flatten(m)[0..] == Flatten(m);
    case Arr(es) =>
      if es == [] {
        assert Flatten(m)[0] in Flatten(m);
        PutsEmptyArray(ms, m.key);
      } else if es[0].Dict? {
        TableShape(m.key, es);
        SameColumns(es);
        NewTable(ms, m);
        TableReads(c, ms, m.key, es, 0);
        assert Flatten(m)[0..] == Flatten(m);
      } else {
        assert Flatten(m)[0] in Flatten(m);
        ColumnId(m.key, TypeFor(es[0]), |es|, es);
        PlainMember(m.key, es);
        PlainReads(c, ms, m.key, es);
      }
    case Null =>
    case _ =>
      ScalarReads(c, ms, m);
  }

  lemma ScalarReads(c: Libc, ms: seq<M.Meter>, m: Member)
    requires GoodMember(m) && NewMember(ms, m) && GoodScalar(m.value)
    ensures Import1(c, ms, m) == Imported(true, ms + Flatten(m))
  {
    hide Unnamed, Put, Column, AllOf, MakeId;
    var v := m.value;
    KindIsType(v);
    assert Flatten(m) == [Column(m.key, TypeFor(v), 0, [v])];
    assert Flatten(m)[0] in Flatten(m);
    ColumnId(m.key, TypeFor(v), 0, [v]);
    ScalarAll(v);
    PutsColumn(ms, m.key, TypeFor(v), 0, [v], c);
    assert Typed(TypeFor(v), [v], c) == [AsType(c, TypeFor(v), v)];
  }

  lemma PlainMember(prefix: string, es: seq<Var>)
    requires es != [] && !es[0].Dict? && (GoodElems(es) || GoodTable(prefix, es))
    ensures GoodElems(es) && KindOf(es[0]).Some?
  {
    assert GoodElems(es) ==> GoodScalar(es[0]);
  }

  // ---- The names of a member's meters ----

  function ColsOf(m: Member): seq<Member>
    requires Grouped(m)
  {
    if m.value.Dict? then m.value.members else m.value.elems[0].members
  }

  function NameIn(m: Member, j: nat): string {
    if Grouped(m) && j < |ColsOf(m)| then Path(m.key, ColsOf(m)[j].key) else m.key
  }

  function TypeIn(m: Member, j: nat): Id {
    if Grouped(m) then (if j < |ColsOf(m)| then TypeFor(ColsOf(m)[j].value) else TYPE_INT)
    else if !m.value.Arr? then TypeFor(m.value)
    else if m.value.elems == [] then TYPE_INT else TypeFor(m.value.elems[0])
  }

  /** The rows of a group, and the count of its meters. */
  function RowsOf(m: Member): (rows: seq<seq<Member>>)
    requires Grouped(m)
    ensures rows != []
  {
    if m.value.Dict? then [m.value.members] else MembersOfAll(m.value.elems)
  }

  function GroupCount(m: Member): nat {
    if m.value.Dict? || !m.value.Arr? then 0 else |m.value.elems|
  }

  /** A group of either form. */
  lemma GroupShape(m: Member)
    requires GoodMember(m) && Grouped(m)
    ensures GoodColumns(m.key, ColsOf(m)) && RowsOf(m)[0] == ColsOf(m)
    ensures forall r :: 0 <= r < |RowsOf(m)| ==> SameShape(ColsOf(m), RowsOf(m)[r])
    ensures Flatten(m) == Columns(m.key, RowsOf(m), GroupCount(m))
    ensures GroupCount(m) <= MAX_ARRAY && |RowsOf(m)| == M.Elements(GroupCount(m))
  {
    hide Columns, IsPath, KindOf;
    if m.value.Arr? {
      var es := m.value.elems;
      TableShape(m.key, es);
      SameColumns(es);
      forall r | 0 <= r < |es| ensures SameShape(es[0].members, MembersOfAll(es)[r]) {
        assert MembersOfAll(es)[r] == es[r].members;
      }
    } else {
      SelfShape(m.key, m.value.members);
    }
  }

  lemma SelfShape(prefix: string, cols: seq<Member>)
    requires GoodColumns(prefix, cols)
    ensures SameShape(cols, cols)
  {
  }

  lemma PartIsName(key: string)
    requires IsPart(key) && |key| <= 11
    ensures IsName(key)
  {
  }

  lemma FlattenId(m: Member, j: nat)
    requires GoodMember(m) && j < |Flatten(m)|
    ensures Flatten(m)[j].id == MakeId(NameIn(m, j), TypeIn(m, j)) && IsName(NameIn(m, j)) && IsType(TypeIn(m, j))
    ensures Grouped(m) ==> |Flatten(m)| == |ColsOf(m)| && IsPath(m.key, ColsOf(m)[j].key)
    ensures !Grouped(m) ==> |Flatten(m)| == 1
  {
    if Grouped(m) {
      GroupShape(m);
      hide GoodMember, Flatten, RowsOf, IsPath, MakeId, IsName, IsType, KindOf;
      assert IsPath(m.key, ColsOf(m)[j].key) && GoodScalar(ColsOf(m)[j].value);
      PathIsName(m.key, ColsOf(m)[j].key);
      KindIsType(ColsOf(m)[j].value);
      ColumnId(NameIn(m, j), TypeIn(m, j), GroupCount(m), ColumnOf(RowsOf(m), j));
    } else {
      PartIsName(m.key);
      PlainId(m);
    }
  }

  lemma PlainId(m: Member)
    requires GoodMember(m) && !Grouped(m)
    ensures |Flatten(m)| == 1 && Flatten(m)[0].id == MakeId(m.key, TypeIn(m, 0)) && IsType(TypeIn(m, 0))
  {
    hide MakeId, DataOf;
    if m.value.Arr? {
      if m.value.elems != [] {
        PlainMember(m.key, m.value.elems);
        KindIsType(m.value.elems[0]);
      }
    } else {
      KindIsType(m.value);
    }
  }

  lemma NoEarlySlash(p: string, q: string, p': string, q': string)
    requires '/' !in p' && Path(p, q) == Path(p', q')
    ensures |p'| <= |p|
  {
    assert Path(p, q)[|p|] == '/';
    assert forall i :: 0 <= i < |p'| ==> Path(p', q')[i] == p'[i] && p'[i] in p';
  }

  lemma SlashPlaces(p: string, q: string, p': string, q': string)
    requires '/' !in p && '/' !in p' && Path(p, q) == Path(p', q')
    ensures p == p'
  {
    NoEarlySlash(p, q, p', q');
    NoEarlySlash(p', q', p, q);
    assert Path(p, q)[..|p|] == p && Path(p', q')[..|p'|] == p';
  }

  lemma PlainIsNotPath(name: string, p: string, q: string)
    requires '/' !in name
    ensures name != Path(p, q)
  {
    assert Path(p, q)[|p|] == '/';
    assert '/' in Path(p, q);
  }

  /** Meters of members with different keys have different names. */
  lemma NamesApart(m: Member, i: nat, n: Member, j: nat)
    requires GoodMember(m) && GoodMember(n) && m.key != n.key && i < |Flatten(m)| && j < |Flatten(n)|
    ensures NameOf(Flatten(m)[i].id) != NameOf(Flatten(n)[j].id)
  {
    FlattenId(m, i);
    FlattenId(n, j);
    hide Flatten, MakeId, NameOf, IsName, IsType, TypeIn, Path;
    assert '/' !in m.key && '/' !in n.key;
    if NameIn(m, i) == NameIn(n, j) {
      if Grouped(m) {
        if Grouped(n) {
          SlashPlaces(m.key, ColsOf(m)[i].key, n.key, ColsOf(n)[j].key);
        } else {
          PlainIsNotPath(n.key, m.key, ColsOf(m)[i].key);
        }
      } else if Grouped(n) {
        PlainIsNotPath(m.key, n.key, ColsOf(n)[j].key);
      }
    }
    MadeApart(NameIn(m, i), TypeIn(m, i), NameIn(n, j), TypeIn(n, j));
  }

  // ---- The whole import ----

  predicate AllGood(members: seq<Member>) {
    && (forall k :: 0 <= k < |members| ==> GoodMember(members[k]))
    && (forall i, j :: 0 <= i < j < |members| ==> members[i].key != members[j].key)
  }

  /** The meters of the first n members. */
  function Blocks(members: seq<Member>, n: nat): seq<M.Meter>
    requires n <= |members| && AllGood(members)
  {
    if n == 0 then [] else Blocks(members, n - 1) + Flatten(members[n - 1])
  }

  lemma {:induction false} BlocksUnnamed(members: seq<Member>, n: nat, k: nat, x: M.Meter)
    requires AllGood(members) && n <= k < |members| && x in Flatten(members[k])
    ensures Unnamed(Blocks(members, n), x.id)
  {
    hide Flatten, GoodMember, NameOf;
    if n > 0 {
      BlocksUnnamed(members, n - 1, k, x);
      var block := Flatten(members[n - 1]);
      forall v | v in block ensures NameOf(v.id) != NameOf(x.id) {
        var i :| 0 <= i < |block| && block[i] == v;
        var j :| 0 <= j < |Flatten(members[k])| && Flatten(members[k])[j] == x;
        NamesApart(members[n - 1], i, members[k], j);
      }
    }
  }

  lemma {:induction false} ImportReads(c: Libc, members: seq<Member>, k: nat)
    requires AllGood(members) && k <= |members|
    ensures ImportFrom(c, Blocks(members, k), members, k) == Imported(true, Blocks(members, |members|))
    decreases |members| - k
  {
    hide Import1, Flatten, GoodMember, Unnamed;
    if k < |members| {
      var m := members[k];
      forall x | x in Flatten(m) ensures Unnamed(Blocks(members, k), x.id) {
        BlocksUnnamed(members, k, k, x);
      }
      MemberReads(c, Blocks(members, k), m);
      assert Blocks(members, k + 1) == Blocks(members, k) + Flatten(m);
      ImportReads(c, members, k + 1);
    }
  }
}
