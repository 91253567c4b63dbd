/** Taking a tree of data into a host's meters, on values. */
module HostImport {
  import opened Wrappers
  import opened IdNames
  import opened Ids
  import opened Json
  import opened Strings
  import M = Meters
  import F = WireFrac

  const MAX_ARRAY := 29

  /** The C library's conversions of arbitrary strings. */
  datatype Libc = Libc(strtoull: string -> nat, atof: string -> real)

  /** A null string among strings stops the program. */
  datatype Imported = Imported(ok: bool, ms: seq<M.Meter>) | Crashed

  // ---- Values as other types ----

  function IntOf(c: Libc, v: Var): nat {
    match v
    case Int(i) => i
    case Dbl(r) => if r >= 0.0 then r.Floor else 0
    case Str(s) => c.strtoull(s)
    case _ => 0
  }

  function RealOf(c: Libc, v: Var): real {
    match v
    case Int(i) => i as real
    case Dbl(r) => r
    case Str(s) => c.atof(s)
    case _ => 0.0
  }

  /** What a row of a table holds under a key. */
  function Lookup(row: Var, key: string): Var {
    var ms := MembersOf(row);
    var i := FindKey(ms, key);
    if i < |ms| then ms[i].value else Null
  }

  function IntValue(i: nat): M.Value {
    M.IntValue(i)
  }

  function FracValue(r: real): M.Value {
    M.FracValue(F.Finite(r))
  }

  function TextValue(s: string): M.Value {
    M.StrValue(BytesOf(s))
  }

  /** A value converted to a meter's type. Only a string has a text. */
  function AsType(c: Libc, t: Id, v: Var): M.Value {
    if t == TYPE_INT then IntValue(IntOf(c, v))
    else if t == TYPE_FRAC then FracValue(RealOf(c, v))
    else TextValue(if v.Str? then v.s else "")
  }

  /** The meter type of a value, if it has one. */
  function KindOf(v: Var): Option<Id> {
    match v
    case Int(i) => Some(TYPE_INT)
    case Dbl(r) => Some(TYPE_FRAC)
    case Str(s) => Some(TYPE_STR)
    case _ => None
  }

  // ---- Into meters ----

  /** host_get_meter. */
  function Get(ms: seq<M.Meter>, id: Id): (r: (seq<M.Meter>, nat))
    ensures r.1 < |r.0|
  {
    var i := M.FindMeter(ms, id);
    if i < |ms| then (ms, i) else (ms + [M.NewMeter(id)], |ms|)
  }

  function Fill(m: M.Meter, vals: seq<M.Value>, pos: nat): M.Meter
    decreases |vals| - pos
  {
    if pos >= |vals| then m else Fill(M.SetValue(m, pos, vals[pos]), vals, pos + 1)
  }

  /** A meter of this name and type is sized and filled. */
  function Put(ms: seq<M.Meter>, name: string, t: Id, count: nat, vals: seq<M.Value>): seq<M.Meter> {
    var (ms', at) := Get(ms, MakeId(name, t));
    ms'[at := Fill(M.SetCount(ms'[at], count), vals, 0)]
  }

  function Capped(n: nat): nat {
    if n > MAX_ARRAY then MAX_ARRAY else n
  }

  function Row(c: Libc, t: Id, rows: seq<Var>, key: string, n: nat): (vals: seq<M.Value>)
    requires n <= |rows|
    ensures |vals| == n
  {
    seq(n, i requires 0 <= i < n => AsType(c, t, Lookup(rows[i], key)))
  }

  /** dictarray_to_host from column k on: one meter per member of the first row. It stops at a
      name too long or a type unknown, and its caller does not ask whether it did. */
  function Table(c: Libc, ms: seq<M.Meter>, prefix: string, rows: seq<Var>, cols: seq<Member>, k: nat): seq<M.Meter>
    decreases |cols| - k
  {
    if k >= |cols| || |prefix| + |cols[k].key| > 10 then ms
    else
      match KindOf(cols[k].value)
      case None => ms
      case Some(t) =>
        var vals := Row(c, t, rows, cols[k].key, Capped(|rows|));
        Table(c, Put(ms, Path(prefix, cols[k].key), t, Capped(|rows|), vals), prefix, rows, cols, k + 1)
  }

  function Elems(c: Libc, t: Id, es: seq<Var>, n: nat): (vals: seq<M.Value>)
    requires n <= |es|
    ensures |vals| == n
  {
    seq(n, i requires 0 <= i < n => AsType(c, t, es[i]))
  }

  predicate AllTexts(es: seq<Var>, n: nat)
    requires n <= |es|
  {
    forall i :: 0 <= i < n ==> es[i].Str?
  }

  /** An array whose first element is a plain value. */
  function Plain(c: Libc, ms: seq<M.Meter>, key: string, es: seq<Var>): Imported
    requires es != [] && KindOf(es[0]).Some?
  {
    var t, n := KindOf(es[0]).value, Capped(|es|);
    if t == TYPE_STR && !AllTexts(es, n) then Crashed else Imported(true, Put(ms, key, t, n, Elems(c, t, es, n)))
  }

  function Array(c: Libc, ms: seq<M.Meter>, key: string, es: seq<Var>): Imported {
    if es == [] then Imported(true, Put(ms, key, TYPE_INT, M.EMPTY_ARRAY, []))
    else
      match es[0]
      case Arr(_) => Imported(false, ms)
      case Dict(cols) => Imported(true, Table(c, ms, key, es, cols, 0))
      case Null => Imported(true, ms)
      case _ => Plain(c, ms, key, es)
  }

  /** The members of a group from k on. */
  function Group(c: Libc, ms: seq<M.Meter>, prefix: string, group: seq<Member>, k: nat): Imported
    decreases |group| - k
  {
    if k >= |group| then Imported(true, ms)
    else if |group[k].key| + |prefix| > 10 || group[k].value.Arr? then Imported(false, ms)
    else
      match KindOf(group[k].value)
      case None => Group(c, ms, prefix, group, k + 1)
      case Some(t) =>
        Group(c, Put(ms, Path(prefix, group[k].key), t, 0, [AsType(c, t, group[k].value)]), prefix, group, k + 1)
  }

  function Import1(c: Libc, ms: seq<M.Meter>, m: Member): Imported {
    if |m.key| > 11 then Imported(false, ms)
    else
      match m.value
      case Null => Imported(true, ms)
      case Arr(es) => Array(c, ms, m.key, es)
      case Dict(group) => Group(c, ms, m.key, group, 0)
      case v => Imported(true, Put(ms, m.key, KindOf(v).value, 0, [AsType(c, KindOf(v).value, v)]))
  }

  /** host_import from member k on. */
  function ImportFrom(c: Libc, ms: seq<M.Meter>, members: seq<Member>, k: nat): Imported
    decreases |members| - k
  {
    if k >= |members| then Imported(true, ms)
    else
      match Import1(c, ms, members[k])
      case Crashed => Crashed
      case Imported(ok, ms') => if ok then ImportFrom(c, ms', members, k + 1) else Imported(false, ms')
  }

  function Import(c: Libc, ms: seq<M.Meter>, v: Var): Imported {
    if v.Dict? then ImportFrom(c, ms, v.members, 0) else Imported(false, ms)
  }

  // ---- What is refused ----

  /** A key of more than eleven characters, an array of arrays, and in a group a path of more than
      ten characters besides its slash, or an array. */
  predicate Refused(m: Member) {
    || |m.key| > 11
    || (m.value.Arr? && m.value.elems != [] && m.value.elems[0].Arr?)
    || (m.value.Dict? && exists k :: 0 <= k < |m.value.members| && (|m.key| + |m.value.members[k].key| > 10 || m.value.members[k].value.Arr?))
  }

  lemma {:induction false} GroupRefused(c: Libc, ms: seq<M.Meter>, prefix: string, group: seq<Member>, k: nat)
    requires k <= |group|
    ensures var r := Group(c, ms, prefix, group, k);
      r.Imported? && (!r.ok <==> exists i :: k <= i < |group| && (|prefix| + |group[i].key| > 10 || group[i].value.Arr?))
    decreases |group| - k
  {
    hide Put, AsType, Path;
    if k < |group| && !(|group[k].key| + |prefix| > 10 || group[k].value.Arr?) {
      match KindOf(group[k].value)
      case None => GroupRefused(c, ms, prefix, group, k + 1);
      case Some(t) =>
        GroupRefused(c, Put(ms, Path(prefix, group[k].key), t, 0, [AsType(c, t, group[k].value)]), prefix, group, k + 1);
    }
  }

  /** A member is refused exactly for its shape, whatever the host holds. A list of strings with
      something else among its first 29 stops the program. */
  lemma MemberRefused(c: Libc, ms: seq<M.Meter>, m: Member)
    ensures var r := Import1(c, ms, m);
      && (r.Crashed? <==> |m.key| <= 11 && m.value.Arr? && m.value.elems != [] && m.value.elems[0].Str?
                          && exists i :: 0 <= i < |m.value.elems| && i < 29 && !m.value.elems[i].Str?)
      && (r.Imported? ==> (!r.ok <==> Refused(m)))
  {
    hide Put, Table, Elems;
    if |m.key| <= 11 && m.value.Dict? {
      GroupRefused(c, ms, m.key, m.value.members, 0);
    }
  }

  // ---- What a value becomes ----

  /** A value as an integer: a double loses its fraction, and is 0 below zero. A string is left to
      the C library, and anything else is 0. */
  lemma AsInteger(c: Libc, v: Var)
    ensures var x := AsType(c, TYPE_INT, v);
      && x.IntValue?
      && (v.Int? ==> x.i == v.i)
      && (v.Dbl? ==> if v.r < 0.0 then x.i == 0 else x.i as real <= v.r < x.i as real + 1.0)
      && (v.Str? ==> x.i == c.strtoull(v.s))
      && (v.Null? || v.Dict? || v.Arr? ==> x.i == 0)
  {
  }

  /** A value as a fraction, and as a text, which only a string has. */
  lemma AsOther(c: Libc, v: Var)
    ensures var x, y := AsType(c, TYPE_FRAC, v), AsType(c, TYPE_STR, v);
      && x.FracValue? && x.f.Finite? && y.StrValue?
      && (v.Int? ==> x.f.r == v.i as real)
      && (v.Dbl? ==> x.f.r == v.r)
      && (v.Str? ==> x.f.r == c.atof(v.s) && y.s == BytesOf(v.s))
      && (v.Null? || v.Dict? || v.Arr? ==> x.f.r == 0.0)
      && (!v.Str? ==> y.s == [])
  {
    assert BytesOf("") == [];
  }

  /** The first value decides the type of a list, and the values after the 29th are dropped. */
  lemma ListCut(c: Libc, ms: seq<M.Meter>, key: string, es: seq<Var>)
    requires |es| >= 29 && (es[0].Int? || es[0].Dbl?)
    ensures Array(c, ms, key, es) == Array(c, ms, key, es[..29])
    ensures var t := if es[0].Int? then TYPE_INT else TYPE_FRAC;
      Array(c, ms, key, es) == Imported(true, Put(ms, key, t, 29, seq(29, i requires 0 <= i < 29 => AsType(c, t, es[i]))))
  {
    hide AsType, Put;
    var t := if es[0].Int? then TYPE_INT else TYPE_FRAC;
    assert Elems(c, t, es, 29) == Elems(c, t, es[..29], 29);
    assert Elems(c, t, es, 29) == seq(29, i requires 0 <= i < 29 => AsType(c, t, es[i]));
  }

  /** So are the rows of a table after the 29th. */
  lemma {:induction false} RowsCut(c: Libc, ms: seq<M.Meter>, prefix: string, rows: seq<Var>, cols: seq<Member>, k: nat)
    requires |rows| >= 29 && k <= |cols|
    ensures Table(c, ms, prefix, rows, cols, k) == Table(c, ms, prefix, rows[..29], cols, k)
    decreases |cols| - k
  {
    hide Put, AsType, Lookup, Path, KindOf;
    if k < |cols| && KindOf(cols[k].value).Some? {
      var t := KindOf(cols[k].value).value;
      var vals := Row(c, t, rows, cols[k].key, 29);
      assert vals == Row(c, t, rows[..29], cols[k].key, 29);
      RowsCut(c, Put(ms, Path(prefix, cols[k].key), t, 29, vals), prefix, rows, cols, k + 1);
    }
  }

  /** A null leaves the host as it is, wherever it stands: by itself, first in a list, or as a
      value of a group, which goes on after it. So does a table in a group. */
  lemma NothingImported(c: Libc, ms: seq<M.Meter>, key: string, es: seq<Var>, m: Member, rest: seq<Member>)
    requires |key| <= 11 && es != [] && es[0].Null? && (m.value.Null? || m.value.Dict?) && |m.key| + |key| <= 10
    ensures Import1(c, ms, Member(key, Null)) == Import1(c, ms, Member(key, Arr(es))) == Imported(true, ms)
    ensures Group(c, ms, key, [m] + rest, 0) == Group(c, ms, key, [m] + rest, 1)
  {
  }

  /** A member that is refused ends the import, and what was imported before it stays. */
  lemma {:induction false} RefusedStops(c: Libc, ms: seq<M.Meter>, members: seq<Member>, bad: Member, rest: seq<Member>, k: nat)
    requires k <= |members| && ImportFrom(c, ms, members, k).Imported? && ImportFrom(c, ms, members, k).ok && |bad.key| > 11
    ensures ImportFrom(c, ms, members + ([bad] + rest), k) == Imported(false, ImportFrom(c, ms, members, k).ms)
    decreases |members| - k
  {
    hide Import1;
    var all := members + ([bad] + rest);
    if k == |members| {
      assert all[k] == bad;
      LongKey(c, ms, bad);
    } else {
      assert all[k] == members[k];
      RefusedStops(c, Import1(c, ms, members[k]).ms, members, bad, rest, k + 1);
    }
  }

  lemma LongKey(c: Libc, ms: seq<M.Meter>, m: Member)
    requires |m.key| > 11
    ensures Import1(c, ms, m) == Imported(false, ms)
  {
  }

  /** What a row says nothing of is zero, or an empty text. */
  lemma NotInRow(c: Libc, row: Var, key: string)
    requires forall i :: 0 <= i < |MembersOf(row)| ==> MembersOf(row)[i].key != key
    ensures AsType(c, TYPE_INT, Lookup(row, key)) == M.IntValue(0)
    ensures AsType(c, TYPE_FRAC, Lookup(row, key)) == M.FracValue(F.Finite(0.0))
    ensures AsType(c, TYPE_STR, Lookup(row, key)) == M.StrValue([])
  {
    assert BytesOf("") == [];
  }

  /** A group that is refused in the middle leaves what it imported so far. */
  lemma {:induction false} GroupStops(c: Libc, ms: seq<M.Meter>, prefix: string, good: seq<Member>, bad: Member, rest: seq<Member>, k: nat)
    requires k <= |good| && Group(c, ms, prefix, good, k).Imported? && Group(c, ms, prefix, good, k).ok && bad.value.Arr?
    ensures Group(c, ms, prefix, good + ([bad] + rest), k) == Imported(false, Group(c, ms, prefix, good, k).ms)
    decreases |good| - k
  {
    hide Put, AsType, Path;
    var all := good + ([bad] + rest);
    if k == |good| {
      assert all[k] == bad;
    } else {
      assert all[k] == good[k];
      match KindOf(good[k].value)
      case None => GroupStops(c, ms, prefix, good, bad, rest, k + 1);
      case Some(t) =>
        GroupStops(c, Put(ms, Path(prefix, good[k].key), t, 0, [AsType(c, t, good[k].value)]), prefix, good, bad, rest, k + 1);
    }
  }

  /** And so does the whole import, which ends there. */
  lemma ImportStops(c: Libc, ms: seq<M.Meter>, key: string, good: seq<Member>, bad: Member, rest: seq<Member>, more: seq<Member>)
    requires |key| <= 11 && Group(c, ms, key, good, 0).Imported? && Group(c, ms, key, good, 0).ok && bad.value.Arr?
    ensures Import(c, ms, Dict([Member(key, Dict(good + ([bad] + rest)))] + more)) == Imported(false, Group(c, ms, key, good, 0).ms)
  {
    hide Group;
    GroupStops(c, ms, key, good, bad, rest, 0);
  }

  // ---- Columns that are dropped ----

  predicate BadColumn(prefix: string, col: Member) {
    |prefix| + |col.key| > 10 || KindOf(col.value).None?
  }

  /** Where the first column is whose name is too long or whose type is unknown, or the end. */
  function FirstBad(prefix: string, cols: seq<Member>, k: nat): (n: nat)
    requires k <= |cols|
    ensures k <= n <= |cols| && (n < |cols| ==> BadColumn(prefix, cols[n]))
    ensures forall i :: k <= i < n ==> !BadColumn(prefix, cols[i])
    decreases |cols| - k
  {
    if k == |cols| || BadColumn(prefix, cols[k]) then k else FirstBad(prefix, cols, k + 1)
  }

  lemma {:induction false} TableStops(c: Libc, ms: seq<M.Meter>, prefix: string, rows: seq<Var>, cols: seq<Member>, k: nat)
    requires k <= |cols|
    ensures Table(c, ms, prefix, rows, cols, k) == Table(c, ms, prefix, rows, cols[..FirstBad(prefix, cols, k)], k)
    decreases |cols| - k
  {
    hide Put, Row, KindOf, Path;
    var n := FirstBad(prefix, cols, k);
    if k < n {
      assert cols[..n][k] == cols[k] && FirstBad(prefix, cols, k + 1) == n;
      var t := KindOf(cols[k].value).value;
      var vals := Row(c, t, rows, cols[k].key, Capped(|rows|));
      TableStops(c, Put(ms, Path(prefix, cols[k].key), t, Capped(|rows|), vals), prefix, rows, cols, k + 1);
    }
  }

  /** A table always counts as imported. The columns from the first bad one on are dropped, and
      only if there is a bad one is any. */
  lemma {:induction false} TableDrops(c: Libc, ms: seq<M.Meter>, key: string, es: seq<Var>)
    requires |key| <= 11 && es != [] && es[0].Dict?
    ensures var cols := es[0].members;
      var n := FirstBad(key, cols, 0);
      && Import1(c, ms, Member(key, Arr(es))) == Imported(true, Table(c, ms, key, es, cols[..n], 0))
      && (n == |cols| <==> forall i :: 0 <= i < |cols| ==> !BadColumn(key, cols[i]))
  {
    hide Put, Row, Path;
    TableStops(c, ms, key, es, es[0].members, 0);
  }

  lemma {:induction false} OneMember(c: Libc, ms: seq<M.Meter>, m: Member)
    requires Import1(c, ms, m).Imported? && Import1(c, ms, m).ok
    ensures Import(c, ms, Dict([m])) == Import1(c, ms, m)
  {
    hide Import1;
    var r := Import1(c, ms, m);
    assert ImportFrom(c, r.ms, [m], 1) == Imported(true, r.ms);
  }

  lemma {:induction false} SameTable(c: Libc, ms: seq<M.Meter>, prefix: string, xs: seq<Var>, ys: seq<Var>, col: Member)
    requires |xs| == |ys| == 1 && Lookup(xs[0], col.key) == Lookup(ys[0], col.key)
    ensures Table(c, ms, prefix, xs, [col], 0) == Table(c, ms, prefix, ys, [col], 0)
  {
    hide Put, Path, KindOf, AsType, Lookup;
    if KindOf(col.value).Some? {
      var t := KindOf(col.value).value;
      assert Row(c, t, xs, col.key, 1) == Row(c, t, ys, col.key, 1);
    }
  }

  /** Two columns, the second of no type, and the first alone: both are imported, to the same. */
  lemma {:induction false} ColumnLost(c: Libc, ms: seq<M.Meter>)
    ensures var a, b := Member("a", Int(1)), Member("b", Null);
      var both, one := Member("t", Arr([Dict([a, b])])), Member("t", Arr([Dict([a])]));
      Import(c, ms, Dict([both])) == Import(c, ms, Dict([one])) == Imported(true, Table(c, ms, "t", [Dict([a])], [a], 0))
  {
    var a, b := Member("a", Int(1)), Member("b", Null);
    var two, one := [Dict([a, b])], [Dict([a])];
    assert FirstBad("t", [a, b], 0) == FirstBad("t", [a, b], 1) == 1;
    assert FirstBad("t", [a], 0) == FirstBad("t", [a], 1) == 1;
    assert [a, b][..1] == [a] && [a][..1] == [a];
    assert Lookup(two[0], "a") == a.value == Lookup(one[0], "a");
    hide Table, Import1, Import, Lookup;
    TableDrops(c, ms, "t", two);
    TableDrops(c, ms, "t", one);
    SameTable(c, ms, "t", two, one, a);
    OneMember(c, ms, Member("t", Arr(two)));
    OneMember(c, ms, Member("t", Arr(one)));
  }
}
