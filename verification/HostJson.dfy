/** The loops of the import and of the JSON writer on a host's linked list. */
module HostJson {
  import opened Wrappers
  import opened HostImport
  import opened HostList
  import opened IdNames
  import opened Ids
  import opened Json
  import opened JsonCodec
  import opened PktCodec
  import opened Strings
  import M = Meters

  // ---- Importing ----

  /** Stores vals from index 0 on. */
  method FillMeter(h: Host, m: MeterNode, ghost at: nat, vals: seq<M.Value>)
    requires h.Valid() && at < |h.nodes| && m == h.nodes[at]
    modifies m`d
    ensures h.Valid() && h.Row() == old(h.Row())[at := Fill(old(h.Row())[at], vals, 0)]
  {
    hide M.SetValue, Host.Valid, HostList.Values;
    var pos := 0;
    ghost var row := h.Row();
    assert row[at := row[at]] == row;
    while pos < |vals|
      invariant 0 <= pos <= |vals| && h.Valid()
      invariant Fill(h.Row()[at], vals, pos) == Fill(row[at], vals, 0)
      invariant h.Row() == row[at := h.Row()[at]]
    {
      h.SetValueAt(m, at, pos, vals[pos]);
      pos := pos + 1;
    }
  }

  /** The meter of this name and type, sized and filled. */
  method PutMeter(h: Host, name: string, t: Id, count: nat, vals: seq<M.Value>)
    requires h.Valid()
    modifies h, h.nodes
    ensures h.Valid() && Grown(h) && h.Row() == Put(old(h.Row()), name, t, count, vals)
  {
    hide MakeId, M.SetCount, M.NewMeter, M.FindMeter, Fill, HostList.Values, Linked;
    var m, at := h.GetMeter(MakeId(name, t));
    h.SetCountAt(m, at, count);
    FillMeter(h, m, at, vals);
  }

  /** What the rows hold in one column. */
  method ReadColumn(c: Libc, t: Id, rows: seq<Var>, key: string, count: nat) returns (vals: seq<M.Value>)
    requires count <= |rows|
    ensures vals == Row(c, t, rows, key, count)
  {
    hide AsType, Lookup;
    vals := [];
    var pos := 0;
    while pos < count
      invariant 0 <= pos <= count && vals == Row(c, t, rows, key, pos)
    {
      vals := vals + [AsType(c, t, Lookup(rows[pos], key))];
      pos := pos + 1;
    }
  }

  /** dictarray_to_host. */
  method ImportTable(c: Libc, h: Host, prefix: string, rows: seq<Var>, cols: seq<Member>)
    requires h.Valid()
    modifies h, h.nodes
    ensures h.Valid() && Grown(h) && h.Row() == Table(c, old(h.Row()), prefix, rows, cols, 0)
  {
    hide Put, Path, Host.Valid, HostList.Values;
    var k := 0;
    while k < |cols| && |prefix| + |cols[k].key| <= 10 && KindOf(cols[k].value).Some?
      invariant 0 <= k <= |cols| && h.Valid() && Grown(h)
      invariant Table(c, h.Row(), prefix, rows, cols, k) == Table(c, old(h.Row()), prefix, rows, cols, 0)
    {
      var t := KindOf(cols[k].value).value;
      var count := Capped(|rows|);
      var vals := ReadColumn(c, t, rows, cols[k].key, count);
      PutMeter(h, Path(prefix, cols[k].key), t, count, vals);
      k := k + 1;
    }
  }

  method ImportGroup(c: Libc, h: Host, prefix: string, group: seq<Member>) returns (ok: bool)
    requires h.Valid()
    modifies h, h.nodes
    ensures h.Valid() && Grown(h) && Imported(ok, h.Row()) == Group(c, old(h.Row()), prefix, group, 0)
  {
    hide Put, Path, Host.Valid, HostList.Values;
    ok := true;
    var k := 0;
    while k < |group| && ok
      invariant 0 <= k <= |group| && h.Valid() && Grown(h)
      invariant if ok then Group(c, h.Row(), prefix, group, k) == Group(c, old(h.Row()), prefix, group, 0)
                else Imported(false, h.Row()) == Group(c, old(h.Row()), prefix, group, 0)
      decreases |group| - k, ok
    {
      var v := group[k].value;
      if |group[k].key| + |prefix| > 10 || v.Arr? {
        ok := false;
      } else {
        if KindOf(v).Some? {
          PutMeter(h, Path(prefix, group[k].key), KindOf(v).value, 0, [AsType(c, KindOf(v).value, v)]);
        }
        k := k + 1;
      }
    }
  }

  /** alive is false if a null string among strings stops the program. */
  method ImportArray(c: Libc, h: Host, key: string, es: seq<Var>) returns (ok: bool, alive: bool)
    requires h.Valid()
    modifies h, h.nodes
    ensures h.Valid() && Grown(h)
    ensures (if alive then Imported(ok, h.Row()) else Crashed) == Array(c, old(h.Row()), key, es)
  {
    hide Put, Table, Host.Valid, HostList.Values;
    ok, alive := true, true;
    if es == [] {
      PutMeter(h, key, TYPE_INT, M.EMPTY_ARRAY, []);
    } else if es[0].Arr? {
      ok := false;
    } else if es[0].Dict? {
      ImportTable(c, h, key, es, es[0].members);
    } else if KindOf(es[0]).Some? {
      var t, n := KindOf(es[0]).value, Capped(|es|);
      var vals, i := [], 0;
      while i < n && (t != TYPE_STR || es[i].Str?)
        invariant 0 <= i <= n && vals == Elems(c, t, es, i)
        invariant t == TYPE_STR ==> AllTexts(es, i)
      {
        vals := vals + [AsType(c, t, es[i])];
        i := i + 1;
      }
      if i < n {
        alive := false;
      } else {
        PutMeter(h, key, t, n, vals);
      }
    }
  }

  /** host_import. */
  method ImportHost(c: Libc, h: Host, v: Var) returns (ok: bool, alive: bool)
    requires h.Valid()
    modifies h, h.nodes
    ensures h.Valid() && Grown(h)
    ensures (if alive then Imported(ok, h.Row()) else Crashed) == Import(c, old(h.Row()), v)
  {
    hide Put, Array, Group, Host.Valid, HostList.Values;
    ok, alive := v.Dict?, true;
    if v.Dict? {
      var k := 0;
      while k < |v.members| && ok && alive
        invariant 0 <= k <= |v.members| && h.Valid() && Grown(h)
        invariant (if !alive then Crashed else if ok then ImportFrom(c, h.Row(), v.members, k) else Imported(false, h.Row()))
          == ImportFrom(c, old(h.Row()), v.members, 0)
      {
        var m := v.members[k];
        ok, alive := ImportOne(c, h, m);
        k := k + 1;
      }
    }
  }

  method ImportOne(c: Libc, h: Host, m: Member) returns (ok: bool, alive: bool)
    requires h.Valid()
    modifies h, h.nodes
    ensures h.Valid() && Grown(h)
    ensures (if alive then Imported(ok, h.Row()) else Crashed) == Import1(c, old(h.Row()), m)
  {
    hide Put, Array, Group, Host.Valid, HostList.Values;
    ok, alive := true, true;
    if |m.key| > 11 {
      ok := false;
    } else if m.value.Arr? {
      ok, alive := ImportArray(c, h, m.key, m.value.elems);
    } else if m.value.Dict? {
      ok := ImportGroup(c, h, m.key, m.value.members);
    } else if KindOf(m.value).Some? {
      PutMeter(h, m.key, KindOf(m.value).value, 0, [AsType(c, KindOf(m.value).value, m.value)]);
    }
  }

  // ---- Writing ----

  /** meter_next_sibling, with the place of what it found. */
  method FindSibling(h: Host, m: MeterNode, ghost i: nat) returns (crsr: MeterNode?, ghost j: nat)
    requires h.Valid() && i < |h.nodes| && m == h.nodes[i]
    ensures j == NextSibling(h.Row(), i) && crsr == NodeAt(h.nodes, j)
  {
    hide PathOf, Masked;
    var mask := PathOf(m.id);
    if mask == 0 {
      return null, |h.nodes|;
    }
    crsr, j := m.next, i + 1;
    while crsr != null && Masked(crsr.id, mask) != Masked(m.id, mask)
      invariant i < j <= |h.nodes| && crsr == NodeAt(h.nodes, j)
      invariant Agreeing(h.Row(), m.id, mask, j) == Agreeing(h.Row(), m.id, mask, i + 1)
      decreases |h.nodes| - j
    {
      crsr, j := crsr.next, j + 1;
    }
  }

  /** What is written and what is still to come. */
  function After<X>(done: seq<X>, rest: Option<seq<X>>): Option<seq<X>> {
    if rest.Some? then Some(done + rest.value) else None
  }

  lemma NothingDone<X>(rest: Option<seq<X>>)
    ensures After([], rest) == rest
  {
    if rest.Some? {
      assert [] + rest.value == rest.value;
    }
  }

  /** The siblings from k on, none at the end. */
  function SiblingsFrom(ms: seq<M.Meter>, k: nat, pos: nat): Option<seq<Member>> {
    if k < |ms| then Siblings(ms, k, pos) else Some([])
  }

  lemma SiblingStep(ms: seq<M.Meter>, k: nat, pos: nat, done: seq<Member>)
    requires k < |ms|
    ensures After(done, SiblingsFrom(ms, k, pos)) ==
      if Entry(ms[k], pos).None? then None
      else After(done + [Entry(ms[k], pos).value], SiblingsFrom(ms, NextSibling(ms, k), pos))
  {
    hide Entry, NextSibling;
    var rest := SiblingsFrom(ms, NextSibling(ms, k), pos);
    if Entry(ms[k], pos).Some? && rest.Some? {
      var e := Entry(ms[k], pos).value;
      assert done + ([e] + rest.value) == done + [e] + rest.value;
    }
  }

  /** jsoncodec_dump_val. */
  method DumpValue(m: MeterNode, pos: nat) returns (v: Option<Var>)
    ensures v == ValueAt(m.Value(), pos)
  {
    v := None;
    if m.count > M.EMPTY_VAL {
      v := Some(Null);
    } else if m.count < pos || m.count == M.EMPTY_VAL {
      if pos == 0 {
        v := Some(ZeroOf(TypeOf(m.id)));
      }
    } else if TypeOf(m.id) == TYPE_INT {
      if m.d.Ints? && pos < |m.d.ints| {
        v := Some(Int(m.d.ints[pos]));
      }
    } else if TypeOf(m.id) == TYPE_FRAC {
      if m.d.Fracs? && pos < |m.d.fracs| && m.d.fracs[pos].Finite? {
        v := Some(Dbl(Thousandths(m.d.fracs[pos].r)));
      }
    } else if TypeOf(m.id) == TYPE_STR {
      if m.d.Strs? && pos < |m.d.strs| {
        v := Some(Str(StringOf(m.d.strs[pos])));
      }
    } else {
      v := Some(Null);
    }
  }

  /** jsoncodec_dump_pathval: one entry for the meter and each of its siblings. */
  method DumpRow(h: Host, m: MeterNode, ghost i: nat, pos: nat) returns (row: Option<seq<Member>>)
    requires h.Valid() && i < |h.nodes| && m == h.nodes[i]
    ensures row == Siblings(h.Row(), i, pos)
  {
    hide Siblings, NextSibling, ValueAt, NodeName, NameOf, After, Linked, HostList.Values;
    row := Some([]);
    var mm: MeterNode? := m;
    ghost var k := i;
    NothingDone(SiblingsFrom(h.Row(), i, pos));
    while mm != null && row.Some?
      invariant k <= |h.nodes| && mm == NodeAt(h.nodes, k)
      invariant if row.Some? then After(row.value, SiblingsFrom(h.Row(), k, pos)) == Siblings(h.Row(), i, pos)
                else Siblings(h.Row(), i, pos) == None
      decreases |h.nodes| - k, row.Some?
    {
      NodeValue(h, mm, k);
      SiblingStep(h.Row(), k, pos, row.value);
      var v := DumpValue(mm, pos);
      if v.None? {
        row := None;
      } else {
        row := Some(row.value + [Member(NodeName(NameOf(mm.id)), v.value)]);
        mm, k := FindSibling(h, mm, k);
      }
    }
    if row.Some? {
      AllDone(row.value);
    }
  }

  lemma AllDone<X>(done: seq<X>)
    ensures After(done, Some([])) == Some(done)
  {
    assert done + [] == done;
  }

  lemma NodeValue(h: Host, m: MeterNode, i: nat)
    requires h.Valid() && i < |h.nodes| && m == h.nodes[i]
    ensures h.Row()[i] == m.Value()
  {
  }

  lemma RowStep(ms: seq<M.Meter>, i: nat, pos: nat, done: seq<Var>)
    requires i < |ms| && pos < ms[i].count
    ensures After(done, Rows(ms, i, pos)) ==
      if Siblings(ms, i, pos).None? then None else After(done + [Dict(Siblings(ms, i, pos).value)], Rows(ms, i, pos + 1))
  {
    hide Siblings;
    if Siblings(ms, i, pos).Some? && Rows(ms, i, pos + 1).Some? {
      var v := Dict(Siblings(ms, i, pos).value);
      assert done + ([v] + Rows(ms, i, pos + 1).value) == done + [v] + Rows(ms, i, pos + 1).value;
    }
  }

  /** What is written for a group: null, an empty array, its one row, or an array of its rows. */
  method DumpGroup(h: Host, m: MeterNode, ghost i: nat) returns (v: Option<Var>)
    requires h.Valid() && i < |h.nodes| && m == h.nodes[i]
    ensures v == GroupOf(h.Row(), i)
  {
    hide Siblings, Rows, After, Linked, HostList.Values;
    NodeValue(h, m, i);
    if m.count == M.EMPTY_VAL {
      v := Some(Null);
    } else if m.count == M.EMPTY_ARRAY {
      v := Some(Arr([]));
    } else if m.count == 0 {
      var row := DumpRow(h, m, i, 0);
      v := if row.Some? then Some(Dict(row.value)) else None;
    } else {
      var rows := DumpRows(h, m, i);
      v := if rows.Some? then Some(Arr(rows.value)) else None;
    }
  }

  method DumpRows(h: Host, m: MeterNode, ghost i: nat) returns (rows: Option<seq<Var>>)
    requires h.Valid() && i < |h.nodes| && m == h.nodes[i]
    ensures rows == Rows(h.Row(), i, 0)
  {
    hide Siblings, Rows, After, Linked, HostList.Values;
    NodeValue(h, m, i);
    rows := Some([]);
    var pos := 0;
    NothingDone(Rows(h.Row(), i, 0));
    while pos < m.count && rows.Some?
      invariant 0 <= pos <= m.count
      invariant if rows.Some? then After(rows.value, Rows(h.Row(), i, pos)) == Rows(h.Row(), i, 0) else Rows(h.Row(), i, 0) == None
      decreases m.count - pos
    {
      RowStep(h.Row(), i, pos, rows.value);
      var row := DumpRow(h, m, i, pos);
      rows := if row.Some? then Some(rows.value + [Dict(row.value)]) else None;
      pos := pos + 1;
    }
    if rows.Some? {
      NoRows(h.Row(), i, pos);
      AllDone(rows.value);
    }
  }

  lemma NoRows(ms: seq<M.Meter>, i: nat, pos: nat)
    requires i < |ms| && pos >= ms[i].count
    ensures Rows(ms, i, pos) == Some([])
  {
  }

  lemma ValueStep(m: M.Meter, pos: nat, done: seq<Var>)
    requires pos < m.count
    ensures After(done, JsonCodec.Values(m, pos)) ==
      if ValueAt(m, pos).None? then None else After(done + [ValueAt(m, pos).value], JsonCodec.Values(m, pos + 1))
  {
    hide ValueAt;
    if ValueAt(m, pos).Some? && JsonCodec.Values(m, pos + 1).Some? {
      var v := ValueAt(m, pos).value;
      assert done + ([v] + JsonCodec.Values(m, pos + 1).value) == done + [v] + JsonCodec.Values(m, pos + 1).value;
    }
  }

  /** What is written for a meter without a path. */
  method DumpPlain(m: MeterNode) returns (v: Option<Var>)
    ensures v == PlainOf(m.Value())
  {
    hide ValueAt, After;
    ghost var meter := m.Value();
    if m.count == M.EMPTY_VAL {
      v := Some(Null);
    } else if m.count == M.EMPTY_ARRAY {
      v := Some(Arr([]));
    } else if m.count == 0 {
      v := DumpValue(m, 0);
    } else {
      var vs: Option<seq<Var>> := Some([]);
      var pos := 0;
      NothingDone(JsonCodec.Values(meter, 0));
      while pos < m.count && vs.Some?
        invariant 0 <= pos <= m.count
        invariant if vs.Some? then After(vs.value, JsonCodec.Values(meter, pos)) == JsonCodec.Values(meter, 0)
                  else JsonCodec.Values(meter, 0) == None
        decreases m.count - pos
      {
        ValueStep(meter, pos, vs.value);
        var x := DumpValue(m, pos);
        vs := if x.Some? then Some(vs.value + [x.value]) else None;
        pos := pos + 1;
      }
      if vs.Some? {
        AllDone(vs.value);
      }
      v := if vs.Some? then Some(Arr(vs.value)) else None;
    }
  }

  lemma MemberStep(ms: seq<M.Meter>, i: nat, paths: seq<Id>, done: seq<Member>, m: Option<Member>, rest: Option<seq<Member>>)
    requires ExportFrom(ms, i, paths) == Cons(m, rest)
    ensures After(done, ExportFrom(ms, i, paths)) == if m.None? then None else After(done + [m.value], rest)
  {
    hide ExportFrom;
    if m.Some? && rest.Some? {
      assert done + ([m.value] + rest.value) == done + [m.value] + rest.value;
    }
  }

  /** jsoncodec_encode_host, the output as a tree. */
  method EncodeJson(h: Host) returns (res: Option<seq<Member>>)
    requires h.Valid()
    ensures res == ExportFrom(h.Row(), 0, [])
  {
    hide PathOf, Masked, IdName, PlainOf, GroupOf, After, ExportFrom, Linked, HostList.Values;
    res := Some([]);
    var paths: seq<Id> := [];
    var m := h.first;
    ghost var i := 0;
    NothingDone(ExportFrom(h.Row(), 0, []));
    while m != null && res.Some?
      invariant i <= |h.nodes| && m == NodeAt(h.nodes, i)
      invariant if res.Some? then After(res.value, ExportFrom(h.Row(), i, paths)) == ExportFrom(h.Row(), 0, [])
                else ExportFrom(h.Row(), 0, []) == None
      decreases |h.nodes| - i
    {
      res, paths := EncodeMeter(h, m, i, res.value, paths);
      NextMeter(h, m, i);
      m, i := m.next, i + 1;
    }
    if res.Some? {
      NoMeters(h.Row(), i, paths);
      AllDone(res.value);
    }
  }

  lemma NextMeter(h: Host, m: MeterNode, i: nat)
    requires h.Valid() && i < |h.nodes| && m == h.nodes[i]
    ensures m.next == NodeAt(h.nodes, i + 1)
  {
  }

  lemma NoMeters(ms: seq<M.Meter>, i: nat, paths: seq<Id>)
    requires i >= |ms|
    ensures ExportFrom(ms, i, paths) == Some([])
  {
  }

  /** One round of the loop: the meter is written, or passed over as part of a group already
      written. */
  method EncodeMeter(h: Host, m: MeterNode, ghost i: nat, done: seq<Member>, paths: seq<Id>)
    returns (res: Option<seq<Member>>, paths': seq<Id>)
    requires h.Valid() && i < |h.nodes| && m == h.nodes[i]
    ensures After(done, ExportFrom(h.Row(), i, paths)) == if res.None? then None else After(res.value, ExportFrom(h.Row(), i + 1, paths'))
  {
    hide PathOf, Masked, IdName, PlainOf, GroupOf, After, Linked, HostList.Values;
    NodeValue(h, m, i);
    paths' := paths;
    var mask := PathOf(m.id);
    var path := Masked(m.id, mask);
    if mask == 0 {
      var v := DumpPlain(m);
      MemberStep(h.Row(), i, paths, done, Named(IdName(m.id), v), ExportFrom(h.Row(), i + 1, paths));
      res := if v.Some? then Some(done + [Member(IdName(m.id), v.value)]) else None;
    } else if path in paths {
      res := Some(done);
    } else if |paths| >= MAX_PATHS {
      NothingAfter(done);
      res := None;
    } else {
      var v := DumpGroup(h, m, i);
      paths' := paths + [path];
      MemberStep(h.Row(), i, paths, done, Named(IdName(path), v), ExportFrom(h.Row(), i + 1, paths'));
      res := if v.Some? then Some(done + [Member(IdName(path), v.value)]) else None;
    }
  }

  lemma NothingAfter(done: seq<Member>)
    ensures After(done, None) == None
  {
  }
}
