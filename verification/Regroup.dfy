/** What comes of importing a permitted tree into a fresh host and writing the host out again: the
    same tree, doubles in thousandths, unless a group takes in a later member. */
module Regroup {
  import opened Wrappers
  import opened Flattening
  import opened HostImport
  import opened IdNames
  import opened Ids
  import opened Json
  import opened JsonCodec
  import opened Strings
  import M = Meters

  // ---- What the writer makes of a tree ----

  function Rendered(v: Var): Var {
    match v
    case Dbl(r) => Dbl(Thousandths(r))
    case Dict(ms) => Dict(RenderedMembers(v, ms))
    case Arr(es) => Arr(RenderedElems(v, es))
    case _ => v
  }

  function RenderedMembers(v: Var, ms: seq<Member>): (r: seq<Member>)
    requires v == Dict(ms)
    ensures |r| == |ms|
    decreases v, 0
  {
    seq(|ms|, i requires 0 <= i < |ms| => Member(ms[i].key, Rendered(ms[i].value)))
  }

  function RenderedElems(v: Var, es: seq<Var>): (r: seq<Var>)
    requires v == Arr(es)
    ensures |r| == |es|
    decreases v, 0
  {
    seq(|es|, i requires 0 <= i < |es| => Rendered(es[i]))
  }

  // ---- Where a member's meters are ----

  lemma {:induction false} Locate(members: seq<Member>, n: nat, i: nat) returns (k: nat, j: nat)
    requires AllGood(members) && n <= |members| && i < |Blocks(members, n)|
    ensures k < n && j < |Flatten(members[k])| && i == |Blocks(members, k)| + j
    ensures Blocks(members, n)[i] == Flatten(members[k])[j]
  {
    hide Flatten, GoodMember;
    var before := Blocks(members, n - 1);
    if i < |before| {
      k, j := Locate(members, n - 1, i);
    } else {
      k, j := n - 1, i - |before|;
    }
  }

  lemma {:induction false} BlocksGrow(members: seq<Member>, k: nat, n: nat)
    requires AllGood(members) && k < n <= |members|
    ensures |Blocks(members, k)| + |Flatten(members[k])| == |Blocks(members, k + 1)| <= |Blocks(members, n)|
    ensures forall j :: 0 <= j < |Flatten(members[k])| ==> Blocks(members, n)[|Blocks(members, k)| + j] == Flatten(members[k])[j]
  {
    hide Flatten, GoodMember, Blocks;
    NextBlock(members, k);
    if k + 1 < n {
      NextBlock(members, n - 1);
      BlocksGrow(members, k, n - 1);
    }
  }

  lemma NextBlock(members: seq<Member>, n: nat)
    requires AllGood(members) && n < |members|
    ensures Blocks(members, n + 1) == Blocks(members, n) + Flatten(members[n])
  {
    hide Flatten, GoodMember;
  }

  // ---- One value ----

  lemma ValueBack(name: string, t: Id, count: nat, vals: seq<Var>, pos: nat)
    requires IsType(t) && AllOf(t, vals) && |vals| == M.Elements(count) && count <= MAX_ARRAY && pos < |vals|
    ensures ValueAt(Column(name, t, count, vals), pos) == Some(Rendered(vals[pos]))
  {
    MadeId(name, t);
    TypesDiffer();
    hide MakeId, TypeOf, BytesOf, StringOf;
    assert GoodScalar(vals[pos]) && KindOf(vals[pos]) == Some(t);
    if vals[pos].Str? {
      TextBack(vals[pos].s);
    }
  }

  function RenderAll(vals: seq<Var>): (r: seq<Var>)
    ensures |r| == |vals|
  {
    seq(|vals|, i requires 0 <= i < |vals| => Rendered(vals[i]))
  }

  lemma {:induction false} ValuesBack(name: string, t: Id, count: nat, vals: seq<Var>, pos: nat)
    requires IsType(t) && AllOf(t, vals) && |vals| == count && 0 < count <= MAX_ARRAY && pos <= count
    ensures Values(Column(name, t, count, vals), pos) == Some(RenderAll(vals[pos..]))
    decreases count - pos
  {
    hide AllOf, IsType, ValueAt, Rendered, Column;
    ColumnCount(name, t, count, vals);
    if pos < count {
      ValueBack(name, t, count, vals, pos);
      ValuesBack(name, t, count, vals, pos + 1);
      assert [Rendered(vals[pos])] + RenderAll(vals[pos + 1..]) == RenderAll(vals[pos..]);
    } else {
      assert RenderAll(vals[pos..]) == [];
    }
  }

  lemma ColumnCount(name: string, t: Id, count: nat, vals: seq<Var>)
    ensures Column(name, t, count, vals).count == count
  {
  }

  /** A plain member's meter spells and holds what the member does. */
  lemma PlainBack(m: Member)
    requires GoodMember(m) && !Grouped(m)
    ensures |Flatten(m)| == 1
    ensures PathOf(Flatten(m)[0].id) == 0 && IdName(Flatten(m)[0].id) == m.key
    ensures PlainOf(Flatten(m)[0]) == Some(Rendered(m.value))
  {
    FlattenId(m, 0);
    PlainValue(m);
    var id := Flatten(m)[0].id;
    MakeSpells(m.key, TypeIn(m, 0));
    PlainPath(id, m.key);
    SpelledName(id, m.key);
  }

  lemma PlainValue(m: Member)
    requires GoodMember(m) && !Grouped(m) && |Flatten(m)| == 1
    ensures PlainOf(Flatten(m)[0]) == Some(Rendered(m.value))
  {
    hide MakeId, ValueAt, Values, IsType, AllOf, DataOf;
    if m.value.Arr? {
      var es := m.value.elems;
      if es == [] {
        assert RenderedElems(m.value, es) == [];
      } else {
        PlainMember(m.key, es);
        KindIsType(es[0]);
        ElemsAll(es);
        ValuesBack(m.key, TypeFor(es[0]), |es|, es, 0);
        assert es[0..] == es && RenderAll(es) == RenderedElems(m.value, es);
      }
    } else {
      KindIsType(m.value);
      ScalarAll(m.value);
      ValueBack(m.key, TypeFor(m.value), 0, [m.value], 0);
    }
  }

  lemma ElemsAll(es: seq<Var>)
    requires es != [] && GoodElems(es)
    ensures AllOf(TypeFor(es[0]), es)
  {
    KindIsType(es[0]);
  }

  // ---- The meters of a group ----

  /** The id of the group itself: its meters' ids under their path. */
  function GroupId(m: Member): Id
    requires GoodMember(m) && Flatten(m) != []
  {
    Masked(Flatten(m)[0].id, PathOf(Flatten(m)[0].id))
  }

  /** Meter j of a group has the group's path, its id, and column j's name. */
  lemma GroupMeter(m: Member, j: nat)
    requires GoodMember(m) && Grouped(m) && j < |Flatten(m)|
    ensures PathOf(Flatten(m)[j].id) != 0 && PathOf(Flatten(m)[j].id) == PathOf(Flatten(m)[0].id)
    ensures Masked(Flatten(m)[j].id, PathOf(Flatten(m)[j].id)) == GroupId(m)
    ensures Spells(GroupId(m), m.key)
    ensures j < |ColsOf(m)| && NodeName(NameOf(Flatten(m)[j].id)) == ColsOf(m)[j].key
  {
    FlattenId(m, j);
    FlattenId(m, 0);
    hide Flatten, MakeId, GoodMember, IsName, IsType, Masked, PathMask, PathOf, Spells, NodeName, NameOf, Path, IsPath;
    var x, y := Flatten(m)[j].id, Flatten(m)[0].id;
    var q, q0 := ColsOf(m)[j].key, ColsOf(m)[0].key;
    MakeSpells(NameIn(m, j), TypeIn(m, j));
    MakeSpells(NameIn(m, 0), TypeIn(m, 0));
    TwoParts(x, m.key, q);
    TwoParts(y, m.key, q0);
    PathStarts(m.key, q);
    SharesPath(y, m.key, q0, x, NameIn(m, j));
    NameSpells(x, NameIn(m, j));
    NodeIsPart(NameOf(x), m.key, q);
  }

  lemma PathStarts(p: string, q: string)
    ensures StartsWith(Path(p, q), p)
  {
  }

  lemma NameSpells(x: Id, name: string)
    requires Spells(x, name)
    ensures Spells(NameOf(x), name)
  {
    hide LetterCode, NameOf;
    forall k | 0 <= k < LETTERS ensures LetterCode(NameOf(x), k) == LetterCode(x, k) {
      NameLetter(x, k);
    }
  }

  lemma StartOfPath(p: string, key: string, q: string)
    requires '/' !in p && StartsWith(Path(key, q), p)
    ensures StartsWith(key, p)
  {
    var name := Path(key, q);
    assert name[|key|] == '/';
    assert forall i :: 0 <= i < |p| ==> name[..|p|][i] == name[i] && p[i] in p;
    assert |p| <= |key|;
    assert name[..|p|] == key[..|p|];
  }

  /** No meter of another member starts like the group. */
  lemma OtherStarts(m: Member, n: Member, j: nat)
    requires GoodMember(m) && GoodMember(n) && j < |Flatten(n)| && !StartsWith(n.key, m.key)
    ensures !StartsWith(NameIn(n, j), m.key)
  {
    hide StartsWith, Path;
    if Grouped(n) && j < |ColsOf(n)| && StartsWith(NameIn(n, j), m.key) {
      StartOfPath(m.key, n.key, ColsOf(n)[j].key);
    }
  }

  lemma OtherDisagrees(m: Member, i: nat, n: Member, j: nat)
    requires GoodMember(m) && Grouped(m) && GoodMember(n) && i < |Flatten(m)| && j < |Flatten(n)| && !StartsWith(n.key, m.key)
    ensures var x := Flatten(m)[i].id; Masked(Flatten(n)[j].id, PathOf(x)) != Masked(x, PathOf(x))
  {
    FlattenId(m, i);
    FlattenId(n, j);
    OtherStarts(m, n, j);
    hide Flatten, MakeId, GoodMember, IsName, IsType, Masked, PathOf, Spells, Path, IsPath, StartsWith;
    MakeSpells(NameIn(m, i), TypeIn(m, i));
    MakeSpells(NameIn(n, j), TypeIn(n, j));
    SharesPath(Flatten(m)[i].id, m.key, ColsOf(m)[i].key, Flatten(n)[j].id, NameIn(n, j));
  }

  lemma GroupName(m: Member)
    requires GoodMember(m) && Grouped(m) && Flatten(m) != []
    ensures IdName(GroupId(m)) == m.key
  {
    GroupMeter(m, 0);
    PartIsName(m.key);
    SpelledName(GroupId(m), m.key);
  }

  /** Different groups have different ids. */
  lemma GroupIdsApart(m: Member, n: Member)
    requires GoodMember(m) && Grouped(m) && Flatten(m) != [] && GoodMember(n) && Grouped(n) && Flatten(n) != []
    requires m.key != n.key
    ensures GroupId(m) != GroupId(n)
  {
    GroupName(m);
    GroupName(n);
  }

  // ---- The entries of a group ----

  lemma {:induction false} NoneAgrees(ms: seq<M.Meter>, x: Id, mask: Id, i: nat)
    requires i <= |ms| && forall k :: i <= k < |ms| ==> Masked(ms[k].id, mask) != Masked(x, mask)
    ensures Agreeing(ms, x, mask, i) == |ms|
    decreases |ms| - i
  {
    hide Masked;
    if i < |ms| {
      NoneAgrees(ms, x, mask, i + 1);
    }
  }

  /** The meters from o on are a block whose meters share a path with each other, and with none
      after them. */
  predicate IsBlock(ms: seq<M.Meter>, o: nat, block: seq<M.Meter>, mask: Id, path: Id) {
    && o + |block| <= |ms| && mask != 0
    && (forall j :: 0 <= j < |block| ==> ms[o + j] == block[j])
    && (forall j :: 0 <= j < |block| ==> PathOf(block[j].id) == mask && Masked(block[j].id, mask) == path)
    && (forall i :: o + |block| <= i < |ms| ==> Masked(ms[i].id, mask) != path)
  }

  lemma NextInBlock(ms: seq<M.Meter>, o: nat, block: seq<M.Meter>, mask: Id, path: Id, j: nat)
    requires IsBlock(ms, o, block, mask, path) && j < |block|
    ensures NextSibling(ms, o + j) == if j + 1 < |block| then o + j + 1 else |ms|
  {
    hide Masked, PathOf;
    assert ms[o + j] == block[j];
    if j + 1 < |block| {
      assert ms[o + (j + 1)] == block[j + 1];
    } else {
      NoneAgrees(ms, block[j].id, mask, o + j + 1);
    }
  }

  lemma {:induction false} SiblingsInBlock(ms: seq<M.Meter>, o: nat, block: seq<M.Meter>, mask: Id, path: Id, row: seq<Member>, j: nat, pos: nat)
    requires IsBlock(ms, o, block, mask, path) && j < |block| == |row|
    requires forall i :: 0 <= i < |block| ==> Entry(block[i], pos) == Some(row[i])
    ensures Siblings(ms, o + j, pos) == Some(row[j..])
    decreases |block| - j
  {
    hide Entry, NextSibling, Masked, PathOf;
    NextInBlock(ms, o, block, mask, path, j);
    assert ms[o + j] == block[j];
    if j + 1 < |block| {
      SiblingsInBlock(ms, o, block, mask, path, row, j + 1, pos);
      assert [row[j]] + row[j + 1..] == row[j..];
    } else {
      assert [row[j]] + [] == row[j..];
    }
  }

  /** Row pos of a group as the writer renders it, from column j on. */
  function RenderRow(row: seq<Member>): (r: seq<Member>)
    ensures |r| == |row|
  {
    seq(|row|, i requires 0 <= i < |row| => Member(row[i].key, Rendered(row[i].value)))
  }

  lemma EntryBack(m: Member, j: nat, pos: nat)
    requires GoodMember(m) && Grouped(m) && j < |Flatten(m)| && pos < |RowsOf(m)|
    ensures j < |RowsOf(m)[pos]| && Entry(Flatten(m)[j], pos) == Some(Member(RowsOf(m)[pos][j].key, Rendered(RowsOf(m)[pos][j].value)))
  {
    GroupMeter(m, j);
    RowShape(m, pos);
    EntryValue(m, j, pos);
    hide Flatten, GoodMember, RowsOf, ColsOf, Grouped, ValueAt, NodeName, NameOf, Spells, PathOf, Masked, Rendered;
  }

  lemma EntryValue(m: Member, j: nat, pos: nat)
    requires GoodMember(m) && Grouped(m) && j < |Flatten(m)| && pos < |RowsOf(m)|
    ensures j < |RowsOf(m)[pos]| && ValueAt(Flatten(m)[j], pos) == Some(Rendered(RowsOf(m)[pos][j].value))
  {
    GroupShape(m);
    FlattenId(m, j);
    RowShape(m, pos);
    ColumnGood(m, j);
    var vals := ColumnOf(RowsOf(m), j);
    hide Flatten, GoodMember, RowsOf, Column, MakeId, AllOf, IsType, ValueAt, GoodColumns, Rendered, IsPath, IsName;
    ValueBack(NameIn(m, j), TypeIn(m, j), GroupCount(m), vals, pos);
  }

  lemma ColumnGood(m: Member, j: nat)
    requires GoodMember(m) && Grouped(m) && j < |ColsOf(m)|
    requires forall r :: 0 <= r < |RowsOf(m)| ==> j < |RowsOf(m)[r]|
    ensures AllOf(TypeIn(m, j), ColumnOf(RowsOf(m), j))
  {
    GroupShape(m);
    hide Flatten, GoodMember, RowsOf, GoodColumns;
    forall r | 0 <= r < |RowsOf(m)|
      ensures GoodScalar(RowsOf(m)[r][j].value) && KindOf(RowsOf(m)[r][j].value) == Some(TypeIn(m, j))
    {
      assert SameShape(ColsOf(m), RowsOf(m)[r]);
      assert SameShape(ColsOf(m), RowsOf(m)[0]);
      KindIsType(ColsOf(m)[j].value);
    }
  }

  /** Every entry of row pos. */
  lemma RowBack(m: Member, pos: nat)
    requires GoodMember(m) && Grouped(m) && Flatten(m) != [] && pos < |RowsOf(m)|
    ensures |RowsOf(m)[pos]| == |Flatten(m)|
    ensures forall j :: 0 <= j < |Flatten(m)| ==> Entry(Flatten(m)[j], pos) == Some(RenderRow(RowsOf(m)[pos])[j])
  {
    FlattenId(m, 0);
    RowShape(m, pos);
    hide Flatten, GoodMember, Entry, RowsOf, Rendered, MakeId;
    forall j | 0 <= j < |Flatten(m)| ensures Entry(Flatten(m)[j], pos) == Some(RenderRow(RowsOf(m)[pos])[j]) {
      EntryBack(m, j, pos);
    }
  }

  lemma RowShape(m: Member, pos: nat)
    requires GoodMember(m) && Grouped(m) && pos < |RowsOf(m)|
    ensures SameShape(ColsOf(m), RowsOf(m)[pos]) && |RowsOf(m)[pos]| == |ColsOf(m)|
  {
    GroupShape(m);
  }

  function Dicts(rows: seq<seq<Member>>): (r: seq<Var>)
    ensures |r| == |rows|
  {
    seq(|rows|, i requires 0 <= i < |rows| => Dict(rows[i]))
  }

  /** The block's entries are those of the rows. */
  predicate Rendering(block: seq<M.Meter>, rows: seq<seq<Member>>) {
    forall r :: 0 <= r < |rows| ==>
      |rows[r]| == |block| && forall i :: 0 <= i < |block| ==> Entry(block[i], r) == Some(rows[r][i])
  }

  lemma {:induction false} RowsInBlock(ms: seq<M.Meter>, o: nat, block: seq<M.Meter>, mask: Id, path: Id, rows: seq<seq<Member>>, pos: nat)
    requires IsBlock(ms, o, block, mask, path) && block != [] && block[0].count == |rows| && Rendering(block, rows) && pos <= |rows|
    ensures Rows(ms, o, pos) == Some(Dicts(rows[pos..]))
    decreases |rows| - pos
  {
    hide Entry, Siblings, Masked, PathOf;
    assert ms[o + 0] == block[0];
    if pos < |rows| {
      SiblingsInBlock(ms, o, block, mask, path, rows[pos], 0, pos);
      assert rows[pos][0..] == rows[pos];
      RowsInBlock(ms, o, block, mask, path, rows, pos + 1);
      assert [Dict(rows[pos])] + Dicts(rows[pos + 1..]) == Dicts(rows[pos..]);
    } else {
      assert Dicts(rows[pos..]) == [];
    }
  }

  function RenderRows(rows: seq<seq<Member>>): (r: seq<seq<Member>>)
    ensures |r| == |rows|
  {
    seq(|rows|, i requires 0 <= i < |rows| => RenderRow(rows[i]))
  }

  lemma GroupRendering(m: Member)
    requires GoodMember(m) && Grouped(m) && Flatten(m) != []
    ensures Rendering(Flatten(m), RenderRows(RowsOf(m)))
    ensures Flatten(m)[0].count == GroupCount(m)
  {
    FlattenId(m, 0);
    GroupShape(m);
    hide Flatten, GoodMember, Entry, RowsOf, RenderRow, GoodColumns;
    forall r | 0 <= r < |RowsOf(m)|
      ensures |RenderRow(RowsOf(m)[r])| == |Flatten(m)|
      ensures forall i :: 0 <= i < |Flatten(m)| ==> Entry(Flatten(m)[i], r) == Some(RenderRow(RowsOf(m)[r])[i])
    {
      RowBack(m, r);
    }
  }

  lemma RenderedGroup(m: Member)
    requires GoodMember(m) && Grouped(m)
    ensures m.value.Dict? ==> Rendered(m.value) == Dict(RenderRow(RowsOf(m)[0]))
    ensures m.value.Arr? ==> Rendered(m.value) == Arr(Dicts(RenderRows(RowsOf(m)))) && GroupCount(m) == |RowsOf(m)| > 0
  {
    if m.value.Dict? {
      assert RenderRow(m.value.members) == RenderedMembers(m.value, m.value.members);
    } else {
      var es := m.value.elems;
      TableShape(m.key, es);
      forall i | 0 <= i < |es| ensures Rendered(es[i]) == Dict(RenderRow(MembersOfAll(es)[i])) {
        assert RenderRow(es[i].members) == RenderedMembers(es[i], es[i].members);
      }
      assert RenderedElems(m.value, es) == Dicts(RenderRows(MembersOfAll(es)));
    }
  }

  lemma OneRowGroup(ms: seq<M.Meter>, o: nat, block: seq<M.Meter>, mask: Id, path: Id, rows: seq<seq<Member>>)
    requires IsBlock(ms, o, block, mask, path) && block != [] && block[0].count == 0 && Rendering(block, rows) && |rows| == 1
    ensures o < |ms| && GroupOf(ms, o) == Some(Dict(rows[0]))
  {
    hide Entry, Siblings, Masked, PathOf;
    SiblingsInBlock(ms, o, block, mask, path, rows[0], 0, 0);
    assert rows[0][0..] == rows[0];
    assert ms[o + 0] == block[0];
  }

  lemma TableGroup(ms: seq<M.Meter>, o: nat, block: seq<M.Meter>, mask: Id, path: Id, rows: seq<seq<Member>>)
    requires IsBlock(ms, o, block, mask, path) && block != [] && block[0].count == |rows| && Rendering(block, rows)
    requires 0 < |rows| <= MAX_ARRAY
    ensures o < |ms| && GroupOf(ms, o) == Some(Arr(Dicts(rows)))
  {
    hide Entry, Rows, Masked, PathOf, Rendering;
    RowsInBlock(ms, o, block, mask, path, rows, 0);
    assert rows[0..] == rows;
    assert ms[o + 0] == block[0];
  }

  /** A group is written as the member it came from. */
  lemma GroupBack(ms: seq<M.Meter>, o: nat, m: Member, mask: Id, path: Id)
    requires GoodMember(m) && Grouped(m) && Flatten(m) != [] && IsBlock(ms, o, Flatten(m), mask, path)
    ensures o < |ms| && GroupOf(ms, o) == Some(Rendered(m.value))
  {
    GroupRendering(m);
    RenderedGroup(m);
    CountBounds(m);
    hide Flatten, GoodMember, RowsOf, RenderRow, Rendered, Rendering, IsBlock, GroupOf;
    if m.value.Dict? {
      OneRowGroup(ms, o, Flatten(m), mask, path, RenderRows(RowsOf(m)));
    } else {
      TableGroup(ms, o, Flatten(m), mask, path, RenderRows(RowsOf(m)));
    }
  }

  lemma CountBounds(m: Member)
    requires GoodMember(m) && Grouped(m)
    ensures m.value.Dict? ==> GroupCount(m) == 0 && |RowsOf(m)| == 1
    ensures m.value.Arr? ==> 0 < GroupCount(m) == |RowsOf(m)| <= MAX_ARRAY
  {
  }

  /** The rest of a group already written is passed over. */
  lemma {:induction false} SkipBlock(ms: seq<M.Meter>, o: nat, block: seq<M.Meter>, mask: Id, path: Id, paths: seq<Id>, j: nat)
    requires IsBlock(ms, o, block, mask, path) && j <= |block| && path in paths
    ensures ExportFrom(ms, o + j, paths) == ExportFrom(ms, o + |block|, paths)
    decreases |block| - j
  {
    hide Masked, PathOf, GroupOf, PlainOf;
    if j < |block| {
      assert ms[o + j] == block[j];
      SkipBlock(ms, o, block, mask, path, paths, j + 1);
    }
  }

  // ---- The whole tree ----

  /** The ids of the groups among the first n members. */
  function GroupIds(members: seq<Member>, n: nat): (ids: seq<Id>)
    requires n <= |members| && AllGood(members)
    ensures |ids| == Groups(members, n)
  {
    if n == 0 then []
    else
      var before := GroupIds(members, n - 1);
      if Grouped(members[n - 1]) then
        GroupMeters(members[n - 1]);
        before + [GroupId(members[n - 1])]
      else before
  }

  lemma GroupMeters(m: Member)
    requires GoodMember(m) && Grouped(m)
    ensures Flatten(m) != []
  {
    GroupShape(m);
  }

  lemma {:induction false} GroupsGrow(members: seq<Member>, k: nat, n: nat)
    requires k <= n <= |members|
    ensures Groups(members, k) <= Groups(members, n)
  {
    if k < n {
      GroupsGrow(members, k, n - 1);
    }
  }

  lemma {:induction false} IdIsNew(members: seq<Member>, n: nat, k: nat)
    requires AllGood(members) && n <= k < |members| && Grouped(members[k]) && Flatten(members[k]) != []
    ensures GroupId(members[k]) !in GroupIds(members, n)
  {
    hide Flatten, GoodMember, GroupId, Grouped;
    if n > 0 {
      IdIsNew(members, n - 1, k);
      if Grouped(members[n - 1]) {
        GroupMeters(members[n - 1]);
        GroupIdsApart(members[k], members[n - 1]);
      }
    }
  }

  lemma GoodAt(members: seq<Member>, k: nat)
    requires AllGood(members) && k < |members|
    ensures GoodMember(members[k])
  {
  }

  /** Where a group's meters are, they form a block. */
  lemma BlockOf(members: seq<Member>, k: nat)
    requires AllGood(members) && k < |members| && GoodMember(members[k]) && Untaken(members, k)
    requires Grouped(members[k]) && Flatten(members[k]) != []
    ensures IsBlock(Blocks(members, |members|), |Blocks(members, k)|, Flatten(members[k]),
                    PathOf(Flatten(members[k])[0].id), GroupId(members[k]))
  {
    BlocksGrow(members, k, |members|);
    OnePath(members[k]);
    AllLater(members, k);
    hide Blocks, Flatten, GoodMember, AllGood, GroupId, Masked, PathOf, Grouped;
  }

  lemma AllLater(members: seq<Member>, k: nat)
    requires AllGood(members) && k < |members| && GoodMember(members[k]) && Untaken(members, k)
    requires Grouped(members[k]) && Flatten(members[k]) != []
    ensures forall i :: |Blocks(members, k)| + |Flatten(members[k])| <= i < |Blocks(members, |members|)| ==>
      Masked(Blocks(members, |members|)[i].id, PathOf(Flatten(members[k])[0].id)) != GroupId(members[k])
  {
    hide Blocks, Flatten, GoodMember, AllGood, GroupId, Masked, PathOf, Grouped;
    forall i | |Blocks(members, k)| + |Flatten(members[k])| <= i < |Blocks(members, |members|)|
      ensures Masked(Blocks(members, |members|)[i].id, PathOf(Flatten(members[k])[0].id)) != GroupId(members[k])
    {
      LaterDisagrees(members, k, i);
    }
  }

  lemma OnePath(m: Member)
    requires GoodMember(m) && Grouped(m) && Flatten(m) != []
    ensures var mask := PathOf(Flatten(m)[0].id);
      mask != 0 && forall j :: 0 <= j < |Flatten(m)| ==> PathOf(Flatten(m)[j].id) == mask && Masked(Flatten(m)[j].id, mask) == GroupId(m)
  {
    hide Flatten, GoodMember, GroupId, Masked, PathOf, Spells, NodeName, NameOf, Grouped, ColsOf;
    forall j | 0 <= j < |Flatten(m)|
      ensures PathOf(Flatten(m)[j].id) == PathOf(Flatten(m)[0].id) != 0
      ensures Masked(Flatten(m)[j].id, PathOf(Flatten(m)[j].id)) == GroupId(m)
    {
      GroupMeter(m, j);
    }
    assert PathOf(Flatten(m)[0].id) != 0;
  }

  /** The meters up to member k are no more than those before member k and its own. */
  lemma UpTo(members: seq<Member>, n: nat, k: nat)
    requires AllGood(members) && n <= k < |members|
    ensures |Blocks(members, n)| + |Flatten(members[n])| <= |Blocks(members, k)| + |Flatten(members[k])|
  {
    hide Blocks, Flatten;
    BlocksGrow(members, n, k + 1);
    BlocksGrow(members, k, k + 1);
  }

  lemma LaterDisagrees(members: seq<Member>, k: nat, i: nat)
    requires AllGood(members) && k < |members| && GoodMember(members[k]) && Untaken(members, k)
    requires Grouped(members[k]) && Flatten(members[k]) != []
    requires |Blocks(members, k)| + |Flatten(members[k])| <= i < |Blocks(members, |members|)|
    ensures Masked(Blocks(members, |members|)[i].id, PathOf(Flatten(members[k])[0].id)) != GroupId(members[k])
  {
    hide Blocks, Flatten, GoodMember, Masked, PathOf, StartsWith, Grouped, AllGood;
    var n, j := Locate(members, |members|, i);
    GoodAt(members, n);
    if n <= k {
      UpTo(members, n, k);
      assert false;
    }
    OtherDisagrees(members[k], 0, members[n], j);
  }

  /** What is written from member k on. */
  function Written(members: seq<Member>, k: nat): Option<seq<Member>>
    requires k <= |members| && AllGood(members)
  {
    ExportFrom(Blocks(members, |members|), |Blocks(members, k)|, GroupIds(members, k))
  }

  lemma WriteOne(ms: seq<M.Meter>, o: nat, mask: Id, path: Id, paths: seq<Id>, key: string, v: Var)
    requires o < |ms| && PathOf(ms[o].id) == mask != 0 && Masked(ms[o].id, mask) == path && path !in paths && |paths| < MAX_PATHS
    requires IdName(path) == key && GroupOf(ms, o) == Some(v)
    ensures ExportFrom(ms, o, paths) == Cons(Some(Member(key, v)), ExportFrom(ms, o + 1, paths + [path]))
  {
    hide PathOf, Masked, IdName, GroupOf;
  }

  lemma WriteBlock(ms: seq<M.Meter>, o: nat, block: seq<M.Meter>, mask: Id, path: Id, paths: seq<Id>, key: string, v: Var)
    requires IsBlock(ms, o, block, mask, path) && block != [] && path !in paths && |paths| < MAX_PATHS
    requires IdName(path) == key && GroupOf(ms, o) == Some(v)
    ensures ExportFrom(ms, o, paths) == Cons(Some(Member(key, v)), ExportFrom(ms, o + |block|, paths + [path]))
  {
    hide PathOf, Masked, IdName, GroupOf, ExportFrom;
    assert ms[o + 0] == block[0];
    WriteOne(ms, o, mask, path, paths, key, v);
    SkipBlock(ms, o, block, mask, path, paths + [path], 1);
  }

  /** The ids of the groups so far, with room for one more. */
  lemma NextId(members: seq<Member>, k: nat)
    requires AllGood(members) && k < |members| && GoodMember(members[k])
    requires Grouped(members[k]) && Flatten(members[k]) != []
    ensures GroupId(members[k]) !in GroupIds(members, k)
    ensures GroupIds(members, k + 1) == GroupIds(members, k) + [GroupId(members[k])]
  {
    IdIsNew(members, k, k);
    hide Flatten, GoodMember, GroupId, Grouped, AllGood;
  }

  lemma GroupMetersOf(members: seq<Member>, k: nat) returns (block: seq<M.Meter>, mask: Id)
    requires AllGood(members) && k < |members| && GoodMember(members[k]) && Untaken(members, k)
    requires Grouped(members[k]) && Flatten(members[k]) != []
    ensures var ms, o, path := Blocks(members, |members|), |Blocks(members, k)|, GroupId(members[k]);
      && IsBlock(ms, o, block, mask, path) && block != [] && |Blocks(members, k + 1)| == o + |block|
      && IdName(path) == members[k].key && GroupOf(ms, o) == Some(Rendered(members[k].value))
  {
    hide Flatten, GoodMember, GroupId, Grouped, AllGood, PathOf, IsBlock, Blocks, Rendered, GroupOf, IdName;
    var m := members[k];
    block, mask := Flatten(m), PathOf(Flatten(m)[0].id);
    BlocksGrow(members, k, |members|);
    BlockOf(members, k);
    GroupName(m);
    GroupBack(Blocks(members, |members|), |Blocks(members, k)|, m, mask, GroupId(m));
  }

  lemma GroupWritten(members: seq<Member>, k: nat, paths: seq<Id>)
    requires AllGood(members) && k < |members| && GoodMember(members[k]) && Untaken(members, k)
    requires Grouped(members[k]) && Flatten(members[k]) != [] && GroupId(members[k]) !in paths && |paths| < MAX_PATHS
    ensures var ms := Blocks(members, |members|);
      ExportFrom(ms, |Blocks(members, k)|, paths)
        == Cons(Some(Member(members[k].key, Rendered(members[k].value))),
                ExportFrom(ms, |Blocks(members, k + 1)|, paths + [GroupId(members[k])]))
  {
    hide Flatten, GoodMember, GroupId, Grouped, AllGood, IsBlock, Blocks, ExportFrom, Rendered, GroupOf, IdName;
    var block, mask := GroupMetersOf(members, k);
    WriteBlock(Blocks(members, |members|), |Blocks(members, k)|, block, mask, GroupId(members[k]), paths,
               members[k].key, Rendered(members[k].value));
  }

  lemma WriteGroup(members: seq<Member>, k: nat)
    requires AllGood(members) && k < |members| && Grouped(members[k]) && Fine(members, k)
    ensures Written(members, k) == Cons(Some(Member(members[k].key, Rendered(members[k].value))), Written(members, k + 1))
  {
    GoodAt(members, k);
    GroupMeters(members[k]);
    hide Flatten, GoodMember, GroupId, Grouped, AllGood, Blocks, GroupIds, ExportFrom, Rendered;
    NextId(members, k);
    GroupWritten(members, k, GroupIds(members, k));
  }

  lemma WriteMeter(ms: seq<M.Meter>, o: nat, paths: seq<Id>, key: string, v: Var)
    requires o < |ms| && PathOf(ms[o].id) == 0 && IdName(ms[o].id) == key && PlainOf(ms[o]) == Some(v)
    ensures ExportFrom(ms, o, paths) == Cons(Some(Member(key, v)), ExportFrom(ms, o + 1, paths))
  {
    hide PathOf, Masked, IdName, PlainOf;
  }

  lemma PlainMeter(members: seq<Member>, k: nat)
    requires AllGood(members) && k < |members| && !Grouped(members[k])
    ensures var ms, o := Blocks(members, |members|), |Blocks(members, k)|;
      && o < |ms| && |Blocks(members, k + 1)| == o + 1
      && PathOf(ms[o].id) == 0 && IdName(ms[o].id) == members[k].key && PlainOf(ms[o]) == Some(Rendered(members[k].value))
  {
    GoodAt(members, k);
    hide Flatten, GoodMember, Grouped, AllGood, PathOf, IdName, PlainOf, Blocks, Rendered;
    var m := members[k];
    BlocksGrow(members, k, |members|);
    PlainBack(m);
    assert Blocks(members, |members|)[|Blocks(members, k)| + 0] == Flatten(m)[0];
  }

  lemma WritePlain(members: seq<Member>, k: nat)
    requires AllGood(members) && k < |members| && !Grouped(members[k])
    ensures Written(members, k) == Cons(Some(Member(members[k].key, Rendered(members[k].value))), Written(members, k + 1))
  {
    hide Grouped, AllGood, PathOf, IdName, PlainOf, Blocks, GroupIds, ExportFrom, Rendered;
    SameIds(members, k);
    PlainMeter(members, k);
    WriteMeter(Blocks(members, |members|), |Blocks(members, k)|, GroupIds(members, k), members[k].key, Rendered(members[k].value));
  }

  lemma SameIds(members: seq<Member>, k: nat)
    requires AllGood(members) && k < |members| && !Grouped(members[k])
    ensures GroupIds(members, k + 1) == GroupIds(members, k)
  {
    hide Flatten, GoodMember, Grouped, AllGood;
  }

  /** What comes first, and the rest if there is one. */
  function Before(ms: seq<Member>, rest: Option<seq<Member>>): Option<seq<Member>> {
    if rest.Some? then Some(ms + rest.value) else None
  }

  lemma BeforeCons(m: Member, ms: seq<Member>, rest: Option<seq<Member>>)
    ensures Cons(Some(m), Before(ms, rest)) == Before([m] + ms, rest)
  {
    if rest.Some? {
      assert [m] + (ms + rest.value) == ([m] + ms) + rest.value;
    }
  }

  /** The members from k up to n, as the writer renders them. */
  lemma {:induction false} ExportBack(members: seq<Member>, k: nat, n: nat)
    requires AllGood(members) && k <= n <= |members| && forall i :: k <= i < n ==> Fine(members, i)
    ensures Written(members, k) == Before(RenderRow(members[k..n]), Written(members, n))
    decreases n - k
  {
    hide AllGood, ExportFrom, Written, GroupIds, Grouped, Rendered, Fine;
    if k == n {
      assert RenderRow(members[k..n]) == [];
      assert Written(members, n).Some? ==> [] + Written(members, n).value == Written(members, n).value;
    } else {
      if Grouped(members[k]) {
        WriteGroup(members, k);
      } else {
        WritePlain(members, k);
      }
      ExportBack(members, k + 1, n);
      var m := Member(members[k].key, Rendered(members[k].value));
      BeforeCons(m, RenderRow(members[k + 1..n]), Written(members, n));
      assert [m] + RenderRow(members[k + 1..n]) == RenderRow(members[k..n]);
    }
  }

  lemma NothingWritten(ms: seq<M.Meter>, paths: seq<Id>)
    ensures ExportFrom(ms, |ms|, paths) == Some([])
  {
  }

  // ---- A group that takes in a later member ----

  /** A block, and another meter after it that agrees with it under its path. */
  predicate Takes(ms: seq<M.Meter>, o: nat, block: seq<M.Meter>, mask: Id, path: Id, x: nat) {
    && o + |block| <= x < |ms| && mask != 0
    && (forall j :: 0 <= j < |block| ==> ms[o + j] == block[j])
    && (forall j :: 0 <= j < |block| ==> PathOf(block[j].id) == mask && Masked(block[j].id, mask) == path)
    && Masked(ms[x].id, mask) == path
  }

  lemma {:induction false} OneAgrees(ms: seq<M.Meter>, x: Id, mask: Id, i: nat, k: nat)
    requires i <= k < |ms| && Masked(ms[k].id, mask) == Masked(x, mask)
    ensures Agreeing(ms, x, mask, i) <= k
    decreases k - i
  {
    hide Masked;
    if i < k {
      OneAgrees(ms, x, mask, i + 1, k);
    }
  }

  lemma {:induction false} SomeEntry(ms: seq<M.Meter>, i: nat, pos: nat)
    requires i < |ms|
    ensures Siblings(ms, i, pos).Some? ==> Siblings(ms, i, pos).value != []
  {
    hide Entry, NextSibling;
  }

  lemma {:induction false} NextTaken(ms: seq<M.Meter>, o: nat, block: seq<M.Meter>, mask: Id, path: Id, x: nat, j: nat)
    requires Takes(ms, o, block, mask, path, x) && j < |block|
    ensures NextSibling(ms, o + j) < |ms| && (j + 1 < |block| ==> NextSibling(ms, o + j) == o + j + 1)
  {
    hide Masked, PathOf;
    assert ms[o + j] == block[j];
    if j + 1 < |block| {
      assert ms[o + (j + 1)] == block[j + 1];
    } else {
      OneAgrees(ms, block[j].id, mask, o + j + 1, x);
    }
  }

  /** The group has an entry more than it has meters. */
  lemma {:induction false} TooManyEntries(ms: seq<M.Meter>, o: nat, block: seq<M.Meter>, mask: Id, path: Id, x: nat, j: nat, pos: nat)
    requires Takes(ms, o, block, mask, path, x) && j < |block|
    ensures Siblings(ms, o + j, pos).Some? ==> |Siblings(ms, o + j, pos).value| > |block| - j
    decreases |block| - j
  {
    hide Entry, NextSibling, Takes;
    NextTaken(ms, o, block, mask, path, x, j);
    if j + 1 < |block| {
      TooManyEntries(ms, o, block, mask, path, x, j + 1, pos);
    } else {
      SomeEntry(ms, NextSibling(ms, o + j), pos);
    }
  }

  lemma {:induction false} OneRowDiffers(ms: seq<M.Meter>, o: nat, row: seq<Member>)
    requires o < |ms| && ms[o].count == 0
    requires Siblings(ms, o, 0).Some? ==> |Siblings(ms, o, 0).value| > |row|
    ensures GroupOf(ms, o) != Some(Dict(row))
  {
    hide Siblings;
  }

  lemma {:induction false} FirstRow(ms: seq<M.Meter>, o: nat)
    requires o < |ms| && ms[o].count > 0
    ensures Rows(ms, o, 0).Some? ==>
      Siblings(ms, o, 0).Some? && Rows(ms, o, 0).value != [] && Rows(ms, o, 0).value[0] == Dict(Siblings(ms, o, 0).value)
  {
    hide Siblings;
  }

  lemma {:induction false} TableDiffers(ms: seq<M.Meter>, o: nat, rows: seq<seq<Member>>)
    requires o < |ms| && 0 < ms[o].count == |rows| <= MAX_ARRAY
    requires Siblings(ms, o, 0).Some? ==> |Siblings(ms, o, 0).value| > |rows[0]|
    ensures GroupOf(ms, o) != Some(Arr(Dicts(rows)))
  {
    FirstRow(ms, o);
    hide Siblings, Rows;
    var want := Dicts(rows);
    if GroupOf(ms, o).Some? {
      assert GroupOf(ms, o) == Some(Arr(Rows(ms, o, 0).value));
      assert |want[0].members| == |rows[0]|;
    }
  }

  lemma {:induction false} LongRow(ms: seq<M.Meter>, o: nat, block: seq<M.Meter>, mask: Id, path: Id, x: nat, row: seq<Member>)
    requires Takes(ms, o, block, mask, path, x) && block != [] && |row| == |block|
    ensures o < |ms| && ms[o] == block[0]
    ensures Siblings(ms, o, 0).Some? ==> |Siblings(ms, o, 0).value| > |row|
  {
    hide *;
    TakesFirst(ms, o, block, mask, path, x);
    TooManyEntries(ms, o, block, mask, path, x, 0, 0);
    assert o + 0 == o;
  }

  lemma {:induction false} RowLength(m: Member)
    requires GoodMember(m) && Grouped(m) && Flatten(m) != [] && 0 < |RowsOf(m)|
    ensures |RowsOf(m)[0]| == |Flatten(m)|
  {
    RowBack(m, 0);
  }

  /** So it is not written as the member it came from. */
  lemma {:induction false} TakenDiffers(ms: seq<M.Meter>, o: nat, m: Member, mask: Id, path: Id, x: nat)
    requires GoodMember(m) && Grouped(m) && Flatten(m) != [] && Takes(ms, o, Flatten(m), mask, path, x)
    ensures o < |ms| && GroupOf(ms, o) != Some(Rendered(m.value))
  {
    GroupCounted(m);
    RenderedGroup(m);
    CountBounds(m);
    RowLength(m);
    hide Flatten, GoodMember, RowsOf, Rendered, RenderRow, Takes, Siblings, GroupOf, Dicts, GroupCount, RenderRows;
    LongRow(ms, o, Flatten(m), mask, path, x, RowsOf(m)[0]);
    var rows := RenderRows(RowsOf(m));
    FirstRendered(RowsOf(m));
    if m.value.Dict? {
      OneRowDiffers(ms, o, rows[0]);
    } else {
      TableDiffers(ms, o, rows);
    }
  }

  lemma {:induction false} GroupCounted(m: Member)
    requires GoodMember(m) && Grouped(m) && Flatten(m) != []
    ensures Flatten(m)[0].count == GroupCount(m)
  {
    GroupRendering(m);
  }

  lemma {:induction false} FirstRendered(rows: seq<seq<Member>>)
    requires rows != []
    ensures |RenderRows(rows)| == |rows| && RenderRows(rows)[0] == RenderRow(rows[0]) && |RenderRow(rows[0])| == |rows[0]|
  {
  }

  lemma {:induction false} TakesFirst(ms: seq<M.Meter>, o: nat, block: seq<M.Meter>, mask: Id, path: Id, x: nat)
    requires Takes(ms, o, block, mask, path, x) && block != []
    ensures o < |ms| && ms[o] == block[0]
  {
    hide PathOf, Masked;
    assert ms[o + 0] == block[0];
  }

  /** A member whose key starts like the group has a meter that the group takes in. */
  lemma {:induction false} TakenMeter(members: seq<Member>, k: nat, n: nat)
    requires AllGood(members) && k < n < |members| && Grouped(members[k]) && Flatten(members[k]) != []
    requires StartsWith(members[n].key, members[k].key)
    ensures Takes(Blocks(members, |members|), |Blocks(members, k)|, Flatten(members[k]),
                  PathOf(Flatten(members[k])[0].id), GroupId(members[k]), |Blocks(members, n)|)
  {
    GoodAt(members, k);
    GoodAt(members, n);
    BlocksGrow(members, k, |members|);
    BlocksGrow(members, n, |members|);
    BlocksGrow(members, k, n);
    OnePath(members[k]);
    SomeMeter(members[n]);
    OtherAgrees(members[k], members[n]);
    hide Flatten, GoodMember, GroupId, Grouped, AllGood, Blocks, PathOf, Masked, StartsWith;
    assert Blocks(members, |members|)[|Blocks(members, n)| + 0] == Flatten(members[n])[0];
  }

  lemma {:induction false} SomeMeter(m: Member)
    requires GoodMember(m)
    ensures Flatten(m) != []
  {
    if Grouped(m) {
      GroupMeters(m);
    }
  }

  lemma {:induction false} OtherAgrees(m: Member, n: Member)
    requires GoodMember(m) && Grouped(m) && Flatten(m) != [] && GoodMember(n) && Flatten(n) != [] && StartsWith(n.key, m.key)
    ensures Masked(Flatten(n)[0].id, PathOf(Flatten(m)[0].id)) == GroupId(m)
  {
    FlattenId(m, 0);
    FlattenId(n, 0);
    NameStarts(m, n);
    OnePath(m);
    hide Flatten, MakeId, GoodMember, IsName, IsType, Masked, PathOf, Spells, Path, IsPath, StartsWith, GroupId;
    MakeSpells(NameIn(m, 0), TypeIn(m, 0));
    MakeSpells(NameIn(n, 0), TypeIn(n, 0));
    SharesPath(Flatten(m)[0].id, m.key, ColsOf(m)[0].key, Flatten(n)[0].id, NameIn(n, 0));
  }

  lemma {:induction false} NameStarts(m: Member, n: Member)
    requires GoodMember(n) && Flatten(n) != [] && StartsWith(n.key, m.key)
    ensures StartsWith(NameIn(n, 0), m.key)
  {
    FlattenId(n, 0);
    hide Flatten, GoodMember, IsName, IsType, MakeId;
    if Grouped(n) {
      PathStarts(n.key, ColsOf(n)[0].key);
      assert Path(n.key, ColsOf(n)[0].key)[..|m.key|] == n.key[..|m.key|];
    }
  }

  lemma {:induction false} StopsAt(ms: seq<M.Meter>, o: nat, paths: seq<Id>)
    requires o < |ms| && PathOf(ms[o].id) != 0 && Masked(ms[o].id, PathOf(ms[o].id)) !in paths && |paths| >= MAX_PATHS
    ensures ExportFrom(ms, o, paths) == None
  {
    hide PathOf, Masked, GroupOf;
  }

  lemma {:induction false} WritesOther(ms: seq<M.Meter>, o: nat, paths: seq<Id>, key: string, v: Var)
    requires o < |ms| && PathOf(ms[o].id) != 0 && Masked(ms[o].id, PathOf(ms[o].id)) !in paths && GroupOf(ms, o) != Some(v)
    ensures var w := ExportFrom(ms, o, paths); w.Some? ==> w.value != [] && w.value[0] != Member(key, v)
  {
    hide PathOf, Masked, GroupOf, IdName;
  }

  /** A member that is not fine is written as something else, or stops the writing. */
  lemma {:induction false} NotFine(members: seq<Member>, k: nat)
    requires AllGood(members) && k < |members| && !Fine(members, k)
    ensures Written(members, k).Some? ==>
      Written(members, k).value != [] && Written(members, k).value[0] != Member(members[k].key, Rendered(members[k].value))
  {
    GoodAt(members, k);
    GroupMeters(members[k]);
    SomeBlock(members, k);
    NextId(members, k);
    hide Flatten, GoodMember, GroupId, AllGood, Blocks, GroupIds, Rendered, PathOf, Masked, GroupOf, ExportFrom, StartsWith, Grouped, Groups;
    var ms, o := Blocks(members, |members|), |Blocks(members, k)|;
    if Groups(members, k) < 128 {
      var n :| k < n < |members| && StartsWith(members[n].key, members[k].key);
      TakenGroup(members, k, n);
      WritesOther(ms, o, GroupIds(members, k), members[k].key, Rendered(members[k].value));
    } else {
      StopsAt(ms, o, GroupIds(members, k));
    }
  }

  lemma {:induction false} TakenGroup(members: seq<Member>, k: nat, n: nat)
    requires AllGood(members) && k < n < |members| && GoodMember(members[k]) && Grouped(members[k]) && Flatten(members[k]) != []
    requires StartsWith(members[n].key, members[k].key)
    ensures var ms, o := Blocks(members, |members|), |Blocks(members, k)|;
      o < |ms| && GroupOf(ms, o) != Some(Rendered(members[k].value))
  {
    hide Flatten, GoodMember, GroupId, AllGood, Blocks, Rendered, PathOf, GroupOf, Takes, Grouped;
    TakenMeter(members, k, n);
    TakenDiffers(Blocks(members, |members|), |Blocks(members, k)|, members[k],
                 PathOf(Flatten(members[k])[0].id), GroupId(members[k]), |Blocks(members, n)|);
  }

  lemma {:induction false} SomeBlock(members: seq<Member>, k: nat)
    requires AllGood(members) && k < |members| && GoodMember(members[k]) && Grouped(members[k]) && Flatten(members[k]) != []
    ensures var ms, o := Blocks(members, |members|), |Blocks(members, k)|;
      && o < |ms| && PathOf(ms[o].id) != 0 && Masked(ms[o].id, PathOf(ms[o].id)) == GroupId(members[k])
  {
    BlocksGrow(members, k, |members|);
    OnePath(members[k]);
    hide Flatten, GoodMember, GroupId, Grouped, AllGood, Blocks, PathOf, Masked;
    assert Blocks(members, |members|)[|Blocks(members, k)| + 0] == Flatten(members[k])[0];
  }

  // ---- When a tree comes back ----

  lemma {:induction false} CountGroups(members: seq<Member>, n: nat)
    requires n <= |members| && forall k :: 0 <= k < n && Grouped(members[k]) ==> Groups(members, k) < 128
    ensures Groups(members, n) <= 128
  {
    hide Grouped;
    if n > 0 {
      CountGroups(members, n - 1);
    }
  }

  lemma {:induction false} AllFine(members: seq<Member>)
    ensures Separate(members) <==> forall k :: 0 <= k < |members| ==> Fine(members, k)
  {
    hide Grouped, StartsWith, Groups;
    if Separate(members) {
      forall k | 0 <= k < |members| ensures Fine(members, k) {
        GroupsGrow(members, k + 1, |members|);
        if Grouped(members[k]) {
          GroupStep(members, k);
        }
      }
    }
    if forall k :: 0 <= k < |members| ==> Fine(members, k) {
      forall i | 0 <= i < |members| && Grouped(members[i]) ensures Untaken(members, i) && Groups(members, i) < 128 {
        assert Fine(members, i);
      }
      CountGroups(members, |members|);
      forall i, j | 0 <= i < j < |members| && Grouped(members[i]) ensures !StartsWith(members[j].key, members[i].key) {
        assert Untaken(members, i);
      }
    }
  }

  lemma {:induction false} GroupStep(members: seq<Member>, k: nat)
    requires k < |members| && Grouped(members[k])
    ensures Groups(members, k + 1) == Groups(members, k) + 1
  {
  }

  lemma {:induction false} FirstBad(members: seq<Member>, n: nat) returns (k: nat)
    requires n < |members| && !Fine(members, n)
    ensures k < |members| && !Fine(members, k) && forall i :: 0 <= i < k ==> Fine(members, i)
  {
    hide Fine;
    if i :| 0 <= i < n && !Fine(members, i) {
      k := FirstBad(members, i);
    } else {
      k := n;
    }
  }

  /** Imported into a fresh host and written out again, a tree comes back as the same members in
      the same order, doubles in thousandths. */
  predicate Returns(c: Libc, members: seq<Member>) {
    var r := Import(c, [], Dict(members));
    r.Imported? && r.ok && Export(r.ms) == Some(Rendered(Dict(members)))
  }

  /** A tree of the permitted forms returns exactly if no group's key is the beginning of a later
      key and the groups are no more than 128. */
  lemma {:induction false} ImportExport(c: Libc, members: seq<Member>)
    requires AllGood(members)
    ensures Import(c, [], Dict(members)) == Imported(true, Blocks(members, |members|))
    ensures Returns(c, members) <==> Separate(members)
  {
    ImportReads(c, members, 0);
    AllFine(members);
    ExportWritten(members);
    hide AllGood, Separate, Fine, Export, Rendered, RenderRow, Written;
    if Separate(members) {
      ExportBack(members, 0, |members|);
      AllWritten(members);
    } else {
      var n :| 0 <= n < |members| && !Fine(members, n);
      var k := FirstBad(members, n);
      ExportBack(members, 0, k);
      NotFine(members, k);
      WrongAt(members, k);
    }
  }

  lemma {:induction false} ExportWritten(members: seq<Member>)
    requires AllGood(members)
    ensures Export(Blocks(members, |members|)) == Some(Rendered(Dict(members))) <==> Written(members, 0) == Some(RenderRow(members))
  {
    hide ExportFrom;
    assert RenderRow(members) == RenderedMembers(Dict(members), members);
  }

  lemma {:induction false} AllWritten(members: seq<Member>)
    requires AllGood(members)
    ensures Before(RenderRow(members[0..|members|]), Written(members, |members|)) == Some(RenderRow(members))
  {
    NothingWritten(Blocks(members, |members|), GroupIds(members, |members|));
    hide ExportFrom, Rendered;
    assert members[0..|members|] == members;
    assert RenderRow(members) + [] == RenderRow(members);
  }

  lemma {:induction false} WrongAt(members: seq<Member>, k: nat)
    requires AllGood(members) && k < |members|
    requires Written(members, 0) == Before(RenderRow(members[0..k]), Written(members, k))
    requires Written(members, k).Some? ==>
      Written(members, k).value != [] && Written(members, k).value[0] != Member(members[k].key, Rendered(members[k].value))
    ensures Written(members, 0) != Some(RenderRow(members))
  {
    hide ExportFrom, Rendered, AllGood, Written;
    if Written(members, k).Some? {
      var all := RenderRow(members[0..k]) + Written(members, k).value;
      assert all[k] == Written(members, k).value[0];
      assert RenderRow(members)[k] == Member(members[k].key, Rendered(members[k].value));
    }
  }

  // ---- Two orders of one group and one key ----

  /** The group cpu, and a key that starts with its own. */
  function Cpu(): Member {
    Member("cpu", Dict([Member("a", Int(1))]))
  }

  function Cpux(): Member {
    Member("cpux", Int(2))
  }

  lemma BothGood()
    ensures AllGood([Cpu(), Cpux()]) && AllGood([Cpux(), Cpu()])
    ensures Grouped(Cpu()) && !Grouped(Cpux()) && StartsWith("cpux", "cpu")
  {
    assert IsPart("cpu") && IsPart("cpux") && IsPart("a");
    assert KindOf(Int(1)).Some? && KindOf(Int(2)).Some?;
    assert GoodMember(Cpu()) && GoodMember(Cpux());
  }

  /** The group takes in the key after it, and does not notice it before it. */
  lemma BothApart()
    ensures !Separate([Cpu(), Cpux()]) && Separate([Cpux(), Cpu()])
  {
    BothGood();
    hide StartsWith, Grouped;
    var later, earlier := [Cpu(), Cpux()], [Cpux(), Cpu()];
    assert later[0] == Cpu() && later[1].key == "cpux";
    assert Groups(earlier, 1) == 0 && Groups(earlier, 2) == 1;
  }

  /** The group takes in the key after it, and does not notice it before it. */
  lemma TakesLater(c: Libc)
    ensures !Returns(c, [Cpu(), Cpux()]) && Returns(c, [Cpux(), Cpu()])
  {
    BothGood();
    BothApart();
    hide *;
    ImportExport(c, [Cpu(), Cpux()]);
    ImportExport(c, [Cpux(), Cpu()]);
  }
}
