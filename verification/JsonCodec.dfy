/** The tree that a host's JSON form spells out, from a row of meters. */
module JsonCodec {
  import opened Wrappers
  import opened IdNames
  import opened Ids
  import opened Json
  import opened Strings
  import M = Meters

  const MAX_PATHS := 128

  /** What %.3f makes of a double, half a thousandth rounded up in magnitude. */
  function Thousandths(r: real): real {
    if r < 0.0 then -((-r * 1000.0 + 0.5).Floor as real / 1000.0) else (r * 1000.0 + 0.5).Floor as real / 1000.0
  }

  /** The zero of a type. */
  function ZeroOf(t: Id): Var {
    if t == TYPE_INT then Int(0) else if t == TYPE_FRAC then Dbl(0.0) else Str("")
  }

  /** jsoncodec_dump_val. None stands for no output at all, for a read past the meter's values,
      and for a number that JSON cannot write. */
  function ValueAt(m: M.Meter, pos: nat): Option<Var> {
    if m.count > M.EMPTY_VAL then Some(Null)
    else if m.count < pos || m.count == M.EMPTY_VAL then (if pos > 0 then None else Some(ZeroOf(TypeOf(m.id))))
    else if TypeOf(m.id) == TYPE_INT then
      if m.data.Ints? && pos < |m.data.ints| then Some(Int(m.data.ints[pos])) else None
    else if TypeOf(m.id) == TYPE_FRAC then
      if m.data.Fracs? && pos < |m.data.fracs| && m.data.fracs[pos].Finite? then Some(Dbl(Thousandths(m.data.fracs[pos].r)))
      else None
    else if TypeOf(m.id) == TYPE_STR then
      if m.data.Strs? && pos < |m.data.strs| then Some(Str(StringOf(m.data.strs[pos]))) else None
    else Some(Null)
  }

  function Cons(m: Option<Member>, ms: Option<seq<Member>>): Option<seq<Member>> {
    if m.Some? && ms.Some? then Some([m.value] + ms.value) else None
  }

  /** The first meter from i on that agrees with x under the mask, or the end. */
  function Agreeing(ms: seq<M.Meter>, x: Id, mask: Id, i: nat): (j: nat)
    requires i <= |ms|
    ensures i <= j <= |ms|
    decreases |ms| - i
  {
    if i == |ms| || Masked(ms[i].id, mask) == Masked(x, mask) then i else Agreeing(ms, x, mask, i + 1)
  }

  /** meter_next_sibling. */
  function NextSibling(ms: seq<M.Meter>, i: nat): (j: nat)
    requires i < |ms|
    ensures i < j <= |ms|
  {
    var mask := PathOf(ms[i].id);
    if mask == 0 then |ms| else Agreeing(ms, ms[i].id, mask, i + 1)
  }

  /** One entry of a group. */
  function Entry(m: M.Meter, pos: nat): Option<Member> {
    match ValueAt(m, pos)
    case None => None
    case Some(v) => Some(Member(NodeName(NameOf(m.id)), v))
  }

  /** jsoncodec_dump_pathval from meter i on: one entry a sibling. */
  function Siblings(ms: seq<M.Meter>, i: nat, pos: nat): Option<seq<Member>>
    requires i < |ms|
    decreases |ms| - i
  {
    var j := NextSibling(ms, i);
    Cons(Entry(ms[i], pos), if j < |ms| then Siblings(ms, j, pos) else Some([]))
  }

  /** The rows of a group from pos on. */
  function Rows(ms: seq<M.Meter>, i: nat, pos: nat): Option<seq<Var>>
    requires i < |ms|
    decreases ms[i].count - pos
  {
    if pos >= ms[i].count then Some([])
    else
      match Siblings(ms, i, pos)
      case None => None
      case Some(row) =>
        match Rows(ms, i, pos + 1)
        case None => None
        case Some(rows) => Some([Dict(row)] + rows)
  }

  function GroupOf(ms: seq<M.Meter>, i: nat): Option<Var>
    requires i < |ms|
  {
    var m := ms[i];
    if m.count == M.EMPTY_VAL then Some(Null)
    else if m.count == M.EMPTY_ARRAY then Some(Arr([]))
    else if m.count == 0 then
      match Siblings(ms, i, 0)
      case None => None
      case Some(row) => Some(Dict(row))
    else
      match Rows(ms, i, 0)
      case None => None
      case Some(rows) => Some(Arr(rows))
  }

  function Values(m: M.Meter, pos: nat): Option<seq<Var>>
    decreases m.count - pos
  {
    if pos >= m.count then Some([])
    else
      match ValueAt(m, pos)
      case None => None
      case Some(v) =>
        match Values(m, pos + 1)
        case None => None
        case Some(vs) => Some([v] + vs)
  }

  function PlainOf(m: M.Meter): Option<Var> {
    if m.count == M.EMPTY_VAL then Some(Null)
    else if m.count == M.EMPTY_ARRAY then Some(Arr([]))
    else if m.count == 0 then ValueAt(m, 0)
    else
      match Values(m, 0)
      case None => None
      case Some(vs) => Some(Arr(vs))
  }

  function Named(name: string, v: Option<Var>): Option<Member> {
    if v.Some? then Some(Member(name, v.value)) else None
  }

  /** jsoncodec_encode_host from meter i on. The paths are those of the groups already written. */
  function ExportFrom(ms: seq<M.Meter>, i: nat, paths: seq<Id>): Option<seq<Member>>
    decreases |ms| - i
  {
    if i >= |ms| then Some([])
    else
      var mask := PathOf(ms[i].id);
      var path := Masked(ms[i].id, mask);
      if mask == 0 then Cons(Named(IdName(ms[i].id), PlainOf(ms[i])), ExportFrom(ms, i + 1, paths))
      else if path in paths then ExportFrom(ms, i + 1, paths)
      else if |paths| >= MAX_PATHS then None
      else Cons(Named(IdName(path), GroupOf(ms, i)), ExportFrom(ms, i + 1, paths + [path]))
  }

  function Export(ms: seq<M.Meter>): Option<Var> {
    match ExportFrom(ms, 0, [])
    case None => None
    case Some(members) => Some(Dict(members))
  }

  // ---- Meters without values ----

  /** A meter that was never set is null by itself, and so is a group whose first meter is. Within
      a group it is the zero of its type, in the first row. */
  lemma Unset(ms: seq<M.Meter>, i: nat, pos: nat)
    requires i < |ms| && ms[i].count == 30
    ensures PlainOf(ms[i]) == GroupOf(ms, i) == Some(Null)
    ensures TypeOf(ms[i].id) == TYPE_INT ==> ValueAt(ms[i], 0) == Some(Int(0))
    ensures TypeOf(ms[i].id) == TYPE_FRAC ==> ValueAt(ms[i], 0) == Some(Dbl(0.0))
    ensures TypeOf(ms[i].id) == TYPE_STR ==> ValueAt(ms[i], 0) == Some(Str(""))
    ensures pos > 0 ==> ValueAt(ms[i], pos) == None
  {
  }

  /** An empty array is one, by itself and of a group. Within a group it is null in any row. */
  lemma EmptyList(ms: seq<M.Meter>, i: nat, pos: nat)
    requires i < |ms| && ms[i].count == 31
    ensures PlainOf(ms[i]) == GroupOf(ms, i) == Some(Arr([]))
    ensures ValueAt(ms[i], pos) == Some(Null)
  {
  }

  /** A meter with fewer values than its group has rows, by more than one, gives nothing there. */
  lemma TooFewValues(m: M.Meter, pos: nat)
    requires m.count < 30 && pos > m.count
    ensures ValueAt(m, pos) == None
  {
  }
}
