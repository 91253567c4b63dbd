/** A host's meters as the doubly linked list the source keeps, refining the row of meters. */
module HostList {
  import opened Ids
  import opened Meters
  import opened WireFrac
  import opened WireText

  class MeterNode {
    var next: MeterNode?
    var prev: MeterNode?
    var id: Id
    var count: nat
    var d: Data

    constructor ()
      ensures next == prev == null && count == EMPTY_VAL && d == Null
    {
      next, prev := null, null;
      id, count, d := 0, EMPTY_VAL, Null;
    }

    ghost function Value(): Meter
      reads this
    {
      Meter(id, count, d)
    }

    method SetCount(n: nat)
      modifies this`count, this`d
      ensures Value() == Meters.SetCount(old(Value()), n)
    {
      var cnt := if n == 0 then 1 else n;
      if cnt >= EMPTY_VAL {
        count, d := n, Null;
      } else {
        count := n;
        var t := TypeOf(id);
        if t == TYPE_INT {
          d := Ints(seq(cnt, _ => 0));
        } else if t == TYPE_FRAC {
          d := Fracs(seq(cnt, _ => Finite(0.0)));
        } else if t == TYPE_STR {
          d := Strs(seq(cnt, _ => []));
        } else {
          count, d := EMPTY_VAL, Null;
        }
      }
    }

    /** meter_get_str. */
    method GetStr(pos: nat) returns (res: Text)
      ensures res == TextAt(Value(), pos)
    {
      res := [];
      if count < EMPTY_VAL && d != Null {
        if pos < (if count == 0 then 1 else count) && TypeOf(id) == TYPE_STR {
          res := if d.Strs? && pos < |d.strs| then d.strs[pos] else [];
        }
      }
    }

    /** meter_set_uint. */
    method SetUint(pos: nat, val: nat)
      modifies this`d
      ensures Value() == Meters.SetValue(old(Value()), pos, IntValue(val))
    {
      if count < EMPTY_VAL && TypeOf(id) == TYPE_INT && pos < (if count == 0 then 1 else count) {
        d := if d.Ints? then Ints(PutAt(d.ints, pos, val)) else Mangled;
      }
    }

    /** meter_set_frac. */
    method SetFrac(pos: nat, val: Frac)
      modifies this`d
      ensures Value() == Meters.SetValue(old(Value()), pos, FracValue(val))
    {
      if count < EMPTY_VAL && TypeOf(id) == TYPE_FRAC && pos < (if count == 0 then 1 else count) {
        d := if d.Fracs? then Fracs(PutAt(d.fracs, pos, val)) else Mangled;
      }
    }

    /** meter_set_str. */
    method SetStr(pos: nat, val: Text)
      modifies this`d
      ensures Value() == Meters.SetValue(old(Value()), pos, StrValue(val))
    {
      if count < EMPTY_VAL && TypeOf(id) == TYPE_STR && pos < (if count == 0 then 1 else count) {
        d := if d.Strs? then Strs(PutAt(d.strs, pos, Cut(val))) else Mangled;
      }
    }
  }

  ghost function Values(nodes: seq<MeterNode>): (ms: seq<Meter>)
    reads nodes
    ensures |ms| == |nodes|
  {
    seq(|nodes|, i requires 0 <= i < |nodes| reads nodes => nodes[i].Value())
  }

  /** Neighbours point at each other, and the ends at nothing. */
  ghost predicate Linked(nodes: seq<MeterNode>)
    reads nodes
  {
    && (forall i, j :: 0 <= i < j < |nodes| ==> nodes[i] != nodes[j])
    && (forall i {:trigger nodes[i].prev} :: 0 <= i < |nodes| ==> nodes[i].prev == NodeAt(nodes, i - 1))
    && (forall i {:trigger nodes[i].next} :: 0 <= i < |nodes| ==> nodes[i].next == NodeAt(nodes, i + 1))
  }

  /** What comes at index i of the list: a node, or nothing beyond its ends. */
  ghost function NodeAt(nodes: seq<MeterNode>, i: int): MeterNode? {
    if 0 <= i < |nodes| then nodes[i] else null
  }

  /** The list without one of its nodes. */
  lemma Without(nodes: seq<MeterNode>, i: nat)
    requires Linked(nodes) && i < |nodes|
    ensures nodes[i] !in nodes[..i] + nodes[i + 1..]
    ensures Values(nodes[..i] + nodes[i + 1..]) == Values(nodes)[..i] + Values(nodes)[i + 1..]
  {
  }

  lemma RestAt(nodes: seq<MeterNode>, i: nat)
    requires i < |nodes|
    ensures var rest := nodes[..i] + nodes[i + 1..];
      |rest| == |nodes| - 1 && forall k {:trigger rest[k]} :: 0 <= k < |rest| ==> rest[k] == if k < i then nodes[k] else nodes[k + 1]
  {
  }

  class Host {
    var first: MeterNode?
    var last: MeterNode?
    var mcount: int
    ghost var nodes: seq<MeterNode>

    ghost predicate Valid()
      reads this, nodes
    {
      && Linked(nodes)
      && first == NodeAt(nodes, 0)
      && last == NodeAt(nodes, |nodes| - 1)
      && mcount == |nodes|
    }

    ghost function Row(): (ms: seq<Meter>)
      reads this, nodes
      ensures |ms| == |nodes|
    {
      Values(nodes)
    }

    constructor ()
      ensures Valid() && nodes == []
    {
      first, last, mcount, nodes := null, null, 0, [];
    }

    /** host_find_meter_name, with the place of what it found. */
    method FindMeterName(id: Id) returns (m: MeterNode?, ghost i: nat)
      requires Valid()
      ensures i == FindName(Row(), id) && m == NodeAt(nodes, i)
    {
      var rid := NameOf(id);
      m, i := first, 0;
      while m != null && NameOf(m.id) != rid
        invariant i <= |nodes| && m == NodeAt(nodes, i)
        invariant FindName(Row(), id) == i + FindName(Row()[i..], id)
        decreases |nodes| - i
      {
        assert Row()[i..][0] == m.Value();
        assert Row()[i..][1..] == Row()[i + 1..];
        m, i := m.next, i + 1;
      }
      if m != null {
        assert Row()[i..][0] == m.Value();
      }
    }

    /** host_find_prefix: searches after prev, or after the first meter if there is no prev. */
    method FindPrefix(prefix: Id, prev: MeterNode?, ghost at: nat) returns (m: MeterNode?, ghost i: nat)
      requires Valid()
      requires prev != null ==> at < |nodes| && prev == nodes[at]
      ensures i == Meters.FindPrefix(Row(), prefix, if prev != null then at + 1 else 1)
      ensures m == NodeAt(nodes, i)
    {
      var crsr := if prev != null then prev else first;
      hide IdMask, NameOf, IsPrefix, Masked;
      var mask := IdMask(prefix);
      i := if prev != null then at + 1 else 1;
      ghost var from := i;
      if crsr == null {
        return null, 0;
      }
      m := crsr.next;
      while m != null && !(Masked(m.id, mask) == NameOf(prefix) && IsPrefix(prefix, m.id, mask))
        invariant i <= |nodes| && m == NodeAt(nodes, i)
        invariant Meters.FindPrefix(Row(), prefix, from) == Meters.FindPrefix(Row(), prefix, i)
        decreases |nodes| - i
      {
        m, i := m.next, i + 1;
      }
    }

    /** host_get_meter: the meter for an id, a new one at the end of the list if need be. */
    method GetMeter(id: Id) returns (m: MeterNode, ghost i: nat)
      requires Valid()
      modifies this, nodes
      ensures Valid() && i < |nodes| && m == nodes[i]
      ensures i == FindMeter(old(Row()), id)
      ensures nodes == old(nodes) || (fresh(m) && nodes == old(nodes) + [m])
      ensures Row() == if i < old(|nodes|) then old(Row()) else old(Row()) + [NewMeter(id)]
    {
      hide NameOf, FullName;
      var rid := FullName(id);
      if first == null {
        m := Append(rid);
        i := 0;
      } else {
        m, i := first, 0;
        while !(m.id == rid || (NameOf(m.id) == NameOf(rid) && m.count == EMPTY_ARRAY)) && m.next != null
          invariant i < |nodes| && m == nodes[i]
          invariant FindMeter(Row(), id) == i + FindMeter(Row()[i..], id)
          decreases |nodes| - i
        {
          assert Row()[i..][0] == m.Value();
          assert Row()[i..][1..] == Row()[i + 1..];
          m, i := m.next, i + 1;
        }
        assert Row()[i..][0] == m.Value();
        assert Row()[i..][1..] == Row()[i + 1..];
        if !(m.id == rid || (NameOf(m.id) == NameOf(rid) && m.count == EMPTY_ARRAY)) {
          i := |nodes|;
          m := Append(rid);
        }
      }
    }

    /** A new meter after the last. */
    method Append(rid: Id) returns (m: MeterNode)
      requires Valid()
      modifies this, nodes
      ensures Valid() && fresh(m) && nodes == old(nodes) + [m]
      ensures Row() == old(Row()) + [Meter(rid, EMPTY_VAL, Null)]
    {
      m := new MeterNode();
      m.id := rid;
      if last == null {
        first, mcount := m, 1;
      } else {
        m.prev := last;
        last.next := m;
        mcount := mcount + 1;
      }
      last := m;
      nodes := nodes + [m];
      assert Row() == old(Row()) + [Meter(rid, EMPTY_VAL, Null)];
    }

    /** host_delete_meter. */
    method DeleteMeter(m: MeterNode, ghost i: nat)
      requires Valid() && i < |nodes| && m == nodes[i]
      modifies this, nodes
      ensures Valid() && nodes == old(nodes[..i] + nodes[i + 1..])
      ensures Row() == old(Row()[..i] + Row()[i + 1..])
      ensures m.prev == m.next == null && m.Value() == Meters.SetCount(old(m.Value()), EMPTY_VAL)
    {
      ghost var rest := nodes[..i] + nodes[i + 1..];
      Without(nodes, i);
      hide Linked, Values;
      Detach(m, i);
      mcount := mcount - 1;
      Clear(m, rest);
      nodes := rest;
    }

    /** An unlinked meter is emptied and points nowhere; the others do not notice. */
    method Clear(m: MeterNode, ghost rest: seq<MeterNode>)
      requires Linked(rest) && m !in rest
      modifies m
      ensures Linked(rest) && Values(rest) == old(Values(rest))
      ensures m.prev == m.next == null && m.Value() == Meters.SetCount(old(m.Value()), EMPTY_VAL)
    {
      m.SetCount(EMPTY_VAL);
      m.prev, m.next := null, null;
    }

    method Detach(m: MeterNode, ghost i: nat)
      requires Valid() && i < |nodes| && m == nodes[i]
      modifies `first, `last, nodes`next, nodes`prev
      ensures var rest := nodes[..i] + nodes[i + 1..];
        && Linked(rest) && first == NodeAt(rest, 0) && last == NodeAt(rest, |rest| - 1)
        && Values(rest) == old(Values(nodes[..i] + nodes[i + 1..])) && m.Value() == old(m.Value())
    {
      hide Linked;
      ghost var rest := nodes[..i] + nodes[i + 1..];
      ghost var row := Values(rest);
      Unlink(m, i);
      forall k | 0 <= k < |rest| ensures rest[k].Value() == row[k] {
        assert rest[k] in nodes;
      }
      assert Values(rest) == row;
    }

    /** The neighbours of m are tied to each other. */
    method Unlink(m: MeterNode, ghost i: nat)
      requires Valid() && i < |nodes| && m == nodes[i]
      modifies `first, `last, nodes`next, nodes`prev
      ensures var rest := nodes[..i] + nodes[i + 1..];
        Linked(rest) && first == NodeAt(rest, 0) && last == NodeAt(rest, |rest| - 1)
    {
      assert m.prev == NodeAt(nodes, i - 1) && m.next == NodeAt(nodes, i + 1);
      RestAt(nodes, i);
      if m.prev != null {
        if m.next != null {
          m.prev.next := m.next;
          m.next.prev := m.prev;
        } else {
          m.prev.next := null;
          last := m.prev;
        }
      } else if m.next != null {
        m.next.prev := null;
        first := m.next;
      } else {
        first, last := null, null;
      }
    }

    // ---- Changing one meter of the list ----

    method SetCountAt(m: MeterNode, ghost i: nat, n: nat)
      requires Valid() && i < |nodes| && m == nodes[i]
      modifies m`count, m`d
      ensures Valid() && Row() == old(Row())[i := Meters.SetCount(old(Row())[i], n)]
    {
      m.SetCount(n);
      hide TypeOf, Meters.SetCount;
      assert Row() == old(Row())[i := m.Value()];
    }

    /** Sized by the count of an id, and then of its type. The storage stays what it is. */
    method ResizeAt(m: MeterNode, ghost i: nat, mid: Id)
      requires Valid() && i < |nodes| && m == nodes[i]
      modifies m`count, m`d, m`id
      ensures Valid() && Row() == old(Row())[i := Resize(old(Row())[i], mid)]
    {
      hide CountOf, Retype, Meters.SetCount, Reread;
      m.SetCount(CountOf(mid));
      m.id := Retype(m.id, mid);
      m.d := Reread(m.d, TypeOf(mid), Elements(m.count));
      assert Row() == old(Row())[i := m.Value()];
    }

    method SetValueAt(m: MeterNode, ghost i: nat, pos: nat, v: Value)
      requires Valid() && i < |nodes| && m == nodes[i]
      modifies m`d
      ensures Valid() && Row() == old(Row())[i := Meters.SetValue(old(Row())[i], pos, v)]
    {
      hide Meters.SetValue;
      match v {
        case IntValue(n) => m.SetUint(pos, n);
        case FracValue(f) => m.SetFrac(pos, f);
        case StrValue(s) => m.SetStr(pos, s);
      }
      assert Row() == old(Row())[i := m.Value()];
    }
  }
}
