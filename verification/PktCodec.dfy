/** The packet codec on ports and linked lists: encoding writes, and decoding applies, exactly
    what the functions on rows of meters say. */
module PktCodec {
  import opened Wrappers
  import opened HostList
  import opened Ids
  import opened IoPort
  import opened Meters
  import opened Wire
  import opened WireFrac
  import opened WireText

  // ---- Encoding ----

  /** A meter whose values are what its type and count say, and whose strings the writer can look
      up in its table. There is nothing to ask of one that has no type the writer knows. */
  predicate Typed(m: Meter) {
    m.count >= EMPTY_VAL || !IsType(TypeOf(m.id)) ||
    match m.data
    case Ints(s) => TypeOf(m.id) == TYPE_INT && |s| == Elements(m.count) && forall i :: i in s ==> i < U64
    case Fracs(s) => TypeOf(m.id) == TYPE_FRAC && |s| == Elements(m.count)
    case Strs(s) => TypeOf(m.id) == TYPE_STR && |s| == Elements(m.count) && forall t :: t in s ==> |t| <= 127 && InTable(t)
    case _ => false
  }

  /** A meter that can be written: it has no values, or a type. */
  predicate Known(m: Meter) {
    m.count >= EMPTY_VAL || IsType(TypeOf(m.id))
  }

  method WriteValue(io: Port, m: MeterNode, pos: nat) returns (ok: bool)
    requires io.Writable() && Typed(m.Value()) && m.count < EMPTY_VAL && pos < Elements(m.count)
    modifies io`buf, io`pos, io`bitpos, io`bitbuffer, io.buf
    ensures io.Valid() && io.rpos <= io.pos && (io.buf == old(io.buf) || fresh(io.buf))
    ensures ok ==> Known(m.Value())
    ensures io.owned ==> ok == Known(m.Value())
    ensures ok ==> io.Clean() && io.Flushed() == old(io.Flushed()) + EncValue(m.Value(), pos)
    ensures ok ==> io.bitpos == 0 || io.bitpos == old(io.bitpos)
  {
    hide TypeOf, EncInt, EncFrac, EncText, Port.Valid, Port.Clean, Port.Written;
    var t := TypeOf(m.id);
    if t == TYPE_INT {
      assert m.d.ints[pos] in m.d.ints;
      ok := io.WriteEncInt(m.d.ints[pos]);
    } else if t == TYPE_FRAC {
      ok := io.WriteEncFrac(m.d.fracs[pos]);
    } else if t == TYPE_STR {
      assert m.d.strs[pos] in m.d.strs;
      ok := io.WriteEncString(m.d.strs[pos]);
    } else {
      ok := false;
    }
  }

  lemma ValuesStep(so: seq<bv8>, m: Meter, i: nat)
    requires m.count < EMPTY_VAL && i < Elements(m.count)
    ensures so + EncValues(m, i) == so + EncValue(m, i) + EncValues(m, i + 1)
  {
    hide EncValue;
  }

  lemma ValuesEnd(so: seq<bv8>, m: Meter, i: nat)
    requires m.count >= EMPTY_VAL || i >= Elements(m.count)
    ensures so + EncValues(m, i) == so
  {
  }

  method WriteMeter(io: Port, m: MeterNode) returns (ok: bool)
    requires io.Writable() && Typed(m.Value()) && m.count < 32
    modifies io`buf, io`pos, io`bitpos, io`bitbuffer, io.buf
    ensures io.Valid() && io.rpos <= io.pos && (io.buf == old(io.buf) || fresh(io.buf))
    ensures ok ==> Known(m.Value())
    ensures io.owned ==> ok == Known(m.Value())
    ensures ok ==> io.Clean() && io.bitpos == 0 && io.Flushed() == old(io.Flushed()) + EncMeter(m.Value())
  {
    hide Typed, CountBits, EncValue, EncValues, EncU64, Port.Valid, Port.Clean, Port.Written, IsType;
    var cnt := if m.count == 0 then 1 else m.count;
    ghost var v := m.Value();
    ghost var before := io.Flushed();
    ok := io.WriteU64(m.id | CountBits(m.count));
    var i := 0;
    while ok && cnt < EMPTY_VAL && i < cnt
      invariant 0 <= i <= cnt
      invariant io.Valid() && io.rpos <= io.pos && (io.buf == old(io.buf) || fresh(io.buf))
      invariant ok && 0 < i ==> Known(v)
      invariant io.owned ==> ok || !Known(v)
      invariant m.Value() == v
      invariant ok ==> io.Clean() && io.bitpos == 0 && before + EncMeter(v) == io.Flushed() + EncValues(v, i)
    {
      ValuesStep(io.Flushed(), v, i);
      ok := WriteValue(io, m, i);
      i := i + 1;
    }
    if ok {
      ValuesEnd(io.Flushed(), v, i);
    }
  }

  lemma EncodeStep(so: seq<bv8>, row: seq<Meter>, i: nat)
    requires i < |row| && forall m :: m in row ==> m.count < 32
    ensures so + EncHost(row[i..]) == so + EncMeter(row[i]) + EncHost(row[i + 1..])
  {
    hide EncMeter;
    assert row[i..][1..] == row[i + 1..];
  }

  lemma EncodeEnd(so: seq<bv8>, row: seq<Meter>, i: nat)
    requires i == |row| && forall m :: m in row ==> m.count < 32
    ensures so + EncHost(row[i..]) == so
  {
  }

  method EncodeHost(io: Port, h: Host) returns (ok: bool)
    requires io.Writable() && h.Valid()
    requires forall m :: m in h.Row() ==> Typed(m) && m.count < 32
    modifies io`buf, io`pos, io`bitpos, io`bitbuffer, io.buf
    ensures io.Valid() && io.rpos <= io.pos && (io.buf == old(io.buf) || fresh(io.buf))
    ensures ok ==> forall m :: m in h.Row() ==> Known(m)
    ensures io.owned ==> ok == forall m :: m in h.Row() ==> Known(m)
    ensures ok ==> io.Clean() && io.Flushed() == old(io.Flushed()) + EncHost(h.Row())
    ensures ok ==> io.bitpos == 0 || io.bitpos == old(io.bitpos)
  {
    hide Typed, Known, EncMeter, Port.Valid, Port.Clean, Port.Written, Port.Flushed, EncHost;
    ghost var row := h.Row();
    ghost var before := io.Flushed();
    ghost var i := 0;
    var m := h.first;
    ok := true;
    assert row[0..] == row;
    while ok && m != null
      invariant i <= |h.nodes| && m == NodeAt(h.nodes, i)
      invariant io.Valid() && io.rpos <= io.pos && (io.buf == old(io.buf) || fresh(io.buf))
      invariant ok ==> forall k :: 0 <= k < i ==> Known(row[k])
      invariant io.owned ==> ok || exists m :: m in row && !Known(m)
      invariant h.Valid() && h.Row() == row
      invariant ok ==> io.bitpos == 0 || io.bitpos == old(io.bitpos)
      invariant ok ==> io.Clean() && before + EncHost(row) == io.Flushed() + EncHost(row[i..])
      decreases |h.nodes| - i
    {
      assert row[i] == m.Value() && row[i] in row;
      ghost var so := io.Flushed();
      ok := WriteMeter(io, m);
      EncodeStep(so, row, i);
      m, i := m.next, i + 1;
    }
    if ok {
      EncodeEnd(io.Flushed(), row, i);
    }
  }

  // ---- Decoding ----

  /** The nodes of a list that only grew by new ones. */
  twostate predicate Grown(h: Host)
    reads h
  {
    forall k :: 0 <= k < |h.nodes| ==> h.nodes[k] in old(h.nodes) || fresh(h.nodes[k])
  }

  /** Empties the children of an emptied array, if it has any. */
  method EmptyChildren(h: Host, mid: Id) returns (found: bool)
    requires h.Valid()
    modifies h.nodes
    ensures h.Valid() && h.nodes == old(h.nodes)
    ensures found == (FindPrefix(old(h.Row()), mid, 1) < |h.nodes|)
    ensures h.Row() == if found then EmptyUnder(old(h.Row()), mid) else old(h.Row())
  {
    hide UnderPrefix, Meters.SetCount, FindPrefix, EmptyBefore, Host.Valid, Values;
    ghost var row := h.Row();
    var crsr, i := h.FindPrefix(mid, null, 0);
    FirstUnder(row, mid, 1);
    EmptyNone(row, mid);
    found := crsr != null;
    while crsr != null
      invariant h.Valid() && i <= |h.nodes| && crsr == NodeAt(h.nodes, i)
      invariant i < |h.nodes| ==> 1 <= i && UnderPrefix(row[i].id, mid)
      invariant h.Row() == EmptyBefore(row, mid, i)
      decreases |h.nodes| - i
    {
      ghost var was := i;
      EmptyNext(row, mid, i);
      SameAt(row, mid, i);
      h.SetCountAt(crsr, i, EMPTY_ARRAY);
      crsr, i := h.FindPrefix(mid, crsr, was);
    }
  }

  lemma SameAt(row: seq<Meter>, mid: Id, i: nat)
    requires i < |row|
    ensures EmptyBefore(row, mid, i)[i] == row[i]
  {
  }

  /** Deletes the meters of this name. The last one's name ends up in the string buffer. */
  method DeleteNamed(h: Host, pfx: Id, strbuf: Text) returns (strbuf': Text)
    requires h.Valid()
    modifies h, h.nodes
    ensures h.Valid() && (forall k :: 0 <= k < |h.nodes| ==> h.nodes[k] in old(h.nodes))
    ensures h.Row() == RemoveName(old(h.Row()), pfx)
    ensures strbuf' == LastText(old(h.Row()), pfx, strbuf)
  {
    hide IdText, LastText, NameOf, RemoveName, FindName, Host.Valid, Meters.SetCount;
    strbuf' := strbuf;
    var crsr, i := h.FindMeterName(pfx);
    while crsr != null
      invariant h.Valid() && (forall k :: 0 <= k < |h.nodes| ==> h.nodes[k] in old(h.nodes))
      invariant i == FindName(h.Row(), pfx) && crsr == NodeAt(h.nodes, i)
      invariant RemoveName(h.Row(), pfx) == RemoveName(old(h.Row()), pfx)
      invariant LastText(h.Row(), pfx, strbuf') == LastText(old(h.Row()), pfx, strbuf)
      decreases |h.nodes|
    {
      RemoveFirst(h.Row(), pfx, i);
      LastOfRest(h.Row(), pfx, i, strbuf');
      strbuf' := IdText(crsr.id);
      h.DeleteMeter(crsr, i);
      crsr, i := h.FindMeterName(pfx);
    }
    BeforeFirst(h.Row(), pfx);
    NothingNamed(h.Row(), pfx, strbuf');
  }

  /** The meter to decode into, sized and typed, or null if the host is full. */
  method Target(h: Host, mid: Id) returns (m: MeterNode?, ghost at: nat)
    requires h.Valid()
    modifies h, h.nodes
    ensures h.Valid() && Grown(h)
    ensures at == Slot(old(h.Row()), mid).1 && m == NodeAt(h.nodes, at)
    ensures var row := Slot(old(h.Row()), mid).0;
      h.Row() == if at < |row| then SetAt(row, at, Resize(row[at], mid)) else row
  {
    hide NewMeter, Resize, FindName, FindMeter, Values, Linked;
    m, at := h.FindMeterName(mid);
    if m == null && h.mcount <= MAX_METERS {
      NothingTaken(h.Row(), mid);
      m, at := h.GetMeter(mid);
    }
    ghost var row := h.Row();
    if m != null {
      h.ResizeAt(m, at, mid);
    }
  }

  /** One value into the meter, if there is one. */
  method ReadValue(io: Port, h: Host, m: MeterNode?, ghost at: nat, t: Id, pos: nat, strbuf: Text)
    returns (ok: bool, strbuf': Text)
    requires io.Valid() && h.Valid() && m == NodeAt(h.nodes, at)
    modifies io`rpos, io`bitpos, io`bitbuffer, h.nodes
    ensures io.Valid() && h.Valid() && h.nodes == old(h.nodes)
    ensures var (v, s, b) := DecValue(old(io.Unread()), t, strbuf);
      && ok == v.Some? && io.Unread() == s && strbuf' == b
      && h.Row() == if v.Some? && at < |h.nodes| then old(h.Row())[at := SetValue(old(h.Row())[at], pos, v.value)] else old(h.Row())
  {
    hide DecInt, TakeFrac, DecText, SetValue, Host.Valid, Values;
    strbuf' := strbuf;
    if t == TYPE_INT {
      var ival := io.ReadEncInt();
      ok := true;
      if m != null {
        h.SetValueAt(m, at, pos, IntValue(ival));
      }
    } else if t == TYPE_FRAC {
      var dval := io.ReadEncFrac();
      ok := true;
      if m != null {
        h.SetValueAt(m, at, pos, FracValue(dval));
      }
    } else if t == TYPE_STR {
      var good, text := io.ReadEncString();
      ok := true;
      if good {
        strbuf' := text;
      }
      if m != null {
        h.SetValueAt(m, at, pos, StrValue(strbuf'));
      }
    } else {
      ok := false;
    }
  }

  lemma DecodeStep(s: seq<bv8>, ms: seq<Meter>, at: nat, t: Id, pos: nat, n: nat, strbuf: Text)
    requires pos < n
    ensures var d := DecValue(s, t, strbuf);
      DecValues(s, ms, at, t, pos, n, strbuf) ==
        if d.0.None? then (false, d.1, ms, d.2)
        else DecValues(d.1, if at < |ms| then ms[at := SetValue(ms[at], pos, d.0.value)] else ms, at, t, pos + 1, n, d.2)
  {
    hide DecValue, SetValue;
    var (v, s', b) := DecValue(s, t, strbuf);
    assert DecValue(s, t, strbuf) == (v, s', b);
    if v.Some? && at < |ms| {
      assert SetAt(ms, at, SetValue(ms[at], pos, v.value)) == ms[at := SetValue(ms[at], pos, v.value)];
    }
  }

  method ReadValues(io: Port, h: Host, m: MeterNode?, ghost at: nat, mid: Id, n: nat, strbuf: Text)
    returns (ok: bool, strbuf': Text)
    requires io.Valid() && h.Valid() && m == NodeAt(h.nodes, at)
    modifies io`rpos, io`bitpos, io`bitbuffer, h.nodes
    ensures io.Valid() && h.Valid() && h.nodes == old(h.nodes)
    ensures (ok, io.Unread(), h.Row(), strbuf') == DecValues(old(io.Unread()), old(h.Row()), at, TypeOf(mid), 0, n, strbuf)
  {
    hide DecValue, SetValue, Host.Valid, Values, TypeOf, Port.Valid, Port.Unread;
    ok, strbuf' := true, strbuf;
    var i := 0;
    while ok && i < n
      invariant 0 <= i <= n
      invariant io.Valid() && h.Valid() && h.nodes == old(h.nodes)
      invariant if ok then
          DecValues(io.Unread(), h.Row(), at, TypeOf(mid), i, n, strbuf')
          == DecValues(old(io.Unread()), old(h.Row()), at, TypeOf(mid), 0, n, strbuf)
        else
          (false, io.Unread(), h.Row(), strbuf')
          == DecValues(old(io.Unread()), old(h.Row()), at, TypeOf(mid), 0, n, strbuf)
    {
      DecodeStep(io.Unread(), h.Row(), at, TypeOf(mid), i, n, strbuf');
      ok, strbuf' := ReadValue(io, h, m, at, TypeOf(mid), i, strbuf');
      i := i + 1;
    }
  }

  /** A meter that is to be an empty array and has no children becomes one. */
  method EmptyNamed(h: Host, mid: Id)
    requires h.Valid()
    modifies h.nodes
    ensures h.Valid() && h.nodes == old(h.nodes)
    ensures h.Row() == Emptied(old(h.Row()), mid)
  {
    hide FindName, Meters.SetCount, Host.Valid, Values, CountOf;
    if CountOf(mid) == EMPTY_ARRAY {
      var crsr, i := h.FindMeterName(mid);
      if crsr != null {
        h.SetCountAt(crsr, i, EMPTY_ARRAY);
      }
    }
  }

  /** Room for the entry of an id: what has to go goes, and its meter is there unless the host
      is full. */
  method MakeRoom(h: Host, mid: Id, lastpfx: Id, strbuf: Text)
    returns (m: MeterNode?, ghost at: nat, lastpfx': Id, strbuf': Text)
    requires h.Valid()
    modifies h, h.nodes
    ensures h.Valid() && Grown(h) && m == NodeAt(h.nodes, at)
    ensures (h.Row(), at, lastpfx', strbuf') == Prepare(old(h.Row()), mid, lastpfx, strbuf)
  {
    hide GetPrefix, RemoveName, LastText, Slot, Resize, Emptied, Host.Valid, Values;
    lastpfx', strbuf' := lastpfx, strbuf;
    EmptyNamed(h, mid);
    var pfx := GetPrefix(mid);
    if pfx != 0 && pfx != lastpfx' {
      lastpfx' := pfx;
      strbuf' := DeleteNamed(h, pfx, strbuf');
    }
    m, at := Target(h, mid);
  }

  lemma WordShrinks(s: seq<bv8>)
    ensures TakeU64(s).0 != 0 ==> |TakeU64(s).1| < |s|
  {
  }

  lemma EntryShrinks(s: seq<bv8>, ms: seq<Meter>, mid: Id, lastpfx: Id, strbuf: Text)
    ensures var (row, at, p, b) := Prepare(ms, mid, lastpfx, strbuf);
      var n := if CountOf(mid) >= EMPTY_VAL then 0 else Elements(CountOf(mid));
      |DecValues(s, row, at, TypeOf(mid), 0, n, b).1| <= |s|
  {
    hide DecValues, Prepare, CountOf, TypeOf;
    var (row, at, p, b) := Prepare(ms, mid, lastpfx, strbuf);
    DecValuesShrinks(s, row, at, TypeOf(mid), 0, if CountOf(mid) >= EMPTY_VAL then 0 else Elements(CountOf(mid)), b);
  }

  /** The loop of pktcodec_decode_host. The string buffer starts with whatever it holds. */
  method DecodeWords(io: Port, h: Host, strbuf: Text) returns (ok: bool)
    requires io.Valid() && h.Valid()
    modifies io`rpos, io`bitpos, io`bitbuffer, h, h.nodes
    ensures io.Valid() && h.Valid() && Grown(h)
    ensures (ok, h.Row()) == DecHost(old(io.Unread()), old(h.Row()), 0, strbuf)
  {
    hide Prepare, EmptyUnder, DecValues, FindPrefix, Host.Valid, Values, CountOf, Port.Valid, Port.Unread, TakeU64;
    var lastpfx: Id, strbuf' := 0, strbuf;
    ok := true;
    var mid := 1;
    while ok && mid != 0
      invariant io.Valid() && h.Valid() && Grown(h)
      invariant (if ok && mid != 0 then DecHost(io.Unread(), h.Row(), lastpfx, strbuf') else (ok, h.Row()))
        == DecHost(old(io.Unread()), old(h.Row()), 0, strbuf)
      decreases ok && mid != 0, |io.Unread()|
    {
      WordShrinks(io.Unread());
      mid := io.ReadU64();
      if mid != 0 {
        var found := false;
        if CountOf(mid) == EMPTY_ARRAY {
          found := EmptyChildren(h, mid);
        }
        if !found {
          EntryShrinks(io.Unread(), h.Row(), mid, lastpfx, strbuf');
          ok, lastpfx, strbuf' := DecodeEntry(io, h, mid, lastpfx, strbuf');
        }
      }
    }
  }

  /** Decoding any bytes into any well-formed host ends, leaves the list well linked both ways
      with its length in mcount, and keeps the quota. */
  method DecodeHost(io: Port, h: Host, strbuf: Text) returns (ok: bool)
    requires io.Valid() && h.Valid()
    modifies io`rpos, io`bitpos, io`bitbuffer, h, h.nodes
    ensures io.Valid() && h.Valid() && Grown(h)
    ensures (ok, h.Row()) == DecHost(old(io.Unread()), old(h.Row()), 0, strbuf)
    ensures old(h.mcount) <= MAX_METERS + 1 ==> h.mcount <= MAX_METERS + 1
  {
    DecHostQuota(io.Unread(), h.Row(), 0, strbuf);
    hide DecHost, Linked, Values, Port.Valid, Port.Unread;
    ok := DecodeWords(io, h, strbuf);
  }

  method DecodeEntry(io: Port, h: Host, mid: Id, lastpfx: Id, strbuf: Text) returns (ok: bool, lastpfx': Id, strbuf': Text)
    requires io.Valid() && h.Valid()
    modifies io`rpos, io`bitpos, io`bitbuffer, h, h.nodes
    ensures io.Valid() && h.Valid() && Grown(h)
    ensures var (row, at, p, b) := Prepare(old(h.Row()), mid, lastpfx, strbuf);
      var n := if CountOf(mid) >= EMPTY_VAL then 0 else Elements(CountOf(mid));
      p == lastpfx' && (ok, io.Unread(), h.Row(), strbuf') == DecValues(old(io.Unread()), row, at, TypeOf(mid), 0, n, b)
  {
    hide Prepare, DecValues, Host.Valid, Values, CountOf, Port.Valid, Port.Unread, TypeOf;
    var m;
    ghost var at;
    m, at, lastpfx', strbuf' := MakeRoom(h, mid, lastpfx, strbuf);
    var count := CountOf(mid);
    if count == 0 {
      count := 1;
    }
    ok, strbuf' := ReadValues(io, h, m, at, mid, if count >= EMPTY_VAL then 0 else count, strbuf');
  }
}
