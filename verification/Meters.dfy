/** Meters as values, and the packet encoding of a host's meters on values. */
module Meters {
  import opened Wrappers
  import opened Wire
  import opened WireFrac
  import opened WireText
  import opened IoPort
  import opened Ids

  const EMPTY_VAL := 30
  const EMPTY_ARRAY := 31

  /** A host keeps at most this many meters before the decoder stops adding to it. */
  const MAX_METERS := 256

  /** What d points to. Mangled stands for storage that is too small for values of the meter's
      type, which the source allows and this model does not follow. */
  datatype Data = Null | Ints(ints: seq<nat>) | Fracs(fracs: seq<Frac>) | Strs(strs: seq<Text>) | Mangled

  datatype Meter = Meter(id: Id, count: nat, data: Data)

  datatype Value = IntValue(i: nat) | FracValue(f: Frac) | StrValue(s: Text)

  /** Count 0 means one direct value. */
  function Elements(count: nat): nat {
    if count == 0 then 1 else count
  }

  // ---- meter.c ----

  /** An id without its count. */
  function FullName(id: Id): Id {
    NameOf(id) | TypeOf(id)
  }

  function NewMeter(id: Id): Meter {
    Meter(FullName(id), EMPTY_VAL, Null)
  }

  function Blank(t: Id, n: nat): Data {
    if t == TYPE_INT then Ints(seq(n, _ => 0))
    else if t == TYPE_FRAC then Fracs(seq(n, _ => Finite(0.0)))
    else if t == TYPE_STR then Strs(seq(n, _ => []))
    else Null
  }

  function SetCount(m: Meter, count: nat): Meter {
    if count >= EMPTY_VAL then m.(count := count, data := Null)
    else
      var data := Blank(TypeOf(m.id), Elements(count));
      m.(count := if data == Null then EMPTY_VAL else count, data := data)
  }

  function PutAt<T>(s: seq<T>, pos: nat, v: T): seq<T> {
    if pos < |s| then s[pos := v] else s
  }

  /** What a string value holds of a text. */
  function Cut(s: Text): Text {
    if |s| <= 127 then s else s[..127]
  }

  /** The three setters: a value is stored if it has the meter's type and the index is good. */
  function SetValue(m: Meter, pos: nat, v: Value): Meter {
    if m.count >= EMPTY_VAL || pos >= Elements(m.count) then m
    else
      match v
      case IntValue(i) =>
        if TypeOf(m.id) != TYPE_INT then m
        else m.(data := if m.data.Ints? then Ints(PutAt(m.data.ints, pos, i)) else Mangled)
      case FracValue(f) =>
        if TypeOf(m.id) != TYPE_FRAC then m
        else m.(data := if m.data.Fracs? then Fracs(PutAt(m.data.fracs, pos, f)) else Mangled)
      case StrValue(s) =>
        if TypeOf(m.id) != TYPE_STR then m
        else m.(data := if m.data.Strs? then Strs(PutAt(m.data.strs, pos, Cut(s))) else Mangled)
  }

  /** meter_get_str: nothing if the meter holds no string there. */
  function TextAt(m: Meter, pos: nat): Text {
    if m.count < EMPTY_VAL && TypeOf(m.id) == TYPE_STR && pos < Elements(m.count) && m.data.Strs? && pos < |m.data.strs|
    then m.data.strs[pos] else []
  }

  // ---- host.c on the row of a host's meters ----

  /** host_find_meter_name: where the first meter of this name is, or the end. */
  function FindName(ms: seq<Meter>, id: Id): (i: nat)
    ensures i <= |ms|
  {
    if ms == [] then 0 else if NameOf(ms[0].id) == NameOf(id) then 0 else 1 + FindName(ms[1..], id)
  }

  /** host_get_meter takes a meter of the same name and type, or an empty array of the name. */
  predicate Takes(m: Meter, id: Id) {
    var rid := FullName(id);
    m.id == rid || (NameOf(m.id) == NameOf(rid) && m.count == EMPTY_ARRAY)
  }

  /** Where the first meter host_get_meter would take is, or the end. */
  function FindMeter(ms: seq<Meter>, id: Id): (i: nat)
    ensures i <= |ms|
  {
    if ms == [] || Takes(ms[0], id) then 0 else 1 + FindMeter(ms[1..], id)
  }

  /** The meter that host_get_meter yields is the first of the same name that has the same type
      too, or holds an empty array. */
  lemma {:induction false} FirstTaken(ms: seq<Meter>, id: Id)
    ensures var i := FindMeter(ms, id);
      && (forall k :: 0 <= k < i ==> ms[k].id != FullName(id) && !(NameOf(ms[k].id) == NameOf(id) && ms[k].count == 31))
      && (i < |ms| ==> ms[i].id == FullName(id) || (NameOf(ms[i].id) == NameOf(id) && ms[i].count == 31))
  {
    NewName(id);
    hide NameOf, FullName;
    if ms != [] {
      FirstTaken(ms[1..], id);
    }
  }

  /** What is set is what is there: at the index set, cut to 127 characters, and nowhere else. */
  lemma TextSet(m: Meter, pos: nat, text: Text, other: nat)
    requires m.count < EMPTY_VAL && TypeOf(m.id) == TYPE_STR && pos < Elements(m.count) == |if m.data.Strs? then m.data.strs else []|
    ensures var m' := SetValue(m, pos, StrValue(text));
      && TextAt(m', pos) == (if |text| <= 127 then text else text[..127])
      && (other != pos ==> TextAt(m', other) == TextAt(m, other))
  {
  }

  /** A value of another type than the meter's changes nothing, nor does one past its values or
      for a meter that holds none. */
  lemma NotSet(m: Meter, pos: nat, v: Value)
    requires m.count >= 30 || pos >= (if m.count == 0 then 1 else m.count)
             || TypeOf(m.id) != match v case IntValue(_) => TYPE_INT case FracValue(_) => TYPE_FRAC case StrValue(_) => TYPE_STR
    ensures SetValue(m, pos, v) == m
  {
  }

  lemma NewName(id: Id)
    ensures NameOf(FullName(id)) == NameOf(id)
  {
  }

  /** A name that is nowhere gets a new meter. */
  lemma {:induction false} NothingTaken(ms: seq<Meter>, id: Id)
    requires FindName(ms, id) == |ms|
    ensures FindMeter(ms, id) == |ms|
  {
    NewName(id);
    hide NameOf, FullName;
    if ms != [] {
      NothingTaken(ms[1..], id);
    }
  }

  predicate UnderPrefix(id: Id, prefix: Id) {
    var mask := IdMask(prefix);
    Masked(id, mask) == NameOf(prefix) && IsPrefix(prefix, id, mask)
  }

  /** host_find_prefix from index from on. A search that starts at the first meter passes over
      that one. */
  function FindPrefix(ms: seq<Meter>, prefix: Id, from: nat): (i: nat)
    ensures i <= |ms|
    decreases |ms| - from
  {
    if from >= |ms| then |ms| else if UnderPrefix(ms[from].id, prefix) then from else FindPrefix(ms, prefix, from + 1)
  }

  /** FindPrefix is the first index, from the given one on, of a meter under the prefix. */
  lemma {:induction false} FirstUnder(ms: seq<Meter>, prefix: Id, from: nat)
    ensures var i := FindPrefix(ms, prefix, from);
      && (i < |ms| ==> from <= i && UnderPrefix(ms[i].id, prefix))
      && (forall k :: from <= k < i ==> !UnderPrefix(ms[k].id, prefix))
    decreases |ms| - from
  {
    hide UnderPrefix;
    if from < |ms| && !UnderPrefix(ms[from].id, prefix) {
      FirstUnder(ms, prefix, from + 1);
    }
  }

  /** Every meter before index n under the prefix, but the first in the list, an empty array. */
  function EmptyBefore(ms: seq<Meter>, prefix: Id, n: nat): (r: seq<Meter>)
    ensures |r| == |ms|
  {
    seq(|ms|, i requires 0 <= i < |ms| =>
      if 0 < i < n && UnderPrefix(ms[i].id, prefix) then SetCount(ms[i], EMPTY_ARRAY) else ms[i])
  }

  function EmptyUnder(ms: seq<Meter>, prefix: Id): seq<Meter> {
    EmptyBefore(ms, prefix, |ms|)
  }

  /** Where the search starts makes no difference while nothing was found. */
  lemma EmptyNone(ms: seq<Meter>, prefix: Id)
    ensures EmptyBefore(ms, prefix, FindPrefix(ms, prefix, 1)) == ms
  {
    hide UnderPrefix, SetCount;
    FirstUnder(ms, prefix, 1);
  }

  /** Emptying the meter found and searching on. Emptied meters keep their ids. */
  lemma EmptyNext(ms: seq<Meter>, prefix: Id, i: nat)
    requires 1 <= i < |ms| && UnderPrefix(ms[i].id, prefix)
    ensures var now := EmptyBefore(ms, prefix, i)[i := SetCount(ms[i], EMPTY_ARRAY)];
      var next := FindPrefix(now, prefix, i + 1);
      now == EmptyBefore(ms, prefix, next) && (next < |ms| ==> next > i && UnderPrefix(ms[next].id, prefix))
  {
    hide UnderPrefix;
    var now := EmptyBefore(ms, prefix, i)[i := SetCount(ms[i], EMPTY_ARRAY)];
    forall k | 0 <= k < |ms| ensures now[k].id == ms[k].id {
      KeepsId(ms[k]);
    }
    FirstUnder(now, prefix, i + 1);
    hide SetCount, FindPrefix;
  }

  lemma KeepsId(m: Meter)
    ensures SetCount(m, EMPTY_ARRAY).id == m.id
  {
  }

  /** Meters of this name are deleted. */
  function RemoveName(ms: seq<Meter>, id: Id): (r: seq<Meter>)
    ensures |r| <= |ms|
  {
    if ms == [] then []
    else if NameOf(ms[0].id) == NameOf(id) then RemoveName(ms[1..], id)
    else [ms[0]] + RemoveName(ms[1..], id)
  }

  function SetAt(ms: seq<Meter>, i: nat, m: Meter): (r: seq<Meter>)
    ensures |r| == |ms|
  {
    if i < |ms| then ms[i := m] else ms
  }

  // ---- codec_pkt.c: encoding ----

  function EncValue(m: Meter, pos: nat): seq<bv8> {
    match m.data
    case Ints(s) => if pos < |s| && s[pos] < U64 then EncInt(s[pos]) else []
    case Fracs(s) => if pos < |s| then EncFrac(s[pos]) else []
    case Strs(s) => if pos < |s| && |s[pos]| <= 127 then EncText(s[pos]) else []
    case _ => []
  }

  /** The values from pos on. */
  function EncValues(m: Meter, pos: nat): seq<bv8>
    decreases Elements(m.count) - pos
  {
    if m.count >= EMPTY_VAL || pos >= Elements(m.count) then [] else EncValue(m, pos) + EncValues(m, pos + 1)
  }

  /** The id as the packet carries it. */
  function WireId(m: Meter): Id
    requires m.count < 32
  {
    m.id | CountBits(m.count)
  }

  function EncMeter(m: Meter): seq<bv8>
    requires m.count < 32
  {
    EncU64(WireId(m)) + EncValues(m, 0)
  }

  function EncHost(ms: seq<Meter>): seq<bv8>
    requires forall m :: m in ms ==> m.count < 32
  {
    if ms == [] then [] else EncMeter(ms[0]) + EncHost(ms[1..])
  }

  // ---- codec_pkt.c: decoding ----

  /** One value of the type in the id. A string that cannot be read leaves the buffer as it was. */
  function DecValue(s: seq<bv8>, t: Id, strbuf: Text): (Option<Value>, seq<bv8>, Text) {
    if t == TYPE_INT then var (i, s') := DecInt(s); (Some(IntValue(i)), s', strbuf)
    else if t == TYPE_FRAC then var (f, s') := TakeFrac(s); (Some(FracValue(f)), s', strbuf)
    else if t == TYPE_STR then
      var (text, s') := DecText(s);
      var strbuf' := if text.Some? then text.value else strbuf;
      (Some(StrValue(strbuf')), s', strbuf')
    else (None, s, strbuf)
  }

  /** Values pos up to n into the meter at index at, if there is one. */
  function DecValues(s: seq<bv8>, ms: seq<Meter>, at: nat, t: Id, pos: nat, n: nat, strbuf: Text)
    : (bool, seq<bv8>, seq<Meter>, Text)
    decreases n - pos
  {
    if pos >= n then (true, s, ms, strbuf)
    else
      var (v, s', strbuf') := DecValue(s, t, strbuf);
      if v.None? then (false, s', ms, strbuf')
      else
        var ms' := if at < |ms| then SetAt(ms, at, SetValue(ms[at], pos, v.value)) else ms;
        DecValues(s', ms', at, t, pos + 1, n, strbuf')
  }

  /** The meter named like the prefix is deleted the first time the prefix is met. */
  function DropPrefix(ms: seq<Meter>, pfx: Id, lastpfx: Id, strbuf: Text): (r: (seq<Meter>, Id, Text))
    ensures |r.0| <= |ms|
  {
    if pfx != 0 && pfx != lastpfx then
      (RemoveName(ms, pfx), pfx, LastText(ms, pfx, strbuf))
    else (ms, lastpfx, strbuf)
  }

  /** The text of the last meter's id of this name, or what the buffer held. */
  function LastText(ms: seq<Meter>, id: Id, strbuf: Text): Text {
    if ms == [] then strbuf
    else LastText(ms[1..], id, if NameOf(ms[0].id) == NameOf(id) then IdText(ms[0].id) else strbuf)
  }

  lemma {:induction false} NothingNamed(ms: seq<Meter>, id: Id, strbuf: Text)
    requires forall v :: v in ms ==> NameOf(v.id) != NameOf(id)
    ensures FindName(ms, id) == |ms| && RemoveName(ms, id) == ms && LastText(ms, id, strbuf) == strbuf
  {
    hide NameOf, IdText;
    if ms != [] {
      NothingNamed(ms[1..], id, strbuf);
    }
  }

  /** Deleting the first meter of the name leaves the rest of them to delete. */
  lemma RemoveFirst(ms: seq<Meter>, id: Id, i: nat)
    requires i == FindName(ms, id) < |ms|
    ensures RemoveName(ms[..i] + ms[i + 1..], id) == RemoveName(ms, id)
    ensures FindName(ms[..i] + ms[i + 1..], id) == i + FindName(ms[i + 1..], id)
  {
    BeforeFirst(ms, id);
    SkipOthers(ms[..i], ms[i + 1..], id);
    SkipOthers(ms[..i], ms[i..], id);
    hide NameOf, FindName;
    assert ms == ms[..i] + ms[i..];
    assert ms[i..][0] == ms[i] && ms[i..][1..] == ms[i + 1..];
  }

  lemma {:induction false} LastOfRest(ms: seq<Meter>, id: Id, i: nat, strbuf: Text)
    requires i == FindName(ms, id) < |ms|
    ensures LastText(ms, id, strbuf) == LastText(ms[..i] + ms[i + 1..], id, IdText(ms[i].id))
  {
    hide NameOf, IdText;
    var rest := ms[..i] + ms[i + 1..];
    if i == 0 {
      assert rest == ms[1..];
    } else {
      LastOfRest(ms[1..], id, i - 1, strbuf);
      assert rest[1..] == ms[1..][..i - 1] + ms[1..][i..];
    }
  }

  lemma {:induction false} BeforeFirst(ms: seq<Meter>, id: Id)
    ensures forall k :: 0 <= k < FindName(ms, id) ==> NameOf(ms[k].id) != NameOf(id)
    ensures FindName(ms, id) < |ms| ==> NameOf(ms[FindName(ms, id)].id) == NameOf(id)
  {
    hide NameOf;
    if ms != [] {
      BeforeFirst(ms[1..], id);
    }
  }

  lemma {:induction false} SkipOthers(ms: seq<Meter>, tail: seq<Meter>, id: Id)
    requires forall k :: 0 <= k < |ms| ==> NameOf(ms[k].id) != NameOf(id)
    ensures RemoveName(ms + tail, id) == ms + RemoveName(tail, id)
    ensures FindName(ms + tail, id) == |ms| + FindName(tail, id)
  {
    hide NameOf;
    if ms == [] {
      assert ms + tail == tail;
    } else {
      assert (ms + tail)[1..] == ms[1..] + tail;
      SkipOthers(ms[1..], tail, id);
    }
  }

  /** The meter for an id: found by name, or added at the end if there is room. An index past
      the end stands for no meter. */
  function Slot(ms: seq<Meter>, mid: Id): (r: (seq<Meter>, nat))
    ensures |r.0| <= |ms| || |r.0| <= MAX_METERS + 1
  {
    var i := FindName(ms, mid);
    if i < |ms| then (ms, i)
    else if |ms| <= MAX_METERS then (ms + [NewMeter(mid)], |ms|)
    else (ms, |ms|)
  }

  /** What storage set to zero bits holds for values of type t: 0, 0.0 or "". A string takes more
      room than a number, so only storage made for strings will do for them. */
  function Reread(d: Data, t: Id, n: nat): Data {
    if d == Null || !IsType(t) then d
    else if t == TYPE_STR && !d.Strs? then Mangled
    else Blank(t, n)
  }

  /** The storage is made for the type the meter had; then it gets the type of the id. */
  function Resize(m: Meter, mid: Id): Meter {
    var m' := SetCount(m, CountOf(mid));
    Meter(Retype(m'.id, mid), m'.count, Reread(m'.data, TypeOf(mid), Elements(m'.count)))
  }

  function Emptied(ms: seq<Meter>, mid: Id): (r: seq<Meter>)
    ensures |r| == |ms|
  {
    var i := FindName(ms, mid);
    if CountOf(mid) == EMPTY_ARRAY && i < |ms| then SetAt(ms, i, SetCount(ms[i], EMPTY_ARRAY)) else ms
  }

  /** The list before the values of one record entry are read, and where its meter is. */
  function Prepare(ms: seq<Meter>, mid: Id, lastpfx: Id, strbuf: Text): (seq<Meter>, nat, Id, Text) {
    var ms1 := Emptied(ms, mid);
    var (ms2, lastpfx', strbuf') := DropPrefix(ms1, GetPrefix(mid), lastpfx, strbuf);
    var (ms3, at) := Slot(ms2, mid);
    (if at < |ms3| then SetAt(ms3, at, Resize(ms3[at], mid)) else ms3, at, lastpfx', strbuf')
  }

  lemma DecValueShrinks(s: seq<bv8>, t: Id, strbuf: Text)
    ensures |DecValue(s, t, strbuf).1| <= |s|
  {
    if s == [] {
      assert DecInt(s) == (0, []);
    } else {
      DecConsumes(s, 0);
    }
  }

  lemma {:induction false} DecValuesShrinks(s: seq<bv8>, ms: seq<Meter>, at: nat, t: Id, pos: nat, n: nat, strbuf: Text)
    ensures |DecValues(s, ms, at, t, pos, n, strbuf).1| <= |s|
    ensures |DecValues(s, ms, at, t, pos, n, strbuf).2| == |ms|
    decreases n - pos
  {
    hide DecValue, SetValue;
    if pos < n {
      DecValueShrinks(s, t, strbuf);
      var (v, s', strbuf') := DecValue(s, t, strbuf);
      if v.Some? {
        var ms' := if at < |ms| then SetAt(ms, at, SetValue(ms[at], pos, v.value)) else ms;
        DecValuesShrinks(s', ms', at, t, pos + 1, n, strbuf');
      }
    }
  }

  /** pktcodec_decode_host: success, and the host's meters afterwards. */
  function DecHost(s: seq<bv8>, ms: seq<Meter>, lastpfx: Id, strbuf: Text): (bool, seq<Meter>)
    decreases |s|
  {
    var (mid, s') := TakeU64(s);
    if mid == 0 then (true, ms)
    else if CountOf(mid) == EMPTY_ARRAY && FindPrefix(ms, mid, 1) < |ms| then
      DecHost(s', EmptyUnder(ms, mid), lastpfx, strbuf)
    else
      var (ms', at, lastpfx', strbuf') := Prepare(ms, mid, lastpfx, strbuf);
      var n := if CountOf(mid) >= EMPTY_VAL then 0 else Elements(CountOf(mid));
      var (ok, s2, ms2, strbuf2) := DecValues(s', ms', at, TypeOf(mid), 0, n, strbuf');
      DecValuesShrinks(s', ms', at, TypeOf(mid), 0, n, strbuf');
      if ok then DecHost(s2, ms2, lastpfx', strbuf2) else (false, ms2)
  }

  /** Decoding any bytes into any host never takes it past 257 meters if it was within them,
      and never makes a longer host grow. */
  lemma {:induction false} DecHostQuota(s: seq<bv8>, ms: seq<Meter>, lastpfx: Id, strbuf: Text)
    ensures |DecHost(s, ms, lastpfx, strbuf).1| <= if |ms| > 257 then |ms| else 257
    decreases |s|
  {
    hide GetPrefix, DropPrefix, UnderPrefix, NewMeter, Resize, FindName, SetCount, DecValues, FindPrefix, TypeOf;
    var (mid, s') := TakeU64(s);
    if mid != 0 {
      if CountOf(mid) == EMPTY_ARRAY && FindPrefix(ms, mid, 1) < |ms| {
        DecHostQuota(s', EmptyUnder(ms, mid), lastpfx, strbuf);
      } else {
        var (ms', at, lastpfx', strbuf') := Prepare(ms, mid, lastpfx, strbuf);
        var n := if CountOf(mid) >= EMPTY_VAL then 0 else Elements(CountOf(mid));
        var (ok, s2, ms2, strbuf2) := DecValues(s', ms', at, TypeOf(mid), 0, n, strbuf');
        DecValuesShrinks(s', ms', at, TypeOf(mid), 0, n, strbuf');
        PrepareQuota(ms, mid, lastpfx, strbuf);
        if ok {
          DecHostQuota(s2, ms2, lastpfx', strbuf2);
        }
      }
    }
  }

  lemma PrepareQuota(ms: seq<Meter>, mid: Id, lastpfx: Id, strbuf: Text)
    ensures |Prepare(ms, mid, lastpfx, strbuf).0| <= if |ms| > MAX_METERS + 1 then |ms| else MAX_METERS + 1
  {
    hide GetPrefix, DropPrefix, NewMeter, Resize, FindName, SetCount;
  }
}
