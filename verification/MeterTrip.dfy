/** Decoding the packet encoding of a host's meters into an empty host. */
module MeterTrip {
  import opened Wrappers
  import opened Wire
  import opened WireFrac
  import opened WireText
  import opened IoPort
  import opened Ids
  import opened Meters

  // ---- Which hosts survive ----

  /** An id without a count. */
  predicate Bare(id: Id) {
    id & 0x1f == 0
  }

  lemma WireFacts(m: Meter)
    requires m.count < 32 && Bare(m.id)
    ensures CountOf(WireId(m)) == m.count && NameOf(WireId(m)) == NameOf(m.id) && TypeOf(WireId(m)) == TypeOf(m.id)
    ensures NameOf(m.id) != 0 ==> WireId(m) != 0
  {
    hide CountBits;
    CountedId(m.id, m.count);
  }

  predicate Sendable(s: Text) {
    |s| <= 127 && 0 !in s && InTable(s) && (0x7f in s ==> !AllSixBit(s))
  }

  /** The values have the type of the id, are as many as the count says, and can be encoded. */
  predicate Holds(m: Meter) {
    match m.data
    case Null => m.count == EMPTY_VAL || m.count == EMPTY_ARRAY
    case Ints(s) => m.count < EMPTY_VAL && |s| == Elements(m.count) && TypeOf(m.id) == TYPE_INT && forall i :: i in s ==> i < U63
    case Fracs(s) => m.count < EMPTY_VAL && |s| == Elements(m.count) && TypeOf(m.id) == TYPE_FRAC
    case Strs(s) => m.count < EMPTY_VAL && |s| == Elements(m.count) && TypeOf(m.id) == TYPE_STR && forall t :: t in s ==> Sendable(t)
    case Mangled => false
  }

  predicate GoodMeter(m: Meter) {
    m.count < 32 && Bare(m.id) && NameOf(m.id) != 0 && Holds(m)
  }

  /** Meter m can follow the meters ms: its name is new, no meter is named like its prefix, and
      if it is an empty array, no meter but the first lies under its name. */
  predicate Follows(ms: seq<Meter>, m: Meter)
    requires m.count < 32
  {
    && (forall v :: v in ms ==> NameOf(v.id) != NameOf(m.id))
    && (GetPrefix(WireId(m)) != 0 ==> forall v :: v in ms ==> NameOf(v.id) != NameOf(GetPrefix(WireId(m))))
    && (m.count == EMPTY_ARRAY ==> forall i :: 1 <= i < |ms| ==> !UnderPrefix(ms[i].id, WireId(m)))
  }

  predicate GoodHost(ms: seq<Meter>) {
    |ms| <= 257 && forall k :: 0 <= k < |ms| ==> GoodMeter(ms[k]) && Follows(ms[..k], ms[k])
  }

  // ---- What arrives ----

  function SentAll(s: seq<Frac>): (r: seq<Frac>)
    ensures |r| == |s|
  {
    seq(|s|, i requires 0 <= i < |s| => Sent(s[i]))
  }

  lemma SendableParts(s: seq<Text>, i: nat)
    requires i < |s| && forall t :: t in s ==> Sendable(t)
    ensures Sendable(s[i])
  {
    assert s[i] in s;
  }

  function Received(m: Meter): Meter {
    if m.data.Fracs? then m.(data := Fracs(SentAll(m.data.fracs))) else m
  }

  function ReceivedAll(ms: seq<Meter>): (r: seq<Meter>)
    ensures |r| == |ms|
  {
    seq(|ms|, i requires 0 <= i < |ms| => Received(ms[i]))
  }

  // ---- One meter ----

  lemma U64Reads(x: bv64, rest: seq<bv8>)
    ensures TakeU64(EncU64(x) + rest) == (x, rest)
  {
    hide EncU64, DecU64;
    assert (EncU64(x) + rest)[..8] == EncU64(x) && (EncU64(x) + rest)[8..] == rest;
    U64RoundTrip(x);
  }

  lemma FracReads(f: Frac, rest: seq<bv8>)
    ensures TakeFrac(EncFrac(f) + rest) == (Sent(f), rest)
  {
    hide EncFrac, DecFrac;
    var s := EncFrac(f);
    assert s + rest == [s[0]] + ([s[1]] + rest);
    assert ([s[0]] + ([s[1]] + rest))[1..] == [s[1]] + rest;
    assert ([s[1]] + rest)[1..] == rest;
  }

  /** The values before pos have arrived. */
  function Arrived(d: Data, pos: nat): Data {
    match d
    case Ints(s) => if pos <= |s| then Ints(s[..pos] + seq(|s| - pos, _ => 0)) else d
    case Fracs(s) => if pos <= |s| then Fracs(SentAll(s[..pos]) + seq(|s| - pos, _ => Finite(0.0))) else d
    case Strs(s) => if pos <= |s| then Strs(s[..pos] + seq(|s| - pos, _ => [])) else d
    case _ => d
  }

  function ValueOf(m: Meter, pos: nat): Value
    requires Holds(m) && m.count < EMPTY_VAL && pos < Elements(m.count)
  {
    match m.data
    case Ints(s) => IntValue(s[pos])
    case Fracs(s) => FracValue(Sent(s[pos]))
    case Strs(s) => StrValue(s[pos])
  }

  lemma ValueReads(m: Meter, pos: nat, rest: seq<bv8>, strbuf: Text) returns (strbuf': Text)
    requires Holds(m) && m.count < EMPTY_VAL && pos < Elements(m.count)
    ensures DecValue(EncValue(m, pos) + rest, TypeOf(m.id), strbuf) == (Some(ValueOf(m, pos)), rest, strbuf')
  {
    hide EncInt, DecInt, EncFrac, TakeFrac, EncText, DecText, AllSixBit, TypeOf;
    match m.data
    case Ints(s) =>
      strbuf' := strbuf;
      assert s[pos] in s;
      IntReads(s[pos], rest);
    case Fracs(s) =>
      strbuf' := strbuf;
      FracReads(s[pos], rest);
    case Strs(s) =>
      strbuf' := s[pos];
      SendableParts(s, pos);
      TextRoundTrip(s[pos]);
  }

  lemma ValueStored(m: Meter, pos: nat)
    requires Holds(m) && m.count < EMPTY_VAL && pos < Elements(m.count)
    ensures SetValue(m.(data := Arrived(m.data, pos)), pos, ValueOf(m, pos)) == m.(data := Arrived(m.data, pos + 1))
  {
    hide Sent;
    match m.data
    case Ints(s) =>
      assert (s[..pos] + seq(|s| - pos, _ => 0))[pos := s[pos]] == s[..pos + 1] + seq(|s| - (pos + 1), _ => 0);
    case Fracs(s) =>
      assert (SentAll(s[..pos]) + seq(|s| - pos, _ => Finite(0.0)))[pos := Sent(s[pos])]
          == SentAll(s[..pos + 1]) + seq(|s| - (pos + 1), _ => Finite(0.0));
    case Strs(s) =>
      SendableParts(s, pos);
      assert (s[..pos] + seq(|s| - pos, _ => []))[pos := s[pos]] == s[..pos + 1] + seq(|s| - (pos + 1), _ => []);
  }

  /** The values are read into their meter, between the others. */
  lemma {:induction false} ValuesRead(m: Meter, pos: nat, pre: seq<Meter>, post: seq<Meter>, rest: seq<bv8>, strbuf: Text)
    returns (strbuf': Text)
    requires Holds(m) && m.count < EMPTY_VAL && pos <= Elements(m.count)
    ensures DecValues(EncValues(m, pos) + rest, pre + [m.(data := Arrived(m.data, pos))] + post, |pre|, TypeOf(m.id),
                      pos, Elements(m.count), strbuf)
         == (true, rest, pre + [m.(data := Arrived(m.data, Elements(m.count)))] + post, strbuf')
    decreases Elements(m.count) - pos
  {
    hide EncValue, DecValue, SetValue, Arrived, Holds;
    if pos == Elements(m.count) {
      strbuf' := strbuf;
      assert EncValues(m, pos) + rest == rest;
    } else {
      var more := EncValues(m, pos + 1) + rest;
      assert EncValues(m, pos) + rest == EncValue(m, pos) + more;
      var next := ValueReads(m, pos, more, strbuf);
      ValueStored(m, pos);
      var at := pre + [m.(data := Arrived(m.data, pos))] + post;
      assert at[|pre| := m.(data := Arrived(m.data, pos + 1))] == pre + [m.(data := Arrived(m.data, pos + 1))] + post;
      strbuf' := ValuesRead(m, pos + 1, pre, post, rest, next);
    }
  }

  lemma AllArrived(m: Meter)
    requires Holds(m)
    ensures m.count < EMPTY_VAL ==> m.(data := Arrived(m.data, Elements(m.count))) == Received(m)
    ensures m.count >= EMPTY_VAL ==> m == Received(m)
  {
    hide Sent;
    match m.data
    case Ints(s) => assert s[..|s|] + seq(0, _ => 0) == s;
    case Fracs(s) => assert SentAll(s[..|s|]) + seq(0, _ => Finite(0.0)) == SentAll(s);
    case Strs(s) => assert s[..|s|] + seq(0, _ => []) == s;
    case _ =>
  }

  lemma BlankArrives(m: Meter)
    requires Holds(m) && m.count < EMPTY_VAL
    ensures Blank(TypeOf(m.id), Elements(m.count)) == Arrived(m.data, 0) != Null
  {
    hide TypeOf;
    match m.data
    case Ints(s) => assert s[..0] + seq(|s|, _ => 0) == seq(|s|, _ => 0);
    case Fracs(s) => assert SentAll(s[..0]) + seq(|s|, _ => Finite(0.0)) == seq(|s|, _ => Finite(0.0));
    case Strs(s) => assert s[..0] + seq(|s|, _ => []) == seq(|s|, _ => []);
  }

  // ---- Making room for it ----

  lemma CleanId(id: Id)
    requires Bare(id)
    ensures NameOf(id) | TypeOf(id) == id && Retype(id, id) == id
  {
  }

  lemma SameType(id: Id, t: Id)
    requires TypeOf(id) == TypeOf(t)
    ensures Retype(id, t) == Retype(id, id)
  {
  }

  lemma NewId(m: Meter)
    requires m.count < 32 && Bare(m.id)
    ensures NewMeter(WireId(m)) == Meter(m.id, EMPTY_VAL, Null)
    ensures Retype(m.id, WireId(m)) == m.id
  {
    WireFacts(m);
    CleanId(m.id);
    SameType(m.id, WireId(m));
    hide Bare, NameOf, TypeOf, Retype, WireId;
  }

  lemma {:induction false} NoneUnder(ms: seq<Meter>, prefix: Id, from: nat)
    requires forall i :: from <= i < |ms| ==> !UnderPrefix(ms[i].id, prefix)
    ensures FindPrefix(ms, prefix, from) == |ms|
    decreases |ms| - from
  {
    hide UnderPrefix;
    if from < |ms| {
      NoneUnder(ms, prefix, from + 1);
    }
  }

  /** The meter as the decoder sets it up, before its values. */
  function Fresh(m: Meter): Meter {
    if m.count < EMPTY_VAL then m.(data := Arrived(m.data, 0)) else m
  }

  lemma TypeKept(m: Meter)
    requires GoodMeter(m) && m.count < EMPTY_VAL
    ensures IsType(TypeOf(m.id))
  {
    hide TypeOf, Bare;
  }

  lemma ResizedIs(u: Meter, mid: Id)
    requires CountOf(mid) < EMPTY_VAL ==> IsType(TypeOf(mid))
    ensures var t, s, n := TypeOf(u.id), TypeOf(mid), CountOf(mid);
      Resize(u, mid) ==
        if n >= EMPTY_VAL then Meter(Retype(u.id, mid), n, Null)
        else if !IsType(t) then Meter(Retype(u.id, mid), EMPTY_VAL, Null)
        else Meter(Retype(u.id, mid), n, if s == TYPE_STR && t != TYPE_STR then Mangled else Blank(s, Elements(n)))
  {
    hide CountOf, Retype, TypeOf, Blank, Reread, IsType;
    if CountOf(mid) < EMPTY_VAL {
      RereadAs(TypeOf(u.id), TypeOf(mid), Elements(CountOf(mid)));
      NothingReread(TypeOf(mid), Elements(EMPTY_VAL));
    } else {
      NothingReread(TypeOf(mid), Elements(CountOf(mid)));
    }
  }

  /** Storage made for type t and read as type s. */
  lemma RereadAs(t: Id, s: Id, n: nat)
    requires IsType(s)
    ensures Blank(t, n) == Null <==> !IsType(t)
    ensures Reread(Blank(t, n), s, n) ==
      if !IsType(t) then Null else if s == TYPE_STR && t != TYPE_STR then Mangled else Blank(s, n)
  {
  }

  lemma NothingReread(t: Id, n: nat)
    ensures Reread(Null, t, n) == Null
  {
  }

  lemma NoValues(m: Meter)
    requires Holds(m) && m.count >= EMPTY_VAL
    ensures m.data == Null
  {
  }

  /** Whatever a meter of this id held before. */
  lemma Resized(u: Meter, m: Meter)
    requires GoodMeter(m) && u.id == m.id
    ensures Resize(u, WireId(m)) == Fresh(m)
  {
    WireFacts(m);
    NewId(m);
    hide CountOf, WireId, Retype, TypeOf, NameOf, Blank, Arrived, Bare, Resize, IsType, Holds;
    if m.count < EMPTY_VAL {
      TypeKept(m);
      BlankArrives(m);
    } else {
      NoValues(m);
    }
    ResizedIs(u, WireId(m));
  }

  lemma NothingDropped(vs: seq<Meter>, p: Id, lastpfx: Id, strbuf: Text) returns (pfx: Id)
    requires p != 0 ==> forall v :: v in vs ==> NameOf(v.id) != NameOf(p)
    ensures DropPrefix(vs, p, lastpfx, strbuf) == (vs, pfx, strbuf)
  {
    hide NameOf;
    pfx := DropPrefix(vs, p, lastpfx, strbuf).1;
    if p != 0 {
      NothingNamed(vs, p, strbuf);
    }
  }

  lemma Prepared(vs: seq<Meter>, m: Meter, lastpfx: Id, strbuf: Text) returns (pfx: Id)
    requires |vs| <= MAX_METERS && GoodMeter(m) && Follows(vs, m)
    ensures Prepare(vs, WireId(m), lastpfx, strbuf) == (vs + [Fresh(m)], |vs|, pfx, strbuf)
  {
    WireFacts(m);
    NewId(m);
    Resized(Meter(m.id, EMPTY_VAL, Null), m);
    var mid := WireId(m);
    hide NameOf, Bare, TypeOf, CountOf, WireId, GetPrefix, Resize, NewMeter, Fresh, UnderPrefix, Holds, IdText;
    NothingNamed(vs, mid, strbuf);
    pfx := NothingDropped(vs, GetPrefix(mid), lastpfx, strbuf);
    hide DropPrefix, FindName;
    var ms := vs + [Meter(m.id, EMPTY_VAL, Null)];
    assert ms[|vs| := Fresh(m)] == vs + [Fresh(m)];
  }

  // ---- The whole host ----

  lemma MeterReads(vs: seq<Meter>, m: Meter, rest: seq<bv8>, lastpfx: Id, strbuf: Text) returns (pfx: Id, strbuf': Text)
    requires |vs| <= MAX_METERS && GoodMeter(m) && Follows(vs, m)
    ensures DecHost(EncMeter(m) + rest, vs, lastpfx, strbuf) == DecHost(rest, vs + [Received(m)], pfx, strbuf')
  {
    hide NameOf, Bare, CountOf, CountBits, WireId, GetPrefix, Fresh, UnderPrefix, Prepare, DecValues, EncValues, EncU64, TakeU64, Holds, FindPrefix, TypeOf;
    WireFacts(m);
    var mid := WireId(m);
    var values := EncValues(m, 0) + rest;
    pfx := Prepared(vs, m, lastpfx, strbuf);
    if m.count == EMPTY_ARRAY {
      NoneUnder(vs, mid, 1);
    }
    assert EncMeter(m) + rest == EncU64(mid) + values;
    U64Reads(mid, values);
    strbuf' := DecodedValues(vs, m, [], rest, strbuf);
    assert vs + [Fresh(m)] + [] == vs + [Fresh(m)] && vs + [Received(m)] + [] == vs + [Received(m)];
  }

  lemma DecodedValues(pre: seq<Meter>, m: Meter, post: seq<Meter>, rest: seq<bv8>, strbuf: Text) returns (strbuf': Text)
    requires GoodMeter(m)
    ensures DecValues(EncValues(m, 0) + rest, pre + [Fresh(m)] + post, |pre|, TypeOf(WireId(m)), 0,
                      if m.count >= EMPTY_VAL then 0 else Elements(m.count), strbuf)
         == (true, rest, pre + [Received(m)] + post, strbuf')
  {
    hide Bare, NameOf;
    WireFacts(m);
    AllArrived(m);
    hide TypeOf, WireId, Holds, Arrived, Received;
    if m.count < EMPTY_VAL {
      strbuf' := ValuesRead(m, 0, pre, post, rest, strbuf);
    } else {
      strbuf' := strbuf;
      assert EncValues(m, 0) + rest == rest;
    }
  }

  lemma FollowsReceived(ms: seq<Meter>, m: Meter)
    requires m.count < 32 && Follows(ms, m)
    ensures Follows(ReceivedAll(ms), m)
  {
    hide NameOf, WireId, GetPrefix, UnderPrefix;
    forall v | v in ReceivedAll(ms) ensures exists u :: u in ms && u.id == v.id {
      var i :| 0 <= i < |ms| && ReceivedAll(ms)[i] == v;
      assert ms[i] in ms && ms[i].id == v.id;
    }
  }

  lemma {:induction false} MetersRead(ms: seq<Meter>, k: nat, rest: seq<bv8>, lastpfx: Id, strbuf: Text)
    requires GoodHost(ms) && k <= |ms| && TakeU64(rest).0 == 0
    ensures DecHost(EncHost(ms[k..]) + rest, ReceivedAll(ms[..k]), lastpfx, strbuf) == (true, ReceivedAll(ms))
    decreases |ms| - k
  {
    hide DecHost, EncMeter, Holds, Bare, NameOf, Follows, Received, TakeU64;
    if k == |ms| {
      assert EncHost(ms[k..]) + rest == rest && ms[..k] == ms;
      NoMore(rest, ReceivedAll(ms), lastpfx, strbuf);
    } else {
      var m := ms[k];
      var more := EncHost(ms[k + 1..]) + rest;
      assert ms[k..][1..] == ms[k + 1..];
      assert EncHost(ms[k..]) + rest == EncMeter(m) + more;
      assert GoodMeter(m) && Follows(ms[..k], m);
      MoreReads(ms, k, rest, more, lastpfx, strbuf);
    }
  }

  lemma NoMore(rest: seq<bv8>, ms: seq<Meter>, lastpfx: Id, strbuf: Text)
    requires TakeU64(rest).0 == 0
    ensures DecHost(rest, ms, lastpfx, strbuf) == (true, ms)
  {
    hide TakeU64;
  }

  lemma MoreReads(ms: seq<Meter>, k: nat, rest: seq<bv8>, more: seq<bv8>, lastpfx: Id, strbuf: Text)
    requires GoodHost(ms) && k < |ms| && TakeU64(rest).0 == 0
    requires more == EncHost(ms[k + 1..]) + rest
    ensures DecHost(EncMeter(ms[k]) + more, ReceivedAll(ms[..k]), lastpfx, strbuf) == (true, ReceivedAll(ms))
    decreases |ms| - k, 0
  {
    hide DecHost, EncMeter, Received, TakeU64, Follows;
    FollowsReceived(ms[..k], ms[k]);
    var pfx, strbuf' := MeterReads(ReceivedAll(ms[..k]), ms[k], more, lastpfx, strbuf);
    assert ReceivedAll(ms[..k]) + [Received(ms[k])] == ReceivedAll(ms[..k + 1]);
    MetersRead(ms, k + 1, rest, pfx, strbuf');
  }

  /** Decoding what was encoded, up to a zero word or the end, into an empty host restores the
      meters in order, with their types, counts and values, fractions as they can be sent. */
  lemma HostRoundTrip(ms: seq<Meter>, rest: seq<bv8>, strbuf: Text)
    requires GoodHost(ms) && TakeU64(rest).0 == 0
    ensures DecHost(EncHost(ms) + rest, [], 0, strbuf) == (true, ReceivedAll(ms))
  {
    hide DecHost, EncHost, GoodHost, TakeU64, Received;
    assert ms[0..] == ms && ReceivedAll(ms[..0]) == [];
    MetersRead(ms, 0, rest, 0, strbuf);
  }

  /** A meter of the fourth type stops the decoding at its first value, with an error. Its storage
      stays what it was made for. */
  lemma {:induction false} UnknownType(mid: Id, rest: seq<bv8>, ms: seq<Meter>, m: Meter, lastpfx: Id, strbuf: Text)
    requires TypeOf(mid) == 0xc000_0000_0000_0000 && CountOf(mid) < 30
    ensures !DecHost(EncU64(mid) + rest, ms, lastpfx, strbuf).0
    ensures Resize(m, mid).data == SetCount(m, CountOf(mid)).data
  {
    FourthType(mid);
    hide EncU64, TypeOf, CountOf, Prepare, FindPrefix, Blank;
    U64Reads(mid, rest);
  }

  lemma FourthType(mid: Id)
    requires TypeOf(mid) == 0xc000_0000_0000_0000
    ensures mid != 0 && !IsType(TypeOf(mid))
  {
  }
}
