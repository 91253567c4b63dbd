/** The append-only record file of one host and one day, with its index. */
module RecordLog {
  import opened Wrappers
  import opened HostList
  import IdNames
  import opened Ids
  import opened IndexSearch
  import opened IoPort
  import opened Meters
  import opened MeterTrip
  import opened PktCodec
  import opened Wire
  import opened WireText
  import opened Words

  // ---- The files a run of saves leaves ----

  /** One save: when it was, and the meters it wrote. */
  datatype Save = Save(when: nat, row: seq<Meter>)

  predicate Counted(row: seq<Meter>) {
    forall m :: m in row ==> m.count < 32
  }

  function RecordBytes(s: Save): (r: seq<bv8>)
    requires Counted(s.row)
    ensures |r| >= 16
  {
    EncU64(0) + EncU64(WordOf(s.when)) + EncHost(s.row)
  }

  predicate AllCounted(saves: seq<Save>) {
    forall s :: s in saves ==> Counted(s.row)
  }

  function DbBytes(saves: seq<Save>): seq<bv8>
    requires AllCounted(saves)
  {
    if saves == [] then [] else DbBytes(saves[..|saves| - 1]) + RecordBytes(saves[|saves| - 1])
  }

  /** Where each record starts, and when it was saved. */
  function Index(saves: seq<Save>): (es: seq<Entry>)
    requires AllCounted(saves)
    ensures |es| == |saves|
  {
    seq(|saves|, k requires 0 <= k < |saves| => Entry(saves[k].when, |DbBytes(saves[..k])|))
  }

  /** The files are shorter than 2 to the power 64 and times are words, not zero, and in order. */
  ghost predicate GoodRun(saves: seq<Save>) {
    && AllCounted(saves)
    && |DbBytes(saves)| < U64
    && TimesOrdered(saves)
  }

  ghost predicate TimesOrdered(saves: seq<Save>) {
    && (forall s :: s in saves ==> 0 < s.when < U64)
    && (forall i, j :: 0 <= i <= j < |saves| ==> saves[i].when <= saves[j].when)
  }

  // ---- Reading a record ----

  function ReadAt(db: seq<bv8>, offs: nat, row: seq<Meter>, strbuf: Text): (bool, seq<Meter>) {
    var (pad, s) := TakeU64(Drop(db, offs));
    if pad != 0 then (false, row) else DecHost(TakeU64(s).1, row, 0, strbuf)
  }

  lemma EmptySearch(es: seq<Entry>, when: nat)
    ensures es == [] ==> Search(es, when) == Invalid
  {
  }

  /** What localdb_get_record does to the meters of a host. */
  function Got(db: Option<seq<bv8>>, es: seq<Entry>, when: nat, row: seq<Meter>, strbuf: Text): (bool, seq<Meter>)
    requires Search(es, when) != DivisionByZero
  {
    match db
    case None => (false, row)
    case Some(bytes) =>
      match Search(es, when)
      case Offset(offs) => ReadAt(bytes, offs, row, strbuf)
      case Invalid => (false, row)
  }

  /** Nothing, or something that starts with a zero word. */
  predicate Stops(s: seq<bv8>) {
    s == [] || EncU64(0) <= s
  }

  lemma StopsReading(s: seq<bv8>)
    requires Stops(s)
    ensures TakeU64(s).0 == 0
  {
    hide EncU64;
    if s != [] {
      assert s == EncU64(0) + s[8..];
      U64Reads(0, s[8..]);
    }
  }

  /** A record file is its records up to k, record k, and then nothing or the pad of the next. */
  lemma {:induction false} RecordAt(saves: seq<Save>, k: nat) returns (rest: seq<bv8>)
    requires AllCounted(saves) && k < |saves|
    ensures DbBytes(saves) == DbBytes(saves[..k]) + RecordBytes(saves[k]) + rest && Stops(rest)
  {
    hide RecordBytes, EncU64, Stops;
    var n := |saves| - 1;
    if k == n {
      rest := [];
      assert DbBytes(saves) + rest == DbBytes(saves);
    } else {
      var more := RecordAt(saves[..n], k);
      assert saves[..n][..k] == saves[..k];
      rest := more + RecordBytes(saves[n]);
      StopsLonger(more, saves[n]);
      Regroup(DbBytes(saves[..k]), RecordBytes(saves[k]), more, RecordBytes(saves[n]));
    }
    StopsEmpty();
  }

  lemma StopsEmpty()
    ensures Stops([])
  {
  }

  lemma StopsLonger(s: seq<bv8>, next: Save)
    requires Stops(s) && Counted(next.row)
    ensures Stops(s + RecordBytes(next))
  {
    hide EncU64, WordOf, EncHost;
    if s == [] {
      assert s + RecordBytes(next) == EncU64(0) + (EncU64(WordOf(next.when)) + EncHost(next.row));
    }
  }

  lemma Regroup(a: seq<bv8>, b: seq<bv8>, c: seq<bv8>, d: seq<bv8>)
    ensures (a + b + c) + d == a + b + (c + d)
  {
  }

  lemma PadRead(s: Save, rest: seq<bv8>)
    requires Counted(s.row)
    ensures var (pad, r) := TakeU64(RecordBytes(s) + rest);
      pad == 0 && TakeU64(r).1 == EncHost(s.row) + rest
  {
    hide EncU64, TakeU64, EncHost;
    var body := EncHost(s.row) + rest;
    assert RecordBytes(s) + rest == EncU64(0) + (EncU64(WordOf(s.when)) + body);
    U64Reads(0, EncU64(WordOf(s.when)) + body);
    U64Reads(WordOf(s.when), body);
  }

  lemma DropPast(a: seq<bv8>, b: seq<bv8>, c: seq<bv8>)
    ensures Drop(a + b + c, |a|) == b + c
  {
  }

  /** Every offset in the index leads to a record that decodes to the meters saved. */
  lemma RecordReads(saves: seq<Save>, k: nat, strbuf: Text)
    requires AllCounted(saves) && k < |saves| && GoodHost(saves[k].row)
    ensures ReadAt(DbBytes(saves), Index(saves)[k].offs, [], strbuf) == (true, ReceivedAll(saves[k].row))
  {
    var rest := RecordAt(saves, k);
    DropPast(DbBytes(saves[..k]), RecordBytes(saves[k]), rest);
    hide DecHost, TakeU64, RecordBytes, GoodHost, Stops, EncHost, Drop, DbBytes, Received, Counted;
    PadRead(saves[k], rest);
    StopsReading(rest);
    HostRoundTrip(saves[k].row, rest, strbuf);
  }

  lemma IndexOrdered(saves: seq<Save>)
    requires GoodRun(saves)
    ensures Ordered(Index(saves)) && InWords(Index(saves)) && (forall e :: e in Index(saves) ==> e.when > 0)
    ensures saves != [] ==> Index(saves)[0].offs == 0
  {
    forall k | 0 <= k < |saves| ensures 0 < Index(saves)[k].when < U64 && Index(saves)[k].offs < U64 {
      assert saves[k] in saves;
      var rest := RecordAt(saves, k);
    }
  }

  /** Which save a time asks for: the last one at or before it. */
  predicate LastSave(saves: seq<Save>, when: nat, k: nat) {
    && k < |saves| && saves[k].when <= when
    && forall j :: 0 <= j < |saves| ==> (saves[j].when <= when <==> j <= k)
  }

  /** After any run of at least two saves at nondecreasing times, not all the same, reading a
      record into an empty host yields exactly what was saved last at or before the time asked
      for, from the first save to the end of the grace period after the last. */
  lemma RunRoundTrip(saves: seq<Save>, when: nat, strbuf: Text) returns (k: nat)
    requires GoodRun(saves) && (forall s :: s in saves ==> GoodHost(s.row))
    requires |saves| >= 2 && saves[0].when < saves[|saves| - 1].when
    requires saves[0].when <= when <= saves[|saves| - 1].when + 90
    ensures LastSave(saves, when, k)
    ensures Search(Index(saves), when) != DivisionByZero
    ensures Got(Some(DbBytes(saves)), Index(saves), when, [], strbuf) == (true, ReceivedAll(saves[k].row))
  {
    hide ReadAt, GoodHost, Follows, DbBytes;
    var es := Index(saves);
    IndexOrdered(saves);
    SearchIsScan(es, when);
    ScanSplits(es, when, 0);
    k := Scan(es, when, 0);
    forall j | 0 <= j < |saves| ensures saves[j].when <= when <==> j <= k {
      assert es[j].when == saves[j].when;
    }
    assert saves[k] in saves;
    RecordReads(saves, k, strbuf);
  }

  /** Outside that time nothing is read, and without a file. The host keeps its meters. */
  lemma NothingFound(saves: seq<Save>, db: Option<seq<bv8>>, when: nat, row: seq<Meter>, strbuf: Text)
    requires GoodRun(saves) && |saves| >= 2 && (when < saves[0].when || saves[|saves| - 1].when + 90 < when)
    ensures Search(Index(saves), when) != DivisionByZero && Got(db, Index(saves), when, row, strbuf) == (false, row)
    ensures forall es :: Search(es, when) != DivisionByZero ==> Got(None, es, when, row, strbuf) == (false, row)
  {
    hide ReadAt, DbBytes;
    IndexOrdered(saves);
    OutOfTime(Index(saves), when);
  }

  /** Two or more saves of one second cannot be read in the next 90: the search divides by zero. */
  lemma SameSecond(saves: seq<Save>, when: nat)
    requires GoodRun(saves) && |saves| >= 2 && saves[0].when == saves[|saves| - 1].when <= when <= saves[0].when + 90
    ensures Search(Index(saves), when) == DivisionByZero
  {
    hide DbBytes;
    IndexOrdered(saves);
    OutOfTime(Index(saves), when);
  }

  /** A single save is found whenever it is asked for. */
  lemma SingleSave(s: Save, when: nat, strbuf: Text)
    requires GoodRun([s]) && GoodHost(s.row)
    ensures Got(Some(DbBytes([s])), Index([s]), when, [], strbuf) == (true, ReceivedAll(s.row))
  {
    hide ReadAt, GoodHost, DbBytes;
    IndexOrdered([s]);
    RecordReads([s], 0, strbuf);
  }

  /** A record starts with a zero word and the time in eight bytes, most significant first, and
      the rest is the packet form of the meters. */
  lemma RecordLayout(s: Save)
    requires Counted(s.row) && s.when < U64
    ensures var r := RecordBytes(s);
      && r[..8] == [0, 0, 0, 0, 0, 0, 0, 0] && DecNat(r[8..16]) == s.when && r[16..] == EncHost(s.row)
  {
    assert EncU64(0) == [0, 0, 0, 0, 0, 0, 0, 0];
    hide EncU64, WordOf, EncNat, DecNat, EncHost;
    WordBytes(s.when);
    EightBytes();
    NatRoundTrip(s.when, 8);
    var r := RecordBytes(s);
    assert r[..8] == EncU64(0) && r[8..16] == EncU64(WordOf(s.when)) && r[16..] == EncHost(s.row);
  }

  /** Anything but a zero word where a record should start is not read. */
  lemma NoRecord(db: seq<bv8>, offs: nat, row: seq<Meter>, strbuf: Text)
    requires offs + 8 <= |db| && DecU64(db[offs..offs + 8]) != 0
    ensures ReadAt(db, offs, row, strbuf) == (false, row)
  {
    hide DecU64;
    assert db[offs..][..8] == db[offs..offs + 8];
  }

  // ---- Saving and reading ----

  function StatusId(): Id {
    IdNames.MakeId("status", TYPE_STR)
  }

  const STALE: Text := [0x53, 0x54, 0x41, 0x4c, 0x45]

  /** Saving looks up the host's status, and so adds a meter for it. */
  function WithStatus(row: seq<Meter>): (r: seq<Meter>)
    ensures FindMeter(row, StatusId()) < |r|
  {
    if FindMeter(row, StatusId()) < |row| then row else row + [NewMeter(StatusId())]
  }

  /** A host that went stale gets no new files. */
  predicate IsStale(row: seq<Meter>) {
    TextAt(WithStatus(row)[FindMeter(row, StatusId())], 0) == STALE
  }

  lemma TypedBits(x: Id)
    ensures FullName(FullName(x)) == FullName(x) && TypeOf(FullName(x)) == TypeOf(x)
  {
  }

  /** A host without a status is not stale, and one with a status is exactly if that reads STALE. */
  lemma StaleReads(row: seq<Meter>, m: Meter, text: Text)
    requires m == SetValue(SetCount(NewMeter(StatusId()), 0), 0, StrValue(text))
    ensures IsStale([m] + row) <==> text == [0x53, 0x54, 0x41, 0x4c, 0x45]
    ensures FindMeter(row, StatusId()) == |row| ==> !IsStale(row)
  {
    var rid := FullName(StatusId());
    StatusTyped();
    TypedBits(StatusId());
    hide StatusId, FullName, TypeOf;
    StatusMeter(NewMeter(StatusId()), text);
    hide SetValue, SetCount, TextAt;
    assert FindMeter([m] + row, StatusId()) == 0;
    NewText(NewMeter(StatusId()));
  }

  lemma StatusMeter(m: Meter, text: Text)
    requires TypeOf(m.id) == TYPE_STR
    ensures var m' := SetValue(SetCount(m, 0), 0, StrValue(text)); m'.id == m.id && TextAt(m', 0) == Cut(text)
  {
    hide TypeOf;
    assert Blank(TYPE_STR, 1) == Strs([[]]);
  }

  lemma NewText(m: Meter)
    requires m.count == EMPTY_VAL
    ensures TextAt(m, 0) == []
  {
  }

  lemma StatusTyped()
    ensures TypeOf(StatusId()) == TYPE_STR
  {
    IdNames.MadeId("status", TYPE_STR);
  }

  lemma IndexGrows(saves: seq<Save>, s: Save)
    requires AllCounted(saves) && Counted(s.row)
    ensures AllCounted(saves + [s])
    ensures Index(saves + [s]) == Index(saves) + [Entry(s.when, |DbBytes(saves)|)]
    ensures DbBytes(saves + [s]) == DbBytes(saves) + RecordBytes(s)
    ensures IndexBytes(Index(saves + [s])) == IndexBytes(Index(saves)) + EntryBytes(Entry(s.when, |DbBytes(saves)|))
  {
    hide RecordBytes, Counted, EntryBytes;
    var more := saves + [s];
    assert more[..|saves|] == saves;
    forall k | 0 <= k < |saves| ensures more[..k] == saves[..k] {
    }
    var es := Index(more);
    assert es == Index(saves) + [Entry(s.when, |DbBytes(saves)|)];
    assert es[..|saves|] == Index(saves);
  }

  /** A file opened for appending is created empty. */
  function Contents(file: Option<seq<bv8>>): seq<bv8> {
    if file.Some? then file.value else []
  }

  function DbFile(saves: seq<Save>): Option<seq<bv8>>
    requires AllCounted(saves)
  {
    if saves == [] then None else Some(DbBytes(saves))
  }

  function IxFile(saves: seq<Save>): Option<seq<bv8>>
    requires AllCounted(saves)
  {
    if saves == [] then None else Some(IndexBytes(Index(saves)))
  }

  function LastRecord(saves: seq<Save>): seq<bv8>
    requires AllCounted(saves) && saves != []
  {
    RecordBytes(saves[|saves| - 1])
  }

  lemma FilesGrow(saves: seq<Save>, s: Save)
    requires AllCounted(saves) && Counted(s.row)
    ensures AllCounted(saves + [s])
    ensures DbFile(saves + [s]) == Some(Contents(DbFile(saves)) + RecordBytes(s))
    ensures IxFile(saves + [s]) == Some(Contents(IxFile(saves)) + EntryBytes(Entry(s.when, |Contents(DbFile(saves))|)))
    ensures LastRecord(saves + [s]) == RecordBytes(s)
  {
    IndexGrows(saves, s);
    hide RecordBytes, Counted, EntryBytes;
  }

  lemma RunGrows(saves: seq<Save>, s: Save)
    requires GoodRun(saves) && Counted(s.row)
    requires 0 < s.when < U64 && (saves != [] ==> saves[|saves| - 1].when <= s.when)
    requires |DbBytes(saves)| + |RecordBytes(s)| < U64
    ensures GoodRun(saves + [s])
  {
    IndexGrows(saves, s);
    OrderGrows(saves, s);
    hide DbBytes, RecordBytes, Counted, Index, AllCounted, IndexBytes, TimesOrdered;
  }

  lemma {:induction false} OrderGrows(saves: seq<Save>, s: Save)
    requires TimesOrdered(saves)
    requires 0 < s.when < U64 && (saves != [] ==> saves[|saves| - 1].when <= s.when)
    ensures TimesOrdered(saves + [s])
  {
    var more := saves + [s];
    forall x | x in more ensures 0 < x.when < U64 {
      assert x in saves || x == s;
    }
    forall i, j | 0 <= i <= j < |more| ensures more[i].when <= more[j].when {
      if j == |saves| && i < j {
        assert saves[i].when <= saves[|saves| - 1].when;
      }
    }
  }

  class DayLog {
    var db: Option<seq<bv8>>
    var ix: Option<seq<bv8>>
    var current: Option<seq<bv8>>
    ghost var saves: seq<Save>

    ghost predicate Valid()
      reads this
    {
      && GoodRun(saves)
      && db == DbFile(saves) && ix == IxFile(saves)
      && (saves != [] ==> current == Some(LastRecord(saves)))
    }

    /** A new day. The file of the current record may be left from another day. */
    constructor (current: Option<seq<bv8>>)
      ensures Valid() && saves == [] && this.current == current
    {
      db, ix, this.current, saves := None, None, current, [];
    }

    method SaveRecord(when: nat, h: Host) returns (ok: bool)
      requires Valid() && h.Valid() && Counted(WithStatus(h.Row()))
      requires forall m :: m in WithStatus(h.Row()) ==> Typed(m) && Known(m)
      requires 0 < when < U64 && (saves != [] ==> saves[|saves| - 1].when <= when)
      requires |DbBytes(saves)| + |RecordBytes(Save(when, WithStatus(h.Row())))| < U64
      modifies this, h, h.nodes
      ensures Valid() && h.Valid() && h.Row() == WithStatus(old(h.Row()))
      ensures ok == !(IsStale(old(h.Row())) && (old(current) == None || old(db) == None))
      ensures saves == if ok then old(saves) + [Save(when, h.Row())] else old(saves)
    {
      hide Counted, Typed, Known, RecordBytes, DbBytes, Index, IndexBytes, Linked, FullName, GoodRun, TextAt, FindMeter, NewMeter, StatusId;
      var mStatus, i := h.GetMeter(StatusId());
      var status := mStatus.GetStr(0);
      assert mStatus.Value() == h.Row()[i];
      if status == STALE && (current == None || db == None) {
        ok := false;
      } else {
        Append(when, h);
        ok := true;
      }
    }

    method Append(when: nat, h: Host)
      requires Valid() && h.Valid() && Counted(h.Row())
      requires forall m :: m in h.Row() ==> Typed(m) && Known(m)
      requires 0 < when < U64 && (saves != [] ==> saves[|saves| - 1].when <= when)
      requires |DbBytes(saves)| + |RecordBytes(Save(when, h.Row()))| < U64
      modifies this
      ensures Valid() && saves == old(saves) + [Save(when, h.Row())]
    {
      hide Counted, Typed, Known, RecordBytes, DbBytes, Index, IndexBytes, GoodRun, Linked, AllCounted, DbFile, IxFile, LastRecord;
      var record := WriteRecord(when, h);
      Store(when, record, Save(when, h.Row()));
    }

    method Store(when: nat, record: seq<bv8>, ghost s: Save)
      requires Valid() && Counted(s.row) && record == RecordBytes(s)
      requires 0 < when == s.when < U64 && (saves != [] ==> saves[|saves| - 1].when <= when)
      requires |DbBytes(saves)| + |record| < U64
      modifies this
      ensures Valid() && saves == old(saves) + [s]
    {
      RunGrows(saves, s);
      assert AllCounted(saves);
      hide RecordBytes, Counted, EntryBytes, DbBytes, DbFile, IxFile, LastRecord, GoodRun, AllCounted, Contents;
      FilesGrow(saves, s);
      var entry := WriteEntry(when, |Contents(db)|);
      db, ix, current := Some(Contents(db) + record), Some(Contents(ix) + entry), Some(record);
      saves := saves + [s];
    }

    /** localdb_get_record. alive is false if a division by zero stops the program. */
    method GetRecord(when: nat, into: Host, strbuf: Text) returns (ok: bool, alive: bool)
      requires Valid() && into.Valid() && when < U64
      modifies into, into.nodes
      ensures Valid() && into.Valid()
      ensures alive == (Search(Index(saves), when) != DivisionByZero)
      ensures alive ==> (ok, into.Row()) == Got(db, Index(saves), when, old(into.Row()), strbuf)
      ensures !alive ==> into.Row() == old(into.Row())
    {
      hide IndexBytes, InWords, Ordered, ReadAt, Search, Host.Valid, Values, DbBytes;
      ok, alive := false, true;
      EmptySearch(Index(saves), when);
      if db.Some? && ix.Some? {
        IndexOrdered(saves);
        var f := new File(ix.value);
        var r := FindIndex(f, Index(saves), when);
        alive := r != DivisionByZero;
        if r.Offset? {
          ok := ReadRecord(db.value, r.offs, into, strbuf);
        }
      }
    }

    /** localdb_get_current: a file that is not there reads as nothing. */
    method GetCurrent(into: Host, strbuf: Text) returns (ok: bool)
      requires into.Valid()
      modifies into, into.nodes
      ensures into.Valid()
      ensures (ok, into.Row()) == if current.None? then (false, old(into.Row())) else ReadAt(current.value, 0, old(into.Row()), strbuf)
    {
      hide ReadAt, Host.Valid, Values;
      ok := false;
      if current.Some? {
        ok := ReadRecord(current.value, 0, into, strbuf);
      }
    }
  }

  // ---- Files behind ports ----

  method WriteRecord(when: nat, h: Host) returns (record: seq<bv8>)
    requires h.Valid() && Counted(h.Row())
    requires forall m :: m in h.Row() ==> Typed(m) && Known(m)
    ensures record == RecordBytes(Save(when, h.Row()))
  {
    hide Typed, Known, EncU64, EncHost, Host.Valid, Values, Port.Clean, WordOf;
    var io := new Port(0);
    var ok := io.WriteU64(0);
    ok := io.WriteU64(WordOf(when));
    ok := EncodeHost(io, h);
    record := io.buf[..io.pos];
  }

  method WriteEntry(when: nat, dbpos: nat) returns (entry: seq<bv8>)
    ensures entry == EntryBytes(Entry(when, dbpos))
  {
    hide EncU64, EncNat, WordOf, Port.Clean;
    WordBytes(when);
    WordBytes(dbpos);
    var io := new Port(0);
    var ok := io.WriteU64(WordOf(when));
    ok := io.WriteU64(WordOf(dbpos));
    entry := io.buf[..io.pos];
  }

  method ReadRecord(bytes: seq<bv8>, offs: nat, into: Host, strbuf: Text) returns (ok: bool)
    requires into.Valid()
    modifies into, into.nodes
    ensures into.Valid()
    ensures (ok, into.Row()) == ReadAt(bytes, offs, old(into.Row()), strbuf)
  {
    hide TakeU64, DecHost, Host.Valid, Values, Port.Valid;
    var rest := Drop(bytes, offs);
    var b := new bv8[|rest|](i requires 0 <= i < |rest| => rest[i]);
    assert b[..] == rest;
    var io := new Port.Around(b);
    var pad := io.ReadU64();
    if pad != 0 {
      ok := false;
    } else {
      var when := io.ReadU64();
      ok := DecodeHost(io, into, strbuf);
    }
  }
}
