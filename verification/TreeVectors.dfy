/** A known answer for trees: what a tree of the round trip test is imported as, and that it is
    written out again; and how numbers are rounded on the way. */
module TreeVectors {
  import opened Flattening
  import opened HostImport
  import opened HostVectors
  import opened IdNames
  import opened Ids
  import opened Json
  import opened JsonCodec
  import opened Regroup
  import opened Strings
  import opened Wrappers
  import M = Meters
  import F = WireFrac

  // ---- The tree ----

  function Problems(): Member {
    Member("problems", Arr([]))
  }

  function Pcpu(): Member {
    Member("pcpu", Dbl(100.0))
  }

  function Mem(): Member {
    Member("mem", Dict([Member("size", Int(524288))]))
  }

  function Net(): Member {
    Member("net", Arr([Dict([Member("name", Str("eth0"))]), Dict([Member("name", Str("eth1"))])]))
  }

  function Tree(): seq<Member> {
    [Problems(), Pcpu(), Mem(), Net()]
  }

  lemma TreeParts()
    ensures IsPart("problems") && IsPart("pcpu") && IsPart("mem") && IsPart("net") && IsPath("mem", "size") && IsPath("net", "name")
    ensures AllBytes("eth0") && AllBytes("eth1")
  {
  }

  lemma EachGood()
    ensures GoodMember(Problems()) && GoodMember(Pcpu()) && GoodMember(Mem()) && GoodMember(Net())
    ensures !Grouped(Problems()) && !Grouped(Pcpu()) && Grouped(Mem()) && Grouped(Net())
  {
    TreeParts();
    hide IsPart, IsPath, AllBytes;
  }

  lemma TreeGood()
    ensures AllGood(Tree()) && Separate(Tree())
  {
    EachGood();
    KeysApart();
    hide GoodMember, Grouped, StartsWith;
    var t := Tree();
    assert Groups(t, 0) == 0;
    assert Groups(t, 1) == 0;
    assert Groups(t, 2) == 0;
    assert Groups(t, 3) == 1;
    assert Groups(t, 4) == 2;
  }

  lemma KeysApart()
    ensures "problems" != "pcpu" && "problems" != "mem" && "problems" != "net" && "pcpu" != "mem" && "pcpu" != "net" && "mem" != "net"
    ensures !StartsWith("net", "mem")
  {
    assert |"problems"| == 8 && |"pcpu"| == 4 && |"mem"| == 3;
    assert "net"[0] != "mem"[0];
  }

  // ---- Its meters ----

  lemma ProblemsMeter()
    ensures GoodMember(Problems()) && Flatten(Problems()) == [M.Meter(PROBLEMS, M.EMPTY_ARRAY, M.Null)]
  {
    EachGood();
    ProblemsId();
    hide MakeId, GoodMember;
  }

  lemma PcpuMeter()
    ensures GoodMember(Pcpu()) && Flatten(Pcpu()) == [M.Meter(PCPU, 0, M.Fracs([F.Finite(100.0)]))]
  {
    EachGood();
    PcpuId();
    hide MakeId, GoodMember;
    assert TYPE_FRAC != TYPE_INT;
    var d := DataOf(TYPE_FRAC, [Dbl(100.0)], 1);
    assert d.fracs == [F.Finite(100.0)];
  }

  lemma MemMeter()
    ensures GoodMember(Mem()) && Flatten(Mem()) == [M.Meter(MEM_SIZE, 0, M.Ints([524288]))]
  {
    EachGood();
    MemSizeId();
    hide MakeId, GoodMember;
    assert Path("mem", "size") == "mem/size";
    var rows := [[Member("size", Int(524288))]];
    assert ColumnOf(rows, 0) == [Int(524288)];
    assert DataOf(TYPE_INT, [Int(524288)], 1).ints == [524288];
    assert Columns("mem", rows, 0)[0] == M.Meter(MEM_SIZE, 0, M.Ints([524288]));
  }

  lemma CharE()
    ensures CharByte('e') == 0x65
  {
    assert 'e' as int % 256 == 0x65;
  }

  lemma CharT()
    ensures CharByte('t') == 0x74
  {
    assert 't' as int % 256 == 0x74;
  }

  lemma CharH()
    ensures CharByte('h') == 0x68
  {
    assert 'h' as int % 256 == 0x68;
  }

  lemma CharZero()
    ensures CharByte('0') == 0x30
  {
    assert '0' as int % 256 == 0x30;
  }

  lemma CharOne()
    ensures CharByte('1') == 0x31
  {
    assert '1' as int % 256 == 0x31;
  }

  lemma EthBytes()
    ensures BytesOf("eth0") == Eth(0) && BytesOf("eth1") == Eth(1)
  {
    hide CharByte, BytesOf;
    CharE();
    CharT();
    CharH();
    CharZero();
    CharOne();
    FourBytes('e', 't', 'h', '0');
    FourBytes('e', 't', 'h', '1');
  }

  lemma NetColumn()
    ensures Column("net/name", TYPE_STR, 2, [Str("eth0"), Str("eth1")]) == M.Meter(NET_NAME, 2, M.Strs([Eth(0), Eth(1)]))
  {
    hide MakeId, BytesOf, Eth;
    NetNameId();
    EthBytes();
    assert TYPE_STR != TYPE_INT && TYPE_STR != TYPE_FRAC;
    assert DataOf(TYPE_STR, [Str("eth0"), Str("eth1")], 2).strs == [Eth(0), Eth(1)];
  }

  lemma OneColumn(prefix: string, key: string, v: Var, w: Var)
    ensures Columns(prefix, [[Member(key, v)], [Member(key, w)]], 2) == [Column(Path(prefix, key), TypeFor(v), 2, [v, w])]
  {
    hide Column, Path, TypeFor;
    var rows := [[Member(key, v)], [Member(key, w)]];
    assert ColumnOf(rows, 0) == [v, w];
  }

  lemma NetRows()
    ensures MembersOfAll(Net().value.elems) == [[Member("name", Str("eth0"))], [Member("name", Str("eth1"))]]
  {
  }

  lemma NetMeter()
    ensures GoodMember(Net()) && Flatten(Net()) == [M.Meter(NET_NAME, 2, M.Strs([Eth(0), Eth(1)]))]
  {
    hide GoodMember, Column, Columns, Eth, NET_NAME, MembersOfAll, Path;
    EachGood();
    NetColumn();
    NetRows();
    OneColumn("net", "name", Str("eth0"), Str("eth1"));
    NetName();
  }

  lemma NetName()
    ensures Path("net", "name") == "net/name"
  {
  }

  lemma SampleBlocks()
    ensures AllGood(Tree()) && Blocks(Tree(), 4) == Sample()
  {
    hide AllGood, Flatten, GoodMember, Eth, Problems, Pcpu, Mem, Net, PROBLEMS, PCPU, MEM_SIZE, NET_NAME;
    TreeGood();
    ProblemsMeter();
    PcpuMeter();
    MemMeter();
    NetMeter();
    var t := Tree();
    assert Blocks(t, 0) == [];
    assert Blocks(t, 1) == Flatten(Problems());
    assert Blocks(t, 2) == Blocks(t, 1) + Flatten(Pcpu());
    assert Blocks(t, 3) == Blocks(t, 2) + Flatten(Mem());
    assert Blocks(t, 4) == Blocks(t, 3) + Flatten(Net());
  }

  /** The tree is imported as the four meters of the sample, and written out as it was. */
  lemma TreeImported(c: Libc)
    ensures Import(c, [], Dict(Tree())) == Imported(true, Sample())
    ensures Export(Sample()) == Some(Dict(Tree()))
  {
    hide AllGood, Separate, Import, Export, Rendered, Sample, Blocks;
    TreeGood();
    SampleBlocks();
    RenderedSame();
    ImportExport(c, Tree());
  }

  lemma RenderedSame()
    ensures Rendered(Dict(Tree())) == Dict(Tree())
  {
    assert Rendered(Arr([])) == Arr([]);
    HundredThousandths();
    assert Rendered(Dbl(100.0)) == Dbl(100.0);
    hide Thousandths;
    var m := Dict([Member("size", Int(524288))]);
    assert Rendered(m).members == m.members;
    var r0, r1 := Dict([Member("name", Str("eth0"))]), Dict([Member("name", Str("eth1"))]);
    assert Rendered(r0).members == r0.members && Rendered(r1).members == r1.members;
    assert Rendered(Net().value).elems == Net().value.elems;
    assert RenderedMembers(Dict(Tree()), Tree()) == Tree();
  }

  // ---- Rounding ----

  lemma HundredThousandths()
    ensures Thousandths(100.0) == 100.0
  {
  }

  lemma NearestWhole(x: real, n: int)
    requires n == (x + 0.5).Floor
    ensures n as real - 0.5 <= x < n as real + 0.5
  {
  }

  /** A double is written out as the nearest thousandth, a half upwards in magnitude. */
  lemma NearestThousandth(r: real) returns (n: int)
    ensures Thousandths(r) == n as real / 1000.0
    ensures if r >= 0.0 then n as real - 0.5 <= r * 1000.0 < n as real + 0.5 else n as real - 0.5 < r * 1000.0 <= n as real + 0.5
  {
    if r < 0.0 {
      n := -((-r * 1000.0 + 0.5).Floor);
      NearestWhole(-r * 1000.0, -n);
    } else {
      n := (r * 1000.0 + 0.5).Floor;
      NearestWhole(r * 1000.0, n);
    }
  }

  /** A double is printed as the nearest millionth, a half upwards. */
  lemma NearestMillionth(r: real)
    requires r >= 0.0
    ensures Micros(r) as real - 0.5 <= r * 1000000.0 < Micros(r) as real + 0.5
  {
  }

  /** Fractions of the test, as they arrive and as they are written out. */
  lemma FractionsOfTest()
    ensures Thousandths(6.02734375) == 6.027 && Thousandths(16.9140625) == 16.914 && Thousandths(16.875) == 16.875
  {
  }
}
