/** Known answers for ids and hosts: meters of the round trip test and the bytes of their packet. */
module HostVectors {
  import opened Bits
  import opened Wire
  import opened WireFrac
  import opened WireText
  import opened WireEdges
  import opened WireVectors
  import opened Ids
  import opened IdNames
  import opened Meters
  import opened MeterTrip
  import opened Strings
  import opened Wrappers
  import L = RecordLog

  // ---- Ids ----

  /** One more letter in front: its code, shifted to its place. */
  lemma OneLetter(name: string, c: char, rest: string, k: nat, v: Id, id: Id)
    requires name == [c] + rest && k < LETTERS && c as int < 128 && ShiftTo(CodeOf(c), k) == v && v | LettersFrom(rest, k + 1) == id
    ensures LettersFrom(name, k) == id
  {
    hide CodeOf, ShiftTo;
    assert name[1..] == rest;
  }

  lemma NoLetters(k: nat)
    requires k <= LETTERS
    ensures LettersFrom("", k) == 0
  {
  }

  const PROBLEMS: Id := 0x2127_8985_6cc0_0000
  const PCPU: Id := 0x6038_5400_0000_0000
  const MEM_SIZE: Id := 0x1a56_fa69_d140_0000
  const NET_NAME: Id := 0x9c5a_79c1_6940_0000
  const STATUS: Id := 0xa740_d2b3_0000_0000

  lemma ProblemsId()
    ensures MakeId("problems", TYPE_INT) == PROBLEMS
  {
    hide LettersFrom;
    NoLetters(8);
    OneLetter("s", 's', "", 7, 0x0000_0000_04c0_0000, 0x0000_0000_04c0_0000);
    OneLetter("ms", 'm', "s", 6, 0x0000_0000_6800_0000, 0x0000_0000_6cc0_0000);
    OneLetter("ems", 'e', "ms", 5, 0x0000_0005_0000_0000, 0x0000_0005_6cc0_0000);
    OneLetter("lems", 'l', "ems", 4, 0x0000_0180_0000_0000, 0x0000_0185_6cc0_0000);
    OneLetter("blems", 'b', "lems", 3, 0x0000_0800_0000_0000, 0x0000_0985_6cc0_0000);
    OneLetter("oblems", 'o', "blems", 2, 0x0007_8000_0000_0000, 0x0007_8985_6cc0_0000);
    OneLetter("roblems", 'r', "oblems", 1, 0x0120_0000_0000_0000, 0x0127_8985_6cc0_0000);
    OneLetter("problems", 'p', "roblems", 0, 0x2000_0000_0000_0000, 0x2127_8985_6cc0_0000);
    assert MakeId("problems", TYPE_INT) == TYPE_INT | 0x2127_8985_6cc0_0000;
  }

  lemma PcpuId()
    ensures MakeId("pcpu", TYPE_FRAC) == PCPU
  {
    hide LettersFrom;
    NoLetters(4);
    OneLetter("u", 'u', "", 3, 0x0000_5400_0000_0000, 0x0000_5400_0000_0000);
    OneLetter("pu", 'p', "u", 2, 0x0008_0000_0000_0000, 0x0008_5400_0000_0000);
    OneLetter("cpu", 'c', "pu", 1, 0x0030_0000_0000_0000, 0x0038_5400_0000_0000);
    OneLetter("pcpu", 'p', "cpu", 0, 0x2000_0000_0000_0000, 0x2038_5400_0000_0000);
    assert MakeId("pcpu", TYPE_FRAC) == TYPE_FRAC | 0x2038_5400_0000_0000;
  }

  lemma MemSizeId()
    ensures MakeId("mem/size", TYPE_INT) == MEM_SIZE
  {
    hide LettersFrom;
    NoLetters(8);
    OneLetter("e", 'e', "", 7, 0x0000_0000_0140_0000, 0x0000_0000_0140_0000);
    OneLetter("ze", 'z', "e", 6, 0x0000_0000_d000_0000, 0x0000_0000_d140_0000);
    OneLetter("ize", 'i', "ze", 5, 0x0000_0009_0000_0000, 0x0000_0009_d140_0000);
    OneLetter("size", 's', "ize", 4, 0x0000_0260_0000_0000, 0x0000_0269_d140_0000);
    OneLetter("/size", '/', "size", 3, 0x0000_7800_0000_0000, 0x0000_7a69_d140_0000);
    OneLetter("m/size", 'm', "/size", 2, 0x0006_8000_0000_0000, 0x0006_fa69_d140_0000);
    OneLetter("em/size", 'e', "m/size", 1, 0x0050_0000_0000_0000, 0x0056_fa69_d140_0000);
    OneLetter("mem/size", 'm', "em/size", 0, 0x1a00_0000_0000_0000, 0x1a56_fa69_d140_0000);
    assert MakeId("mem/size", TYPE_INT) == TYPE_INT | 0x1a56_fa69_d140_0000;
  }

  lemma NetNameId()
    ensures MakeId("net/name", TYPE_STR) == NET_NAME
  {
    hide LettersFrom;
    NoLetters(8);
    OneLetter("e", 'e', "", 7, 0x0000_0000_0140_0000, 0x0000_0000_0140_0000);
    OneLetter("me", 'm', "e", 6, 0x0000_0000_6800_0000, 0x0000_0000_6940_0000);
    OneLetter("ame", 'a', "me", 5, 0x0000_0001_0000_0000, 0x0000_0001_6940_0000);
    OneLetter("name", 'n', "ame", 4, 0x0000_01c0_0000_0000, 0x0000_01c1_6940_0000);
    OneLetter("/name", '/', "name", 3, 0x0000_7800_0000_0000, 0x0000_79c1_6940_0000);
    OneLetter("t/name", 't', "/name", 2, 0x000a_0000_0000_0000, 0x000a_79c1_6940_0000);
    OneLetter("et/name", 'e', "t/name", 1, 0x0050_0000_0000_0000, 0x005a_79c1_6940_0000);
    OneLetter("net/name", 'n', "et/name", 0, 0x1c00_0000_0000_0000, 0x1c5a_79c1_6940_0000);
    assert MakeId("net/name", TYPE_STR) == TYPE_STR | 0x1c5a_79c1_6940_0000;
  }

  lemma StatusId()
    ensures MakeId("status", TYPE_STR) == STATUS
  {
    hide LettersFrom;
    NoLetters(6);
    OneLetter("s", 's', "", 5, 0x0000_0013_0000_0000, 0x0000_0013_0000_0000);
    OneLetter("us", 'u', "s", 4, 0x0000_02a0_0000_0000, 0x0000_02b3_0000_0000);
    OneLetter("tus", 't', "us", 3, 0x0000_5000_0000_0000, 0x0000_52b3_0000_0000);
    OneLetter("atus", 'a', "tus", 2, 0x0000_8000_0000_0000, 0x0000_d2b3_0000_0000);
    OneLetter("tatus", 't', "atus", 1, 0x0140_0000_0000_0000, 0x0140_d2b3_0000_0000);
    OneLetter("status", 's', "tatus", 0, 0x2600_0000_0000_0000, 0x2740_d2b3_0000_0000);
    assert MakeId("status", TYPE_STR) == TYPE_STR | 0x2740_d2b3_0000_0000;
  }
  // ---- The packet ----

  function Eth(n: bv8): Text {
    [0x65, 0x74, 0x68, 0x30 + n]
  }

  /** An empty array, a fraction, an integer of a group, and a column of two strings. */
  function Sample(): seq<Meter> {
    [Meter(PROBLEMS, EMPTY_ARRAY, Null), Meter(PCPU, 0, Fracs([Finite(100.0)])), Meter(MEM_SIZE, 0, Ints([524288])),
     Meter(NET_NAME, 2, Strs([Eth(0), Eth(1)]))]
  }

  lemma EthText()
    ensures EncText(Eth(0)) == [0x84, 0x11, 0x31, 0xdf] && EncText(Eth(1)) == [0x84, 0x11, 0x31, 0xe0]
  {
    hide Code, Pack, CodeBits;
    EthCodes();
    assert AllSixBit(Eth(0)) && AllSixBit(Eth(1));
    FourCharacters(Eth(0));
    FourCharacters(Eth(1));
    assert Eth(0)[4..] == [] && Eth(1)[4..] == [];
    NoCharacters();
  }

  lemma EthCodes()
    ensures Code(0x65) == 4 && Code(0x74) == 19 && Code(0x68) == 7 && Code(0x30) == 31 && Code(0x31) == 32
  {
  }

  lemma ProblemsBytes()
    ensures EncMeter(Meter(PROBLEMS, EMPTY_ARRAY, Null)) == [0x21, 0x27, 0x89, 0x85, 0x6c, 0xc0, 0x00, 0x1f]
  {
    assert CountBits(31) == 31;
    assert EncU64(0x2127_8985_6cc0_001f) == [0x21, 0x27, 0x89, 0x85, 0x6c, 0xc0, 0x00, 0x1f];
  }

  lemma PcpuBytes()
    ensures EncMeter(Meter(PCPU, 0, Fracs([Finite(100.0)]))) == [0x60, 0x38, 0x54, 0, 0, 0, 0, 0, 100, 0]
  {
    assert CountBits(0) == 0;
    assert EncU64(PCPU) == [0x60, 0x38, 0x54, 0, 0, 0, 0, 0];
    FracExamples();
    hide EncU64, EncReal;
    OneValue(Meter(PCPU, 0, Fracs([Finite(100.0)])));
  }

  lemma OneValue(m: Meter)
    requires m.count == 0
    ensures EncValues(m, 0) == EncValue(m, 0)
  {
    hide EncValue;
    assert EncValues(m, 1) == [];
  }

  lemma MemBytes()
    ensures EncMeter(Meter(MEM_SIZE, 0, Ints([524288]))) == [0x1a, 0x56, 0xfa, 0x69, 0xd1, 0x40, 0, 0, 0xa0, 0x80, 0]
  {
    assert CountBits(0) == 0;
    assert EncU64(MEM_SIZE) == [0x1a, 0x56, 0xfa, 0x69, 0xd1, 0x40, 0, 0];
    IntExamples();
    hide EncU64, EncInt;
    OneValue(Meter(MEM_SIZE, 0, Ints([524288])));
  }

  lemma NetWord(m: Meter)
    requires m.id == NET_NAME && m.count == 2
    ensures EncU64(WireId(m)) == [0x9c, 0x5a, 0x79, 0xc1, 0x69, 0x40, 0, 0x02]
  {
    assert CountBits(2) == 2;
  }

  lemma TwoTexts(m: Meter, s: Text, t: Text)
    requires m.count == 2 && m.data == Strs([s, t]) && |s| <= 127 && |t| <= 127
    ensures EncValues(m, 0) == EncText(s) + EncText(t)
  {
    hide EncText;
    assert EncValues(m, 2) == [];
    assert EncValues(m, 1) == EncValue(m, 1) + EncValues(m, 2);
    assert EncValues(m, 0) == EncValue(m, 0) + EncValues(m, 1);
  }

  lemma NetBytes()
    ensures EncMeter(Meter(NET_NAME, 2, Strs([Eth(0), Eth(1)])))
         == [0x9c, 0x5a, 0x79, 0xc1, 0x69, 0x40, 0, 0x02] + ([0x84, 0x11, 0x31, 0xdf] + [0x84, 0x11, 0x31, 0xe0])
  {
    hide EncU64, EncText, EncValues, WireId, NET_NAME;
    var m := Meter(NET_NAME, 2, Strs([Eth(0), Eth(1)]));
    NetWord(m);
    EthText();
    TwoTexts(m, Eth(0), Eth(1));
  }

  /** The packet of the sample: per meter an id with its count, and then its values. */
  lemma SampleBytes()
    ensures EncHost(Sample()) ==
      [0x21, 0x27, 0x89, 0x85, 0x6c, 0xc0, 0x00, 0x1f] +
      [0x60, 0x38, 0x54, 0, 0, 0, 0, 0, 100, 0] +
      [0x1a, 0x56, 0xfa, 0x69, 0xd1, 0x40, 0, 0, 0xa0, 0x80, 0] +
      ([0x9c, 0x5a, 0x79, 0xc1, 0x69, 0x40, 0, 0x02] + ([0x84, 0x11, 0x31, 0xdf] + [0x84, 0x11, 0x31, 0xe0]))
  {
    ProblemsBytes();
    PcpuBytes();
    MemBytes();
    NetBytes();
    hide EncMeter, Eth;
    FourMeters(Meter(PROBLEMS, EMPTY_ARRAY, Null), Meter(PCPU, 0, Fracs([Finite(100.0)])), Meter(MEM_SIZE, 0, Ints([524288])),
               Meter(NET_NAME, 2, Strs([Eth(0), Eth(1)])));
  }

  lemma FourMeters(a: Meter, b: Meter, c: Meter, d: Meter)
    requires a.count < 32 && b.count < 32 && c.count < 32 && d.count < 32
    ensures EncHost([a, b, c, d]) == EncMeter(a) + EncMeter(b) + EncMeter(c) + EncMeter(d)
  {
    hide EncMeter;
    assert [a, b, c, d][1..] == [b, c, d] && [b, c, d][1..] == [c, d] && [c, d][1..] == [d] && [d][1..] == [];
    assert EncHost([d]) == EncMeter(d) + EncHost([]);
    assert EncHost([c, d]) == EncMeter(c) + EncHost([d]);
    assert EncHost([b, c, d]) == EncMeter(b) + EncHost([c, d]);
    assert EncHost([a, b, c, d]) == EncMeter(a) + EncHost([b, c, d]);
  }

  // ---- A host that went stale ----

  lemma LetterS()
    ensures CharByte('S') == 0x53
  {
    assert 'S' as int % 256 == 0x53;
  }

  lemma LetterT()
    ensures CharByte('T') == 0x54
  {
    assert 'T' as int % 256 == 0x54;
  }

  lemma LetterA()
    ensures CharByte('A') == 0x41
  {
    assert 'A' as int % 256 == 0x41;
  }

  lemma LetterL()
    ensures CharByte('L') == 0x4c
  {
    assert 'L' as int % 256 == 0x4c;
  }

  lemma LetterE()
    ensures CharByte('E') == 0x45
  {
    assert 'E' as int % 256 == 0x45;
  }

  /** The meter status, and what it reads. */
  lemma StaleSpelled()
    ensures L.StatusId() == STATUS && L.STALE == BytesOf("STALE")
  {
    hide CharByte, BytesOf, MakeId;
    StatusId();
    LetterS();
    LetterT();
    LetterA();
    LetterL();
    LetterE();
    FourBytes('T', 'A', 'L', 'E');
    OneMore('S', "TALE");
    assert "STALE" == ['S'] + "TALE";
  }

  lemma OneMore(c: char, s: string)
    ensures BytesOf([c] + s) == [CharByte(c)] + BytesOf(s)
  {
    hide CharByte;
    assert ([c] + s)[1..] == s;
  }

  /** A string value cut off in the packet reads as the string value before it. */
  lemma LostText(n: bv8, rest: seq<bv8>, strbuf: Text)
    requires n < 0x80 && |rest| < n as nat
    ensures DecValue([n] + rest, TYPE_STR, strbuf) == (Some(StrValue(strbuf)), rest, strbuf)
  {
    hide DecText;
    TextCutOff(n, rest);
  }
}
