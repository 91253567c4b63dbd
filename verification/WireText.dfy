/** The string encoding of the wire format: six bits a character when the alphabet allows it,
    plain bytes otherwise. A string is its bytes, without the terminating zero. */
module WireText {
  import opened Bits
  import opened Bytes
  import opened Tables
  import opened Wrappers

  type Text = seq<bv8>

  /** The table DECSET. It lists 127 codes, so its last entry, that of byte 0x7f, is 0. */
  function CodeRow(x: bv8): bv128 {
    if x < 0x10 then      0xffffffff_ffffffff_ffffffff_ffffffff
    else if x < 0x20 then 0xffffffff_ffffffff_ffffffff_ffffffff
    else if x < 0x30 then 0x1effff1a_ffffffff_ffffffff_ff1c3f1b
    else if x < 0x40 then 0x1f202122_23242526_2728ffff_ffffffff
    else if x < 0x50 then 0xff292a2b_2c2d2e2f_30ff3132_333435ff
    else if x < 0x60 then 0x3637ff38_393a3b3c_3dff3eff_ffffff1d
    else if x < 0x70 then 0xff000102_03040506_0708090a_0b0c0d0e
    else                  0x0f101112_13141516_171819ff_ffffff00
  }

  /** The alphabet ENCSET. */
  function CharRow(x: bv8): bv128 {
    if x < 0x10 then      0x61626364_65666768_696a6b6c_6d6e6f70
    else if x < 0x20 then 0x71727374_75767778_797a232f_2d5f2030
    else if x < 0x30 then 0x31323334_35363738_39414243_44454647
    else                  0x484a4b4c_4d4e5051_53545556_57585a2e
  }

  function Code(c: bv8): bv8 {
    Entry(CodeRow(c), c)
  }

  function Char(code: bv8): bv8 {
    Entry(CharRow(code), code)
  }

  predicate SixBit(c: bv8) {
    c <= 0x7f && Code(c) != 0xff
  }

  /** ioport_write_encstring looks a string up in the table from its start to the first character
      without a code. A char is signed: a byte from 0x80 on passes the test against 127 and would
      be looked up before the table. */
  predicate InTable(s: Text) {
    s == [] || (s[0] < 0x80 && (Code(s[0]) == 0xff || InTable(s[1..])))
  }

  lemma {:induction false} AsciiInTable(s: Text)
    requires forall c :: c in s ==> c < 0x80
    ensures InTable(s)
  {
    if s != [] {
      assert s[0] in s && forall c :: c in s[1..] ==> c in s;
      AsciiInTable(s[1..]);
    }
  }

  /** Six-bit characters survive, byte 0x7f alone comes back as the letter of code 0. */
  lemma CharOfCode(c: bv8)
    requires SixBit(c)
    ensures Code(c) < 0x40
    ensures Char(Code(c)) == if c == 0x7f then 0x61 else c
  {
  }

  // ---- Encoding ----

  predicate AllSixBit(s: Text) {
    forall c :: c in s ==> SixBit(c)
  }

  /** The low six bits of every code in turn. */
  function CodeBits(s: Text): (r: seq<bool>)
    ensures |r| == 6 * |s|
  {
    if s == [] then [] else BitsOf(Code(s[0]))[2..] + CodeBits(s[1..])
  }

  function EncText(s: Text): seq<bv8>
    requires |s| <= 127
  {
    if AllSixBit(s) then [|s| as bv8 | 0x80] + Pack(CodeBits(s)) else [|s| as bv8] + s
  }

  // ---- Decoding ----

  /** The first n six-bit characters of a row of bits. */
  function Chars(bits: seq<bool>, n: nat): (s: Text)
    requires 6 * n <= |bits|
    ensures |s| == n
  {
    if n == 0 then [] else [Char(ByteOf(Zeros(2) + bits[..6]))] + Chars(bits[6..], n - 1)
  }

  /** A buffer read as a C string. */
  function UpToZero(s: seq<bv8>): Text {
    if s == [] || s[0] == 0 then [] else [s[0]] + UpToZero(s[1..])
  }

  function Drop(s: seq<bv8>, n: nat): seq<bv8> {
    if n <= |s| then s[n..] else []
  }

  /** The string ioport_read_encstring reads, if it reports one, and the bytes left over. The
      six-bit form reads zero bits past the end; the plain form reports a short read. */
  function DecText(s: seq<bv8>): (Option<Text>, seq<bv8>) {
    var sz := if s == [] then 0 else s[0] as nat;
    var rest := Drop(s, 1);
    if sz == 0 then (None, rest)
    else if sz < 0x80 then
      if sz <= |rest| then (Some(UpToZero(rest[..sz])), rest[sz..]) else (None, rest)
    else
      var (text, after) := DecSixBit(rest, sz - 0x80);
      (Some(text), after)
  }

  function DecSixBit(s: seq<bv8>, n: nat): (Text, seq<bv8>) {
    (Chars(BitsOfAll(s) + Zeros(6 * n), n), Drop(s, (6 * n + 7) / 8))
  }

  // ---- Reading back what was written ----

  lemma CodeOfChar(c: bv8)
    requires SixBit(c)
    ensures Char(ByteOf(Zeros(2) + BitsOf(Code(c))[2..])) == if c == 0x7f then 0x61 else c
  {
    hide Char, Code;
    CharOfCode(c);
    var code := Code(c);
    assert !BitAt(code, 0) && !BitAt(code, 1);
    assert Zeros(2) + BitsOf(code)[2..] == BitsOf(code);
    ByteOfBitsOf(code);
  }

  /** What six-bit encoding makes of a string. */
  function Folded(s: Text): Text {
    seq(|s|, i requires 0 <= i < |s| => if s[i] == 0x7f then 0x61 else s[i])
  }

  lemma {:induction false} CharsOfCodes(s: Text, more: seq<bool>)
    requires AllSixBit(s)
    ensures Chars(CodeBits(s) + more, |s|) == Folded(s)
  {
    hide Char, Code, BitsOf, SixBit, ByteOf;
    if s != [] {
      var bits := CodeBits(s) + more;
      assert bits[..6] == BitsOf(Code(s[0]))[2..];
      assert bits[6..] == CodeBits(s[1..]) + more;
      CodeOfChar(s[0]);
      CharsOfCodes(s[1..], more);
      assert Folded(s)[1..] == Folded(s[1..]);
    }
  }

  lemma {:induction false} UpToZeroOf(s: Text)
    requires 0 !in s
    ensures UpToZero(s) == s
  {
    if s != [] {
      UpToZeroOf(s[1..]);
    }
  }

  lemma LengthByte(n: nat)
    requires n <= 127
    ensures (n as bv8) as nat == n
    ensures (n as bv8 | 0x80) as nat == n + 0x80
  {
    ByteBack(n);
    Below(n as bv8, 0x80);
    TopBit(n as bv8);
  }

  lemma SixBitsRow(s: Text, rest: seq<bv8>) returns (more: seq<bool>)
    ensures BitsOfAll(Pack(CodeBits(s)) + rest) + Zeros(6 * |s|) == CodeBits(s) + more
    ensures |Pack(CodeBits(s))| == (6 * |s| + 7) / 8
  {
    hide CodeBits, Pack, BitsOfAll;
    var p := Pack(CodeBits(s));
    PackBits(CodeBits(s));
    BitsOfAllConcat(p, rest);
    more := Zeros(8 * |p| - 6 * |s|) + BitsOfAll(rest) + Zeros(6 * |s|);
  }

  lemma SixBitsRead(s: Text, rest: seq<bv8>)
    requires AllSixBit(s)
    ensures DecSixBit(Pack(CodeBits(s)) + rest, |s|) == (Folded(s), rest)
  {
    hide CodeBits, Chars, Pack, BitsOfAll, AllSixBit, Folded, Zeros;
    var more := SixBitsRow(s, rest);
    CharsOfCodes(s, more);
    assert Drop(Pack(CodeBits(s)) + rest, |Pack(CodeBits(s))|) == rest;
  }

  lemma SixBitReads(s: Text, rest: seq<bv8>)
    requires |s| <= 127 && AllSixBit(s)
    ensures DecText(EncText(s) + rest) == (Some(Folded(s)), rest)
  {
    hide CodeBits, DecSixBit, Pack, AllSixBit, Folded, UpToZero;
    LengthByte(|s|);
    var p := Pack(CodeBits(s));
    var head := |s| as bv8 | 0x80;
    assert EncText(s) + rest == [head] + (p + rest);
    assert Drop([head] + (p + rest), 1) == p + rest;
    SixBitsRead(s, rest);
  }

  lemma PlainReads(s: Text, rest: seq<bv8>)
    requires |s| <= 127 && 0 !in s && !AllSixBit(s)
    ensures DecText(EncText(s) + rest) == (Some(s), rest)
  {
    hide BitsOfAll, UpToZero;
    assert s != [];
    hide AllSixBit;
    LengthByte(|s|);
    var enc := EncText(s) + rest;
    assert enc == [|s| as bv8] + (s + rest);
    assert Drop(enc, 1) == s + rest;
    assert (s + rest)[..|s|] == s && (s + rest)[|s|..] == rest;
    UpToZeroOf(s);
  }

  /** A string read back, with the cursor right after it whatever follows, is the one written
      exactly when it does not pair byte 0x7f with six-bit characters only. */
  lemma TextRoundTrip(s: Text)
    requires |s| <= 127 && 0 !in s && InTable(s)
    ensures (forall rest :: DecText(EncText(s) + rest) == (Some(s), rest)) <==> (0x7f in s ==> !AllSixBit(s))
  {
    hide DecText, EncText, SixBit;
    forall rest
      ensures DecText(EncText(s) + rest) == (Some(if AllSixBit(s) then Folded(s) else s), rest)
    {
      if AllSixBit(s) {
        SixBitReads(s, rest);
      } else {
        PlainReads(s, rest);
      }
    }
    if 0x7f in s {
      var i :| 0 <= i < |s| && s[i] == 0x7f;
      assert Folded(s)[i] != s[i];
      assert DecText(EncText(s) + []) == (Some(if AllSixBit(s) then Folded(s) else s), []);
    } else {
      assert Folded(s) == s;
    }
  }
}
