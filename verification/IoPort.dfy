/** The buffer-backed ioport: a growing byte buffer with a write and a read cursor, and one
    partial byte shared by the bit-wise operations. */
module IoPort {
  import opened Bits
  import opened BitStream
  import opened Wire
  import opened WireFrac
  import opened WireText
  import opened Wrappers

  class Port {
    var buf: array<bv8>
    var pos: nat            // write cursor
    var rpos: nat           // read cursor
    const owned: bool       // an owned buffer grows on demand
    var bitpos: nat
    var bitbuffer: bv8

    /** Where reading stops: at the write cursor, or, on a port nothing was written to, at the
        end of the buffer it was created around. */
    function Limit(): nat
      reads this
    {
      if pos > 0 then pos else buf.Length
    }

    ghost predicate Valid()
      reads this
    {
      pos <= buf.Length && rpos <= Limit() && bitpos <= 8
    }

    ghost function Written(): seq<bv8>
      requires Valid()
      reads this, buf
    {
      buf[..pos]
    }

    ghost function Unread(): seq<bv8>
      requires Valid()
      reads this, buf
    {
      buf[rpos..Limit()]
    }

    /** The partial byte is one a writer left: some bits taken, the rest still zero. */
    ghost predicate Clean()
      reads this
    {
      bitpos < 8 && ClearFrom(bitbuffer, bitpos)
    }

    /** Everything written, the partial byte included. */
    ghost function BitsWritten(): seq<bool>
      requires Valid()
      reads this, buf
    {
      Stream(Written(), bitbuffer, bitpos)
    }

    ghost function Flushed(): seq<bv8>
      requires Valid()
      reads this, buf
    {
      if bitpos == 0 then Written() else Written() + [bitbuffer]
    }

    /** Everything a bit-wise reader has still to read. At bitpos 8 the partial byte is spent. */
    ghost function Remaining(): seq<bool>
      requires Valid()
      reads this, buf
    {
      Pending(bitbuffer, bitpos, Unread())
    }

    /** A port with a buffer of its own. */
    constructor (sz: nat)
      ensures Valid() && Clean() && owned && fresh(buf) && buf.Length == sz
      ensures pos == rpos == bitpos == 0 && bitbuffer == 0
    {
      buf := new bv8[sz];
      pos, rpos, owned := 0, 0, true;
      bitpos, bitbuffer := 0, 0;
    }

    /** A port around somebody else's buffer. */
    constructor Around(b: array<bv8>)
      ensures Valid() && Clean() && !owned && buf == b
      ensures pos == rpos == bitpos == 0 && bitbuffer == 0
      ensures Unread() == b[..]
    {
      buf := b;
      pos, rpos, owned := 0, 0, false;
      bitpos, bitbuffer := 0, 0;
    }

    // ---- The buffer's own methods ----

    method BufferWrite(dat: seq<bv8>) returns (ok: bool)
      requires Valid() && rpos <= pos
      modifies this`buf, this`pos, buf
      ensures Valid() && rpos <= pos && (buf == old(buf) || fresh(buf))
      ensures ok == (owned || old(pos) + |dat| <= old(buf.Length))
      ensures Written() == if ok then old(Written()) + dat else old(Written())
    {
      if pos + |dat| > buf.Length {
        if !owned {
          return false;
        }
        Grow(pos + |dat|);
      }
      var b := buf;
      ghost var before := b[..pos];
      var j := 0;
      while j < |dat|
        invariant 0 <= j <= |dat|
        invariant b[..pos] == before
        invariant b[pos..pos + j] == dat[..j]
        modifies b
      {
        b[pos + j] := dat[j];
        j := j + 1;
      }
      pos := pos + |dat|;
      assert b[..pos] == before + dat;
      ok := true;
    }

    /** Moves the contents to a buffer that is larger by as many pages of 4096 as it takes. */
    method Grow(need: nat)
      requires Valid()
      modifies this`buf
      ensures fresh(buf) && need <= buf.Length && old(buf.Length) <= buf.Length
      ensures buf[..old(buf.Length)] == old(buf[..])
    {
      var b := buf;
      var bufsz := b.Length;
      while need > bufsz
        invariant b.Length <= bufsz
      {
        bufsz := bufsz + 4096;
      }
      var grown := new bv8[bufsz];
      var i := 0;
      while i < b.Length
        invariant 0 <= i <= b.Length
        invariant grown[..i] == b[..i]
        modifies grown
      {
        grown[i] := b[i];
        i := i + 1;
      }
      buf := grown;
    }

    method BufferRead(sz: nat) returns (ok: bool, dat: seq<bv8>)
      requires Valid()
      modifies this`rpos
      ensures Valid()
      ensures ok == (sz <= |old(Unread())|)
      ensures ok ==> dat == old(Unread())[..sz] && Unread() == old(Unread())[sz..]
      ensures !ok ==> dat == [] && rpos == old(rpos)
    {
      if rpos + sz > buf.Length {
        return false, [];
      }
      if pos != 0 && rpos + sz > pos {
        return false, [];
      }
      dat := buf[rpos..rpos + sz];
      assert dat == Unread()[..sz];
      rpos := rpos + sz;
      ok := true;
    }

    function ReadAvailable(): (n: nat)
      requires Valid()
      reads this, buf
      ensures n == |Unread()|
    {
      Limit() - rpos
    }

    // ---- Bit-wise writing and reading ----

    /** Emits the partial byte and starts the next one. */
    method Spill(rest: bv8, taken: nat) returns (ok: bool)
      requires Valid() && rpos <= pos && taken <= 8
      modifies this`buf, this`pos, this`bitpos, this`bitbuffer, buf
      ensures Valid() && rpos <= pos && (buf == old(buf) || fresh(buf))
      ensures owned ==> ok
      ensures ok ==> bitpos == taken && bitbuffer == rest && Written() == old(Written()) + [old(bitbuffer)]
      ensures !ok ==> Written() == old(Written())
    {
      ok := BufferWrite([bitbuffer]);
      if ok {
        bitpos, bitbuffer := taken, rest;
      }
    }

    method WriteBits(d: bv8, bits: nat) returns (ok: bool)
      requires Valid() && Clean() && rpos <= pos
      modifies this`buf, this`pos, this`bitpos, this`bitbuffer, buf
      ensures Valid() && rpos <= pos && (buf == old(buf) || fresh(buf))
      ensures owned && bits <= 8 ==> ok
      ensures bits > 8 ==> !ok && Clean() && BitsWritten() == old(BitsWritten())
      ensures ok ==> Clean() && BitsWritten() == old(BitsWritten()) + BitsOf(d)[8 - bits..]
    {
      if bits > 8 {
        return false;
      }
      ok := PutBits(d, bits);
    }

    method PutBits(d: bv8, bits: nat) returns (ok: bool)
      requires Valid() && Clean() && rpos <= pos && bits <= 8
      modifies this`buf, this`pos, this`bitpos, this`bitbuffer, buf
      ensures Valid() && rpos <= pos && (buf == old(buf) || fresh(buf))
      ensures owned ==> ok
      ensures ok ==> Clean() && BitsWritten() == old(BitsWritten()) + BitsOf(d)[8 - bits..]
    {
      hide Merge, Carry, BitsOf, Stream, ClearFrom;
      var bits1 := if bitpos + bits < 8 then bits else 8 - bitpos;
      var bits2 := bits - bits1;
      ghost var was, p, before := bitbuffer, bitpos, Written();
      bitbuffer := Merge(bitbuffer, d, bitpos, bits, bits1);
      bitpos := bitpos + bits1;
      if bitpos > 7 {
        FilledByte(before, was, d, p, bits);
        ok := Spill(Carry(d, bits2), bits2);
      } else {
        PartByte(before, was, d, p, bits);
        ok := true;
      }
    }

    method FlushBits() returns (ok: bool)
      requires Valid() && rpos <= pos
      modifies this`buf, this`pos, this`bitpos, this`bitbuffer, buf
      ensures Valid() && rpos <= pos && (buf == old(buf) || fresh(buf))
      ensures owned ==> ok
      ensures ok ==> bitpos == 0 && Written() == old(Flushed())
      ensures ok && old(Clean()) ==> Clean()
      ensures !ok ==> Written() == old(Written())
    {
      if bitpos == 0 {
        return true;
      }
      ok := Spill(0, 0);
      ZeroIsClear();
    }

    /** Reads whole bytes. Any partial byte is dropped, whether or not the read succeeds. */
    method Read(sz: nat) returns (ok: bool, dat: seq<bv8>)
      requires Valid()
      modifies this`rpos, this`bitpos, this`bitbuffer
      ensures Valid() && bitpos == 0 && bitbuffer == 0
      ensures ok == (sz <= |old(Unread())|)
      ensures ok ==> dat == old(Unread())[..sz] && Unread() == old(Unread())[sz..]
      ensures !ok ==> dat == [] && Unread() == old(Unread())
    {
      bitpos, bitbuffer := 0, 0;
      ok, dat := BufferRead(sz);
    }

    /** Reads a byte, or yields 0 at the end. */
    method ReadByte() returns (b: bv8)
      requires Valid()
      modifies this`rpos, this`bitpos, this`bitbuffer
      ensures Valid() && bitpos == 0 && bitbuffer == 0
      ensures old(Unread()) != [] ==> b == old(Unread())[0] && Unread() == old(Unread())[1..]
      ensures old(Unread()) == [] ==> b == 0 && Unread() == []
    {
      var ok, dat := Read(1);
      b := if ok then dat[0] else 0;
    }

    /** The next numbits bits as a number. Past the end, zero bits are read. */
    method ReadBits(numbits: nat) returns (res: bv8)
      requires Valid()
      modifies this`rpos, this`bitpos, this`bitbuffer
      ensures Valid()
      ensures numbits > 8 ==> res == 0 && Remaining() == old(Remaining())
      ensures numbits == 0 || numbits > 8 ==> (bitpos, Unread()) == (old(bitpos), old(Unread()))
      ensures numbits <= 8 ==> Took(old(Remaining()), numbits, res, Remaining())
      ensures 0 < numbits <= 8 ==> (bitpos, Unread()) == Advance(old(bitpos), old(Unread()), numbits)
    {
      if numbits > 8 || numbits == 0 {
        res := 0;
        TookNothing(Remaining());
      } else {
        res := GetBits(numbits);
      }
    }

    method GetBits(numbits: nat) returns (res: bv8)
      requires Valid() && 0 < numbits <= 8
      modifies this`rpos, this`bitpos, this`bitbuffer
      ensures Valid()
      ensures Took(old(Remaining()), numbits, res, Remaining())
      ensures (bitpos, Unread()) == Advance(old(bitpos), old(Unread()), numbits)
    {
      hide Took, Pending, TakeWithin, TakeNext, Or;
      ghost var p, all := bitpos, Unread();
      if bitpos == 0 {
        ghost var stale := bitbuffer;
        bitbuffer := ReadByte();
        TookFirst(stale, all, numbits);
      }
      ghost var b, rest := bitbuffer, Unread();
      var bits1 := if numbits + bitpos > 8 then 8 - bitpos else numbits;
      var bits2 := numbits - bits1;
      res := TakeWithin(bitbuffer, bitpos, bits1, bits2);
      if bits2 != 0 {
        bitbuffer := ReadByte();
        res := Or(res, TakeNext(bitbuffer, bits2));
        bitpos := bits2;
        TookAcross(b, p, rest, numbits);
      } else {
        bitpos := bitpos + bits1;
        if p > 0 {
          TookWithin(b, p, rest, numbits);
        }
      }
    }

    // ---- Writing bytes ----

    ghost predicate Writable()
      reads this
    {
      Valid() && Clean() && rpos <= pos
    }

    method Write(dat: seq<bv8>) returns (ok: bool)
      requires Writable()
      modifies this`buf, this`pos, this`bitpos, this`bitbuffer, buf
      ensures Valid() && rpos <= pos && (buf == old(buf) || fresh(buf))
      ensures owned ==> ok
      ensures ok ==> Clean() && bitpos == 0 && Written() == old(Flushed()) + dat
    {
      if bitpos != 0 {
        ok := FlushBits();
        if !ok {
          return;
        }
      }
      ok := BufferWrite(dat);
    }

    method WriteByte(b: bv8) returns (ok: bool)
      requires Writable()
      modifies this`buf, this`pos, this`bitpos, this`bitbuffer, buf
      ensures Valid() && rpos <= pos && (buf == old(buf) || fresh(buf))
      ensures owned ==> ok
      ensures ok ==> Clean() && bitpos == 0 && Written() == Flushed() == old(Flushed()) + [b]
    {
      ok := Write([b]);
    }

    method WriteU32(x: bv32) returns (ok: bool)
      requires Writable()
      modifies this`buf, this`pos, this`bitpos, this`bitbuffer, buf
      ensures Valid() && rpos <= pos && (buf == old(buf) || fresh(buf))
      ensures owned ==> ok
      ensures ok ==> Clean() && bitpos == 0 && Written() == old(Flushed()) + EncU32(x)
    {
      ok := Write(EncU32(x));
    }

    method WriteU64(x: bv64) returns (ok: bool)
      requires Writable()
      modifies this`buf, this`pos, this`bitpos, this`bitbuffer, buf
      ensures Valid() && rpos <= pos && (buf == old(buf) || fresh(buf))
      ensures owned ==> ok
      ensures ok ==> Clean() && bitpos == 0 && Written() == old(Flushed()) + EncU64(x)
    {
      ok := Write(EncU64(x));
    }

    /** Nine groups of seven bits from the top, leading zero groups left out. The source's mask
        is taken at the full width of the value. */
    method WriteEncInt(i: nat) returns (ok: bool)
      requires Writable() && i < U64
      modifies this`buf, this`pos, this`bitpos, this`bitbuffer, buf
      ensures Valid() && rpos <= pos && (buf == old(buf) || fresh(buf))
      ensures owned ==> ok
      ensures ok ==> Clean() && Flushed() == old(Flushed()) + EncInt(i)
      ensures ok ==> bitpos == 0 || bitpos == old(bitpos)
    {
      if i == 0 {
        ok := WriteByte(0);
        EncZero();
      } else {
        ok := WriteGroups(i);
      }
    }

    method WriteGroups(i: nat) returns (ok: bool)
      requires Writable() && 0 < i < U64
      modifies this`buf, this`pos, this`bitpos, this`bitbuffer, buf
      ensures Valid() && rpos <= pos && (buf == old(buf) || fresh(buf))
      ensures owned ==> ok
      ensures ok ==> Clean() && Flushed() == old(Flushed()) + EncInt(i)
      ensures ok ==> bitpos == 0 || bitpos == old(bitpos)
    {
      hide EncInt, Groups, EncPrefix, Prefix, Port.Valid, Port.Clean, Port.Written, Port.Flushed;
      ghost var before := Flushed();
      NoGroups(i);
      var started := false;
      var k := 9;
      while k > 0
        invariant 0 <= k <= 9
        invariant Writable() && (buf == old(buf) || fresh(buf))
        invariant bitpos == 0 || bitpos == old(bitpos)
        invariant started == (Prefix(i, k) > 0)
        invariant Flushed() == before + EncPrefix(i, k)
      {
        k := k - 1;
        var byte := (i / Unit(k) % 128) as bv8;
        NextGroup(i, k);
        if byte != 0 || started {
          if k != 0 {
            byte := byte | 0x80;
          }
          started := true;
          ok := WriteByte(byte);
          if !ok {
            return;
          }
        }
      }
      AllGroups(i);
      ok := true;
    }

    method WriteEncFrac(d: Frac) returns (ok: bool)
      requires Writable()
      modifies this`buf, this`pos, this`bitpos, this`bitbuffer, buf
      ensures Valid() && rpos <= pos && (buf == old(buf) || fresh(buf))
      ensures owned ==> ok
      ensures ok ==> Clean() && bitpos == 0 && Written() == old(Flushed()) + EncFrac(d)
    {
      if d.Infinite? {
        ok := WriteTwo(255, 255);
      } else if d.r <= 0.0 {
        ok := Write([0, 0]);
      } else if d.r >= 192.0 {
        ok := WriteLarge(d.r);
      } else {
        var fl := d.r.Floor;
        var fr := ((d.r - fl as real) * 255.0).Floor;
        ok := WriteTwo(fl as bv8, fr as bv8);
      }
    }

    method WriteLarge(d: real) returns (ok: bool)
      requires Writable() && d >= 192.0
      modifies this`buf, this`pos, this`bitpos, this`bitbuffer, buf
      ensures Valid() && rpos <= pos && (buf == old(buf) || fresh(buf))
      ensures owned ==> ok
      ensures ok ==> Clean() && bitpos == 0 && Written() == old(Flushed()) + EncReal(d)
    {
      var wval: nat := (d / 2.0).Floor;
      var i := 0;
      while wval > 255 && i < 63
        invariant 0 <= i <= 63
        invariant Halve(wval, i) == Halve((d / 2.0).Floor, 0)
        decreases 63 - i
      {
        wval := wval / 2;
        i := i + 1;
      }
      assert Halve((d / 2.0).Floor, 0) == (wval, i);
      hide Halve, Clean;
      if wval > 255 {
        ok := WriteTwo(255, 255);
      } else {
        ok := WriteTwo((192 + i) as bv8, wval as bv8);
      }
    }

    method WriteTwo(b0: bv8, b1: bv8) returns (ok: bool)
      requires Writable()
      modifies this`buf, this`pos, this`bitpos, this`bitbuffer, buf
      ensures Valid() && rpos <= pos && (buf == old(buf) || fresh(buf))
      ensures owned ==> ok
      ensures ok ==> Clean() && bitpos == 0 && Written() == old(Flushed()) + [b0, b1]
    {
      ok := WriteByte(b0);
      if ok {
        ok := WriteByte(b1);
      }
    }

    /** Six bits a character if every character has a code, plain otherwise. */
    method WriteEncString(str: Text) returns (ok: bool)
      requires Writable() && (|str| <= 127 ==> InTable(str))
      modifies this`buf, this`pos, this`bitpos, this`bitbuffer, buf
      ensures Valid() && rpos <= pos && (buf == old(buf) || fresh(buf))
      ensures |str| > 127 ==> !ok && Clean() && Flushed() == old(Flushed())
      ensures owned && |str| <= 127 ==> ok
      ensures ok ==> |str| <= 127 && Clean() && bitpos == 0 && Written() == old(Flushed()) + EncText(str)
    {
      if |str| > 127 {
        ok := false;
      } else {
        var i, plain := 0, false;
        while i < |str| && !plain
          invariant 0 <= i <= |str| && (plain ==> i < |str| && !SixBit(str[i]))
          invariant !plain ==> InTable(str[i..])
          invariant forall j :: 0 <= j < i ==> SixBit(str[j])
          decreases |str| - i, !plain
        {
          assert str[i..][0] == str[i] < 0x80 && str[i..][1..] == str[i + 1..];
          if Code(str[i]) == 0xff {
            plain := true;
          } else {
            i := i + 1;
          }
        }
        if plain {
          assert str[i] in str;
          ok := WritePlain(str);
        } else {
          ok := WriteSixBit(str);
        }
      }
    }

    /** What the state predicates say about a writer. */
    lemma OpenState()
      requires Writable()
      ensures bitpos < 8 && ClearFrom(bitbuffer, bitpos)
      ensures Flushed() == if bitpos == 0 then Written() else Written() + [bitbuffer]
      ensures BitsWritten() == Stream(Written(), bitbuffer, bitpos)
    {
    }

    method WritePlain(str: Text) returns (ok: bool)
      requires Writable() && |str| <= 127
      modifies this`buf, this`pos, this`bitpos, this`bitbuffer, buf
      ensures Valid() && rpos <= pos && (buf == old(buf) || fresh(buf))
      ensures owned ==> ok
      ensures ok ==> Clean() && bitpos == 0 && Written() == old(Flushed()) + ([|str| as bv8] + str)
    {
      ok := WriteByte(|str| as bv8);
      if ok {
        ok := Write(str);
      }
    }

    method WriteSixBit(str: Text) returns (ok: bool)
      requires Writable() && |str| <= 127
      modifies this`buf, this`pos, this`bitpos, this`bitbuffer, buf
      ensures Valid() && rpos <= pos && (buf == old(buf) || fresh(buf))
      ensures owned ==> ok
      ensures ok ==> Clean() && bitpos == 0
      ensures ok ==> Written() == old(Flushed()) + ([|str| as bv8 | 0x80] + Pack(CodeBits(str)))
    {
      hide Code, CodeBits, Pack, BitsOf, BitsOfAll, Stream, Port.Valid, Port.Clean, Port.Written, Port.Flushed;
      ok := WriteByte(|str| as bv8 | 0x80);
      ghost var start := Written();
      if ok {
        NoBits(start, bitbuffer);
        NoCodes(str);
      }
      var i := 0;
      while ok && i < |str|
        invariant 0 <= i <= |str|
        invariant Valid() && rpos <= pos && (buf == old(buf) || fresh(buf))
        invariant owned ==> ok
        invariant ok ==> Clean() && BitsWritten() == BitsOfAll(start) + CodeBits(str[..i])
      {
        ok := WriteBits(Code(str[i]), 6);
        CodeBitsSnoc(str, i);
        i := i + 1;
      }
      if ok {
        assert str[..i] == str;
        OpenState();
        FlushedBytes(start, Written(), bitbuffer, bitpos, CodeBits(str));
        ok := FlushBits();
        assert old(Flushed()) + [|str| as bv8 | 0x80] + Pack(CodeBits(str))
            == old(Flushed()) + ([|str| as bv8 | 0x80] + Pack(CodeBits(str)));
      }
    }

    // ---- Reading values ----

    method ReadU32() returns (x: bv32)
      requires Valid()
      modifies this`rpos, this`bitpos, this`bitbuffer
      ensures Valid() && bitpos == 0 && bitbuffer == 0
      ensures (x, Unread()) == TakeU32(old(Unread()))
    {
      var ok, dat := Read(4);
      x := if ok then DecU32(dat) else 0;
    }

    method ReadU64() returns (x: bv64)
      requires Valid()
      modifies this`rpos, this`bitpos, this`bitbuffer
      ensures Valid() && bitpos == 0 && bitbuffer == 0
      ensures (x, Unread()) == TakeU64(old(Unread()))
    {
      var ok, dat := Read(8);
      x := if ok then DecU64(dat) else 0;
    }

    method ReadEncInt() returns (res: nat)
      requires Valid()
      modifies this`rpos, this`bitpos, this`bitbuffer
      ensures Valid() && bitpos == 0 && bitbuffer == 0
      ensures (res, Unread()) == DecInt(old(Unread()))
    {
      res := 0;
      var d: bv8 := 0x80;
      while d & 0x80 != 0
        invariant Valid() && (d & 0x80 == 0 ==> bitpos == 0 && bitbuffer == 0)
        invariant if d & 0x80 != 0 then DecIntFrom(Unread(), res) == DecInt(old(Unread()))
                  else (res, Unread()) == DecInt(old(Unread()))
        decreases |Unread()| + (if d & 0x80 != 0 then 1 else 0)
      {
        ghost var s := Unread();
        d := ReadByte();
        StopByte();
        if res != 0 {
          res := res * 128 % U64;
        }
        res := res + Payload(d);
      }
    }

    method ReadEncFrac() returns (res: Frac)
      requires Valid()
      modifies this`rpos, this`bitpos, this`bitbuffer
      ensures Valid() && bitpos == 0 && bitbuffer == 0
      ensures (res, Unread()) == TakeFrac(old(Unread()))
    {
      var intpart := ReadByte();
      var low := ReadByte();
      res := DecFrac(intpart, low);
    }

    /** Forgets the partial byte. */
    method DropBits()
      requires Valid()
      modifies this`bitpos, this`bitbuffer
      ensures Valid() && bitpos == 0 && bitbuffer == 0 && Unread() == old(Unread())
    {
      bitpos, bitbuffer := 0, 0;
    }

    /** into is the string read if ok, and arbitrary otherwise. */
    method ReadEncString() returns (ok: bool, into: Text)
      requires Valid()
      modifies this`rpos, this`bitpos, this`bitbuffer
      ensures Valid()
      ensures (if ok then Some(into) else None, Unread()) == DecText(old(Unread()))
    {
      hide DecSixBit, UpToZero, Port.Unread;
      DropBits();
      into := [];
      var sz := ReadByte();
      if sz == 0 {
        ok := false;
      } else if sz < 0x80 {
        var dat;
        ok, dat := Read(sz as nat);
        into := UpToZero(dat);
      } else {
        LowBits(sz);
        into := ReadSixBit((sz & 0x7f) as nat);
        ok := true;
      }
    }

    method ReadSixBit(n: nat) returns (into: Text)
      requires Valid() && bitpos == 0
      modifies this`rpos, this`bitpos, this`bitbuffer
      ensures Valid()
      ensures (into, Unread()) == DecSixBit(old(Unread()), n)
    {
      hide Char, BitsOfAll, Chars, Took, Pending, Zeros, Drop, BitOffset, Advance, Port.Valid, Port.Unread;
      into := [];
      ghost var s := Unread();
      var i := 0;
      NothingPending(bitbuffer, s);
      AtStart(s);
      while i < n
        invariant 0 <= i <= n
        invariant Valid()
        invariant into + Chars(Remaining() + Zeros(6 * (n - i)), n - i) == Chars(BitsOfAll(s) + Zeros(6 * n), n)
        invariant bitpos == BitOffset(6 * i) && Unread() == Drop(s, ByteCount(6 * i))
      {
        ghost var before := Remaining();
        var c := ReadBits(6);
        CharTook(before, c, Remaining(), n - i);
        AdvanceBits(s, 6 * i, 6);
        into := into + [Char(c)];
        i := i + 1;
      }
      NoChars(Remaining() + Zeros(0));
      assert into + [] == into;
    }
  }

  // ---- Reads of fixed size ----

  function TakeU32(s: seq<bv8>): (bv32, seq<bv8>) {
    if |s| >= 4 then (DecU32(s[..4]), s[4..]) else (0, s)
  }

  function TakeU64(s: seq<bv8>): (bv64, seq<bv8>) {
    if |s| >= 8 then (DecU64(s[..8]), s[8..]) else (0, s)
  }

  function TakeFrac(s: seq<bv8>): (Frac, seq<bv8>) {
    (DecFrac(First(s), First(Rest(s))), Rest(Rest(s)))
  }

  lemma StopByte()
    ensures 0 as bv8 & 0x80 == 0 && Payload(0) == 0
  {
  }

  lemma LowBits(sz: bv8)
    requires sz >= 0x80
    ensures (sz & 0x7f) as nat == sz as nat - 0x80
  {
    assert sz & 0x7f == sz - 0x80;
  }
}
