/** md5_begin, md5_hash and md5_end: a message taken in pieces. */
module Md5Stream {
  import opened Rfc1321
  import opened Md5Rounds

  const W32 := 0x1_0000_0000
  const W64 := 0x1_0000_0000_0000_0000

  class Context {
    var total0: nat
    var total1: nat
    const state: array<bv64>
    const buffer: array<bv8>
    ghost var msg: seq<bv8>    // everything hashed so far

    ghost function LowState(): State
      requires state.Length == 4
      reads state
    {
      State(Low(state[0]), Low(state[1]), Low(state[2]), Low(state[3]))
    }

    /** The state covers the whole blocks of the message and the buffer holds what is over. */
    ghost predicate Holds()
      reads this`msg, state, buffer
    {
      && state.Length == 4 && buffer.Length == 64
      && LowState() == CompressAll(INIT, msg)
      && buffer[..|msg| % 64] == msg[|msg| - |msg| % 64..]
    }

    /** The low count is the length modulo 2 to the 32. */
    ghost predicate Valid()
      reads this, state, buffer
    {
      Holds() && total0 == |msg| % W32
    }

    /** The high count is right as well. */
    ghost predicate Counted()
      reads this
    {
      total1 % W32 == |msg| / W32 % W32
    }

    constructor ()
      ensures Valid() && Counted() && msg == []
      ensures fresh(state) && fresh(buffer)
    {
      total0, total1 := 0, 0;
      state := new bv64[4];
      buffer := new bv8[64];
      msg := [];
      new;
      state[0] := 0x67452301;
      state[1] := 0xefcdab89;
      state[2] := 0x98badcfe;
      state[3] := 0x10325476;
    }

    /** Works one block into the state. */
    method Process(data: seq<bv8>)
      requires state.Length == 4 && |data| == 64
      modifies state
      ensures LowState() == Compress(old(LowState()), data)
    {
      hide Low, Word, Round1, Round2, Round3, Round4, Plus, Add, LowAll;
      var x := GetWords(data);
      var a, b, c, d := Round1Wide(state[0], state[1], state[2], state[3], x);
      a, b, c, d := Round2Wide(a, b, c, d, x);
      a, b, c, d := Round3Wide(a, b, c, d, x);
      a, b, c, d := Round4Wide(a, b, c, d, x);
      AddLow(state[0], a);
      AddLow(state[1], b);
      AddLow(state[2], c);
      AddLow(state[3], d);
      state[0] := Add(state[0], a);
      state[1] := Add(state[1], b);
      state[2] := Add(state[2], c);
      state[3] := Add(state[3], d);
    }

    /** Hashes one more piece. The low count, the state and the buffer are always right
        afterwards. A right high count stays right exactly when the low count and the length
        of the piece add up to less than 2 to the 33: the source carries at most one. */
    method Hash(input: seq<bv8>)
      requires Valid() && |input| < W64
      modifies this, state, buffer
      ensures Valid() && msg == old(msg) + input
      ensures old(Counted()) ==> (Counted() <==> old(total0) + |input| < 2 * W32)
    {
      hide Context.Holds;
      assert msg + [] == msg;
      if |input| > 0 {
        var left := total0 % 64;
        Mod64(|msg|);
        Count(|input|);
        Absorb(left, input);
      }
    }

    /** The two counters. */
    method Count(length: nat)
      requires Valid() && 0 < length < W64
      modifies this`total0, this`total1
      ensures total0 == (|msg| + length) % W32
      ensures old(Counted()) ==> (total1 % W32 == (|msg| + length) / W32 % W32 <==> old(total0) + length < 2 * W32)
    {
      hide Context.Holds;
      CarryRight(|msg|, length, total1);
      total0 := (total0 + length) % W32;
      if total0 < length {
        total1 := total1 + 1;
      }
    }

    /** The buffer and the blocks. */
    method Absorb(left: nat, input: seq<bv8>)
      requires Holds() && left == |msg| % 64
      modifies this`msg, state, buffer
      ensures Holds() && msg == old(msg) + input
    {
      hide Context.Holds;
      var data, held := input, left;
      if left != 0 && |input| >= 64 - left {
        CompleteBlock(left, input[..64 - left]);
        data := input[64 - left..];
        held := 0;
      }
      ghost var all := old(msg) + input;
      while |data| >= 64
        invariant Holds() && |msg| % 64 == held && (held == 0 || |data| < 64 - held)
        invariant all == msg + data
      {
        AddBlock(data[..64]);
        data := data[64..];
      }
      Keep(held, data);
    }

    method AddBlock(block: seq<bv8>)
      requires Holds() && |msg| % 64 == 0 && |block| == 64
      modifies this`msg, state
      ensures Holds() && |msg| % 64 == 0 && msg == old(msg) + block
    {
      hide CompressAll, Compress, Low;
      Process(block);
      OneMore(INIT, msg, block);
      msg := msg + block;
    }

    method CompleteBlock(left: nat, data: seq<bv8>)
      requires Holds() && |msg| % 64 == left && left + |data| == 64
      modifies this`msg, state, buffer
      ensures Holds() && |msg| % 64 == 0 && msg == old(msg) + data
    {
      hide CompressAll, Compress, Low;
      ghost var done, tail := msg[..|msg| - left], buffer[..left];
      Fill(left, data);
      Process(buffer[..]);
      assert buffer[..64] == buffer[..];
      BlockCompletes(msg, done, tail, data);
      msg := msg + data;
    }

    method Keep(held: nat, data: seq<bv8>)
      requires Holds() && |msg| % 64 == held && held + |data| < 64
      modifies this`msg, buffer
      ensures Holds() && msg == old(msg) + data
    {
      hide CompressAll, Compress, Low;
      TailGrows(msg, held, data);
      Fill(held, data);
      msg := msg + data;
    }

    /** memcpy into the buffer from offset from on. */
    method Fill(from: nat, data: seq<bv8>)
      requires buffer.Length == 64 && from + |data| <= 64
      modifies buffer
      ensures buffer[..from + |data|] == old(buffer[..from]) + data
    {
      var i := 0;
      while i < |data|
        invariant 0 <= i <= |data|
        invariant buffer[..from + i] == old(buffer[..from]) + data[..i]
      {
        buffer[from + i] := data[i];
        i := i + 1;
      }
    }

    /** md5_end: pads, and yields the digest of everything hashed. */
    method End() returns (digest: seq<bv8>)
      requires Valid() && Counted()
      modifies this, state, buffer
      ensures digest == Md5(old(msg))
    {
      hide Context.Holds, LengthBytes;
      ghost var m := msg;
      var msglen := LengthField();
      var last := total0 % 64;
      Mod64(|m|);
      var padn := if last < 56 then 56 - last else 120 - last;
      Hash([0x80] + seq(padn - 1, _ => 0));
      Hash(msglen);
      Join(m, [0x80] + seq(padn - 1, _ => 0), msglen, Padding(|m|));
      digest := Output();
    }

    method LengthField() returns (msglen: seq<bv8>)
      requires total0 == |msg| % W32 && Counted()
      ensures msglen == LengthBytes(|msg|)
    {
      hide WordBytes, U32Bytes;
      LengthParts(|msg|, total1);
      SameU32(8 * total0, 8 * |msg|);
      SameU32(total0 / 0x2000_0000 + 8 * total1, 8 * |msg| / W32);
      msglen := U32Bytes(8 * total0) + U32Bytes(total0 / 0x2000_0000 + 8 * total1);
    }

    method Output() returns (digest: seq<bv8>)
      requires Holds()
      ensures digest == Digest(CompressAll(INIT, msg))
    {
      hide CompressAll, WordBytes, Low;
      digest := WordBytes(Low(state[0])) + WordBytes(Low(state[1])) + WordBytes(Low(state[2])) + WordBytes(Low(state[3]));
    }
  }

  lemma BlockCompletes(m: seq<bv8>, done: seq<bv8>, tail: seq<bv8>, data: seq<bv8>)
    requires m == done + tail && |done| % 64 == 0 && |tail| < 64 && |tail| + |data| == 64
    ensures CompressAll(INIT, m + data) == Compress(CompressAll(INIT, m), tail + data)
    ensures |m + data| % 64 == 0
  {
    hide CompressAll, Compress;
    TailIgnored(INIT, done, tail);
    OneMore(INIT, done, tail + data);
    assert m + data == done + (tail + data);
  }

  lemma Mod64(n: nat)
    ensures n % W32 % 64 == n % 64
  {
    assert n == 64 * (0x400_0000 * (n / W32)) + n % W32;
  }

  lemma Join(m: seq<bv8>, a: seq<bv8>, b: seq<bv8>, p: seq<bv8>)
    requires a + b == p
    ensures m + a + b == m + p
  {
  }

  lemma SameU32(m: nat, n: nat)
    requires m % W32 == n % W32
    ensures U32Bytes(m) == U32Bytes(n)
  {
  }

  lemma LengthParts(n: nat, total1: nat)
    requires total1 % W32 == n / W32 % W32
    ensures 8 * (n % W32) % W32 == 8 * n % W32
    ensures (n % W32 / 0x2000_0000 + 8 * total1) % W32 == 8 * n / W32 % W32
  {
    var q, r := n / W32, n % W32;
    assert n == W32 * q + r;
    assert 8 * n == W32 * (8 * q) + 8 * r;
    assert 8 * n / W32 == 8 * q + r / 0x2000_0000;
    var d := total1 / W32 - q / W32;
    assert total1 - q == W32 * d;
    assert r / 0x2000_0000 + 8 * total1 == 8 * n / W32 + W32 * (8 * d);
    ModShift(8 * n / W32, 8 * d);
  }

  lemma ModShift(x: int, d: int)
    ensures (x + W32 * d) % W32 == x % W32
  {
  }

  /** Bytes that do not complete a block are only held. */
  lemma TailGrows(msg: seq<bv8>, held: nat, data: seq<bv8>)
    requires |msg| % 64 == held && held + |data| < 64
    ensures |msg + data| % 64 == held + |data|
    ensures (msg + data)[|msg + data| - (held + |data|)..] == msg[|msg| - held..] + data
    ensures CompressAll(INIT, msg + data) == CompressAll(INIT, msg)
  {
    hide CompressAll;
    var done, tail := msg[..|msg| - held], msg[|msg| - held..];
    assert msg == done + tail && msg + data == done + (tail + data);
    TailIgnored(INIT, done, tail);
    TailIgnored(INIT, done, tail + data);
  }

  lemma TailIgnored(st: State, s: seq<bv8>, t: seq<bv8>)
    requires |s| % 64 == 0 && |t| < 64
    ensures CompressAll(st, s + t) == CompressAll(st, s)
  {
    CompressAllConcat(st, s, t);
  }

  lemma OneMore(st: State, s: seq<bv8>, b: seq<bv8>)
    requires |s| % 64 == 0 && |b| == 64
    ensures CompressAll(st, s + b) == Compress(CompressAll(st, s), b)
  {
    hide Compress;
    CompressAllConcat(st, s, b);
    assert b[..64] == b && b[64..] == [];
  }

  /** How the carry test of the source fares. */
  lemma CarryRight(n: nat, length: nat, total1: nat)
    requires 0 < length < W64
    ensures var low := (n % W32 + length) % W32;
            var high := if low < length then total1 + 1 else total1;
            && low == (n + length) % W32
            && (total1 % W32 == n / W32 % W32 ==>
                (high % W32 == (n + length) / W32 % W32 <==> n % W32 + length < 2 * W32))
  {
    var q, r := n / W32, n % W32;
    var c := (r + length) / W32;
    assert n + length == W32 * (q + c) + (r + length) % W32;
    assert (n + length) / W32 == q + c;
    assert c <= W32;
  }

  function Widen(w: bv32): bv64 {
    w as bv64
  }

  method GetWords(data: seq<bv8>) returns (x: seq<bv64>)
    requires |data| == 64
    ensures |x| == 16 && LowAll(x) == WordsOf(data)
  {
    x := seq(16, i requires 0 <= i < 16 => Widen(Word(data, i)));
    forall i | 0 <= i < 16 ensures Low(x[i]) == Word(data, i) {
      LowOfWide(Word(data, i));
    }
  }
}
