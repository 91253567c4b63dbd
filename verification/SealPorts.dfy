/** ioport_encrypt and ioport_decrypt: sealing from one port to another, block by block. */
module SealPorts {
  import opened Wire
  import opened Fips197
  import opened Aes256
  import opened IoPort
  import opened Seal

  lemma {:induction false} CipherAllSnoc(k: Key, s: seq<bv8>, b: Block)
    requires |s| % 16 == 0
    ensures CipherAll(k, s + b) == CipherAll(k, s) + Cipher(k, b)
  {
    hide Cipher;
    if s == [] {
      assert s + b == b && b[..16] == b && b[16..] == [];
    } else {
      assert (s + b)[..16] == s[..16] && (s + b)[16..] == s[16..] + b;
      CipherAllSnoc(k, s[16..], b);
    }
  }

  /** Puts dat into the block from offset from on and fills up with noise. */
  method FillBlock(buf: array<bv8>, from: nat, dat: seq<bv8>, noise: seq<bv8>)
    requires buf.Length == 16 && from + |dat| <= 16 && |noise| >= 16
    modifies buf
    ensures buf[..] == old(buf[..from]) + dat + noise[..16 - from - |dat|]
  {
    var i := 0;
    while i < |dat|
      invariant 0 <= i <= |dat|
      invariant buf[..from] == old(buf[..from])
      invariant buf[from..from + i] == dat[..i]
    {
      buf[from + i] := dat[i];
      i := i + 1;
    }
    i := from + |dat|;
    while i < 16
      invariant from + |dat| <= i <= 16
      invariant buf[..from + |dat|] == old(buf[..from]) + dat
      invariant buf[from + |dat|..i] == noise[..i - from - |dat|]
    {
      buf[i] := noise[i - from - |dat|];
      i := i + 1;
    }
  }

  /** How much of the payload the first at bytes of its frame hold. */
  function Consumed(at: nat): nat {
    if at < 8 then 0 else at - 8
  }

  /** How much of the payload the block of its frame at offset at holds. */
  function Share(payload: seq<bv8>, at: nat): nat {
    var left := if |payload| > Consumed(at) then |payload| - Consumed(at) else 0;
    var room := if at == 0 then 8 else 16;
    if left > room then room else left
  }

  /** The counts of one round of the loop. */
  lemma FrameCounts(n: nat, at: nat)
    requires n > 0 && at % 16 == 0 && at < 8 + n + PadLength(8 + n)
    ensures var size := 8 + n + PadLength(8 + n);
            var room := if at == 0 then 8 else 16;
            var c := Consumed(at);
            && at + 16 <= size && size % 16 == 0 && c < n
            && (if n - c > room then at + 16 < size && Consumed(at + 16) == c + room
                else at + 16 == size && PadLength(8 + n) == room - (n - c))
  {
  }

  lemma FrameBlock(payload: seq<bv8>, ts: bv32, serial: bv32, noise: seq<bv8>, at: nat)
    requires |noise| >= 16 && payload != []
    requires at % 16 == 0 && at < |Frame(payload, ts, serial, noise)|
    ensures var f := Frame(payload, ts, serial, noise);
            var head := if at == 0 then EncU32(ts) + EncU32(serial) else [];
            var c, n := Consumed(at), Share(payload, at);
            && at + 16 <= |f| && c < |payload| && c + n <= |payload| && n > 0
            && f[at..at + 16] == head + payload[c..c + n] + noise[..16 - |head| - n]
            && (c + n == |payload| <==> at + 16 == |f|)
            && (at + 16 < |f| ==> Consumed(at + 16) == c + n)
  {
    hide EncU32, PadLength;
    var f := Frame(payload, ts, serial, noise);
    var pad := noise[..PadLength(8 + |payload|)];
    var c, n := Consumed(at), Share(payload, at);
    FrameCounts(|payload|, at);
    assert f == EncU32(ts) + EncU32(serial) + payload + pad;
    if at == 0 {
      assert f[..8] == EncU32(ts) + EncU32(serial);
      assert f[8..8 + n] == payload[..n];
      assert f[..16] == f[..8] + f[8..8 + n] + f[8 + n..16];
    } else {
      assert f[at..at + n] == payload[c..c + n];
      assert f[at..at + 16] == f[at..at + n] + f[at + n..at + 16];
    }
    if c + n == |payload| {
      assert f[8 + |payload|..] == pad;
    }
  }

  lemma NextCipher(k: Key, f: seq<bv8>, at: nat)
    requires |f| % 16 == 0 && at % 16 == 0 && at + 16 <= |f|
    ensures CipherAll(k, f[..at + 16]) == CipherAll(k, f[..at]) + Cipher(k, f[at..at + 16])
  {
    hide Cipher;
    assert f[..at + 16] == f[..at] + f[at..at + 16];
    CipherAllSnoc(k, f[..at], f[at..at + 16]);
  }

  /** The source ignores the results of its reads and writes; out must be able to grow. */
  method Encrypt(k: Key, input: Port, out: Port, ts: bv32, serial: bv32, noise: seq<bv8>)
    requires input.Valid() && out.Writable() && out.owned && input != out && input.buf != out.buf
    requires |noise| >= 16 && |input.Unread()| < U64
    modifies input`rpos, input`bitpos, input`bitbuffer
    modifies out`buf, out`pos, out`bitpos, out`bitbuffer, out.buf
    ensures input.Valid() && out.Writable() && (out.buf == old(out.buf) || fresh(out.buf))
    ensures out.Flushed() == old(out.Flushed()) + Sealed(k, old(input.Unread()), ts, serial, noise)
  {
    hide EncInt, EncU32, Cipher, Frame, CipherAll, Port.Written, Port.Flushed, Port.Unread, Port.Clean, Context.Valid;
    ghost var payload := input.Unread();
    var left := input.ReadAvailable();
    var ok := out.WriteEncInt(left);
    if left > 0 {
      EncryptBody(k, input, out, ts, serial, noise);
    }
  }

  method EncryptBody(k: Key, input: Port, out: Port, ts: bv32, serial: bv32, noise: seq<bv8>)
    requires input.Valid() && out.Writable() && out.owned && input != out && input.buf != out.buf
    requires |noise| >= 16 && input.Unread() != []
    modifies input`rpos, input`bitpos, input`bitbuffer
    modifies out`buf, out`pos, out`bitpos, out`bitbuffer, out.buf
    ensures input.Valid() && out.Writable() && (out.buf == old(out.buf) || fresh(out.buf))
    ensures out.Flushed() == old(out.Flushed()) + CipherAll(k, Frame(old(input.Unread()), ts, serial, noise))
  {
    hide EncU32, Cipher, Frame, CipherAll, Port.Written, Port.Flushed, Port.Unread, Port.Clean, Port.Valid, Context.Valid;
    ghost var payload, start := input.Unread(), out.Flushed();
    var ctx := new Context(k);
    var left: nat := input.ReadAvailable();
    var buf := new bv8[16];
    SetHeader(buf, ts, serial);
    var bufpos := 8;
    ghost var f := Frame(payload, ts, serial, noise);
    ghost var at := 0;
    NoBlocks(k, f);
    while left > 0
      invariant input.Valid() && out.Writable() && (out.buf == old(out.buf) || fresh(out.buf))
      invariant input.buf == old(input.buf) && ctx.Valid(k)
      invariant out.buf != buf && out.buf != ctx.key && out.buf != ctx.enckey && out.buf != ctx.deckey
      invariant at % 16 == 0 && at <= |f| && (left > 0 <==> at < |f|)
      invariant left <= |payload| && input.Unread() == payload[|payload| - left..]
      invariant left > 0 ==> Consumed(at) == |payload| - left
      invariant bufpos == if at == 0 then 8 else 0
      invariant at == 0 ==> buf[..8] == EncU32(ts) + EncU32(serial)
      invariant out.Flushed() == start + CipherAll(k, f[..at])
      decreases left
    {
      ghost var head := if at == 0 then EncU32(ts) + EncU32(serial) else [];
      ghost var c, n := Consumed(at), Share(payload, at);
      FrameBlock(payload, ts, serial, noise, at);
      assert buf[..bufpos] == head;
      assert input.Unread()[..n] == payload[c..c + n];
      left := SealBlock(ctx, k, input, out, buf, bufpos, left, noise);
      NextCipher(k, f, at);
      assert out.Flushed() == start + CipherAll(k, f[..at]) + Cipher(k, f[at..at + 16]);
      at := at + 16;
      bufpos := 0;
    }
    assert f[..at] == f;
  }

  lemma NoBlocks(k: Key, f: seq<bv8>)
    ensures CipherAll(k, f[..0]) == []
  {
  }

  /** One round: fills the block, enciphers it and sends it. */
  method SealBlock(ctx: Context, ghost k: Key, input: Port, out: Port, buf: array<bv8>, bufpos: nat, left: nat, noise: seq<bv8>)
    returns (left': nat)
    requires input.Valid() && out.Writable() && out.owned && input != out && input.buf != out.buf
    requires ctx.Valid(k) && buf.Length == 16 && buf != ctx.key && buf != ctx.enckey && buf != ctx.deckey
    requires out.buf != buf && out.buf != ctx.key && out.buf != ctx.enckey && out.buf != ctx.deckey
    requires input.buf != buf && input.buf != ctx.key
    requires |noise| >= 16 && left == |input.Unread()| > 0 && bufpos in {0, 8}
    modifies input`rpos, input`bitpos, input`bitbuffer
    modifies out`buf, out`pos, out`bitpos, out`bitbuffer, out.buf, buf, ctx.key
    ensures input.Valid() && out.Writable() && (out.buf == old(out.buf) || fresh(out.buf)) && ctx.Valid(k)
    ensures var n := if left > 16 - bufpos then 16 - bufpos else left;
            && left' == left - n && input.Unread() == old(input.Unread())[n..]
            && out.Flushed() == old(out.Flushed())
                 + Cipher(k, old(buf[..bufpos]) + old(input.Unread())[..n] + noise[..16 - bufpos - n])
  {
    hide Cipher;
    var n := if left > 16 - bufpos then 16 - bufpos else left;
    var ok, dat := input.Read(n);
    FillBlock(buf, bufpos, dat, noise);
    ctx.EncryptEcb(buf, k);
    ok := out.Write(buf[..]);
    left' := input.ReadAvailable();
  }

  method SetHeader(buf: array<bv8>, ts: bv32, serial: bv32)
    requires buf.Length == 16
    modifies buf
    ensures buf[..8] == EncU32(ts) + EncU32(serial)
  {
    hide EncU32;
    PutU32(buf, 0, ts);
    PutU32(buf, 4, serial);
    assert buf[..8] == buf[..4] + buf[4..8];
  }

  method PutU32(buf: array<bv8>, at: nat, x: bv32)
    requires at + 4 <= buf.Length
    modifies buf
    ensures buf[at..at + 4] == EncU32(x)
    ensures forall i :: 0 <= i < buf.Length && !(at <= i < at + 4) ==> buf[i] == old(buf[i])
  {
    buf[at] := ((x >> 24) & 0xff) as bv8;
    buf[at + 1] := ((x >> 16) & 0xff) as bv8;
    buf[at + 2] := ((x >> 8) & 0xff) as bv8;
    buf[at + 3] := (x & 0xff) as bv8;
  }

  // ---- Opening ----

  datatype Verdict = Accepted | SerialMismatch | TimeMismatch | Overran

  /** How the outcome on values shows in the result and in what out was given. */
  ghost predicate Shows(v: Verdict, before: seq<bv8>, after: seq<bv8>, o: Opened) {
    match o
    case Opened(p) => v == Accepted && after == before + p
    case BadSerial => v == SerialMismatch && after == before
    case BadTime => v == TimeMismatch && after == before
    case Overrun => v == Overran && after == before
  }

  /** stale is what the block buffer holds before anything is read. A write that overruns is
      not carried out. */
  method Decrypt(k: Key, input: Port, out: Port, ts: bv32, serial: bv32, stale: Block) returns (v: Verdict)
    requires input.Valid() && out.Writable() && out.owned && input != out && input.buf != out.buf
    modifies input`rpos, input`bitpos, input`bitbuffer
    modifies out`buf, out`pos, out`bitpos, out`bitbuffer, out.buf
    ensures input.Valid() && out.Writable() && (out.buf == old(out.buf) || fresh(out.buf))
    ensures old(out.bitpos) == 0 ==> out.bitpos == 0
    ensures Shows(v, old(out.Flushed()), out.Flushed(), Open(k, stale, old(input.Unread()), ts, serial))
  {
    hide DecInt, OpenRest, InvCipher, Port.Flushed, Port.Unread, Port.Clean, Context.Valid;
    var sz := input.ReadEncInt();
    if sz == 0 {
      v := Accepted;
      assert out.Flushed() + [] == out.Flushed();
    } else {
      v := DecryptBody(k, input, out, sz, ts, serial, stale);
    }
  }

  method DecryptBody(k: Key, input: Port, out: Port, sz: nat, ts: bv32, serial: bv32, stale: Block) returns (v: Verdict)
    requires input.Valid() && out.Writable() && out.owned && input != out && input.buf != out.buf && sz > 0
    modifies input`rpos, input`bitpos, input`bitbuffer
    modifies out`buf, out`pos, out`bitpos, out`bitbuffer, out.buf
    ensures input.Valid() && out.Writable() && (out.buf == old(out.buf) || fresh(out.buf))
    ensures old(out.bitpos) == 0 ==> out.bitpos == 0
    ensures Shows(v, old(out.Flushed()), out.Flushed(), OpenBody(k, stale, old(input.Unread()), sz, ts, serial))
  {
    hide OpenRest, InvCipher, DecU32, Port.Written, Port.Flushed, Port.Unread, Port.Clean, Context.Valid, NextBlock;
    var ctx := new Context(k);
    var left := if sz > 16 then 16 else sz;
    var buf := new bv8[16];
    CopyBlock(buf, stale);
    FetchBlock(ctx, k, input, buf);
    ghost var p := buf[..];
    var pts, pserial := DecU32(buf[..4]), DecU32(buf[4..8]);
    assert buf[..4] == p[..4] && buf[4..8] == p[4..8];
    if pserial != serial {
      v := SerialMismatch;
    } else if Skew(pts, ts) > MAX_SKEW {
      v := TimeMismatch;
    } else if left < 8 {
      v := Overran;
    } else {
      DecryptPayload(ctx, k, input, out, buf, left, sz);
      v := Accepted;
    }
  }

  method DecryptPayload(ctx: Context, ghost k: Key, input: Port, out: Port, buf: array<bv8>, left: nat, sz: nat)
    requires input.Valid() && out.Writable() && out.owned && input != out && input.buf != out.buf
    requires ctx.Valid(k) && buf.Length == 16 && buf != ctx.key && buf != ctx.enckey && buf != ctx.deckey
    requires out.buf != buf && out.buf != ctx.key && out.buf != ctx.enckey && out.buf != ctx.deckey
    requires input.buf != buf && input.buf != ctx.key && 8 <= left <= 16 && left <= sz
    modifies input`rpos, input`bitpos, input`bitbuffer, buf, ctx.key
    modifies out`buf, out`pos, out`bitpos, out`bitbuffer, out.buf
    ensures input.Valid() && out.Writable() && (out.buf == old(out.buf) || fresh(out.buf))
    ensures old(out.bitpos) == 0 ==> out.bitpos == 0
    ensures out.Flushed() == old(out.Flushed())
              + (old(buf[8..left]) + OpenRest(k, old(buf[..]), old(input.Unread()), sz - (left - 8)))
  {
    hide OpenRest, Port.Written, Port.Unread, Port.Clean, Context.Valid;
    var ok := out.Write(buf[8..left]);
    DecryptRest(ctx, k, input, out, buf, sz - (left - 8));
  }

  method DecryptRest(ctx: Context, ghost k: Key, input: Port, out: Port, buf: array<bv8>, wanted: nat)
    requires input.Valid() && out.Writable() && out.owned && input != out && input.buf != out.buf
    requires ctx.Valid(k) && buf.Length == 16 && buf != ctx.key && buf != ctx.enckey && buf != ctx.deckey
    requires out.buf != buf && out.buf != ctx.key && out.buf != ctx.enckey && out.buf != ctx.deckey
    requires input.buf != buf && input.buf != ctx.key
    modifies input`rpos, input`bitpos, input`bitbuffer, buf, ctx.key
    modifies out`buf, out`pos, out`bitpos, out`bitbuffer, out.buf
    ensures input.Valid() && out.Writable() && (out.buf == old(out.buf) || fresh(out.buf))
    ensures old(out.bitpos) == 0 ==> out.bitpos == 0
    ensures out.Flushed() == old(out.Flushed()) + OpenRest(k, old(buf[..]), old(input.Unread()), wanted)
  {
    hide InvCipher, Port.Written, Port.Unread, Port.Clean, Context.Valid, NextBlock;
    ghost var start, all := out.Flushed(), OpenRest(k, buf[..], input.Unread(), wanted);
    ghost var done := [];
    var left := wanted;
    while left > 0
      invariant input.Valid() && out.Writable() && (out.buf == old(out.buf) || fresh(out.buf))
      invariant input.buf == old(input.buf) && ctx.Valid(k)
      invariant out.buf != buf && out.buf != ctx.key && out.buf != ctx.enckey && out.buf != ctx.deckey
      invariant old(out.bitpos) == 0 ==> out.bitpos == 0
      invariant out.Flushed() == start + done
      invariant all == done + OpenRest(k, buf[..], input.Unread(), left)
    {
      FetchBlock(ctx, k, input, buf);
      var n := if left > 16 then 16 else left;
      var ok := out.Write(buf[..n]);
      done := done + buf[..n];
      left := left - n;
    }
  }

  /** One read of a block: a short read leaves the buffer alone. */
  method FetchBlock(ctx: Context, ghost k: Key, input: Port, buf: array<bv8>)
    requires input.Valid() && ctx.Valid(k) && buf.Length == 16
    requires buf != ctx.key && buf != ctx.enckey && buf != ctx.deckey && input.buf != buf && input.buf != ctx.key
    modifies input`rpos, input`bitpos, input`bitbuffer, buf, ctx.key
    ensures input.Valid() && ctx.Valid(k)
    ensures var (b, s) := NextBlock(old(buf[..]), old(input.Unread()));
            buf[..] == InvCipher(k, b) && input.Unread() == s
  {
    hide InvCipher, Context.Valid;
    var ok, dat := input.Read(16);
    if ok {
      CopyBlock(buf, dat);
    }
    ctx.DecryptEcb(buf, k);
  }

  method CopyBlock(buf: array<bv8>, dat: seq<bv8>)
    requires buf.Length == 16 && |dat| == 16
    modifies buf
    ensures buf[..] == dat
  {
    var i := 0;
    while i < 16
      invariant 0 <= i <= 16
      invariant buf[..i] == dat[..i]
    {
      buf[i] := dat[i];
      i := i + 1;
    }
  }
}
