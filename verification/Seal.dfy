/** Sealed payloads: a length, then AES blocks that carry a timestamp, a serial number, the
    payload and random padding. Values first, then the two port-to-port methods. */
module Seal {
  import opened Wire
  import opened Fips197
  import opened Aes256
  import opened IoPort

  // ---- Sealing ----

  /** How many random bytes fill the last block of a frame of n bytes. */
  function PadLength(n: nat): (p: nat)
    ensures p < 16
  {
    (16 - n % 16) % 16
  }

  /** What is enciphered for a nonempty payload. */
  function Frame(payload: seq<bv8>, ts: bv32, serial: bv32, noise: seq<bv8>): (f: seq<bv8>)
    requires |noise| >= 16
    ensures |f| % 16 == 0 && |f| >= 16 && |f| >= 8 + |payload|
  {
    EncU32(ts) + EncU32(serial) + payload + noise[..PadLength(8 + |payload|)]
  }

  function CipherAll(k: Key, s: seq<bv8>): (c: seq<bv8>)
    requires |s| % 16 == 0
    ensures |c| == |s|
  {
    if s == [] then [] else Cipher(k, s[..16]) + CipherAll(k, s[16..])
  }

  function SealedBody(k: Key, payload: seq<bv8>, ts: bv32, serial: bv32, noise: seq<bv8>): seq<bv8>
    requires |noise| >= 16
  {
    if payload == [] then [] else CipherAll(k, Frame(payload, ts, serial, noise))
  }

  /** Everything ioport_encrypt writes. */
  function Sealed(k: Key, payload: seq<bv8>, ts: bv32, serial: bv32, noise: seq<bv8>): seq<bv8>
    requires |noise| >= 16 && |payload| < U64
  {
    EncInt(|payload|) + SealedBody(k, payload, ts, serial, noise)
  }

  // ---- Opening ----

  /** Overrun: the source writes a block's worth minus eight bytes when the block holds fewer
      than eight, an unsigned size that wraps around. */
  datatype Opened = Opened(payload: seq<bv8>) | BadSerial | BadTime | Overrun

  const MAX_SKEW := 180

  /** The block a read delivers: a failed read leaves the buffer as it was. */
  function NextBlock(buf: Block, s: seq<bv8>): (Block, seq<bv8>) {
    if |s| >= 16 then (s[..16], s[16..]) else (buf, s)
  }

  /** The blocks after the first, left being the payload bytes still wanted. */
  function OpenRest(k: Key, buf: Block, s: seq<bv8>, left: nat): seq<bv8>
    decreases left
  {
    if left == 0 then []
    else
      var (b, s') := NextBlock(buf, s);
      var p := InvCipher(k, b);
      if left <= 16 then p[..left] else p + OpenRest(k, p, s', left - 16)
  }

  /** The smaller word is taken from the larger, so the difference does not wrap around. */
  function Skew(a: bv32, b: bv32): nat {
    var x, y := a as int, b as int;
    if x < y then y - x else x - y
  }

  /** ioport_decrypt past the length sz: stale is what the block buffer holds at the start. */
  function OpenBody(k: Key, stale: Block, s: seq<bv8>, sz: nat, ts: bv32, serial: bv32): Opened {
    if sz == 0 then Opened([])
    else
      var (b, s') := NextBlock(stale, s);
      OpenFirst(k, InvCipher(k, b), s', sz, ts, serial)
  }

  /** p is the first block, deciphered. */
  function OpenFirst(k: Key, p: Block, s: seq<bv8>, sz: nat, ts: bv32, serial: bv32): Opened
    requires sz > 0
  {
    var left := if sz > 16 then 16 else sz;
    if DecU32(p[4..8]) != serial then BadSerial
    else if Skew(DecU32(p[..4]), ts) > MAX_SKEW then BadTime
    else if left < 8 then Overrun
    else Opened(p[8..left] + OpenRest(k, p, s, sz - (left - 8)))
  }

  function Open(k: Key, stale: Block, s: seq<bv8>, ts: bv32, serial: bv32): Opened {
    var (sz, body) := DecInt(s);
    OpenBody(k, stale, body, sz, ts, serial)
  }

  // ---- Opening what was sealed ----

  lemma {:induction false} OpenRestOfCipher(k: Key, buf: Block, plain: seq<bv8>, rest: seq<bv8>, left: nat)
    requires |plain| % 16 == 0 && left <= |plain|
    ensures OpenRest(k, buf, CipherAll(k, plain) + rest, left) == plain[..left]
    decreases left
  {
    hide Cipher, InvCipher;
    if left > 0 {
      var first := plain[..16];
      var s := CipherAll(k, plain) + rest;
      assert s[..16] == Cipher(k, first);
      assert s[16..] == CipherAll(k, plain[16..]) + rest;
      InvCipherInverts(k, first);
      if left > 16 {
        OpenRestOfCipher(k, first, plain[16..], rest, left - 16);
        assert plain[..left] == first + plain[16..][..left - 16];
      } else {
        assert plain[..left] == first[..left];
      }
    }
  }

  /** The first plain block of a frame. */
  lemma FirstPlain(payload: seq<bv8>, ts: bv32, serial: bv32, noise: seq<bv8>)
    requires |noise| >= 16 && payload != []
    ensures var f := Frame(payload, ts, serial, noise);
            && |f| >= 16 && |f| >= 8 + |payload|
            && DecU32(f[..16][..4]) == ts && DecU32(f[..16][4..8]) == serial
            && f[8..8 + |payload|] == payload
  {
    var f := Frame(payload, ts, serial, noise);
    assert f[..16][..4] == EncU32(ts);
    assert f[..16][4..8] == EncU32(serial);
    U32RoundTrip(ts);
    U32RoundTrip(serial);
  }

  /** What is enciphered: the clock in four bytes, the serial number in four, the payload, and as
      few random bytes as make whole blocks. */
  lemma FrameLayout(payload: seq<bv8>, ts: bv32, serial: bv32, noise: seq<bv8>)
    requires |noise| >= 16
    ensures var f := Frame(payload, ts, serial, noise);
      && f[..4] == EncU32(ts) && f[4..8] == EncU32(serial) && f[8..8 + |payload|] == payload
      && 8 + |payload| <= |f| < 8 + |payload| + 16 && |f| % 16 == 0
      && f[8 + |payload|..] == noise[..|f| - 8 - |payload|]
  {
    hide EncU32;
  }

  /** Opening with the same key, for any payload of at least sixteen bytes: it succeeds exactly
      when the serial numbers agree and the clocks differ by at most 180, and then yields
      exactly the payload, whatever follows the packet. */
  lemma OpenSealed(k: Key, payload: seq<bv8>, ts: bv32, serial: bv32, noise: seq<bv8>,
                   stale: Block, rest: seq<bv8>, ts': bv32, serial': bv32)
    requires |noise| >= 16 && 16 <= |payload| < U63
    ensures Open(k, stale, Sealed(k, payload, ts, serial, noise) + rest, ts', serial') ==
            if serial != serial' then BadSerial
            else if -180 <= (ts as int) - (ts' as int) <= 180 then Opened(payload)
            else BadTime
  {
    hide Cipher, InvCipher, Frame, EncInt, DecInt, DecU32, EncU32, OpenRest, CipherAll;
    var f := Frame(payload, ts, serial, noise);
    var c := CipherAll(k, f);
    assert Sealed(k, payload, ts, serial, noise) + rest == EncInt(|payload|) + (c + rest);
    IntReads(|payload|, c + rest);
    FirstPlain(payload, ts, serial, noise);
    FirstCipher(k, f, rest);
    InvCipherInverts(k, f[..16]);
    OpenRestOfCipher(k, f[..16], f[16..], rest, |payload| - 8);
    assert f[..16][8..16] + f[16..][..|payload| - 8] == f[8..8 + |payload|];
    hide OpenFirst;
    OpenLongFirst(k, payload, f[..16], f[16..][..|payload| - 8], CipherAll(k, f[16..]) + rest, ts, serial, ts', serial');
  }

  lemma OpenLongFirst(k: Key, payload: seq<bv8>, p: Block, tail: seq<bv8>, s: seq<bv8>, ts: bv32, serial: bv32, ts': bv32, serial': bv32)
    requires |payload| >= 16 && payload == p[8..16] + tail && tail == OpenRest(k, p, s, |payload| - 8)
    requires ts == DecU32(p[..4]) && serial == DecU32(p[4..8])
    ensures OpenFirst(k, p, s, |payload|, ts', serial') ==
            if serial != serial' then BadSerial
            else if -180 <= (ts as int) - (ts' as int) <= 180 then Opened(payload)
            else BadTime
  {
    hide DecU32, OpenRest;
  }

  lemma FirstCipher(k: Key, f: seq<bv8>, rest: seq<bv8>)
    requires |f| % 16 == 0 && f != []
    ensures CipherAll(k, f) + rest == Cipher(k, f[..16]) + (CipherAll(k, f[16..]) + rest)
  {
    hide Cipher;
  }

  // ---- Packets cut off ----

  lemma NextMissing(buf: Block, s: seq<bv8>)
    requires |s| < 16
    ensures NextBlock(buf, s) == (buf, s) == NextBlock(buf, buf + s)
  {
  }

  /** A first block with bytes missing is read as whatever the block buffer held before. */
  lemma FirstMissing(k: Key, stale: Block, s: seq<bv8>, sz: nat, ts: bv32, serial: bv32)
    requires |s| < 16
    ensures OpenBody(k, stale, s, sz, ts, serial) == OpenBody(k, stale, stale + s, sz, ts, serial)
  {
    hide InvCipher, OpenFirst, NextBlock;
    NextMissing(stale, s);
  }

  /** A later one is read as the block before it, deciphered: the buffer is deciphered in place. */
  lemma LaterMissing(k: Key, buf: Block, s: seq<bv8>, left: nat)
    requires |s| < 16
    ensures OpenRest(k, buf, s, left) == OpenRest(k, buf, buf + s, left)
  {
    hide InvCipher, NextBlock;
    NextMissing(buf, s);
  }

  // ---- Payloads of fewer than sixteen bytes ----

  /** What opening yields: an overrun up to seven bytes, then the first |payload| - 8 bytes and
      eight more that start with the ninth byte of the payload. */
  function ShortOpened(k: Key, payload: seq<bv8>, f: seq<bv8>, rest: seq<bv8>): Opened
    requires |f| % 16 == 0 && |f| >= 16
  {
    if |payload| < 8 then Overrun
    else Opened(payload[..|payload| - 8] + OpenRest(k, f[..16], CipherAll(k, f[16..]) + rest, 8))
  }

  lemma OpenShort(k: Key, payload: seq<bv8>, ts: bv32, serial: bv32, noise: seq<bv8>, stale: Block, rest: seq<bv8>)
    requires |noise| >= 16 && 0 < |payload| < 16
    ensures Open(k, stale, Sealed(k, payload, ts, serial, noise) + rest, ts, serial)
         == ShortOpened(k, payload, Frame(payload, ts, serial, noise), rest)
  {
    hide Cipher, InvCipher, Frame, EncInt, DecInt, DecU32, EncU32, OpenRest, CipherAll;
    var f := Frame(payload, ts, serial, noise);
    var c := CipherAll(k, f);
    assert Sealed(k, payload, ts, serial, noise) + rest == EncInt(|payload|) + (c + rest);
    IntReads(|payload|, c + rest);
    FirstPlain(payload, ts, serial, noise);
    FirstCipher(k, f, rest);
    InvCipherInverts(k, f[..16]);
    OpenShortBody(k, payload, f, stale, c + rest, ts, serial);
  }

  lemma OpenShortBody(k: Key, payload: seq<bv8>, f: seq<bv8>, stale: Block, s: seq<bv8>, ts: bv32, serial: bv32)
    requires 0 < |payload| < 16 && |f| >= 16 && |f| >= 8 + |payload| && f[8..8 + |payload|] == payload
    requires |s| >= 16 && InvCipher(k, s[..16]) == f[..16]
    requires DecU32(f[..16][..4]) == ts && DecU32(f[..16][4..8]) == serial
    ensures OpenBody(k, stale, s, |payload|, ts, serial) ==
            if |payload| < 8 then Overrun
            else Opened(payload[..|payload| - 8] + OpenRest(k, f[..16], s[16..], 8))
  {
    hide InvCipher, DecU32, OpenRest;
    if |payload| >= 8 {
      assert f[..16][8..|payload|] == payload[..|payload| - 8];
    }
  }

  /** A key, clock and serial number open what they sealed. */
  ghost predicate Restores(k: Key, payload: seq<bv8>, ts: bv32, serial: bv32, noise: seq<bv8>, stale: Block, rest: seq<bv8>)
    requires |noise| >= 16 && |payload| < U63
  {
    Open(k, stale, Sealed(k, payload, ts, serial, noise) + rest, ts, serial) == Opened(payload)
  }

  lemma RestoresEnough(k: Key, payload: seq<bv8>, ts: bv32, serial: bv32, noise: seq<bv8>, stale: Block, rest: seq<bv8>)
    requires |noise| >= 16 && |payload| < U63 && (payload == [] || |payload| >= 16)
    ensures Restores(k, payload, ts, serial, noise, stale, rest)
  {
    hide Open, Sealed;
    if payload == [] {
      RestoresEmpty(k, ts, serial, noise, stale, rest);
    } else {
      OpenSealed(k, payload, ts, serial, noise, stale, rest, ts, serial);
    }
  }

  lemma RestoresEmpty(k: Key, ts: bv32, serial: bv32, noise: seq<bv8>, stale: Block, rest: seq<bv8>)
    requires |noise| >= 16
    ensures Open(k, stale, Sealed(k, [], ts, serial, noise) + rest, ts, serial) == Opened([])
  {
    hide EncInt, DecInt;
    assert Sealed(k, [], ts, serial, noise) + rest == EncInt(0) + rest;
    IntReads(0, rest);
  }

  /** A payload of n bytes that is not restored: a one at index 8, zeros elsewhere. */
  lemma ShortFails(k: Key, n: nat, ts: bv32, serial: bv32, noise: seq<bv8>, stale: Block, rest: seq<bv8>)
    requires |noise| >= 16 && 0 < n < 16 && n != 8
    ensures exists payload :: |payload| == n && !Restores(k, payload, ts, serial, noise, stale, rest)
  {
    hide Open, Sealed, OpenRest, CipherAll, Cipher, InvCipher;
    var payload: seq<bv8> := seq(n, i => if i == 8 then 1 else 0);
    OpenShort(k, payload, ts, serial, noise, stale, rest);
    if n > 8 {
      var f := Frame(payload, ts, serial, noise);
      FirstPlain(payload, ts, serial, noise);
      OpenRestOfCipher(k, f[..16], f[16..], rest, 8);
      assert f[16..][..8][0] == payload[8] == 1;
      var got := payload[..n - 8] + f[16..][..8];
      assert got[n - 8] == 1 && payload[n - 8] == 0;
    }
    assert !Restores(k, payload, ts, serial, noise, stale, rest);
  }

  /** Eight bytes take one block, but the opener deciphers sixteen bytes more and yields what it
      finds in those: the same for every payload. */
  lemma EightFails(k: Key, ts: bv32, serial: bv32, noise: seq<bv8>, stale: Block, rest: seq<bv8>)
    requires |noise| >= 16 && |rest| >= 16
    ensures exists payload :: |payload| == 8 && !Restores(k, payload, ts, serial, noise, stale, rest)
  {
    hide Open, Sealed, Restores, InvCipher;
    var payload := Other(FirstHalf(InvCipher(k, rest[..16])));
    OpenEight(k, payload, ts, serial, noise, stale, rest);
    NotRestored(k, payload, ts, serial, noise, stale, rest);
  }

  /** Eight bytes that are not those of x. */
  function Other(x: seq<bv8>): (s: seq<bv8>)
    ensures |s| == 8 && s != x
  {
    var s: seq<bv8> := if x != [] && x[0] == 0 then seq(8, _ => 1) else seq(8, _ => 0);
    assert x != [] ==> s[0] != x[0];
    s
  }

  lemma NotRestored(k: Key, payload: seq<bv8>, ts: bv32, serial: bv32, noise: seq<bv8>, stale: Block, rest: seq<bv8>)
    requires |noise| >= 16 && |payload| == 8 && |rest| >= 16 && payload != FirstHalf(InvCipher(k, rest[..16]))
    requires Open(k, stale, Sealed(k, payload, ts, serial, noise) + rest, ts, serial)
          == Opened(FirstHalf(InvCipher(k, rest[..16])))
    ensures !Restores(k, payload, ts, serial, noise, stale, rest)
  {
    hide Open, Sealed, InvCipher;
  }

  function FirstHalf(p: Block): seq<bv8> {
    p[..8]
  }

  lemma OpenEight(k: Key, payload: seq<bv8>, ts: bv32, serial: bv32, noise: seq<bv8>, stale: Block, rest: seq<bv8>)
    requires |noise| >= 16 && |payload| == 8 && |rest| >= 16
    ensures Open(k, stale, Sealed(k, payload, ts, serial, noise) + rest, ts, serial)
         == Opened(FirstHalf(InvCipher(k, rest[..16])))
  {
    hide Open, Sealed, InvCipher, Cipher;
    OpenShort(k, payload, ts, serial, noise, stale, rest);
    var f := Frame(payload, ts, serial, noise);
    assert f[16..] == [];
    assert CipherAll(k, f[16..]) + rest == rest;
    assert payload[..0] + OpenRest(k, f[..16], rest, 8) == OpenRest(k, f[..16], rest, 8);
  }

  /** Whatever follows the packet, every payload of a length is restored: exactly for length 0 and
      lengths from 16 on. */
  lemma RestoredLengths(k: Key, n: nat, ts: bv32, serial: bv32, noise: seq<bv8>, stale: Block)
    requires |noise| >= 16 && n < U63
    ensures (forall payload, rest :: |payload| == n ==> Restores(k, payload, ts, serial, noise, stale, rest))
            <==> n == 0 || n >= 16
  {
    hide Restores;
    if n == 0 || n >= 16 {
      forall payload, rest | |payload| == n ensures Restores(k, payload, ts, serial, noise, stale, rest) {
        RestoresEnough(k, payload, ts, serial, noise, stale, rest);
      }
    } else if n == 8 {
      EightFails(k, ts, serial, noise, stale, seq(16, _ => 0));
    } else {
      ShortFails(k, n, ts, serial, noise, stale, []);
    }
  }
}
