/** The byte encodings of the wire format, on values: integers, strings and fractions. */
module Wire {
  import opened Bytes

  // ---- Fixed-width integers, most significant byte first ----

  function EncU32(x: bv32): (s: seq<bv8>)
    ensures |s| == 4
  {
    [((x >> 24) & 0xff) as bv8, ((x >> 16) & 0xff) as bv8, ((x >> 8) & 0xff) as bv8, (x & 0xff) as bv8]
  }

  function DecU32(s: seq<bv8>): bv32
    requires |s| == 4
  {
    (s[0] as bv32 << 24) | (s[1] as bv32 << 16) | (s[2] as bv32 << 8) | s[3] as bv32
  }

  lemma U32RoundTrip(x: bv32)
    ensures DecU32(EncU32(x)) == x
  {
  }

  function EncU64(x: bv64): (s: seq<bv8>)
    ensures |s| == 8
  {
    [((x >> 56) & 0xff) as bv8, ((x >> 48) & 0xff) as bv8, ((x >> 40) & 0xff) as bv8, ((x >> 32) & 0xff) as bv8,
     ((x >> 24) & 0xff) as bv8, ((x >> 16) & 0xff) as bv8, ((x >> 8) & 0xff) as bv8, (x & 0xff) as bv8]
  }

  function DecU64(s: seq<bv8>): bv64
    requires |s| == 8
  {
    (s[0] as bv64 << 56) | (s[1] as bv64 << 48) | (s[2] as bv64 << 40) | (s[3] as bv64 << 32) |
    (s[4] as bv64 << 24) | (s[5] as bv64 << 16) | (s[6] as bv64 << 8) | s[7] as bv64
  }

  lemma U64RoundTrip(x: bv64)
    ensures DecU64(EncU64(x)) == x
  {
  }

  // ---- Integers in groups of seven bits, most significant group first ----

  const U64 := 0x1_0000_0000_0000_0000
  const U63 := 0x8000_0000_0000_0000

  /** A group that another group follows. */
  function More(n: nat): bv8 {
    (n % 128) as bv8 | 0x80
  }

  function Last(n: nat): bv8 {
    (n % 128) as bv8
  }

  /** All groups of n, without leading zero groups, each marked as followed by another. */
  function Groups(n: nat): seq<bv8> {
    if n == 0 then [] else Groups(n / 128) + [More(n)]
  }

  /** What ioport_write_encint emits: bit 63 is dropped, and a value with no other bit set
      emits nothing at all. */
  function EncInt(i: nat): seq<bv8>
    requires i < U64
  {
    var n := i % U63;
    if n == 0 && i != 0 then [] else Groups(n / 128) + [Last(n)]
  }

  function Payload(b: bv8): nat {
    (b & 0x7f) as nat
  }

  /** ioport_read_encint after reading groups worth acc: the value and the bytes left over.
      A read past the end yields a zero byte, which is a last group. */
  function DecIntFrom(s: seq<bv8>, acc: nat): (nat, seq<bv8>)
  {
    if s == [] then (acc * 128 % U64, [])
    else
      var acc' := acc * 128 % U64 + Payload(s[0]);
      if s[0] & 0x80 != 0 then DecIntFrom(s[1..], acc') else (acc', s[1..])
  }

  function DecInt(s: seq<bv8>): (nat, seq<bv8>) {
    DecIntFrom(s, 0)
  }

  lemma GroupByte(n: nat)
    ensures More(n) & 0x80 != 0 && Last(n) & 0x80 == 0
    ensures Payload(More(n)) == n % 128 == Payload(Last(n))
  {
    var b := (n % 128) as bv8;
    ByteBack(n % 128);
    Below(b, 0x80);
    TopBit(b);
  }

  /** Reading one group. */
  lemma OneGroup(b: bv8, rest: seq<bv8>, acc: nat)
    ensures DecIntFrom([b] + rest, acc) ==
      var acc' := acc * 128 % U64 + Payload(b);
      if b & 0x80 != 0 then DecIntFrom(rest, acc') else (acc', rest)
  {
    hide Payload;
    assert ([b] + rest)[1..] == rest;
  }

  lemma Rejoin(n: nat)
    requires n < U64
    ensures n / 128 * 128 % U64 + n % 128 == n
  {
    assert n / 128 * 128 + n % 128 == n;
  }

  lemma {:induction false} DecGroups(n: nat, rest: seq<bv8>)
    requires n < U64
    ensures DecIntFrom(Groups(n) + rest, 0) == DecIntFrom(rest, n)
  {
    hide DecIntFrom, Payload, More;
    if n == 0 {
      assert Groups(n) + rest == rest;
    } else {
      assert Groups(n) + rest == Groups(n / 128) + ([More(n)] + rest);
      DecGroups(n / 128, [More(n)] + rest);
      GroupByte(n);
      OneGroup(More(n), rest, n / 128);
      Rejoin(n);
    }
  }

  lemma IntReads(i: nat, rest: seq<bv8>)
    requires i < U63
    ensures DecInt(EncInt(i) + rest) == (i, rest)
  {
    hide DecIntFrom, Payload, Last, Groups;
    assert EncInt(i) + rest == Groups(i / 128) + ([Last(i)] + rest);
    DecGroups(i / 128, [Last(i)] + rest);
    GroupByte(i);
    OneGroup(Last(i), rest, i / 128);
    Rejoin(i);
  }

  /** Reading back what was written gives the value and stops right after it, whatever
      follows, exactly for the values of 63 bits. */
  lemma IntRoundTrip(i: nat)
    requires i < U64
    ensures (forall rest :: DecInt(EncInt(i) + rest) == (i, rest)) <==> i < U63
  {
    if i < U63 {
      forall rest ensures DecInt(EncInt(i) + rest) == (i, rest) {
        IntReads(i, rest);
      }
    } else if i == U63 {
      assert EncInt(i) + [] == [];
      assert DecInt(EncInt(i) + []) == (0, []);
    } else {
      IntReads(i % U63, []);
      assert EncInt(i) == EncInt(i % U63);
    }
  }

  // ---- No shorter encoding exists ----

  function Pow128(k: nat): (p: nat)
    ensures p > 0
  {
    if k == 0 then 1 else 128 * Pow128(k - 1)
  }

  lemma {:induction false} DecBound(s: seq<bv8>, rest: seq<bv8>, acc: nat)
    requires rest != [] && DecIntFrom(s + rest, acc).1 == rest
    ensures DecIntFrom(s + rest, acc).0 < (acc + 1) * Pow128(|s|)
  {
    DecConsumes(s + rest, acc);
    assert (s + rest)[1..] == s[1..] + rest;
    var a := acc * 128 % U64 + Payload(s[0]);
    assert s[0] & 0x7f < 0x80;
    assert acc * 128 % U64 <= acc * 128;
    MulMono(a + 1, (acc + 1) * 128, Pow128(|s| - 1));
    MulAssoc(acc + 1, 128, Pow128(|s| - 1));
    if s[0] & 0x80 != 0 {
      DecBound(s[1..], rest, a);
    } else {
      assert |s[1..] + rest| == |rest|;
    }
  }

  lemma {:induction false} DecConsumes(s: seq<bv8>, acc: nat)
    requires s != []
    ensures |DecIntFrom(s, acc).1| < |s|
  {
    if s[0] & 0x80 != 0 && s[1..] != [] {
      DecConsumes(s[1..], acc * 128 % U64 + Payload(s[0]));
    }
  }

  lemma MulMono(a: nat, b: nat, c: nat)
    requires a <= b
    ensures a * c <= b * c
  {
  }

  lemma MulAssoc(a: nat, b: nat, c: nat)
    ensures (a * b) * c == a * (b * c)
  {
  }

  lemma {:induction false} GroupsLength(n: nat)
    requires n > 0
    ensures Pow128(|Groups(n)| - 1) <= n
  {
    var m := n / 128;
    if m > 0 {
      GroupsLength(m);
    }
  }

  lemma EncIntLength(i: nat)
    requires i < U63
    ensures |EncInt(i)| == 1 || (|EncInt(i)| > 1 && Pow128(|EncInt(i)| - 1) <= i)
  {
    var m := i / 128;
    assert EncInt(i) == Groups(m) + [Last(i)];
    if m > 0 {
      GroupsLength(m);
      assert Pow128(|Groups(m)|) == 128 * Pow128(|Groups(m)| - 1) <= 128 * m <= i;
    }
  }

  /** Whatever bytes the reader would take for i, with more to follow, the writer's are no more. */
  lemma IntShortest(i: nat, s: seq<bv8>, rest: seq<bv8>)
    requires i < U63 && rest != [] && DecInt(s + rest) == (i, rest)
    ensures |EncInt(i)| <= |s|
  {
    hide EncInt, DecIntFrom, Pow128;
    DecBound(s, rest, 0);
    DecConsumes(s + rest, 0);
    EncIntLength(i);
    if |s| < |EncInt(i)| {
      Pow128Mono(|s|, |EncInt(i)| - 1);
    }
  }

  lemma {:induction false} Pow128Mono(j: nat, k: nat)
    requires j <= k
    ensures Pow128(j) <= Pow128(k)
  {
    if j < k {
      Pow128Mono(j, k - 1);
    }
  }

  // ---- The groups of an integer, from the top ----

  /** 2 to the power 7k. */
  function Unit(k: nat): (p: nat)
    requires k <= 9
    ensures p > 0
  {
    if k == 0 then 0x1
    else if k == 1 then 0x80
    else if k == 2 then 0x4000
    else if k == 3 then 0x20_0000
    else if k == 4 then 0x1000_0000
    else if k == 5 then 0x8_0000_0000
    else if k == 6 then 0x400_0000_0000
    else if k == 7 then 0x2_0000_0000_0000
    else if k == 8 then 0x100_0000_0000_0000
    else 0x8000_0000_0000_0000
  }

  /** The groups of i above the lowest k, as a number. */
  ghost function Prefix(i: nat, k: nat): nat
    requires k <= 9
  {
    i % U63 / Unit(k)
  }

  /** What is written when k groups are still to come. */
  ghost function EncPrefix(i: nat, k: nat): seq<bv8>
    requires i < U64 && k <= 9
  {
    if k > 0 then Groups(Prefix(i, k)) else EncInt(i)
  }

  lemma EncZero()
    ensures EncInt(0) == [0]
  {
  }

  lemma NoGroups(i: nat)
    requires 0 < i < U64
    ensures Prefix(i, 9) == 0 && EncPrefix(i, 9) == []
  {
  }

  lemma DigitOf(i: nat, k: nat)
    requires i < U64 && k < 9
    ensures i / Unit(k) % 128 == Prefix(i, k) % 128
  {
    if i >= U63 {
      var r := i % U63;
      assert i == U63 + r;
      assert U63 == Unit(k) * (128 * Unit(8 - k));
      hide Unit;
      DivShift(r, Unit(k), 128 * Unit(8 - k));
    }
  }

  lemma DivShift(r: nat, p: nat, c: nat)
    requires p > 0
    ensures (p * c + r) / p == c + r / p
  {
    var x := p * c + r;
    var d := x / p - c - r / p;
    assert x == p * (x / p) + x % p && r == p * (r / p) + r % p;
    assert p * d == p * (x / p) - p * c - p * (r / p);
    MulSmall(p, d);
  }

  lemma MulSmall(p: int, d: int)
    requires -p < p * d < p
    ensures d == 0
  {
    assert d > 0 ==> p * d >= p;
    assert d < 0 ==> p * d <= -p;
  }

  lemma PrefixStep(i: nat, k: nat)
    requires k < 9
    ensures Prefix(i, k + 1) == Prefix(i, k) / 128
  {
    if k == 0 {
    } else if k == 1 {
    } else if k == 2 {
    } else if k == 3 {
    } else if k == 4 {
    } else if k == 5 {
    } else if k == 6 {
    } else if k == 7 {
    }
  }

  /** One more group: what the loop body appends. */
  lemma NextGroup(i: nat, k: nat)
    requires 0 < i < U64 && k < 9
    ensures var byte := (i / Unit(k) % 128) as bv8;
            var b := if k != 0 then byte | 0x80 else byte;
            if byte != 0 || Prefix(i, k + 1) > 0
            then Prefix(i, k) > 0 && EncPrefix(i, k) == EncPrefix(i, k + 1) + [b]
            else Prefix(i, k) == 0 && EncPrefix(i, k) == EncPrefix(i, k + 1)
  {
    hide Prefix;
    var n := Prefix(i, k);
    DigitOf(i, k);
    PrefixStep(i, k);
    ZeroByte(n % 128);
    if k == 0 {
      WholePrefix(i);
    }
  }

  lemma WholePrefix(i: nat)
    ensures Prefix(i, 0) == i % U63
  {
  }

  lemma ZeroByte(n: nat)
    requires n < 128
    ensures n as bv8 == 0 <==> n == 0
  {
    ByteBack(n);
  }

  lemma AllGroups(i: nat)
    requires i < U64
    ensures EncPrefix(i, 0) == EncInt(i)
  {
  }
}
