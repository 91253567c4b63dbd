/** The sixteen-bit fraction encoding, over the reals. */
module WireFrac {
  import opened Bytes

  /** A fraction as the decoder yields it. */
  datatype Frac = Finite(r: real) | Infinite

  // ---- Encoding ----

  /** The halving loop from mantissa w and exponent i. */
  function Halve(w: nat, i: nat): (nat, nat)
    requires i <= 63
    decreases 63 - i
  {
    if w > 255 && i < 63 then Halve(w / 2, i + 1) else (w, i)
  }

  function EncReal(d: real): (s: seq<bv8>)
    ensures |s| == 2
  {
    if d <= 0.0 then [0, 0]
    else if d >= 192.0 then
      var (w, i) := Halve((d / 2.0).Floor, 0);
      HalveBound((d / 2.0).Floor, 0);
      if w > 255 then [255, 255] else [(192 + i) as bv8, w as bv8]
    else
      var fl := d.Floor;
      var fr := ((d - fl as real) * 255.0).Floor;
      [fl as bv8, fr as bv8]
  }

  function EncFrac(f: Frac): (s: seq<bv8>)
    ensures |s| == 2
  {
    match f
    case Finite(d) => EncReal(d)
    case Infinite => [255, 255]
  }

  lemma {:induction false} HalveBound(w: nat, i: nat)
    requires i <= 63
    ensures i <= Halve(w, i).1 <= 63
    decreases 63 - i
  {
    if w >= 64 && i < 63 {
      HalveBound(w / 2, i + 1);
    }
  }

  // ---- Decoding ----

  function Pow2(n: nat): nat {
    if n == 0 then 1 else 2 * Pow2(n - 1)
  }

  /** The value of a mantissa byte and an exponent: the source shifts the int 2 left. */
  function Scaled(w: nat, i: nat): real {
    (w * Pow2(i + 1)) as real
  }

  function DecFrac(b0: bv8, b1: bv8): Frac {
    var intpart, low := b0 as nat, b1 as nat;
    if intpart < 192 then Finite(intpart as real + low as real / 256.0)
    else if intpart == 255 && low == 255 then Infinite
    else Finite(Scaled(low, intpart - 192))
  }

  /** What a fraction becomes by being sent. */
  function Sent(f: Frac): Frac {
    var s := EncFrac(f);
    DecFrac(s[0], s[1])
  }

  /** 2 to the power 38. From there on the source's shift of an int leaves the range of the type. */
  const LIMIT := 274877906944.0

  // ---- The halving loop divides ----

  /** The loop computes w / 2^k with the least k that brings it to a byte. */
  lemma {:induction false} HalveDivides(w: nat, i: nat)
    requires i <= 63
    ensures var (m, j) := Halve(w, i);
            i <= j <= 63 && m * Pow2(j - i) <= w < (m + 1) * Pow2(j - i) && (j > i ==> m >= 128)
    decreases 63 - i
  {
    if w > 255 && i < 63 {
      HalveDivides(w / 2, i + 1);
      var (m, j) := Halve(w / 2, i + 1);
      HalfBounds(w, m, Pow2(j - i - 1));
    }
  }

  lemma HalfBounds(w: nat, m: nat, p: nat)
    requires m * p <= w / 2 < (m + 1) * p
    ensures m * (2 * p) <= w < (m + 1) * (2 * p)
  {
    assert m * (2 * p) == 2 * (m * p);
    assert (m + 1) * (2 * p) == 2 * ((m + 1) * p);
  }

  lemma {:induction false} HalveStops(w: nat, i: nat, k: nat)
    requires i + k <= 63 && w < 256 * Pow2(k)
    ensures Halve(w, i).0 <= 255 && Halve(w, i).1 <= i + k
    decreases k
  {
    if k > 0 && w > 255 {
      HalveStops(w / 2, i + 1, k - 1);
    }
  }

  lemma Pow2Of29()
    ensures 256 * Pow2(29) == 0x20_0000_0000
  {
    assert Pow2(4) == 16;
    assert Pow2(8) == 256;
    assert Pow2(12) == 4096;
    assert Pow2(16) == 65536;
    assert Pow2(20) == 1048576;
    assert Pow2(24) == 16777216;
    assert Pow2(28) == 268435456;
  }

  /** The halving loop on the half of a large number: a mantissa m of at least 96 and a power p
      of two that bracket it. */
  lemma HalfParts(n: nat) returns (m: nat, j: nat, p: nat)
    requires 96 <= n < 0x20_0000_0000
    ensures Halve(n, 0) == (m, j) && m <= 255 && j <= 29 && p == Pow2(j)
    ensures m * p <= n < m * p + p
    ensures 96 * p <= m * p
    ensures j > 0 ==> m >= 128
  {
    hide Halve, Pow2;
    Pow2Of29();
    HalveStops(n, 0, 29);
    HalveDivides(n, 0);
    var mj := Halve(n, 0);
    m, j := mj.0, mj.1;
    p := Pow2(j);
    Distribute(m, p);
    if j == 0 {
      FirstPower();
    }
    MulMono(96, m, p);
  }

  lemma Distribute(m: nat, p: nat)
    ensures (m + 1) * p == m * p + p
  {
  }

  lemma FirstPower()
    ensures Pow2(0) == 1
  {
  }

  lemma MulMono(a: nat, b: nat, c: nat)
    ensures a <= b ==> a * c <= b * c
  {
  }

  lemma ScaledIsDouble(m: nat, j: nat)
    ensures Scaled(m, j) == 2.0 * (m * Pow2(j)) as real
  {
    assert m * Pow2(j + 1) == 2 * (m * Pow2(j));
  }

  lemma HalfOf(d: real) returns (n: nat)
    requires 192.0 <= d < LIMIT
    ensures n == (d / 2.0).Floor && 96 <= n < 0x20_0000_0000
    ensures n as real <= d / 2.0 < n as real + 1.0
  {
    n := (d / 2.0).Floor;
  }

  lemma SentLarge(d: real, n: nat, m: nat, j: nat)
    requires 192.0 <= d && n == (d / 2.0).Floor && Halve(n, 0) == (m, j) && m <= 255 && j <= 29
    ensures Sent(Finite(d)) == Finite(Scaled(m, j))
  {
    hide Scaled, Halve;
    ByteBack(m);
    ByteBack(192 + j);
  }

  lemma SmallParts(d: real) returns (fl: nat, fr: nat)
    requires 0.0 < d < 192.0
    ensures fl == d.Floor && fl < 192 && fl as real <= d
    ensures fr == ((d - fl as real) * 255.0).Floor && fr < 255
    ensures fr as real <= (d - fl as real) * 255.0 < fr as real + 1.0
  {
    fl := d.Floor;
    assert d - fl as real < 1.0;
    fr := ((d - fl as real) * 255.0).Floor;
  }

  lemma SentSmall(d: real) returns (fl: nat, fr: nat)
    requires 0.0 < d < 192.0
    ensures fl < 192 && fr < 255 && fl as real <= d < fl as real + 1.0
    ensures fr as real <= (d - fl as real) * 255.0 < fr as real + 1.0
    ensures Sent(Finite(d)) == Finite(fl as real + fr as real / 256.0)
  {
    fl, fr := SmallParts(d);
    ByteBack(fl);
    ByteBack(fr);
  }

  /** Sending a number rounds it down, by less than 1/128 below 192 and by at most one part in
      96 above. */
  lemma FractionLoss(d: real)
    requires 0.0 <= d < LIMIT
    ensures Sent(Finite(d)).Finite?
    ensures Sent(Finite(d)).r <= d
    ensures d < 192.0 ==> d - Sent(Finite(d)).r < 1.0 / 128.0
    ensures d >= 192.0 ==> d - Sent(Finite(d)).r <= d / 96.0
  {
    if d >= 192.0 {
      hide Sent, Scaled;
      var n := HalfOf(d);
      var m, j, p := HalfParts(n);
      SentLarge(d, n, m, j);
      ScaledIsDouble(m, j);
    } else if d > 0.0 {
      hide Sent;
      var fl, fr := SentSmall(d);
    }
  }

  lemma {:induction false} Pow2Mono(i: nat, j: nat)
    requires i < j
    ensures 2 * Pow2(i) <= Pow2(j)
  {
    if i + 1 < j {
      Pow2Mono(i, j - 1);
    }
  }

  lemma SentLargeOrder(d: real, e: real)
    requires 192.0 <= d <= e < LIMIT
    ensures Sent(Finite(d)).Finite? && Sent(Finite(e)).Finite?
    ensures Sent(Finite(d)).r <= Sent(Finite(e)).r
  {
    hide Sent, Scaled, Halve, Pow2;
    var k := HalfOf(e);
    var n, j, q := HalfParts(k);
    SentLarge(e, k, n, j);
    ScaledIsDouble(n, j);
    var l := HalfOf(d);
    var m, i, p := HalfParts(l);
    SentLarge(d, l, m, i);
    ScaledIsDouble(m, i);
    MantissaOrder(l, m, i, k, n, j);
  }

  lemma SentLargeLeast(e: real)
    requires 192.0 <= e < LIMIT
    ensures Sent(Finite(e)).Finite? && 192.0 <= Sent(Finite(e)).r
  {
    hide Sent, Scaled, Halve;
    var k := HalfOf(e);
    var n, j, q := HalfParts(k);
    SentLarge(e, k, n, j);
    ScaledIsDouble(n, j);
    assert q >= 1;
  }

  lemma SentSmallOrder(d: real, e: real)
    requires 0.0 < d <= e < 192.0
    ensures Sent(Finite(d)).Finite? && Sent(Finite(e)).Finite?
    ensures Sent(Finite(d)).r <= Sent(Finite(e)).r
  {
    hide Sent;
    var fl, fr := SentSmall(d);
    var fl', fr' := SentSmall(e);
    PartsOrder(d, fl, fr, e, fl', fr');
  }

  lemma PartsOrder(d: real, fl: nat, fr: nat, e: real, fl': nat, fr': nat)
    requires d <= e && fr < 255
    requires fl as real <= d < fl as real + 1.0 && fl' as real <= e < fl' as real + 1.0
    requires fr as real <= (d - fl as real) * 255.0 && (e - fl' as real) * 255.0 < fr' as real + 1.0
    ensures fl as real + fr as real / 256.0 <= fl' as real + fr' as real / 256.0
  {
    assert fl <= fl';
    if fl == fl' {
      assert (d - fl as real) * 255.0 <= (e - fl' as real) * 255.0;
      assert fr as real < (fr' + 1) as real;
      assert fr <= fr';
    }
  }

  lemma SentZero()
    ensures Sent(Finite(0.0)) == Finite(0.0)
  {
  }

  /** Sending keeps the order of numbers. */
  lemma FractionMonotone(d: real, e: real)
    requires 0.0 <= d <= e < LIMIT
    ensures Sent(Finite(d)).Finite? && Sent(Finite(e)).Finite?
    ensures Sent(Finite(d)).r <= Sent(Finite(e)).r
  {
    hide Sent;
    FractionLoss(d);
    FractionLoss(e);
    if d >= 192.0 {
      SentLargeOrder(d, e);
    } else if e >= 192.0 {
      SentLargeLeast(e);
    } else if d > 0.0 {
      SentSmallOrder(d, e);
    } else {
      SentZero();
      if e > 0.0 {
        var fl, fr := SentSmall(e);
      }
    }
  }

  lemma MantissaOrder(l: nat, m: nat, i: nat, k: nat, n: nat, j: nat)
    requires l <= k && m <= 255 && n <= 255 && (i > 0 ==> m >= 128) && (j > 0 ==> n >= 128)
    requires m * Pow2(i) <= l < m * Pow2(i) + Pow2(i)
    requires n * Pow2(j) <= k < n * Pow2(j) + Pow2(j)
    ensures m * Pow2(i) <= n * Pow2(j)
  {
    var p, q := Pow2(i), Pow2(j);
    Distribute(n, q);
    if i < j {
      Pow2Mono(i, j);
      MulMono(m, 256, p);
      MulMono(128, n, q);
    } else if j < i {
      Pow2Mono(j, i);
      MulMono(n + 1, 256, q);
      MulMono(128, m, p);
    } else {
      MulMono(n + 1, m, p);
      MulMono(m, n, p);
    }
  }
}
