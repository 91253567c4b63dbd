/** Naturals as the 64-bit words that carry them, by way of the bytes they spell. */
module Words {
  import opened Bytes
  import opened Wire

  /** The low k bytes of n, most significant first. */
  function EncNat(n: nat, k: nat): (s: seq<bv8>)
    ensures |s| == k
  {
    if k == 0 then [] else EncNat(n / 256, k - 1) + [(n % 256) as bv8]
  }

  function DecNat(s: seq<bv8>): nat {
    if s == [] then 0 else DecNat(s[..|s| - 1]) * 256 + s[|s| - 1] as nat
  }

  function Pow256(k: nat): (p: nat)
    ensures p > 0
  {
    if k == 0 then 1 else 256 * Pow256(k - 1)
  }

  lemma {:induction false} NatRoundTrip(n: nat, k: nat)
    requires n < Pow256(k)
    ensures DecNat(EncNat(n, k)) == n
  {
    if k > 0 {
      ByteBack(n % 256);
      assert n / 256 < Pow256(k - 1);
      NatRoundTrip(n / 256, k - 1);
      var s := EncNat(n, k);
      assert s[..k - 1] == EncNat(n / 256, k - 1);
    }
  }

  lemma {:induction false} DecNatRange(s: seq<bv8>)
    ensures DecNat(s) < Pow256(|s|)
  {
    if s != [] {
      DecNatRange(s[..|s| - 1]);
      ByteRange(s[|s| - 1]);
    }
  }

  lemma EightBytes()
    ensures Pow256(8) == U64
  {
    assert Pow256(2) == 0x1_0000;
    assert Pow256(4) == 0x1_0000_0000;
    assert Pow256(6) == 0x1_0000_0000_0000;
  }

  lemma {:induction false} EncMore(n: nat, k: nat, m: nat, b: bv8, front: seq<bv8>)
    requires n == 256 * m + b as nat && b as nat < 256 && EncNat(m, k) == front
    ensures EncNat(n, k + 1) == front + [b]
  {
    ByteRange(b);
    assert n / 256 == m && n % 256 == b as nat;
  }

  /** A word of the files, most significant byte first. */
  lemma WordLayout()
    ensures EncNat(0x0102_0304, 4) == [1, 2, 3, 4]
  {
    hide EncNat;
    NoByte();
    EncMore(1, 0, 0, 1, []);
    EncMore(0x0102, 1, 1, 2, [1]);
    EncMore(0x01_0203, 2, 0x0102, 3, [1, 2]);
    EncMore(0x0102_0304, 3, 0x01_0203, 4, [1, 2, 3]);
  }

  lemma NoByte()
    ensures EncNat(0, 0) == []
  {
  }

  /** The word of a number below 2 to the power 64. */
  function WordOf(n: nat): bv64 {
    DecU64(EncNat(n, 8))
  }

  lemma U64Back(s: seq<bv8>)
    requires |s| == 8
    ensures EncU64(DecU64(s)) == s
  {
    hide EncU64, DecU64;
    assert s == [s[0], s[1], s[2], s[3], s[4], s[5], s[6], s[7]];
    BytesBack(s[0], s[1], s[2], s[3], s[4], s[5], s[6], s[7]);
  }

  lemma BytesBack(a: bv8, b: bv8, c: bv8, d: bv8, e: bv8, f: bv8, g: bv8, h: bv8)
    ensures EncU64(DecU64([a, b, c, d, e, f, g, h])) == [a, b, c, d, e, f, g, h]
  {
  }

  lemma WordBytes(n: nat)
    ensures EncU64(WordOf(n)) == EncNat(n, 8)
  {
    hide EncU64, DecU64, EncNat;
    U64Back(EncNat(n, 8));
  }
}
