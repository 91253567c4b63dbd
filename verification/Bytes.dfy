/** Bytes and the numbers they stand for. */
module Bytes {

  lemma Successor(b: bv8)
    requires b != 255
    ensures (b + 1) as nat == b as nat + 1
  {
  }

  /** Every number below 256 is some byte's. */
  lemma Reached(n: nat) returns (b: bv8)
    requires n < 256
    ensures b as nat == n
  {
    if n == 0 {
      b := 0;
    } else {
      var c := Reached(n - 1);
      Successor(c);
      b := c + 1;
    }
  }

  lemma ByteRange(b: bv8)
    ensures 0 <= b as nat < 256 && 0 <= b as int < 256 && (b as nat) as bv8 == b
  {
  }

  lemma ByteBack(n: nat)
    requires n < 256
    ensures (n as bv8) as nat == n
  {
    var b := Reached(n);
    ByteRange(b);
  }

  lemma Below(b: bv8, c: bv8)
    ensures b < c <==> b as nat < c as nat
  {
  }

  /** Setting the top bit of a smaller byte adds 128, and masking it off again gives it back. */
  lemma TopBit(b: bv8)
    requires b < 0x80
    ensures (b | 0x80) & 0x7f == b == b & 0x7f && (b | 0x80) & 0x80 != 0 && b & 0x80 == 0
    ensures (b | 0x80) as nat == b as nat + 0x80
  {
  }
}
