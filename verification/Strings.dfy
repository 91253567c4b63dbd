/** Texts as bytes and as characters. A character of a C string is one byte. */
module Strings {
  import opened Bytes

  predicate IsByte(c: char) {
    c as int < 256
  }

  predicate AllBytes(s: string) {
    forall c :: c in s ==> IsByte(c)
  }

  function CharByte(c: char): bv8 {
    (c as int % 256) as bv8
  }

  function ByteChar(b: bv8): char {
    ByteRange(b);
    (b as int) as char
  }

  function BytesOf(s: string): (t: seq<bv8>)
    ensures |t| == |s|
  {
    if s == "" then [] else [CharByte(s[0])] + BytesOf(s[1..])
  }

  function StringOf(t: seq<bv8>): (s: string)
    ensures |s| == |t|
  {
    if t == [] then "" else [ByteChar(t[0])] + StringOf(t[1..])
  }

  lemma CharBack(c: char)
    requires IsByte(c)
    ensures ByteChar(CharByte(c)) == c
  {
    ByteBack(c as int);
  }

  lemma {:induction false} TextBack(s: string)
    requires AllBytes(s)
    ensures StringOf(BytesOf(s)) == s
  {
    hide CharByte, ByteChar;
    if s != "" {
      CharBack(s[0]);
      TextBack(s[1..]);
    }
  }

  lemma FourBytes(a: char, b: char, c: char, d: char)
    ensures BytesOf([a, b, c, d]) == [CharByte(a), CharByte(b), CharByte(c), CharByte(d)]
  {
    hide CharByte;
    assert [a, b, c, d][1..] == [b, c, d] && [b, c, d][1..] == [c, d] && [c, d][1..] == [d] && [d][1..] == [];
    assert BytesOf([d]) == [CharByte(d)] + BytesOf([]);
    assert BytesOf([c, d]) == [CharByte(c)] + BytesOf([d]);
    assert BytesOf([b, c, d]) == [CharByte(b)] + BytesOf([c, d]);
  }
}
