/**
 * The bytes of a string, as Rust's `as_bytes` gives them: the UTF-8
 * encoding of each character in turn.  Envelope checksums are hashes of
 * these bytes.
 */
module Utf8 {
  /** The UTF-8 encoding of one Unicode scalar value: one to four bytes. */
  function EncodeChar(c: char): (b: seq<bv8>)
    ensures 1 <= |b| <= 4
    ensures (c as int < 0x80) <==> |b| == 1
    ensures |b| == 1 ==> b[0] == (c as int) as bv8
  {
    var x := c as int;
    if x < 0x80 then [x as bv8]
    else if x < 0x800 then [(0xC0 + x / 0x40) as bv8, (0x80 + x % 0x40) as bv8]
    else if x < 0x1_0000 then
      [(0xE0 + x / 0x1000) as bv8, (0x80 + x / 0x40 % 0x40) as bv8, (0x80 + x % 0x40) as bv8]
    else
      [(0xF0 + x / 0x4_0000) as bv8, (0x80 + x / 0x1000 % 0x40) as bv8,
       (0x80 + x / 0x40 % 0x40) as bv8, (0x80 + x % 0x40) as bv8]
  }

  /** `as_bytes`: the characters' encodings, concatenated in order. */
  function Bytes(s: string): (b: seq<bv8>)
    ensures |s| <= |b| <= 4 * |s|
    decreases |s|
  {
    if |s| == 0 then [] else EncodeChar(s[0]) + Bytes(s[1..])
  }

  /** The bytes of a concatenation are the concatenated bytes. */
  lemma {:induction false} BytesAppend(a: string, b: string)
    ensures Bytes(a + b) == Bytes(a) + Bytes(b)
    decreases |a|
  {
    if |a| != 0 {
      assert (a + b)[1..] == a[1..] + b;
      BytesAppend(a[1..], b);
    } else {
      assert a + b == b;
    }
  }
}
