/** Octets and the conversion of a string to its bytes.

    A Go `[]byte` is a sequence of octets, and a Go `string` holds the UTF-8
    encoding of its text. Dafny strings are sequences of Unicode scalar
    values, so the conversion `[]byte(s)` is modelled as UTF-8 encoding
    (section 3 of RFC 3629).
 */
module Bytes {

  /** One octet, Go's `byte` (`uint8`). */
  type Byte = x: int | 0 <= x < 256

  /** A character in the 7-bit ASCII range. */
  predicate IsAscii(c: char) {
    c as int < 0x80
  }

  /** The UTF-8 encoding of one Unicode scalar value: one to four octets. */
  function EncodeScalar(c: char): (r: seq<Byte>)
    ensures 1 <= |r| <= 4
    ensures |r| == 1 <==> IsAscii(c)
    ensures IsAscii(c) ==> r[0] == c as int
    ensures !IsAscii(c) ==> r[0] >= 0xC0 && forall k :: 1 <= k < |r| ==> 0x80 <= r[k] < 0xC0
  {
    var cp := c as int;
    if cp < 0x80 then
      [cp]
    else if cp < 0x800 then
      [0xC0 + cp / 0x40, 0x80 + cp % 0x40]
    else if cp < 0x1_0000 then
      [0xE0 + cp / 0x1000, 0x80 + (cp / 0x40) % 0x40, 0x80 + cp % 0x40]
    else
      [0xF0 + cp / 0x4_0000, 0x80 + (cp / 0x1000) % 0x40, 0x80 + (cp / 0x40) % 0x40, 0x80 + cp % 0x40]
  }

  /** `[]byte(s)`: the UTF-8 octets of `s`, character by character. */
  function Utf8(s: string): (r: seq<Byte>)
    ensures |r| >= |s|
    ensures (forall i :: 0 <= i < |s| ==> IsAscii(s[i])) ==> |r| == |s|
  {
    if |s| == 0 then [] else EncodeScalar(s[0]) + Utf8(s[1..])
  }

  /** On an ASCII string the conversion is the identity on character codes:
      one octet per character, equal to the character's code. */
  lemma {:induction false} Utf8OfAscii(s: string)
    requires forall i :: 0 <= i < |s| ==> IsAscii(s[i])
    ensures |Utf8(s)| == |s|
    ensures forall i :: 0 <= i < |s| ==> Utf8(s)[i] == s[i] as int
  {
    if |s| > 0 {
      Utf8OfAscii(s[1..]);
      assert Utf8(s) == [s[0] as int] + Utf8(s[1..]);
    }
  }
}
