/** Base 64 encoding as RFC 4648 defines it.

    `Encode(Standard, true, b)` is the encoding of section 4 (alphabet of
    table 1, `=` padding), the one Go's `base64.StdEncoding` produces.
    `Encode(UrlSafe, false, b)` is the encoding of section 5 (alphabet of
    table 2) with the padding omitted as section 3.2 permits, the form
    appendix A of RFC 7636 asks for.
 */
module Base64 {
  import opened Bytes
  import opened Wrappers

  /** A 6-bit group, the value one encoded character carries. */
  type Sextet = x: int | 0 <= x < 64

  /** Table 1 (section 4) or table 2 (section 5) of RFC 4648. */
  datatype Alphabet = Standard | UrlSafe

  const Pad: char := '='

  /** The character that encodes `v`. The two tables differ only at 62 and 63. */
  function Digit(a: Alphabet, v: Sextet): char {
    if v < 26 then ('A' as int + v) as char
    else if v < 52 then ('a' as int + (v - 26)) as char
    else if v < 62 then ('0' as int + (v - 52)) as char
    else if v == 62 then (if a == Standard then '+' else '-')
    else (if a == Standard then '/' else '_')
  }

  /** The characters of an alphabet. */
  predicate IsDigit(a: Alphabet, c: char) {
    || ('A' <= c <= 'Z') || ('a' <= c <= 'z') || ('0' <= c <= '9')
    || (a == Standard && (c == '+' || c == '/'))
    || (a == UrlSafe && (c == '-' || c == '_'))
  }

  /** The value an alphabet character encodes, if it is one. */
  function Value(a: Alphabet, c: char): (r: Option<Sextet>)
    ensures r.Some? <==> IsDigit(a, c)
  {
    if 'A' <= c <= 'Z' then Some(c as int - 'A' as int)
    else if 'a' <= c <= 'z' then Some(c as int - 'a' as int + 26)
    else if '0' <= c <= '9' then Some(c as int - '0' as int + 52)
    else if c == (if a == Standard then '+' else '-') then Some(62)
    else if c == (if a == Standard then '/' else '_') then Some(63)
    else None
  }

  /** `Digit` and `Value` are inverse: the table is a bijection between
      the 64 values and the 64 characters of the alphabet. */
  lemma DigitValue(a: Alphabet, v: Sextet, c: char)
    ensures IsDigit(a, Digit(a, v))
    ensures Value(a, Digit(a, v)) == Some(v)
    ensures Value(a, c) == Some(v) ==> Digit(a, v) == c
  {
  }

  /** A standard digit and a URL-safe digit of the same value agree except
      that `+` and `/` become `-` and `_`. */
  lemma DigitTables(v: Sextet)
    ensures Digit(Standard, v) == '+' <==> v == 62
    ensures Digit(Standard, v) == '/' <==> v == 63
    ensures Digit(UrlSafe, v) == (if v == 62 then '-' else if v == 63 then '_' else Digit(Standard, v))
    ensures Digit(Standard, v) != Pad && Digit(UrlSafe, v) != Pad
  {
  }

  /** Spell a sequence of sextets in an alphabet: one character per
      sextet, each decoding back to its sextet. */
  function Spell(a: Alphabet, q: seq<Sextet>): (s: string)
    ensures |s| == |q|
    ensures forall i :: 0 <= i < |s| ==> IsDigit(a, s[i]) && Value(a, s[i]) == Some(q[i])
  {
    forall v: Sextet ensures Value(a, Digit(a, v)) == Some(v) {
      DigitValue(a, v, Digit(a, v));
    }
    seq(|q|, i requires 0 <= i < |q| => Digit(a, q[i]))
  }

  lemma SpellCons(a: Alphabet, q: seq<Sextet>)
    requires |q| > 0
    ensures Spell(a, q) == [Digit(a, q[0])] + Spell(a, q[1..])
  {
  }

  /** A 24-bit group `b0 b1 b2` read as four 6-bit groups, most significant first. */
  function Quad(b0: Byte, b1: Byte, b2: Byte): (q: seq<Sextet>)
    ensures |q| == 4
  {
    [b0 / 4, (b0 % 4) * 16 + b1 / 16, (b1 % 16) * 4 + b2 / 64, b2 % 64]
  }

  /** The 24-bit group `c0 c1 c2 c3` read as three octets. */
  function Unquad(c0: Sextet, c1: Sextet, c2: Sextet, c3: Sextet): (b: seq<Byte>)
    ensures |b| == 3
  {
    [c0 * 4 + c1 / 16, (c1 % 16) * 16 + c2 / 4, (c2 % 4) * 64 + c3]
  }

  /** Splitting three octets into four sextets loses nothing. */
  lemma QuadUnquad(b0: Byte, b1: Byte, b2: Byte)
    ensures var q := Quad(b0, b1, b2); Unquad(q[0], q[1], q[2], q[3]) == [b0, b1, b2]
  {
    var q := Quad(b0, b1, b2);
    assert q[1] / 16 == b0 % 4 && q[1] % 16 == b1 / 16;
    assert q[2] / 4 == b1 % 16 && q[2] % 4 == b2 / 64;
  }

  /** The number of `=` characters after an encoding of `n` octets. */
  function PadCount(n: nat): nat {
    (3 - n % 3) % 3
  }

  /** One quantum of one to three octets, completed with zero bits, gives
      two to four characters, followed by `=` up to four characters when
      `padded`. */
  function EncodeQuantum(a: Alphabet, padded: bool, g: seq<Byte>): (s: string)
    requires 1 <= |g| <= 3
    ensures |s| == (if padded then 4 else |g| + 1)
  {
    var q := Quad(g[0], if |g| > 1 then g[1] else 0, if |g| > 2 then g[2] else 0);
    Spell(a, q[..|g| + 1]) + (if padded then seq(3 - |g|, _ => Pad) else "")
  }

  /** An unpadded full quantum is the four digits of its sextets. */
  lemma FullQuantum(a: Alphabet, b0: Byte, b1: Byte, b2: Byte, c0: Sextet, c1: Sextet, c2: Sextet, c3: Sextet)
    requires Quad(b0, b1, b2) == [c0, c1, c2, c3]
    ensures EncodeQuantum(a, false, [b0, b1, b2]) == [Digit(a, c0), Digit(a, c1), Digit(a, c2), Digit(a, c3)]
  {
    var q := Quad(b0, b1, b2);
    assert q[..4] == q;
    var s := Spell(a, q);
    assert s[0] == Digit(a, c0) && s[1] == Digit(a, c1) && s[2] == Digit(a, c2) && s[3] == Digit(a, c3);
  }

  /** An unpadded quantum of two octets is three digits. */
  lemma PairQuantum(a: Alphabet, b0: Byte, b1: Byte, c0: Sextet, c1: Sextet, c2: Sextet)
    requires Quad(b0, b1, 0)[..3] == [c0, c1, c2]
    ensures EncodeQuantum(a, false, [b0, b1]) == [Digit(a, c0), Digit(a, c1), Digit(a, c2)]
  {
    var s := Spell(a, Quad(b0, b1, 0)[..3]);
    assert s[0] == Digit(a, c0) && s[1] == Digit(a, c1) && s[2] == Digit(a, c2);
  }

  /** In an encoded quantum the first `|g| + 1` characters are digits and
      the rest, if any, are padding. */
  lemma QuantumShape(a: Alphabet, padded: bool, g: seq<Byte>)
    requires 1 <= |g| <= 3
    ensures WellPadded(a, padded, |g|, EncodeQuantum(a, padded, g))
  {
  }

  /** `s` consists of digits of `a` followed by exactly the padding an
      encoding of `n` octets carries: `PadCount(n)` characters `=` when
      `padded`, none otherwise. */
  predicate WellPadded(a: Alphabet, padded: bool, n: nat, s: string) {
    forall i :: 0 <= i < |s| ==>
      && (IsDigit(a, s[i]) || s[i] == Pad)
      && (s[i] == Pad <==> padded && i >= |s| - PadCount(n))
  }

  /** The encoding of section 3 of RFC 4648: each 24-bit group becomes four
      characters; a final group of one or two octets becomes two or three
      characters, followed by `==` or `=` when `padded`. */
  function Encode(a: Alphabet, padded: bool, b: seq<Byte>): (s: string)
    ensures padded ==> |s| == 4 * ((|b| + 2) / 3)
    ensures !padded ==> |s| == (4 * |b| + 2) / 3
    decreases |b|
  {
    if |b| == 0 then
      ""
    else if |b| <= 3 then
      EncodeQuantum(a, padded, b)
    else
      EncodeQuantum(a, padded, b[..3]) + Encode(a, padded, b[3..])
  }

  /** Every character of an encoding is a digit of the alphabet or padding,
      and the padding is exactly the last `PadCount(|b|)` characters when
      `padded` and absent otherwise. */
  lemma {:induction false} EncodeShape(a: Alphabet, padded: bool, b: seq<Byte>)
    ensures WellPadded(a, padded, |b|, Encode(a, padded, b))
    decreases |b|
  {
    if 1 <= |b| <= 3 {
      QuantumShape(a, padded, b);
    } else if |b| > 3 {
      var first, rest := EncodeQuantum(a, padded, b[..3]), Encode(a, padded, b[3..]);
      QuantumShape(a, padded, b[..3]);
      EncodeShape(a, padded, b[3..]);
      assert PadCount(|b[3..]|) == PadCount(|b|) && PadCount(3) == 0;
      assert Encode(a, padded, b) == first + rest;
    }
  }

  /** A full leading quantum is encoded on its own. */
  lemma EncodeCons(a: Alphabet, padded: bool, g: seq<Byte>, rest: seq<Byte>)
    requires |g| == 3
    ensures Encode(a, padded, g + rest) == EncodeQuantum(a, padded, g) + Encode(a, padded, rest)
  {
    var b := g + rest;
    assert b[..3] == g && b[3..] == rest;
    if |rest| == 0 {
      assert b == g;
    }
  }

  /** Encoding is compositional at quantum boundaries: octets split after a
      multiple of three encode as the two encodings joined. */
  lemma {:induction false} EncodeAppend(a: Alphabet, padded: bool, x: seq<Byte>, y: seq<Byte>)
    requires |x| % 3 == 0
    ensures Encode(a, padded, x + y) == Encode(a, padded, x) + Encode(a, padded, y)
    decreases |x|
  {
    if |x| == 0 {
      assert x + y == y;
    } else {
      ThreeFewer(|x|);
      var g, x' := x[..3], x[3..];
      assert x == g + x';
      assert x + y == g + (x' + y);
      EncodeAppend(a, padded, x', y);
      EncodeAppendStep(a, padded, g, x', y);
    }
  }

  lemma ThreeFewer(n: int)
    requires n > 0 && n % 3 == 0
    ensures n >= 3 && (n - 3) % 3 == 0
  {
  }

  /** The inductive step of `EncodeAppend`: one more leading quantum. */
  lemma EncodeAppendStep(a: Alphabet, padded: bool, g: seq<Byte>, x: seq<Byte>, y: seq<Byte>)
    requires |g| == 3
    requires Encode(a, padded, x + y) == Encode(a, padded, x) + Encode(a, padded, y)
    ensures Encode(a, padded, g + (x + y)) == Encode(a, padded, g + x) + Encode(a, padded, y)
  {
    EncodeCons(a, padded, g, x + y);
    EncodeCons(a, padded, g, x);
    Associative(EncodeQuantum(a, padded, g), Encode(a, padded, x), Encode(a, padded, y));
  }

  lemma Associative<T>(p: seq<T>, q: seq<T>, r: seq<T>)
    ensures p + (q + r) == (p + q) + r
  {
  }

  /** Go's `base64.StdEncoding.EncodeToString`. */
  function StdEncode(b: seq<Byte>): (s: string)
    ensures |s| == 4 * ((|b| + 2) / 3)
    ensures forall i :: 0 <= i < |s| ==> IsDigit(Standard, s[i]) || s[i] == Pad
    ensures forall i :: 0 <= i < |s| ==> (s[i] == Pad <==> i >= |s| - PadCount(|b|))
  {
    EncodeShape(Standard, true, b);
    var s := Encode(Standard, true, b);
    assert WellPadded(Standard, true, |b|, s);
    s
  }

  /** base64url without padding. */
  function RawUrlEncode(b: seq<Byte>): (s: string)
    ensures |s| == (4 * |b| + 2) / 3
    ensures forall i :: 0 <= i < |s| ==> IsDigit(UrlSafe, s[i])
  {
    EncodeShape(UrlSafe, false, b);
    var s := Encode(UrlSafe, false, b);
    assert WellPadded(UrlSafe, false, |b|, s);
    s
  }

  /** The inverse of the unpadded encoding of one quantum: two to four
      characters give one to three octets; a character outside the alphabet
      is an error. */
  function DecodeQuantum(a: Alphabet, g: string): (r: Option<seq<Byte>>)
    requires 2 <= |g| <= 4
    ensures r.Some? ==> |r.value| == |g| - 1
    ensures r.Some? <==> forall i :: 0 <= i < |g| ==> IsDigit(a, g[i])
  {
    var c0 := Value(a, g[0]);
    var c1 := Value(a, g[1]);
    var c2 := if |g| >= 3 then Value(a, g[2]) else Some(0);
    var c3 := if |g| >= 4 then Value(a, g[3]) else Some(0);
    if c0.None? || c1.None? || c2.None? || c3.None? then None
    else Some(Unquad(c0.value, c1.value, c2.value, c3.value)[..|g| - 1])
  }

  /** The inverse of the unpadded encoding: the characters are decoded four
      at a time; a final single character is an error. */
  function DecodeUnpadded(a: Alphabet, s: string): (r: Option<seq<Byte>>)
    decreases |s|
  {
    if |s| == 0 then Some([])
    else if |s| == 1 then None
    else if |s| <= 4 then DecodeQuantum(a, s)
    else
      match (DecodeQuantum(a, s[..4]), DecodeUnpadded(a, s[4..]))
      case (Some(first), Some(rest)) => Some(first + rest)
      case _ => None
  }

  /** Decoding an unpadded quantum gives back its octets. */
  lemma DecodeEncodeQuantum(a: Alphabet, g: seq<Byte>)
    requires 1 <= |g| <= 3
    ensures DecodeQuantum(a, EncodeQuantum(a, false, g)) == Some(g)
  {
    var q := Quad(g[0], if |g| > 1 then g[1] else 0, if |g| > 2 then g[2] else 0);
    var p := q[..|g| + 1];
    assert EncodeQuantum(a, false, g) == Spell(a, p);
    DecodeSpell(a, p);
    UnquadQuad(g);
  }

  /** Decoding spelled sextets reads them back. */
  lemma DecodeSpell(a: Alphabet, p: seq<Sextet>)
    requires 2 <= |p| <= 4
    ensures DecodeQuantum(a, Spell(a, p))
         == Some(Unquad(p[0], p[1], if |p| >= 3 then p[2] else 0, if |p| >= 4 then p[3] else 0)[..|p| - 1])
  {
    var s := Spell(a, p);
    assert Value(a, s[0]) == Some(p[0]) && Value(a, s[1]) == Some(p[1]);
    assert |p| >= 3 ==> Value(a, s[2]) == Some(p[2]);
    assert |p| >= 4 ==> Value(a, s[3]) == Some(p[3]);
  }

  /** The sextets of a short quantum, with the missing ones read as zero,
      give back its octets. */
  lemma UnquadQuad(g: seq<Byte>)
    requires 1 <= |g| <= 3
    ensures var q := Quad(g[0], if |g| > 1 then g[1] else 0, if |g| > 2 then g[2] else 0);
      Unquad(q[0], q[1], if |g| >= 2 then q[2] else 0, if |g| >= 3 then q[3] else 0)[..|g|] == g
  {
    var b1 := if |g| > 1 then g[1] else 0;
    var b2 := if |g| > 2 then g[2] else 0;
    QuadUnquad(g[0], b1, b2);
  }

  /** Decoding an unpadded encoding gives back the octets. */
  lemma {:induction false} DecodeEncode(a: Alphabet, b: seq<Byte>)
    ensures DecodeUnpadded(a, Encode(a, false, b)) == Some(b)
    decreases |b|
  {
    if 1 <= |b| <= 3 {
      DecodeEncodeQuantum(a, b);
    } else if |b| > 3 {
      var first := EncodeQuantum(a, false, b[..3]);
      var rest := Encode(a, false, b[3..]);
      var s := first + rest;
      assert s[..4] == first && s[4..] == rest;
      DecodeEncodeQuantum(a, b[..3]);
      DecodeEncode(a, b[3..]);
      assert b == b[..3] + b[3..];
    }
  }
}
