/** The code verifier generator of main.go (`createCodeVerifier`).

    The requested length is clamped into the range that section 4.1 of
    RFC 7636 allows for a code verifier, then each random octet is mapped to
    one character of a fixed alphabet by taking it modulo the alphabet's
    length. The random octets are a parameter: whatever the randomness source
    yields, the generator reads the first `n` of them in order.
 */
module Verifier {
  import opened Bytes
  import opened VerifierAlphabet

  /** Shortest and longest code verifier, section 4.1 of RFC 7636. */
  const MinLength: int := 43
  const MaxLength: int := 128

  /** Which of the two warnings of the length check fired, if any. The text
      of the warning goes to the log and is not modelled. */
  datatype Correction = Unchanged | RaisedToMin | LoweredToMax

  /** The length actually used, together with the correction that produced it. */
  datatype Clamped = Clamped(length: int, correction: Correction)

  /** The `switch` on the requested digit count. */
  function ClampDigits(digits: int): (r: Clamped)
    ensures MinLength <= r.length <= MaxLength
    ensures r.length == Min(Max(digits, MinLength), MaxLength)
    ensures r.correction == RaisedToMin <==> digits < MinLength
    ensures r.correction == LoweredToMax <==> digits > MaxLength
    ensures r.correction == Unchanged <==> r.length == digits
  {
    if digits < MinLength then Clamped(MinLength, RaisedToMin)
    else if digits > MaxLength then Clamped(MaxLength, LoweredToMax)
    else Clamped(digits, Unchanged)
  }

  function Min(a: int, b: int): int { if a <= b then a else b }
  function Max(a: int, b: int): int { if a <= b then b else a }

  /** The clamped length is `min(max(digits, 43), 128)`, and clamping an
      already clamped length changes nothing and warns about nothing. */
  lemma ClampIsMinMax(digits: int)
    ensures ClampDigits(digits).length == Min(Max(digits, MinLength), MaxLength)
    ensures ClampDigits(ClampDigits(digits).length) == Clamped(ClampDigits(digits).length, Unchanged)
  {
  }

  /** The boundary cases: 10 becomes 43, 500 becomes 128, 43 and 128 stay. */
  lemma ClampBoundaries()
    ensures ClampDigits(10) == Clamped(43, RaisedToMin)
    ensures ClampDigits(500) == Clamped(128, LoweredToMax)
    ensures ClampDigits(42) == Clamped(43, RaisedToMin)
    ensures ClampDigits(43) == Clamped(43, Unchanged)
    ensures ClampDigits(128) == Clamped(128, Unchanged)
    ensures ClampDigits(129) == Clamped(128, LoweredToMax)
  {
  }

  /** An unreserved character of section 4.1 of RFC 7636:
      `ALPHA / DIGIT / "-" / "." / "_" / "~"`. */
  predicate Unreserved(c: char) {
    || ('A' <= c <= 'Z')
    || ('a' <= c <= 'z')
    || ('0' <= c <= '9')
    || c == '-' || c == '.' || c == '_' || c == '~'
  }

  /** The character an octet becomes: `chars[v % len(chars)]`. */
  function CharFor(v: Byte): (c: char)
    ensures c in Chars
    ensures Unreserved(c) && c != 'Z'
  {
    AlphabetUnreserved();
    assert Chars[v % |Chars|] in Chars;
    Chars[v % |Chars|]
  }

  /** The alphabet has 65 characters, all of them unreserved and none of them `Z`. */
  lemma AlphabetUnreserved()
    ensures |Chars| == 65
    ensures forall c :: c in Chars ==> Unreserved(c) && c != 'Z'
  {
    Layout();
    forall c | c in Chars
      ensures Unreserved(c) && c != 'Z'
    {
      var i :| 0 <= i < |Chars| && Chars[i] == c;
      if i < 25 {
        assert Upper[i] == c;
        UpperRun(c);
      } else if i < 51 {
        assert Lower[i - 25] == c;
        LowerRun(c);
      } else if i < 61 {
        assert Digits[i - 51] == c;
        DigitRun(c);
      } else {
        assert Marks[i - 61] == c;
        MarkRun(c);
      }
    }
  }

  /** Conversely, every unreserved character other than `Z` is in the
      alphabet, and some octet below 65 is mapped to it. */
  lemma AlphabetComplete(c: char)
    requires Unreserved(c) && c != 'Z'
    ensures c in Chars
    ensures exists v: Byte :: v < |Chars| && CharFor(v) == c
  {
    if 'A' <= c <= 'Y' {
      UpperPosition(c);
    } else if 'a' <= c <= 'z' {
      LowerPosition(c);
    } else if '0' <= c <= '9' {
      DigitPosition(c);
    } else {
      MarkPosition(c);
    }
    var i :| 0 <= i < 65 && Chars[i] == c;
    AlphabetUnreserved();
    assert Chars[i] == c;
    var v: Byte := i;
    assert v % |Chars| == i;
    assert CharFor(v) == c;
  }

  /** The characters of a verifier built from the octets `bytes`, in order. */
  function VerifierFor(bytes: seq<Byte>): (s: string)
    ensures |s| == |bytes|
    ensures forall i :: 0 <= i < |s| ==> Unreserved(s[i]) && s[i] != 'Z'
  {
    seq(|bytes|, i requires 0 <= i < |bytes| => CharFor(bytes[i]))
  }

  /** `createCodeVerifier`: clamp the requested length to `n`, read `n`
      random octets, and append the character of each octet in turn.
      `random` is what the randomness source yields; it yields at least the
      octets asked for. */
  method CreateCodeVerifier(digits: int, random: seq<Byte>) returns (verifier: string)
    requires |random| >= ClampDigits(digits).length
    ensures |verifier| == ClampDigits(digits).length
    ensures MinLength <= |verifier| <= MaxLength
    ensures forall i :: 0 <= i < |verifier| ==> verifier[i] == Chars[random[i] % 65]
    ensures forall i :: 0 <= i < |verifier| ==> Unreserved(verifier[i]) && verifier[i] != 'Z'
    ensures verifier == VerifierFor(random[..|verifier|])
  {
    var n := ClampDigits(digits).length;
    var b := random[..n];
    verifier := "";
    var k := 0;
    while k < |b|
      invariant 0 <= k <= |b|
      invariant |verifier| == k
      invariant forall i :: 0 <= i < k ==> verifier[i] == CharFor(b[i])
    {
      verifier := verifier + [Chars[b[k] % |Chars|]];
      k := k + 1;
    }
    AlphabetUnreserved();
  }

  /** The verifier of the example in appendix B of RFC 7636 cannot come out
      of this generator: it contains `Z`. */
  lemma RfcExampleVerifierUnreachable(bytes: seq<Byte>)
    ensures VerifierFor(bytes) != "dBjftJeZ4CVP-mB92K27uhbUJU1p1r_wW1gFWFOEjXk"
  {
    var v := "dBjftJeZ4CVP-mB92K27uhbUJU1p1r_wW1gFWFOEjXk";
    assert v[7] == 'Z';
    var s := VerifierFor(bytes);
    assert |s| <= 7 || s[7] != 'Z';
  }
}
