/** The alphabet literal of the verifier generator (main.go, line 37), and
    its layout: the upper-case letters `A` to `Y`, the lower-case letters,
    the digits and the four marks `-._~`, in that order.
 */
module VerifierAlphabet {

  /** The alphabet literal of the generator. It lists the unreserved
      characters of RFC 7636 but omits `Z`, so it has 65 characters. */
  const Chars: string := "ABCDEFGHIJKLMNOPQRSTUVWXYabcdefghijklmnopqrstuvwxyz0123456789-._~"

  /** The four runs the literal is made of. */
  const Upper: string := "ABCDEFGHIJKLMNOPQRSTUVWXY"
  const Lower: string := "abcdefghijklmnopqrstuvwxyz"
  const Digits: string := "0123456789"
  const Marks: string := "-._~"

  /** Where each run sits in the literal. */
  lemma Layout()
    ensures |Chars| == 65
    ensures forall i :: 0 <= i < 25 ==> Chars[i] == Upper[i]
    ensures forall i :: 0 <= i < 26 ==> Chars[25 + i] == Lower[i]
    ensures forall i :: 0 <= i < 10 ==> Chars[51 + i] == Digits[i]
    ensures forall i :: 0 <= i < 4 ==> Chars[61 + i] == Marks[i]
  {
    UpperPlace();
    LowerPlace();
    DigitPlace();
    MarkPlace();
  }

  lemma UpperPlace()
    ensures |Chars| == 65
    ensures forall i :: 0 <= i < 25 ==> Chars[i] == Upper[i]
  {
  }

  lemma LowerPlace()
    ensures forall i :: 0 <= i < 26 ==> Chars[25 + i] == Lower[i]
  {
  }

  lemma DigitPlace()
    ensures forall i :: 0 <= i < 10 ==> Chars[51 + i] == Digits[i]
  {
  }

  lemma MarkPlace()
    ensures forall i :: 0 <= i < 4 ==> Chars[61 + i] == Marks[i]
  {
  }

  /** The upper-case run is exactly `A` to `Y`. */
  lemma UpperRun(c: char)
    ensures c in Upper <==> 'A' <= c <= 'Y'
  {
    assert Upper == "ABCDEFGH" + ("IJKLMNOP" + "QRSTUVWXY");
  }

  /** The lower-case run is exactly `a` to `z`. */
  lemma LowerRun(c: char)
    ensures c in Lower <==> 'a' <= c <= 'z'
  {
    assert Lower == "abcdefgh" + ("ijklmnop" + "qrstuvwxyz");
  }

  lemma DigitRun(c: char)
    ensures c in Digits <==> '0' <= c <= '9'
  {
  }

  lemma MarkRun(c: char)
    ensures c in Marks <==> (c == '-' || c == '.' || c == '_' || c == '~')
  {
  }

  /** Each character of a run has a position in the literal. */
  lemma UpperPosition(c: char)
    requires 'A' <= c <= 'Y'
    ensures exists i :: 0 <= i < 25 && Chars[i] == c
  {
    UpperRun(c);
    var j :| 0 <= j < |Upper| && Upper[j] == c;
    UpperPlace();
    assert Chars[j] == c;
  }

  lemma LowerPosition(c: char)
    requires 'a' <= c <= 'z'
    ensures exists i :: 25 <= i < 51 && Chars[i] == c
  {
    LowerRun(c);
    var j :| 0 <= j < |Lower| && Lower[j] == c;
    LowerPlace();
    assert Chars[25 + j] == c;
  }

  lemma DigitPosition(c: char)
    requires '0' <= c <= '9'
    ensures exists i :: 51 <= i < 61 && Chars[i] == c
  {
    DigitRun(c);
    var j :| 0 <= j < |Digits| && Digits[j] == c;
    DigitPlace();
    assert Chars[51 + j] == c;
  }

  lemma MarkPosition(c: char)
    requires c == '-' || c == '.' || c == '_' || c == '~'
    ensures exists i :: 61 <= i < 65 && Chars[i] == c
  {
    MarkRun(c);
    var j :| 0 <= j < |Marks| && Marks[j] == c;
    MarkPlace();
    assert Chars[61 + j] == c;
  }
}
