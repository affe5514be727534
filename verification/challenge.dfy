/** The code challenge of main.go (`createCodeChallange`,
    `getHashedByteSHA256`) and `main`, which chains them.

    SHA-256 itself is not modelled: it is a parameter, any function from
    octets to 32 octets. Everything proved here holds for every such
    function, so in particular for SHA-256.
 */
module Challenge {
  import opened Bytes
  import opened Wrappers
  import opened Base64
  import opened Encoding
  import opened Verifier

  /** A SHA-256 digest: 256 bits. */
  type Digest = d: seq<Byte> | |d| == 32 witness seq(32, _ => 0)

  /** `getHashedByteSHA256`: the digest of the string's UTF-8 octets. */
  function HashedBytes(s: string, sha256: seq<Byte> -> Digest): (d: Digest)
  {
    sha256(Utf8(s))
  }

  /** `createCodeChallange`: base64url without padding of the digest of
      the verifier. It is 43 characters long, uses only unreserved
      characters of section 4.1 of RFC 7636 and never `+`, `/` or `=`, and
      decodes back to the digest. */
  function CreateCodeChallenge(verifier: string, sha256: seq<Byte> -> Digest): (challenge: string)
    ensures challenge == RawUrlEncode(sha256(Utf8(verifier)))
    ensures |challenge| == 43
    ensures forall i :: 0 <= i < |challenge| ==> Unreserved(challenge[i])
    ensures '+' !in challenge && '/' !in challenge && '=' !in challenge
    ensures DecodeUnpadded(UrlSafe, challenge) == Some(HashedBytes(verifier, sha256))
  {
    var challenge := EncodeUnpadded(HashedBytes(verifier, sha256));
    forall i | 0 <= i < |challenge| ensures Unreserved(challenge[i]) {
      UrlSafeUnreserved(challenge[i]);
    }
    challenge
  }

  /** The base64url alphabet lies inside the unreserved characters. */
  lemma UrlSafeUnreserved(c: char)
    requires IsDigit(UrlSafe, c)
    ensures Unreserved(c)
  {
  }

  /** The challenge depends on the verifier's octets alone. */
  lemma ChallengeDeterministic(v1: string, v2: string, sha256: seq<Byte> -> Digest)
    requires Utf8(v1) == Utf8(v2)
    ensures CreateCodeChallenge(v1, sha256) == CreateCodeChallenge(v2, sha256)
  {
  }

  /** The verifier of appendix B of RFC 7636 and the SHA-256 digest of its
      ASCII octets, written in 3-octet quanta. */
  const RfcExampleVerifier: string := "dBjftJeZ4CVP-mB92K27uhbUJU1p1r_wW1gFWFOEjXk"
  const RfcExampleDigest: seq<Byte> :=
    [19, 211, 30] + ([150, 26, 26] + ([216, 236, 47] + ([22, 177, 12] +
    ([76, 152, 46] + ([8, 118, 168] + ([120, 173, 109] + ([241, 68, 86] +
    ([110, 225, 137] + ([74, 203, 112] + [249, 195])))))))))

  /** The challenge printed in appendix B of RFC 7636. */
  const RfcExampleChallenge: string := "E9Melhoa2OwvFrEMTJguCHaoeK1t8URWbuGJSstw-cM"

  lemma RfcExampleQuanta1()
    ensures EncodeQuantum(UrlSafe, false, [19, 211, 30]) == "E9Me"
  {
    FullQuantum(UrlSafe, 19, 211, 30, 4, 61, 12, 30);
  }

  lemma RfcExampleQuanta2()
    ensures EncodeQuantum(UrlSafe, false, [150, 26, 26]) == "lhoa"
  {
    FullQuantum(UrlSafe, 150, 26, 26, 37, 33, 40, 26);
  }

  lemma RfcExampleQuanta3()
    ensures EncodeQuantum(UrlSafe, false, [216, 236, 47]) == "2Owv"
  {
    FullQuantum(UrlSafe, 216, 236, 47, 54, 14, 48, 47);
  }

  lemma RfcExampleQuanta4()
    ensures EncodeQuantum(UrlSafe, false, [22, 177, 12]) == "FrEM"
  {
    FullQuantum(UrlSafe, 22, 177, 12, 5, 43, 4, 12);
  }

  lemma RfcExampleQuanta5()
    ensures EncodeQuantum(UrlSafe, false, [76, 152, 46]) == "TJgu"
  {
    FullQuantum(UrlSafe, 76, 152, 46, 19, 9, 32, 46);
  }

  lemma RfcExampleQuanta6()
    ensures EncodeQuantum(UrlSafe, false, [8, 118, 168]) == "CHao"
  {
    FullQuantum(UrlSafe, 8, 118, 168, 2, 7, 26, 40);
  }

  lemma RfcExampleQuanta7()
    ensures EncodeQuantum(UrlSafe, false, [120, 173, 109]) == "eK1t"
  {
    FullQuantum(UrlSafe, 120, 173, 109, 30, 10, 53, 45);
  }

  lemma RfcExampleQuanta8()
    ensures EncodeQuantum(UrlSafe, false, [241, 68, 86]) == "8URW"
  {
    FullQuantum(UrlSafe, 241, 68, 86, 60, 20, 17, 22);
  }

  lemma RfcExampleQuanta9()
    ensures EncodeQuantum(UrlSafe, false, [110, 225, 137]) == "buGJ"
  {
    FullQuantum(UrlSafe, 110, 225, 137, 27, 46, 6, 9);
  }

  lemma RfcExampleQuanta10()
    ensures EncodeQuantum(UrlSafe, false, [74, 203, 112]) == "Sstw"
  {
    FullQuantum(UrlSafe, 74, 203, 112, 18, 44, 45, 48);
  }

  lemma RfcExampleQuanta11()
    ensures EncodeQuantum(UrlSafe, false, [249, 195]) == "-cM"
  {
    PairQuantum(UrlSafe, 249, 195, 62, 28, 12);
  }

  /** The expected challenge, cut at the quantum boundaries. */
  lemma RfcExampleChallengeQuanta()
    ensures RfcExampleChallenge ==
      "E9Me" + ("lhoa" + ("2Owv" + ("FrEM" + ("TJgu" + ("CHao" + ("eK1t" + ("8URW" +
      ("buGJ" + ("Sstw" + "-cM")))))))))
  {
    RfcExampleChallengeThirds();
    RfcExampleChallengeFirstThird();
    RfcExampleChallengeSecondThird();
    RfcExampleChallengeLastThird();
  }

  lemma RfcExampleChallengeThirds()
    ensures RfcExampleChallenge == "E9Melhoa2OwvFrEM" + ("TJguCHaoeK1t8URW" + "buGJSstw-cM")
  {
  }

  lemma RfcExampleChallengeFirstThird()
    ensures "E9Melhoa2OwvFrEM" == "E9Me" + ("lhoa" + ("2Owv" + ("FrEM")))
  {
  }

  lemma RfcExampleChallengeSecondThird()
    ensures "TJguCHaoeK1t8URW" == "TJgu" + ("CHao" + ("eK1t" + ("8URW")))
  {
  }

  lemma RfcExampleChallengeLastThird()
    ensures "buGJSstw-cM" == "buGJ" + ("Sstw" + ("-cM"))
  {
  }

  /** Encoding the digest of appendix B of RFC 7636 gives the challenge
      printed there. */
  lemma RfcExampleEncoding()
    ensures EncodeUnpadded(RfcExampleDigest) == RfcExampleChallenge
  {
    RfcExampleQuanta1();
    RfcExampleQuanta2();
    RfcExampleQuanta3();
    RfcExampleQuanta4();
    RfcExampleQuanta5();
    RfcExampleQuanta6();
    RfcExampleQuanta7();
    RfcExampleQuanta8();
    RfcExampleQuanta9();
    RfcExampleQuanta10();
    RfcExampleQuanta11();
    EncodeCons(UrlSafe, false, [19, 211, 30], [150, 26, 26] + ([216, 236, 47] + ([22, 177, 12] + ([76, 152, 46] + ([8, 118, 168] + ([120, 173, 109] + ([241, 68, 86] + ([110, 225, 137] + ([74, 203, 112] + ([249, 195]))))))))));
    EncodeCons(UrlSafe, false, [150, 26, 26], [216, 236, 47] + ([22, 177, 12] + ([76, 152, 46] + ([8, 118, 168] + ([120, 173, 109] + ([241, 68, 86] + ([110, 225, 137] + ([74, 203, 112] + ([249, 195])))))))));
    EncodeCons(UrlSafe, false, [216, 236, 47], [22, 177, 12] + ([76, 152, 46] + ([8, 118, 168] + ([120, 173, 109] + ([241, 68, 86] + ([110, 225, 137] + ([74, 203, 112] + ([249, 195]))))))));
    EncodeCons(UrlSafe, false, [22, 177, 12], [76, 152, 46] + ([8, 118, 168] + ([120, 173, 109] + ([241, 68, 86] + ([110, 225, 137] + ([74, 203, 112] + ([249, 195])))))));
    EncodeCons(UrlSafe, false, [76, 152, 46], [8, 118, 168] + ([120, 173, 109] + ([241, 68, 86] + ([110, 225, 137] + ([74, 203, 112] + ([249, 195]))))));
    EncodeCons(UrlSafe, false, [8, 118, 168], [120, 173, 109] + ([241, 68, 86] + ([110, 225, 137] + ([74, 203, 112] + ([249, 195])))));
    EncodeCons(UrlSafe, false, [120, 173, 109], [241, 68, 86] + ([110, 225, 137] + ([74, 203, 112] + ([249, 195]))));
    EncodeCons(UrlSafe, false, [241, 68, 86], [110, 225, 137] + ([74, 203, 112] + ([249, 195])));
    EncodeCons(UrlSafe, false, [110, 225, 137], [74, 203, 112] + ([249, 195]));
    EncodeCons(UrlSafe, false, [74, 203, 112], [249, 195]);
    RfcExampleChallengeQuanta();
  }

  /** With SHA-256 as the hash, the verifier of appendix B of RFC 7636
      yields the challenge printed there. */
  lemma RfcExampleChallengeOfVerifier(sha256: seq<Byte> -> Digest)
    requires sha256(Utf8(RfcExampleVerifier)) == RfcExampleDigest
    ensures CreateCodeChallenge(RfcExampleVerifier, sha256) == RfcExampleChallenge
  {
    RfcExampleEncoding();
  }

  /** Every character the generator produces is ASCII, so the octets that
      get hashed are the verifier's character codes, one per character. */
  lemma UnreservedIsAscii(s: string)
    requires forall i :: 0 <= i < |s| ==> Unreserved(s[i])
    ensures |Utf8(s)| == |s|
    ensures forall i :: 0 <= i < |s| ==> Utf8(s)[i] == s[i] as int
  {
    Utf8OfAscii(s);
  }

  /** `main`: a verifier of 43 characters and its challenge. Printing them
      is not modelled. */
  method Run(random: seq<Byte>, sha256: seq<Byte> -> Digest) returns (verifier: string, challenge: string)
    requires |random| >= MinLength
    ensures |verifier| == 43 && |challenge| == 43
    ensures verifier == VerifierFor(random[..43])
    ensures forall i :: 0 <= i < |verifier| ==> verifier[i] == CharFor(random[i])
    ensures |Utf8(verifier)| == |verifier|
    ensures forall i :: 0 <= i < |verifier| ==> Utf8(verifier)[i] == verifier[i] as int
    ensures challenge == RawUrlEncode(sha256(Utf8(verifier)))
    ensures DecodeUnpadded(UrlSafe, challenge) == Some(sha256(Utf8(verifier)))
  {
    verifier := CreateCodeVerifier(43, random);
    UnreservedIsAscii(verifier);
    challenge := CreateCodeChallenge(verifier, sha256);
  }
}
