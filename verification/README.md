# PKCE code verifier and code challenge, in Dafny

A model of `main.go`, a small Go program that generates a PKCE code
verifier and derives its code challenge, as RFC 7636 describes. The model
covers three parts of the program:

- **`createCodeVerifier`.** The requested length is clamped into
  [43, 128], the range that section 4.1 of RFC 7636 allows. Each random
  octet `v` then becomes `chars[v % len(chars)]`. `chars` is the literal
  alphabet at main.go:37.
- **`getEncodedStringBASE64woPadding`.** Standard base 64 (section 4 of
  RFC 4648) followed by three `strings.Replace` passes: `+` becomes `-`,
  `/` becomes `_`, and `=` is removed.
- **`createCodeChallange`.** That encoding applied to the SHA-256 digest of
  the verifier's UTF-8 octets.

Files:

- `wrappers.dfy`: the `Option` type.
- `bytes.dfy`: octets, and `[]byte(s)` as UTF-8 encoding.
- `verifier_alphabet.dfy`: the alphabet literal of the verifier and its layout.
- `verifier.dfy`: the length clamp and the verifier generator.
- `base64.dfy`: an RFC 4648 encoder for both alphabets, with and without
  padding, and an unpadded decoder. Decoding after unpadded encoding is
  proved to be the identity. The decoder also accepts some strings the
  encoder never produces.
- `encoding.dfy`: `strings.Replace` and the challenge encoding.
- `challenge.dfy`: the challenge, the worked example from appendix B of
  RFC 7636, and `main`.

Randomness and SHA-256 are parameters:

- The random octets are a sequence `random`, and the generator reads its
  first `n` octets in order.
- The hash is any function `sha256: seq<Byte> -> Digest` returning 32
  octets.

Everything proved holds for every choice of these parameters.

The alphabet literal has 65 characters, not 66. The comment at main.go:36
points to section 4.1 of RFC 7636, whose unreserved set
`A-Z a-z 0-9 - . _ ~` has 66 characters. The literal at main.go:37 runs
`...WXYabc...`, so `Z` is missing. The model follows the literal: the
modulus is 65 and `Z` never occurs in a verifier.
`Verifier.RfcExampleVerifierUnreachable` shows a consequence: the example
verifier of RFC 7636 contains `Z`, so the program can never produce it.

## Model

| member | source | states |
|---|---|---|
| Verifier.ClampDigits | main.go:27-34 | The length used is always in [43, 128] and equals `min(max(digits, 43), 128)`. The "insufficient" correction happens exactly when fewer than 43 digits are asked for. The "excessive" correction happens exactly when more than 128 are asked for. The length stays as requested exactly when neither fires. |
| Verifier.ClampIsMinMax | main.go:27-34 | The clamped length is `min(max(digits, 43), 128)`. Clamping an already clamped length changes nothing and warns about nothing. |
| Verifier.ClampBoundaries | main.go:27-34 | 10 and 42 become 43 with the low warning. 43 and 128 are kept. 129 and 500 become 128 with the high warning. |
| VerifierAlphabet.Layout | main.go:37 | The literal has 65 characters: `A`–`Y` at 0–24, `a`–`z` at 25–50, `0`–`9` at 51–60, then `-._~`. |
| VerifierAlphabet.UpperRun | main.go:37 | The upper-case run of the literal holds exactly the letters `A` to `Y`, so not `Z`. |
| Verifier.AlphabetUnreserved | main.go:36-37 | The alphabet has 65 characters. Every one is unreserved in the sense of section 4.1 of RFC 7636, and none is `Z`. |
| Verifier.AlphabetComplete | main.go:37 | Conversely, every unreserved character other than `Z` is in the alphabet and is the image of some octet below 65. |
| Verifier.CharFor | main.go:44 | The character chosen for an octet lies in the alphabet, is unreserved, and is not `Z`. |
| Verifier.VerifierFor | main.go:43-45 | A run of octets maps to exactly one character per octet, each unreserved and none `Z`. |
| Verifier.CreateCodeVerifier | main.go:24-48 | The verifier has the clamped length, always within [43, 128]. Character `i` is `chars[random[i] % 65]`, so the first `n` octets are consumed in order. The result equals the reference mapping of that prefix. All characters are unreserved and none is `Z`. |
| Verifier.RfcExampleVerifierUnreachable | main.go:37 | No octet sequence produces the verifier of appendix B of RFC 7636, because that verifier contains `Z`. |
| Bytes.EncodeScalar | main.go:56 | The UTF-8 encoding of a character is 1 to 4 octets. It is a single octet exactly for ASCII, and that octet is the character code. Otherwise a lead octet is followed by continuation octets. |
| Bytes.Utf8 | main.go:56 | `[]byte(s)` has at least one octet per character, and exactly one per character when `s` is ASCII. |
| Bytes.Utf8OfAscii | main.go:56 | For an ASCII string, `[]byte(s)` is the sequence of character codes. |
| Base64.DigitValue | main.go:61 | Encoding a value as a character and decoding the character are inverse. |
| Base64.DigitTables | main.go:61-65 | The standard and URL-safe tables agree except at 62 and 63: `+` and `/` versus `-` and `_`. No digit is `=`. |
| Base64.Spell | main.go:61 | Spelling sextets gives one alphabet character per sextet, and each character decodes back to its sextet. |
| Base64.QuadUnquad | main.go:61 | Splitting three octets into four sextets loses nothing. |
| Base64.Encode | main.go:61 | The padded encoding of `n` octets has `4 * ceil(n / 3)` characters. The unpadded encoding has `ceil(4n / 3)`. |
| Base64.EncodeShape | main.go:61 | Every encoded character is a digit or `=`. When padding, `=` fills exactly the last `(3 - n % 3) % 3` positions. Otherwise `=` never occurs. |
| Base64.EncodeAppend | main.go:61 | Octets split after a multiple of three encode as the two encodings joined. |
| Base64.StdEncode | main.go:61 | `base64.StdEncoding.EncodeToString` has `4 * ceil(n / 3)` characters, all standard digits or `=`. The `=` characters are exactly the last `(3 - n % 3) % 3`. |
| Base64.RawUrlEncode | main.go:60-68 | base64url without padding has `ceil(4n / 3)` characters, all from the URL-safe table. |
| Base64.DecodeEncode | main.go:60-68 | Decoding the unpadded encoding of any octets gives back those octets. |
| Encoding.ReplaceAll | main.go:64-66 | Replacing all occurrences leaves none behind when the replacement does not contain the target. Every output character comes from the input, minus the target, or from the replacement. An input without the target is returned unchanged. |
| Encoding.ReplaceAllAppend | main.go:64-66 | Replacing distributes over concatenation. |
| Encoding.ReplaceAllByChar | main.go:64-65 | Replacing one character by another is a position-wise map that keeps the length. |
| Encoding.ReplaceAllByNothing | main.go:66 | Removing `=` deletes exactly its occurrences and keeps every other character. The length drops by the number of occurrences. |
| Encoding.ReplaceAllByNothingInOrder | main.go:66 | Removing `=` keeps the order of the other characters: a kept character lands at the index that counts the kept characters before it. |
| Encoding.Substitute | main.go:64-66 | After the three passes the text contains no `+`, no `/` and no `=`. |
| Encoding.SubstituteSpell | main.go:64-65 | The passes turn standard digits into the URL-safe digits of the same values, position by position. |
| Encoding.SubstituteEncode | main.go:60-68 | Standard base 64 followed by the three passes equals base64url without padding, for every input. |
| Encoding.EncodeUnpadded | main.go:60-68 | The challenge encoding is base64url without padding: `ceil(4n / 3)` characters, URL-safe digits only, no `+`, `/` or `=`, and it decodes back to its input. |
| Challenge.CreateCodeChallenge | main.go:50-58 | The challenge is base64url without padding of the SHA-256 digest of the verifier's octets. It has exactly 43 characters, all unreserved, and none of `+`, `/` or `=`. It decodes back to the digest. |
| Challenge.ChallengeDeterministic | main.go:50-53 | Verifiers with the same octets have the same challenge. |
| Challenge.UnreservedIsAscii | main.go:55-57 | A verifier's octets are its character codes, one per character. |
| Challenge.RfcExampleEncoding | main.go:60-68 | The encoding of the SHA-256 digest from appendix B of RFC 7636 is the challenge printed there. |
| Challenge.RfcExampleChallengeOfVerifier | main.go:50-58 | With SHA-256 as the hash, the verifier from appendix B of RFC 7636 yields the challenge printed there. |
| Challenge.Run | main.go:17-19 | `main` makes a 43-character verifier that is the character mapping of the first 43 random octets. Its octets are its character codes. The challenge is exactly base64url without padding of their digest: 43 characters that decode back to the digest. |

## Left out

- SHA-256 (`sha256.Sum256`, main.go:56): a library call, so it is a parameter returning 32 octets. `RfcExampleChallengeOfVerifier` takes as its hypothesis that the hash maps the example verifier to the digest octets listed in appendix B of RFC 7636.
- Challenge.HashedBytes: `getHashedByteSHA256` has no contract of its own. What it computes is stated through `CreateCodeChallenge`.
- `rand.Read` (main.go:40): the random octets are the parameter `random`. The source ignores the error result, and the model does not model errors either. A read failure is not modelled.
- `log.Printf` (main.go:29, main.go:32): only which warning fires is modelled, as the `Correction` of the clamp. The message text is not.
- `fmt.Printf` in `main` (main.go:20-21): output is not modelled. `Run` returns the two strings instead.
- The bias of reducing an octet modulo 65 (256 is not a multiple of 65): this is a probabilistic property, and the model has no probabilities.
- Go strings that hold invalid UTF-8: a Dafny string is a sequence of Unicode scalar values, so such strings cannot be written. The verifier is ASCII in any case.
- `strings.Replace` with an empty search string or a finite count: the source never uses them, so `ReplaceAll` takes a single-character target and replaces every occurrence.
- Decoding padded base 64: the source never decodes. The unpadded decoder exists only to state that the encoding loses nothing.
