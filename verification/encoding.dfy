/** The challenge encoding of main.go (`getEncodedStringBASE64woPadding`):
    standard base 64, then every `+` replaced by `-`, every `/` by `_`, and
    every `=` removed, by three calls of Go's `strings.Replace` with a count
    of -1 (replace all).
 */
module Encoding {
  import opened Bytes
  import opened Wrappers
  import opened Base64

  /** `strings.Replace(s, target, repl, -1)` for a one-character `target`:
      every occurrence of `target`, left to right, is replaced by `repl`. */
  function ReplaceAll(s: string, target: char, repl: string): (r: string)
    ensures target !in repl ==> target !in r
    ensures forall c :: c in r ==> (c in s && c != target) || c in repl
    ensures target !in s ==> r == s
  {
    if |s| == 0 then ""
    else (if s[0] == target then repl else [s[0]]) + ReplaceAll(s[1..], target, repl)
  }

  /** Replacing works piece by piece: it distributes over concatenation. */
  lemma {:induction false} ReplaceAllAppend(s: string, t: string, target: char, repl: string)
    ensures ReplaceAll(s + t, target, repl) == ReplaceAll(s, target, repl) + ReplaceAll(t, target, repl)
    decreases |s|
  {
    if |s| > 0 {
      assert (s + t)[0] == s[0] && (s + t)[1..] == s[1..] + t;
      ReplaceAllAppend(s[1..], t, target, repl);
      var head := if s[0] == target then repl else [s[0]];
      assert ReplaceAll(s + t, target, repl)
          == head + (ReplaceAll(s[1..], target, repl) + ReplaceAll(t, target, repl));
    } else {
      assert s + t == t;
    }
  }

  /** Replacing a character by a single character is a character-wise map:
      the length is kept and each position changes only if it held `target`. */
  lemma {:induction false} ReplaceAllByChar(s: string, target: char, repl: char)
    ensures |ReplaceAll(s, target, [repl])| == |s|
    ensures forall i :: 0 <= i < |s| ==>
      ReplaceAll(s, target, [repl])[i] == (if s[i] == target then repl else s[i])
    decreases |s|
  {
    if |s| > 0 {
      ReplaceAllByChar(s[1..], target, repl);
    }
  }

  /** Replacing a character by nothing deletes exactly its occurrences:
      every other character stays as often as it occurred, and the length
      drops by the number of occurrences. `ReplaceAllByNothingInOrder` adds
      that the kept characters keep their order. */
  lemma {:induction false} ReplaceAllByNothing(s: string, target: char)
    ensures |ReplaceAll(s, target, "")| == |s| - multiset(s)[target]
    ensures multiset(ReplaceAll(s, target, "")) == multiset(s)[target := 0]
    decreases |s|
  {
    if |s| > 0 {
      ReplaceAllByNothing(s[1..], target);
      assert s == [s[0]] + s[1..];
      assert multiset(s) == multiset{s[0]} + multiset(s[1..]);
    }
  }

  /** Deleting keeps order: a character other than `target` at index `i`
      lands at the index that counts the characters kept before it. So kept
      characters appear in the output in the order they had in `s`. */
  lemma ReplaceAllByNothingInOrder(s: string, target: char, i: int)
    requires 0 <= i < |s| && s[i] != target
    ensures var p := |ReplaceAll(s[..i], target, "")|;
      p < |ReplaceAll(s, target, "")| && ReplaceAll(s, target, "")[p] == s[i]
  {
    assert s == s[..i] + s[i..];
    ReplaceAllAppend(s[..i], s[i..], target, "");
    assert s[i..][0] == s[i];
  }

  /** Deleting a character from a run of that character leaves nothing. */
  lemma {:induction false} ReplaceAllOfOnlyTarget(s: string, target: char)
    requires forall i :: 0 <= i < |s| ==> s[i] == target
    ensures ReplaceAll(s, target, "") == ""
    decreases |s|
  {
    if |s| > 0 {
      ReplaceAllOfOnlyTarget(s[1..], target);
    }
  }

  /** The three substitutions, in the order the source applies them. */
  function Substitute(s: string): (r: string)
    ensures '+' !in r && '/' !in r && Pad !in r
  {
    ReplaceAll(ReplaceAll(ReplaceAll(s, '+', "-"), '/', "_"), Pad, "")
  }

  lemma SubstituteAppend(s: string, t: string)
    ensures Substitute(s + t) == Substitute(s) + Substitute(t)
  {
    ReplaceAllAppend(s, t, '+', "-");
    var s1, t1 := ReplaceAll(s, '+', "-"), ReplaceAll(t, '+', "-");
    ReplaceAllAppend(s1, t1, '/', "_");
    var s2, t2 := ReplaceAll(s1, '/', "_"), ReplaceAll(t1, '/', "_");
    ReplaceAllAppend(s2, t2, Pad, "");
  }

  /** On spelled sextets the substitutions turn the standard alphabet into
      the URL-safe one, value for value. */
  lemma {:induction false} SubstituteSpell(q: seq<Sextet>)
    ensures Substitute(Spell(Standard, q)) == Spell(UrlSafe, q)
    decreases |q|
  {
    if |q| > 0 {
      SpellCons(Standard, q);
      SpellCons(UrlSafe, q);
      SubstituteAppend([Digit(Standard, q[0])], Spell(Standard, q[1..]));
      SubstituteSpell(q[1..]);
      SubstituteDigit(q[0]);
    } else {
      assert Spell(Standard, q) == "" == Spell(UrlSafe, q);
    }
  }

  /** One standard digit becomes the URL-safe digit of the same value. */
  lemma SubstituteDigit(v: Sextet)
    ensures Substitute([Digit(Standard, v)]) == [Digit(UrlSafe, v)]
  {
    DigitTables(v);
    var c := Digit(Standard, v);
    var c1 := if c == '+' then '-' else c;
    var c2 := if c1 == '/' then '_' else c1;
    assert ReplaceAll([c], '+', "-") == [c1];
    assert ReplaceAll([c1], '/', "_") == [c2];
    assert ReplaceAll([c2], Pad, "") == [c2];
  }

  /** Padding vanishes under the substitutions. */
  lemma SubstitutePadding(n: nat)
    ensures Substitute(seq(n, _ => Pad)) == ""
  {
    var p := seq(n, _ => Pad);
    assert forall c :: c in p ==> c == Pad;
    assert ReplaceAll(ReplaceAll(p, '+', "-"), '/', "_") == p;
    ReplaceAllOfOnlyTarget(p, Pad);
  }

  /** A padded standard quantum becomes the unpadded URL-safe quantum. */
  lemma SubstituteQuantum(g: seq<Byte>)
    requires 1 <= |g| <= 3
    ensures Substitute(EncodeQuantum(Standard, true, g)) == EncodeQuantum(UrlSafe, false, g)
  {
    var q := Quad(g[0], if |g| > 1 then g[1] else 0, if |g| > 2 then g[2] else 0);
    var p := seq(3 - |g|, _ => Pad);
    SubstituteAppend(Spell(Standard, q[..|g| + 1]), p);
    SubstituteSpell(q[..|g| + 1]);
    SubstitutePadding(3 - |g|);
  }

  /** The substitutions applied to standard base 64 give exactly base64url
      without padding. */
  lemma {:induction false} SubstituteEncode(b: seq<Byte>)
    ensures Substitute(StdEncode(b)) == RawUrlEncode(b)
    decreases |b|
  {
    if 1 <= |b| <= 3 {
      SubstituteQuantum(b);
    } else if |b| > 3 {
      SubstituteAppend(EncodeQuantum(Standard, true, b[..3]), Encode(Standard, true, b[3..]));
      SubstituteQuantum(b[..3]);
      SubstituteEncode(b[3..]);
    }
  }

  /** `getEncodedStringBASE64woPadding`: the standard encoding with the three
      substitutions. The result is base64url without padding: `ceil(4n/3)`
      characters, none of them `+`, `/` or `=`, decoding back to `b`. */
  function EncodeUnpadded(b: seq<Byte>): (s: string)
    ensures s == RawUrlEncode(b)
    ensures |s| == (4 * |b| + 2) / 3
    ensures forall i :: 0 <= i < |s| ==> IsDigit(UrlSafe, s[i])
    ensures '+' !in s && '/' !in s && Pad !in s
    ensures DecodeUnpadded(UrlSafe, s) == Some(b)
  {
    SubstituteEncode(b);
    DecodeEncode(UrlSafe, b);
    Substitute(StdEncode(b))
  }
}
