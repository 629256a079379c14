/** Character classes and string primitives of JavaScript that the matching code relies
    on: `toLowerCase`, the regular-expression classes `\s`, `\d` and `\w`, the word
    boundary `\b`, `String.prototype.includes`, `parseInt` on a run of digits and the
    decimal rendering of a number inside a template string. */
module Text {

  /** JavaScript's `\s`: the WhiteSpace and LineTerminator code points. */
  predicate IsSpace(c: char)
  {
    var n := c as int;
    n == 0x20 || 0x09 <= n <= 0x0D || n == 0xA0 || n == 0x1680 || 0x2000 <= n <= 0x200A
    || n == 0x2028 || n == 0x2029 || n == 0x202F || n == 0x205F || n == 0x3000 || n == 0xFEFF
  }

  /** JavaScript's `\d`. */
  predicate IsDigit(c: char)
  {
    '0' <= c <= '9'
  }

  /** JavaScript's `\w`, the characters that `\b` separates from the rest. */
  predicate IsWordChar(c: char)
  {
    'a' <= c <= 'z' || 'A' <= c <= 'Z' || IsDigit(c) || c == '_'
  }

  /** `toLowerCase` on one character, for the ASCII letters. */
  function LowerChar(c: char): (r: char)
    ensures 'A' <= c <= 'Z' ==> 'a' <= r <= 'z' && r as int == c as int + 32
    ensures !('A' <= c <= 'Z') ==> r == c
  {
    if 'A' <= c <= 'Z' then (c as int + 32) as char else c
  }

  /** `toLowerCase` on a string. */
  function Lower(s: string): (r: string)
    ensures |r| == |s|
    ensures forall i :: 0 <= i < |s| ==> r[i] == LowerChar(s[i])
  {
    seq(|s|, i requires 0 <= i < |s| => LowerChar(s[i]))
  }

  /** Lowercasing twice is lowercasing once. */
  lemma LowerIdempotent(s: string)
    ensures Lower(Lower(s)) == Lower(s)
  {
  }

  // ---------------------------------------------------------------------------
  // Substrings: `text.includes(sub)`

  /** `sub` sits in `text` starting at index i. */
  predicate OccursAt(text: string, sub: string, i: nat)
  {
    i + |sub| <= |text| && text[i..i + |sub|] == sub
  }

  /** Scan for `sub` from index i onwards, position by position. */
  predicate ContainsFrom(text: string, sub: string, i: nat)
    decreases |text| - i
  {
    if i + |sub| > |text| then false
    else OccursAt(text, sub, i) || ContainsFrom(text, sub, i + 1)
  }

  /** `text.includes(sub)`. */
  predicate Contains(text: string, sub: string)
  {
    ContainsFrom(text, sub, 0)
  }

  lemma {:induction false} ContainsFromIff(text: string, sub: string, i: nat)
    ensures ContainsFrom(text, sub, i) <==> exists k: nat :: i <= k && OccursAt(text, sub, k)
    decreases |text| - i
  {
    if i + |sub| <= |text| {
      ContainsFromIff(text, sub, i + 1);
      forall k: nat | i <= k && OccursAt(text, sub, k)
        ensures k == i || (i + 1 <= k && OccursAt(text, sub, k))
      {
      }
    }
  }

  /** The scan finds `sub` exactly when it occurs at some index. */
  lemma ContainsIff(text: string, sub: string)
    ensures Contains(text, sub) <==> exists k: nat :: OccursAt(text, sub, k)
  {
    ContainsFromIff(text, sub, 0);
  }

  /** `includes` is blind to the case of its arguments once both are lowercased:
      lowercasing commutes with cutting out a slice. */
  lemma LowerSlice(s: string, i: nat, j: nat)
    requires i <= j <= |s|
    ensures Lower(s[i..j]) == Lower(s)[i..j]
  {
  }

  // ---------------------------------------------------------------------------
  // Whole words: a regular expression `\bw\b` applied to a text

  /** `\b` at position p: exactly one of the characters on either side of p is a word
      character, a position outside the text counting as a non-word character. */
  predicate Boundary(t: string, p: nat)
    requires p <= |t|
  {
    (p > 0 && IsWordChar(t[p - 1])) != (p < |t| && IsWordChar(t[p]))
  }

  /** The pattern `\bw\b`, with w taken literally (every special character escaped),
      matches t at index i. */
  predicate WordAt(t: string, w: string, i: nat)
  {
    OccursAt(t, w, i) && Boundary(t, i) && Boundary(t, i + |w|)
  }

  /** The regular-expression engine's scan, one start position after the other. */
  predicate WordFrom(t: string, w: string, i: nat)
    decreases |t| - i
  {
    if i + |w| > |t| then false
    else WordAt(t, w, i) || WordFrom(t, w, i + 1)
  }

  /** `new RegExp("\\b" + escaped(w) + "\\b").test(t)`. */
  predicate HasWord(t: string, w: string)
  {
    WordFrom(t, w, 0)
  }

  lemma {:induction false} WordFromIff(t: string, w: string, i: nat)
    ensures WordFrom(t, w, i) <==> exists k: nat :: i <= k && WordAt(t, w, k)
    decreases |t| - i
  {
    if i + |w| <= |t| {
      WordFromIff(t, w, i + 1);
      forall k: nat | i <= k && WordAt(t, w, k)
        ensures k == i || (i + 1 <= k && WordAt(t, w, k))
      {
      }
    }
  }

  /** A word starting and ending with word characters, placed between non-word
      characters (or the ends of the text), is matched where it was placed. */
  lemma WordBetween(pre: string, w: string, post: string)
    requires w != [] && IsWordChar(w[0]) && IsWordChar(w[|w| - 1])
    requires pre == [] || !IsWordChar(pre[|pre| - 1])
    requires post == [] || !IsWordChar(post[0])
    ensures WordAt(pre + w + post, w, |pre|)
  {
    var t := pre + w + post;
    assert t[|pre|..|pre| + |w|] == w;
    assert t[|pre|] == w[0];
    assert t[|pre| + |w| - 1] == w[|w| - 1];
    assert |pre| > 0 ==> t[|pre| - 1] == pre[|pre| - 1];
    assert |pre| + |w| < |t| ==> t[|pre| + |w|] == post[0];
  }

  /** The test succeeds exactly when `w` occurs in `t` with a word boundary on both sides. */
  lemma HasWordIff(t: string, w: string)
    ensures HasWord(t, w) <==> exists k: nat :: WordAt(t, w, k)
  {
    WordFromIff(t, w, 0);
  }

  /** A whole-word occurrence is in particular an occurrence. */
  lemma HasWordContains(t: string, w: string)
    requires HasWord(t, w)
    ensures Contains(t, w)
  {
    HasWordIff(t, w);
    ContainsIff(t, w);
    var k: nat :| WordAt(t, w, k);
    assert OccursAt(t, w, k);
  }

  // ---------------------------------------------------------------------------
  // Decimal numbers: `parseInt` on a run of digits and `${n}` in a template

  /** The value of one decimal digit. */
  function DigitValue(c: char): (d: nat)
    requires IsDigit(c)
    ensures d < 10
  {
    c as int - '0' as int
  }

  /** The character of a decimal digit. */
  function DigitChar(d: nat): (c: char)
    requires d < 10
    ensures IsDigit(c) && DigitValue(c) == d
  {
    ('0' as int + d) as char
  }

  predicate AllDigits(s: string)
  {
    forall i :: 0 <= i < |s| ==> IsDigit(s[i])
  }

  /** `parseInt(s)` of a string made only of decimal digits. */
  function DigitsValue(s: string): nat
    requires AllDigits(s)
  {
    if s == [] then 0 else DigitsValue(s[..|s| - 1]) * 10 + DigitValue(s[|s| - 1])
  }

  /** The decimal rendering of n, as in `${n}`. */
  function NatToString(n: nat): (s: string)
    ensures s != [] && AllDigits(s)
  {
    if n < 10 then [DigitChar(n)] else NatToString(n / 10) + [DigitChar(n % 10)]
  }

  /** Reading back the rendering of a number gives the number. */
  lemma {:induction false} NatToStringRoundTrip(n: nat)
    ensures DigitsValue(NatToString(n)) == n
  {
    if n >= 10 {
      NatToStringRoundTrip(n / 10);
      var s := NatToString(n);
      assert s[..|s| - 1] == NatToString(n / 10);
    }
  }

  /** The end of the run of digits that starts at index i: the first index at or after i
      that holds no digit, or the length of the string. */
  function RunEnd(s: string, i: nat): (j: nat)
    requires i <= |s|
    ensures i <= j <= |s|
    ensures AllDigits(s[i..j])
    ensures j == |s| || !IsDigit(s[j])
    ensures i < |s| && IsDigit(s[i]) ==> i < j
    decreases |s| - i
  {
    if i < |s| && IsDigit(s[i]) then RunEnd(s, i + 1) else i
  }

  /** The end of the run of `\s` characters that starts at index i. */
  function SpacesEnd(s: string, i: nat): (j: nat)
    requires i <= |s|
    ensures i <= j <= |s|
    ensures forall k :: i <= k < j ==> IsSpace(s[k])
    ensures j == |s| || !IsSpace(s[j])
    decreases |s| - i
  {
    if i < |s| && IsSpace(s[i]) then SpacesEnd(s, i + 1) else i
  }

  /** The lowercase word w is spelled at index i of s, in any mix of cases (a regular
      expression with the `i` flag, which folds ASCII letters only). */
  predicate SpelledAt(s: string, i: nat, w: string)
  {
    i + |w| <= |s| && Lower(s[i..i + |w|]) == w
  }
}
