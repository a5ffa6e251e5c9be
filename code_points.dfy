/**
 * Code point classifiers, hex digit values and input preprocessing of the
 * tokenizer (CSS Syntax Module Level 3, sections 3.3 and 4.2).
 *
 * Code points are integers so that the end-of-input marker EOF (-1) can be
 * passed to every classifier, as the Java code does.
 */
module CodePoints {

  const EOF: int := -1
  const REPLACEMENT_CHAR: int := 0xFFFD
  const MAX_CODE_POINT: int := 0x10FFFF

  const NUL: char := 0 as char
  const TAB: char := 9 as char
  const LF: char := 10 as char
  const FF: char := 12 as char
  const CR: char := 13 as char

  /** Java's `c | 0x20` on a two's-complement int: sets bit 5 (Euclidean `%` gives the low bits). */
  function Or20(c: int): int {
    if c % 64 >= 32 then c else c + 32
  }

  /** Tokenizer.isAlpha, the ASCII letters; AlphaIsAsciiLetter shows the `(c | 0x20)` test is this one. */
  predicate IsAlpha(c: int) {
    'a' as int <= c <= 'z' as int || 'A' as int <= c <= 'Z' as int
  }

  predicate IsDigit(c: int) {
    '0' as int <= c <= '9' as int
  }

  /** Tokenizer.isHexDigit, 0-9, a-f and A-F; HexDigitBitTrick shows the `(c | 0x20)` test is this one. */
  predicate IsHexDigit(c: int) {
    IsDigit(c) || 'a' as int <= c <= 'f' as int || 'A' as int <= c <= 'F' as int
  }

  predicate IsSpace(c: int) {
    c == ' ' as int || c == TAB as int || c == CR as int || c == LF as int || c == FF as int
  }

  predicate IsNameStart(c: int) {
    c == '_' as int || c >= 0x80 || IsAlpha(c)
  }

  predicate IsName(c: int) {
    c == '-' as int || IsNameStart(c) || IsDigit(c)
  }

  predicate IsNonPrintable(c: int) {
    (0 <= c <= 8) || c == 0x0B || (0x0E <= c <= 0x1F) || c == 0x7F
  }

  /** Two code points form a valid escape: a backslash not followed by a newline (EOF allowed). */
  predicate IsValidEscape(c1: int, c2: int) {
    c1 == '\\' as int && c2 != LF as int
  }

  /** Tokenizer.hexValue: `c - '0'` below 'A', else `(c - 'A' + 10) & 0xF` (`& 0xF` is `% 16`). */
  function HexValue(c: int): (v: int)
    ensures IsHexDigit(c) ==> 0 <= v < 16
  {
    if c < 'A' as int then c - '0' as int else (c - 'A' as int + 10) % 16
  }

  /** The value of a hex digit, by the ranges it belongs to. */
  function DigitValue(c: int): (d: nat)
    requires IsHexDigit(c)
    ensures d < 16
  {
    if c <= '9' as int then c - '0' as int
    else if c <= 'F' as int then c - 'A' as int + 10
    else c - 'a' as int + 10
  }

  /** The bit trick of isAlpha, `'a' <= (c | 0x20) <= 'z'`, accepts exactly the ASCII letters. */
  lemma AlphaIsAsciiLetter(c: int)
    ensures ('a' as int <= Or20(c) <= 'z' as int) <==> IsAlpha(c)
  {
    if 'a' as int <= c <= 'z' as int {
      assert c % 64 == c - 64;
    } else if 'A' as int <= c <= 'Z' as int {
      assert c % 64 == c - 64;
    }
  }

  /** The bit trick of isHexDigit, a digit or `'a' <= (c | 0x20) <= 'f'`, accepts exactly 0-9, a-f and A-F. */
  lemma HexDigitBitTrick(c: int)
    ensures (IsDigit(c) || 'a' as int <= Or20(c) <= 'f' as int) <==> IsHexDigit(c)
  {
    if 'a' as int <= c <= 'f' as int || 'A' as int <= c <= 'F' as int {
      assert c % 64 == c - 64;
    }
  }

  /** hexValue gives each hex digit its value in 0..15. */
  lemma HexDigitValue(c: int)
    requires IsHexDigit(c)
    ensures HexValue(c) == DigitValue(c) && 0 <= HexValue(c) <= 15
  {
  }

  /** The code point a hex escape stands for: 0, surrogates and values above U+10FFFF become U+FFFD. */
  function EscapedCodePoint(v: nat): (r: int)
    ensures r == v || r == REPLACEMENT_CHAR
    ensures r == v <==> 0 < v <= MAX_CODE_POINT && !(0xD800 <= v <= 0xDFFF)
    ensures 0 < r <= MAX_CODE_POINT && !(0xD800 <= r <= 0xDFFF)
  {
    if v == 0 || v > MAX_CODE_POINT || (0xD800 <= v <= 0xDFFF) then REPLACEMENT_CHAR else v
  }

  function Pow16(k: nat): (p: nat)
    ensures p >= 1
  {
    if k == 0 then 1 else 16 * Pow16(k - 1)
  }

  /** ASCII lower-casing, the part of String.toLowerCase that the keyword comparisons depend on. */
  function LowerChar(c: char): char {
    if 'A' <= c <= 'Z' then (c as int + 32) as char else c
  }

  /** String.toLowerCase on ASCII: no upper-case letter is left, and nothing else changes. */
  function Lower(s: string): (r: string)
    ensures |r| == |s|
    ensures forall i :: 0 <= i < |r| ==> !('A' <= r[i] <= 'Z')
    ensures forall i :: 0 <= i < |s| && !('A' <= s[i] <= 'Z') ==> r[i] == s[i]
    ensures forall i :: 0 <= i < |s| ==> r[i] == LowerChar(s[i])
  {
    seq(|s|, i requires 0 <= i < |s| => LowerChar(s[i]))
  }

  /** String.equalsIgnoreCase restricted to ASCII case folding. */
  predicate EqualsIgnoreCase(a: string, b: string) {
    |a| == |b| && forall i :: 0 <= i < |a| ==> LowerChar(a[i]) == LowerChar(b[i])
  }

  /** Two strings are equal ignoring case exactly when their lower-case forms are equal. */
  lemma LowerEqualsIgnoreCase(a: string, b: string)
    ensures EqualsIgnoreCase(a, b) <==> Lower(a) == Lower(b)
  {
    if Lower(a) == Lower(b) {
      forall i | 0 <= i < |a|
        ensures LowerChar(a[i]) == LowerChar(b[i])
      {
        assert Lower(a)[i] == Lower(b)[i];
      }
    }
  }

  /** Lower-casing twice is lower-casing once. */
  lemma LowerIdempotent(s: string)
    ensures Lower(Lower(s)) == Lower(s)
  {
  }

  // ---------------------------------------------------------------------------
  // Input preprocessing: "\f", "\r\n" and a lone "\r" become "\n"; NUL becomes U+FFFD.
  // ---------------------------------------------------------------------------

  /** The replacement of the pattern `\f|\r\n?` by "\n", scanning left to right. */
  function NormalizeNewlines(s: string): (r: string)
    ensures |r| <= |s|
    decreases |s|
  {
    if s == [] then []
    else if s[0] == FF then [LF] + NormalizeNewlines(s[1..])
    else if s[0] == CR then
      if |s| > 1 && s[1] == LF then [LF] + NormalizeNewlines(s[2..]) else [LF] + NormalizeNewlines(s[1..])
    else [s[0]] + NormalizeNewlines(s[1..])
  }

  function ReplaceNul(s: string): (r: string)
    ensures |r| == |s|
  {
    seq(|s|, i requires 0 <= i < |s| => if s[i] == NUL then REPLACEMENT_CHAR as char else s[i])
  }

  function Preprocess(s: string): string {
    ReplaceNul(NormalizeNewlines(s))
  }

  predicate Preprocessed(s: string) {
    forall i :: 0 <= i < |s| ==> s[i] != FF && s[i] != CR && s[i] != NUL
  }

  lemma {:induction false} NormalizeNewlinesClean(s: string)
    ensures forall i :: 0 <= i < |NormalizeNewlines(s)| ==>
      NormalizeNewlines(s)[i] != FF && NormalizeNewlines(s)[i] != CR
    ensures forall i :: 0 <= i < |NormalizeNewlines(s)| && NormalizeNewlines(s)[i] == NUL ==> NUL in s
    decreases |s|
  {
    if s == [] {
    } else if s[0] == FF || s[0] == CR {
      if s[0] == CR && |s| > 1 && s[1] == LF {
        NormalizeNewlinesClean(s[2..]);
      } else {
        NormalizeNewlinesClean(s[1..]);
      }
    } else {
      NormalizeNewlinesClean(s[1..]);
    }
  }

  /** After preprocessing the input holds no form feed, carriage return or NUL. */
  lemma PreprocessClean(s: string)
    ensures Preprocessed(Preprocess(s))
  {
    NormalizeNewlinesClean(s);
  }

  /** Text that is already clean passes through unchanged, so preprocessing is idempotent. */
  lemma {:induction false} PreprocessIdentity(s: string)
    requires Preprocessed(s)
    ensures Preprocess(s) == s
  {
    NormalizeIdentity(s);
  }

  lemma {:induction false} NormalizeIdentity(s: string)
    requires Preprocessed(s)
    ensures NormalizeNewlines(s) == s
    decreases |s|
  {
    if s != [] {
      assert Preprocessed(s[1..]) by {
        forall i | 0 <= i < |s[1..]| ensures s[1..][i] != FF && s[1..][i] != CR && s[1..][i] != NUL {
          assert s[1..][i] == s[i + 1];
        }
      }
      NormalizeIdentity(s[1..]);
    }
  }

  lemma PreprocessIdempotent(s: string)
    ensures Preprocess(Preprocess(s)) == Preprocess(s)
  {
    PreprocessClean(s);
    PreprocessIdentity(Preprocess(s));
  }

  /** "\r\n" collapses to one "\n": each CR LF pair shortens the text by one. */
  lemma CrLfCollapses(s: string)
    ensures NormalizeNewlines([CR, LF] + s) == [LF] + NormalizeNewlines(s)
  {
    assert ([CR, LF] + s)[2..] == s;
  }

  /** A slice grows by one element at a time. */
  lemma SliceExtend<T>(s: seq<T>, i: nat, j: nat)
    requires i <= j < |s|
    ensures s[i..j + 1] == s[i..j] + [s[j]]
  {
    assert s[i..j + 1] == s[i..j] + [s[j]];
  }
}
