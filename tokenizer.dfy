/**
 * The CSS tokenizer (CSS Syntax Module Level 3, section 4), as the class
 * Tokenizer: a preprocessed input, a cursor `pos` and a saved position `mark`.
 * Every operation moves the cursor; its contract says where the cursor ends
 * and what the consumed text produced, in terms of the layout functions
 * below, which read the input only.
 *
 * The ghost field `emitted` records the tokens NextToken has returned so
 * far; the parsers state what they consumed in terms of it.
 */
module Lexer {
  import opened CodePoints
  import opened Tokens
  import Streams

  /** What consumeUnicodeRangeToken reads: the range's start and end, and where the cursor stops. */
  datatype RangeScan = RangeScan(start: nat, end: nat, stop: nat)

  /**
   * What the loop of consumeName, consumeStringToken or consumeUrlToken reads:
   * the text with its escapes decoded, where the cursor stops, and whether
   * the string or URL went bad.
   */
  datatype Scan = Scan(value: string, stop: nat, bad: bool)

  /** A token and where the cursor stops once it has been read. */
  datatype Lexed = Lexed(token: Token, stop: nat)

  class Tokenizer {
    const input: string
    var pos: nat
    var mark: nat
    ghost var emitted: seq<Token>

    ghost predicate Valid()
      reads this
    {
      pos <= |input| && mark <= |input|
    }

    constructor (s: string)
      ensures input == Preprocess(s) && Preprocessed(input)
      ensures pos == 0 && mark == 0 && emitted == []
      ensures Valid()
    {
      input := Preprocess(s);
      pos := 0;
      mark := 0;
      emitted := [];
      PreprocessClean(s);
    }

    // -------------------------------------------------------------------------
    // The input seen as code points, EOF past either end.
    // -------------------------------------------------------------------------

    function At(i: int): int {
      if 0 <= i < |input| then input[i] as int else EOF
    }

    predicate IsEof()
      reads this
    {
      pos >= |input|
    }

    /** The text `s` occurs in the input at `i` (String.startsWith at an offset). */
    predicate StartsWithAt(i: nat, s: string) {
      i + |s| <= |input| && input[i..i + |s|] == s
    }

    /** isIdentStart evaluated with the cursor at `i`. */
    predicate StartsIdent(i: int) {
      0 <= i < |input| &&
      (IsNameStart(At(i)) || IsValidEscape(At(i), At(i + 1)) ||
       (At(i) == '-' as int && (IsNameStart(At(i + 1)) || IsValidEscape(At(i + 1), At(i + 2)))))
    }

    /** isNumberStart evaluated with the cursor at `i`. */
    predicate StartsNumber(i: int) {
      0 <= i < |input| &&
      (IsDigit(At(i)) || (At(i) == '.' as int && IsDigit(At(i + 1))) ||
       ((At(i) == '+' as int || At(i) == '-' as int) &&
        (IsDigit(At(i + 1)) || (At(i + 1) == '.' as int && IsDigit(At(i + 2))))))
    }

    /** isValidExponent evaluated with the cursor at `j`. */
    predicate HasExponent(j: int) {
      (At(j) == 'e' as int || At(j) == 'E' as int) &&
      (IsDigit(At(j + 1)) || ((At(j + 1) == '+' as int || At(j + 1) == '-' as int) && IsDigit(At(j + 2))))
    }

    predicate HasFraction(j: int) {
      At(j) == '.' as int && IsDigit(At(j + 1))
    }

    /** The number of decimal digits starting at `i`. */
    function DigitRun(i: nat): (k: nat)
      requires i <= |input|
      ensures i + k <= |input|
      ensures !IsDigit(At(i + k))
      decreases |input| - i
    {
      if IsDigit(At(i)) then 1 + DigitRun(i + 1) else 0
    }

    /** The number of hex digits starting at `i`, at most `limit`. */
    function HexRun(i: nat, limit: nat): (k: nat)
      ensures k <= limit
      ensures k > 0 ==> i + k <= |input|
      ensures k < limit ==> !IsHexDigit(At(i + k))
      decreases limit
    {
      if limit > 0 && IsHexDigit(At(i)) then 1 + HexRun(i + 1, limit - 1) else 0
    }

    /** The number of question marks starting at `i`, at most `limit`. */
    function QuestionRun(i: nat, limit: nat): (k: nat)
      ensures k <= limit
      ensures k > 0 ==> i + k <= |input|
      ensures k < limit ==> At(i + k) != '?' as int
      decreases limit
    {
      if limit > 0 && At(i) == '?' as int then 1 + QuestionRun(i + 1, limit - 1) else 0
    }

    /** The value of the `k` hex digits starting at `i`, most significant first (`(v << 4) + hexValue(c)`). */
    function HexValueAt(i: nat, k: nat): (v: nat)
      ensures v < Pow16(k)
    {
      if k == 0 then 0 else HexValueAt(i, k - 1) * 16 + HexDigitAt(i + k - 1)
    }

    /** hexValue of the code point at `j`; only ever read where HexRun has found a hex digit. */
    function HexDigitAt(j: int): (d: nat)
      ensures d < 16
    {
      if IsHexDigit(At(j)) then HexValue(At(j)) else 0
    }

    function SignLen(i: nat): (k: nat) {
      if At(i) == '+' as int || At(i) == '-' as int then 1 else 0
    }

    /** Where the optional sign and the integer digits of a number starting at `i` end. */
    function IntegerEnd(i: nat): (e: nat)
      requires i <= |input|
      ensures i <= e <= |input|
    {
      i + SignLen(i) + DigitRun(i + SignLen(i))
    }

    function FractionEnd(j: nat): (e: nat)
      requires j <= |input|
      ensures j <= e <= |input|
    {
      if HasFraction(j) then j + 1 + DigitRun(j + 1) else j
    }

    function ExponentEnd(j: nat): (e: nat)
      requires j <= |input|
      ensures j <= e <= |input|
    {
      if HasExponent(j) then j + 1 + SignLen(j + 1) + DigitRun(j + 1 + SignLen(j + 1)) else j
    }

    /** Where consumeNumber stops when started at `i`; a number start is never empty. */
    function NumberEnd(i: nat): (e: nat)
      requires i <= |input|
      ensures i <= e <= |input|
      ensures StartsNumber(i) ==> i < e
    {
      ExponentEnd(FractionEnd(IntegerEnd(i)))
    }

    /** Whether the number starting at `i` has neither a fraction nor an exponent. */
    predicate IsIntegerAt(i: nat)
      requires i <= |input|
    {
      !HasFraction(IntegerEnd(i)) && !HasExponent(FractionEnd(IntegerEnd(i)))
    }

    /** The number of whitespace code points starting at `i`. */
    function SpaceRun(i: nat): (k: nat)
      requires i <= |input|
      ensures i + k <= |input|
      ensures !IsSpace(At(i + k))
      decreases |input| - i
    {
      if IsSpace(At(i)) then 1 + SpaceRun(i + 1) else 0
    }

    function Quote(apostrophe: bool): char {
      if apostrophe then '\'' else '"'
    }

    /**
     * Where the plain text of a string starting at `i` ends: the first closing
     * quote, newline or backslash, or the end of the input.
     */
    function StringEnd(i: nat, q: char): (e: nat)
      requires i <= |input|
      ensures i <= e <= |input|
      decreases |input| - i
    {
      if i == |input| || input[i] == q || input[i] == LF || input[i] == '\\' then i else StringEnd(i + 1, q)
    }

    /**
     * Where the plain text of an unquoted URL starting at `i` ends: the first
     * ')', whitespace, quote, '(', backslash or non-printable code point, or
     * the end of the input.
     */
    function UrlEnd(i: nat): (e: nat)
      requires i <= |input|
      ensures i <= e <= |input|
      ensures e == |input| || UrlStop(input[e] as int)
      decreases |input| - i
    {
      if i == |input| || UrlStop(input[i] as int) then i else UrlEnd(i + 1)
    }

    static predicate UrlStop(c: int) {
      c == ')' as int || IsSpace(c) || c == '"' as int || c == '\'' as int || c == '(' as int ||
      c == '\\' as int || IsNonPrintable(c)
    }

    predicate NoBackslash(i: int, j: int) {
      forall m :: i <= m < j && 0 <= m < |input| ==> input[m] != '\\'
    }

    predicate CloseAt(m: int) {
      0 <= m && m + 1 < |input| && input[m] == '*' && input[m + 1] == '/'
    }

    // -------------------------------------------------------------------------
    // What the consuming loops read, with escapes decoded.
    // -------------------------------------------------------------------------

    /** The code point of an escape whose backslash is just before `i` (consumeEscape). */
    function EscapeChar(i: nat): char {
      if i >= |input| then REPLACEMENT_CHAR as char
      else if IsHexDigit(At(i)) then EscapedCodePoint(HexValueAt(i, HexRun(i, 6))) as char
      else input[i]
    }

    /** Where consumeEscape stops when started at `i`. */
    function EscapeEnd(i: nat): (e: nat)
      requires i <= |input|
      ensures i <= e <= |input| && e <= i + 7
      ensures i < |input| ==> i < e
    {
      if i == |input| then i
      else if IsHexDigit(At(i)) then
        var k := HexRun(i, 6);
        i + k + (if IsSpace(At(i + k)) then 1 else 0)
      else i + 1
    }

    /**
     * What consumeName reads from `i` after the text `acc`: name code points
     * stand for themselves and valid escapes for the code point they spell,
     * up to the first code point that is neither.
     */
    function NameFrom(i: nat, acc: string): (r: Scan)
      requires i <= |input|
      ensures i <= r.stop <= |input| && !r.bad
      ensures !IsName(At(r.stop)) && !IsValidEscape(At(r.stop), At(r.stop + 1))
      ensures IsName(At(i)) || IsValidEscape(At(i), At(i + 1)) ==> i < r.stop
      decreases |input| - i
    {
      if IsName(At(i)) then NameFrom(i + 1, acc + [input[i]])
      else if IsValidEscape(At(i), At(i + 1)) then NameFrom(EscapeEnd(i + 1), acc + [EscapeChar(i + 1)])
      else Scan(acc, i, false)
    }

    /** A name code point at `i` stands for itself. */
    lemma NameTakes(i: nat, acc: string)
      requires i <= |input| && IsName(At(i))
      ensures NameFrom(i, acc) == NameFrom(i + 1, acc + [input[i]])
    {
    }

    /** A valid escape at `i` stands for the code point it spells. */
    lemma NameEscapes(i: nat, acc: string)
      requires i <= |input| && !IsName(At(i)) && IsValidEscape(At(i), At(i + 1))
      ensures NameFrom(i, acc) == NameFrom(EscapeEnd(i + 1), acc + [EscapeChar(i + 1)])
    {
    }

    /** Anything else ends the name. */
    lemma NameEnds(i: nat, acc: string)
      requires i <= |input| && !IsName(At(i)) && !IsValidEscape(At(i), At(i + 1))
      ensures NameFrom(i, acc) == Scan(acc, i, false)
    {
    }

    /** The name consumeName returns when started at `i`. */
    function NameAt(i: nat): (r: Scan)
      requires i <= |input|
    {
      NameFrom(i, "")
    }

    /** A name written without backslashes stands for itself. */
    lemma {:induction false} NamePlain(i: nat, acc: string)
      requires i <= |input| && NoBackslash(i, NameFrom(i, acc).stop)
      ensures NameFrom(i, acc).value == acc + input[i..NameFrom(i, acc).stop]
      decreases |input| - i
    {
      var e := NameFrom(i, acc).stop;
      if IsName(At(i)) {
        NamePlain(i + 1, acc + [input[i]]);
        assert input[i..e] == [input[i]] + input[i + 1..e];
      } else {
        assert input[i..e] == [];
      }
    }

    /**
     * What consumeStringToken reads from `i` after the text `acc`, inside a
     * string opened by `q`: the text up to the closing quote, which is
     * consumed, or up to the end of the input; or, bad, up to a raw newline,
     * which is not. A backslash at the end adds nothing, a backslash before a
     * newline drops both, and any other backslash starts an escape.
     */
    function StringFrom(i: nat, q: char, acc: string): (r: Scan)
      requires i <= |input|
      ensures i <= r.stop <= |input|
      ensures r.bad ==> r.stop < |input| && input[r.stop] == LF
      ensures !r.bad ==> r.stop == |input| || (i < r.stop && input[r.stop - 1] == q)
      decreases |input| - i
    {
      if i == |input| then Scan(acc, i, false)
      else if input[i] == q then Scan(acc, i + 1, false)
      else if input[i] == LF then Scan(acc, i, true)
      else if input[i] == '\\' then
        if i + 1 == |input| then StringFrom(i + 1, q, acc)
        else if input[i + 1] == LF then StringFrom(i + 2, q, acc)
        else StringFrom(EscapeEnd(i + 1), q, acc + [EscapeChar(i + 1)])
      else StringFrom(i + 1, q, acc + [input[i]])
    }

    /** The end of the input or the closing quote ends a string. */
    lemma StringCloses(i: nat, q: char, acc: string)
      requires i <= |input| && (i == |input| || input[i] == q)
      ensures StringFrom(i, q, acc) == Scan(acc, if i == |input| then i else i + 1, false)
    {
    }

    /** A raw newline ends a string as a bad one. */
    lemma StringBreaks(i: nat, q: char, acc: string)
      requires i < |input| && input[i] == LF && q != LF
      ensures StringFrom(i, q, acc) == Scan(acc, i, true)
    {
    }

    /** A backslash at the end adds nothing, before a newline it drops both, and otherwise it starts an escape. */
    lemma StringBackslash(i: nat, q: char, acc: string)
      requires i < |input| && input[i] == '\\' && q != '\\'
      ensures StringFrom(i, q, acc) ==
        if i + 1 == |input| then StringFrom(i + 1, q, acc)
        else if input[i + 1] == LF then StringFrom(i + 2, q, acc)
        else StringFrom(EscapeEnd(i + 1), q, acc + [EscapeChar(i + 1)])
    {
    }

    /** Any other code point in a string stands for itself. */
    lemma StringTakes(i: nat, q: char, acc: string)
      requires i < |input| && input[i] != q && input[i] != LF && input[i] != '\\'
      ensures StringFrom(i, q, acc) == StringFrom(i + 1, q, acc + [input[i]])
    {
    }

    /** What consumeStringToken reads from `i`, just past an opening quote `q`. */
    function StringAt(i: nat, q: char): (r: Scan)
      requires i <= |input|
    {
      StringFrom(i, q, "")
    }

    /**
     * What consumeStringToken produces for the string opened by the quote at
     * `i`: a STRING token at the quote holding the text, or an empty
     * BAD_STRING token left before the newline that broke it.
     */
    function StringTokenAt(i: nat, apostrophe: bool): (r: Lexed)
      requires i < |input|
    {
      var str := StringAt(i + 1, Quote(apostrophe));
      Lexed(Token(if str.bad then BadString else String, i, if str.bad then "" else str.value, Plain), str.stop)
    }

    /**
     * A string whose text holds no backslash is that text: it ends at the
     * first quote, newline or end of input after `i`, and only a newline
     * makes it bad.
     */
    lemma {:induction false} StringPlain(i: nat, apostrophe: bool, acc: string)
      requires i <= |input|
      ensures var e := StringEnd(i, Quote(apostrophe));
        var r := StringFrom(i, Quote(apostrophe), acc);
        (e == |input| ==> r == Scan(acc + input[i..e], e, false)) &&
        (e < |input| && input[e] == Quote(apostrophe) ==> r == Scan(acc + input[i..e], e + 1, false)) &&
        (e < |input| && input[e] == LF ==> r.bad && r.stop == e)
      decreases |input| - i
    {
      var q := Quote(apostrophe);
      var e := StringEnd(i, q);
      if i < |input| && input[i] != q && input[i] != LF && input[i] != '\\' {
        StringPlain(i + 1, apostrophe, acc + [input[i]]);
        assert input[i..e] == [input[i]] + input[i + 1..e];
      } else {
        assert input[i..e] == [];
      }
    }

    /**
     * Where consumeBadUrl stops when started at `i`: just past the first ')'
     * that is not part of an escape, or at the end of the input.
     */
    function BadUrlEnd(i: nat): (e: nat)
      requires i <= |input|
      ensures i <= e <= |input|
      ensures e == |input| || (i < e && input[e - 1] == ')')
      decreases |input| - i
    {
      if i == |input| then i
      else if input[i] == ')' then i + 1
      else if IsValidEscape(input[i] as int, At(i + 1)) then BadUrlEnd(EscapeEnd(i + 1))
      else BadUrlEnd(i + 1)
    }

    /** Without backslashes, the remnants of a bad URL end just past the first ')'. */
    lemma {:induction false} BadUrlFirstClose(i: nat)
      requires i <= |input| && NoBackslash(i, BadUrlEnd(i))
      ensures forall m :: i <= m < BadUrlEnd(i) && input[m] == ')' ==> m == BadUrlEnd(i) - 1
      decreases |input| - i
    {
      if i < |input| && input[i] != ')' {
        BadUrlFirstClose(i + 1);
      }
    }

    /** Every code point of a hex run is a hex digit. */
    lemma {:induction false} HexRunDigits(i: nat, limit: nat)
      ensures forall m :: i <= m < i + HexRun(i, limit) ==> IsHexDigit(At(m))
      decreases limit
    {
      if limit > 0 && IsHexDigit(At(i)) {
        HexRunDigits(i + 1, limit - 1);
      }
    }

    /** Only the first code point of an escape can be a ')'. */
    lemma EscapeHasNoLaterClose(i: nat)
      requires i <= |input|
      ensures forall m :: i < m < EscapeEnd(i) ==> input[m] != ')'
    {
      if i < |input| && IsHexDigit(At(i)) {
        HexRunDigits(i, 6);
      }
    }

    /**
     * The remnants of a bad URL end just past a ')' that is not part of an
     * escape: every ')' before the stop was the code point of an escape, so
     * it follows a backslash.
     */
    lemma {:induction false} BadUrlEscapedClose(i: nat)
      requires i <= |input|
      ensures forall m :: i <= m < BadUrlEnd(i) - 1 && input[m] == ')' ==> i < m && input[m - 1] == '\\'
      decreases |input| - i
    {
      if i < |input| && input[i] != ')' {
        if IsValidEscape(input[i] as int, At(i + 1)) {
          EscapeHasNoLaterClose(i + 1);
          BadUrlEscapedClose(EscapeEnd(i + 1));
        } else {
          BadUrlEscapedClose(i + 1);
        }
      }
    }

    /**
     * What the loop of consumeUrlToken reads for an unquoted URL from `i`
     * after the text `acc`: the text up to ')' (consumed) or the end of the
     * input, whitespace allowed only just before them; or, bad, up to and
     * including a quote, '(', a non-printable code point, a backslash before
     * a newline, or anything after whitespace.
     */
    function UrlFrom(i: nat, spaceSeen: bool, acc: string): (r: Scan)
      requires i <= |input|
      ensures i <= r.stop <= |input|
      ensures !r.bad ==> r.stop == |input| || (i < r.stop && input[r.stop - 1] == ')')
      ensures r.bad ==> i < r.stop
      decreases |input| - i
    {
      if i == |input| then Scan(acc, i, false)
      else
        var c := input[i] as int;
        if c == ')' as int then Scan(acc, i + 1, false)
        else if IsSpace(c) then UrlFrom(i + 1 + SpaceRun(i + 1), true, acc)
        else if spaceSeen || c == '\'' as int || c == '"' as int || c == '(' as int || IsNonPrintable(c) ||
                (c == '\\' as int && !IsValidEscape(c, At(i + 1))) then
          Scan(acc, i + 1, true)
        else if c == '\\' as int then UrlFrom(EscapeEnd(i + 1), spaceSeen, acc + [EscapeChar(i + 1)])
        else UrlFrom(i + 1, spaceSeen, acc + [input[i]])
    }

    /** ')' or the end of the input ends an unquoted URL. */
    lemma UrlCloses(i: nat, spaceSeen: bool, acc: string)
      requires i <= |input| && (i == |input| || input[i] == ')')
      ensures UrlFrom(i, spaceSeen, acc) == Scan(acc, if i == |input| then i else i + 1, false)
    {
    }

    /** Whitespace in an unquoted URL is skipped and remembered. */
    lemma UrlSpace(i: nat, spaceSeen: bool, acc: string)
      requires i < |input| && IsSpace(input[i] as int)
      ensures UrlFrom(i, spaceSeen, acc) == UrlFrom(i + 1 + SpaceRun(i + 1), true, acc)
    {
    }

    /** The code points that make an unquoted URL bad. */
    lemma UrlBad(i: nat, spaceSeen: bool, acc: string)
      requires i < |input| && input[i] != ')' && !IsSpace(input[i] as int)
      requires var c := input[i] as int;
        spaceSeen || c == '\'' as int || c == '"' as int || c == '(' as int || IsNonPrintable(c) ||
        (c == '\\' as int && !IsValidEscape(c, At(i + 1)))
      ensures UrlFrom(i, spaceSeen, acc) == Scan(acc, i + 1, true)
    {
    }

    /** A valid escape in an unquoted URL stands for the code point it spells. */
    lemma UrlEscapes(i: nat, acc: string)
      requires i < |input| && input[i] == '\\' && IsValidEscape('\\' as int, At(i + 1))
      ensures UrlFrom(i, false, acc) == UrlFrom(EscapeEnd(i + 1), false, acc + [EscapeChar(i + 1)])
    {
    }

    /** A code point that stops nothing stands for itself. */
    lemma UrlTakes(i: nat, acc: string)
      requires i < |input| && !UrlStop(input[i] as int)
      ensures UrlFrom(i, false, acc) == UrlFrom(i + 1, false, acc + [input[i]])
    {
    }

    /** What the loop of consumeUrlToken reads for an unquoted URL from `i`. */
    function UnquotedUrlAt(i: nat): (r: Scan)
      requires i <= |input|
    {
      UrlFrom(i, false, "")
    }

    /** An unquoted URL starts with its plain text up to the first stop code point. */
    lemma {:induction false} UnquotedUrlPrefix(i: nat, acc: string)
      requires i <= |input|
      ensures var e := UrlEnd(i); UrlFrom(i, false, acc) == UrlFrom(e, false, acc + input[i..e])
      decreases |input| - i
    {
      var e := UrlEnd(i);
      if i < |input| && !UrlStop(input[i] as int) {
        assert e == UrlEnd(i + 1);
        UnquotedUrlPrefix(i + 1, acc + [input[i]]);
        UrlTakes(i, acc);
        assert input[i..e] == [input[i]] + input[i + 1..e];
        assert acc + input[i..e] == (acc + [input[i]]) + input[i + 1..e];
      } else {
        assert acc + input[i..e] == acc;
      }
    }

    /** How an unquoted URL ends at a stop code point `e` that is not a backslash. */
    lemma UnquotedUrlStop(e: nat, acc: string)
      requires e <= |input| && (e == |input| || UrlStop(input[e] as int))
      ensures var r := UrlFrom(e, false, acc);
        (e == |input| ==> r == Scan(acc, e, false)) &&
        (e < |input| && input[e] == ')' ==> r == Scan(acc, e + 1, false)) &&
        (e < |input| && IsSpace(input[e] as int) ==>
          var s := e + SpaceRun(e);
          r == if s == |input| then Scan(acc, s, false)
               else if input[s] == ')' then Scan(acc, s + 1, false)
               else Scan(acc, s + 1, true)) &&
        (e < |input| && input[e] != ')' && input[e] != '\\' && !IsSpace(input[e] as int) ==>
          r == Scan(acc, e + 1, true))
    {
      if e < |input| && IsSpace(input[e] as int) {
        assert SpaceRun(e) == 1 + SpaceRun(e + 1);
      }
    }

    /**
     * The URLs written without backslashes: the text up to the first stop
     * code point at `e` is the value; ')' or the end makes it a URL, and so
     * does whitespace followed by ')' or the end; whitespace followed by
     * anything else, or any other stop code point, makes it bad.
     */
    lemma UnquotedUrlPlain(i: nat)
      requires i <= |input|
      ensures var e := UrlEnd(i);
        var r := UnquotedUrlAt(i);
        (e == |input| ==> r == Scan(input[i..e], e, false)) &&
        (e < |input| && input[e] == ')' ==> r == Scan(input[i..e], e + 1, false)) &&
        (e < |input| && IsSpace(input[e] as int) ==>
          var s := e + SpaceRun(e);
          r == if s == |input| then Scan(input[i..e], s, false)
               else if input[s] == ')' then Scan(input[i..e], s + 1, false)
               else Scan(input[i..e], s + 1, true)) &&
        (e < |input| && input[e] != ')' && input[e] != '\\' && !IsSpace(input[e] as int) ==>
          r == Scan(input[i..e], e + 1, true))
    {
      var e := UrlEnd(i);
      UnquotedUrlPrefix(i, "");
      assert "" + input[i..e] == input[i..e];
      UnquotedUrlStop(e, input[i..e]);
    }

    /**
     * What every URL token read from `i` looks like: a URL or BAD_URL token
     * placed between `i` and where reading stops, which is the end of the
     * input or just past ')'.
     */
    predicate UrlShaped(i: nat, r: Lexed)
    {
      && i <= r.token.position <= r.stop <= |input|
      && r.token.detail == Plain && (r.token.kind == Url || r.token.kind == BadUrl)
      && (r.stop == |input| || (i < r.stop && input[r.stop - 1] == ')'))
    }

    /** What consumeUrlToken produces for an unquoted URL read from `i`. */
    function UnquotedUrlTokenAt(i: nat): (r: Lexed)
      requires i <= |input|
    {
      var u := UnquotedUrlAt(i);
      if u.bad then Lexed(PlainToken(BadUrl, u.stop, ""), BadUrlEnd(u.stop))
      else Lexed(PlainToken(Url, i, u.value), u.stop)
    }

    /**
     * What consumeUrlToken produces for a URL quoted from `i`: a string, then
     * whitespace, then ')' or the end make a URL at the quote holding the
     * string's text; a bad string, or anything else after the string, makes
     * a BAD_URL where its remnants start.
     */
    function QuotedUrlAt(i: nat, apostrophe: bool): (r: Lexed)
      requires i < |input|
    {
      var str := StringTokenAt(i, apostrophe);
      if str.token.kind == BadString then Lexed(PlainToken(BadUrl, str.stop, ""), BadUrlEnd(str.stop))
      else AfterQuotedUrl(str.stop, i, str.token.value)
    }

    /** A quoted URL is read as a string token, then what follows it. */
    lemma QuotedUrlAfterString(i: nat, apostrophe: bool, str: Lexed)
      requires i < |input| && StringTokenAt(i, apostrophe) == str
      ensures i < str.stop <= |input|
      ensures str.token.kind == BadString ==>
        QuotedUrlAt(i, apostrophe) == Lexed(PlainToken(BadUrl, str.stop, ""), BadUrlEnd(str.stop))
      ensures str.token.kind != BadString ==> QuotedUrlAt(i, apostrophe) == AfterQuotedUrl(str.stop, i, str.token.value)
    {
    }

    /**
     * What consumeUrlToken produces once the string `value` of a URL quoted
     * at `p` has been read up to `k`: whitespace, then ')' or the end make a
     * URL; anything else makes a BAD_URL where the remnants start.
     */
    function AfterQuotedUrl(k: nat, p: nat, value: string): (r: Lexed)
      requires p < k <= |input|
      ensures UrlShaped(p, r) && k <= r.stop
      ensures r.token.kind == Url ==> r.token.position == p
    {
      var j := k + SpaceRun(k);
      if j == |input| then Lexed(PlainToken(Url, p, value), j)
      else if input[j] == ')' then Lexed(PlainToken(Url, p, value), j + 1)
      else Lexed(PlainToken(BadUrl, j, value), BadUrlEnd(j))
    }

    /**
     * After the string of a quoted URL: a URL with the string's value exactly
     * when only whitespace comes before ')' or the end, otherwise a BAD_URL
     * placed past that whitespace and read on by consumeBadUrl.
     */
    lemma AfterQuotedUrlCases(k: nat, p: nat, value: string)
      requires p < k <= |input|
      ensures var j := k + SpaceRun(k);
        var r := AfterQuotedUrl(k, p, value);
        (r.token.kind == Url <==> j == |input| || input[j] == ')') &&
        r.token.value == value &&
        (r.token.kind == Url ==> r.stop == (if j == |input| then j else j + 1)) &&
        (r.token.kind != Url ==> r.token.kind == BadUrl && r.token.position == j && r.stop == BadUrlEnd(j))
    {
    }

    /** What consumeUrlToken produces from `i`, just past "url(". */
    function UrlTokenAt(i: nat): (r: Lexed)
      requires i <= |input|
    {
      var s := i + SpaceRun(i);
      if s == |input| then Lexed(PlainToken(Url, s, ""), s)
      else if input[s] == '\'' || input[s] == '"' then QuotedUrlAt(s, input[s] != '"')
      else UnquotedUrlTokenAt(s)
    }

    /**
     * What consumeIdentLikeToken produces from `i`: a name; followed by '('
     * it is a function, unless the name is "url" in any case, which starts
     * a URL token.
     */
    function IdentLikeAt(i: nat): (r: Lexed)
      requires i <= |input|
    {
      AfterName(i, NameAt(i))
    }

    /** What consumeIdentLikeToken produces once the name `n` begun at `i` has been read. */
    function AfterName(i: nat, n: Scan): (r: Lexed)
      requires n.stop <= |input|
    {
      if At(n.stop) == '(' as int then
        if EqualsIgnoreCase(n.value, "url") then UrlTokenAt(n.stop + 1)
        else Lexed(PlainToken(Function, i, n.value), n.stop + 1)
      else Lexed(PlainToken(Ident, i, n.value), n.stop)
    }

    /** What nextToken produces for '#' at `p`: a hash token when a name follows, flagged when it starts an identifier. */
    function HashAt(p: nat): (r: Lexed)
      requires p < |input|
    {
      if IsName(At(p + 1)) || IsValidEscape(At(p + 1), At(p + 2)) then
        var n := NameAt(p + 1);
        Lexed(HashToken(p, n.value, StartsIdent(p + 1)), n.stop)
      else Lexed(Token(Delim, p, "#", Plain), p + 1)
    }

    /**
     * What nextToken produces for the code point at `p` in its last cases: a
     * Unicode range after 'U' or 'u' and "+hex" or "+?", an ident-like token
     * from a name start or a valid escape, a delimiter otherwise.
     */
    function NameLikeAt(p: nat): (r: Lexed)
      requires p < |input|
    {
      var c := input[p] as int;
      if (c == 'U' as int || c == 'u' as int) && At(p + 1) == '+' as int && (At(p + 2) == '?' as int || IsHexDigit(At(p + 2))) then
        var u := UnicodeRangeAt(p + 2);
        Lexed(UnicodeRangeToken(p + 2, u.start, u.end), u.stop)
      else if IsNameStart(c) || IsValidEscape(c, At(p + 1)) then IdentLikeAt(p)
      else Lexed(Token(Delim, p, [input[p]], Plain), p + 1)
    }

    /** What nextToken produces for '#', '<', '@' and the code points of NameLikeAt at `p`. */
    function OtherAt(p: nat): (r: Lexed)
      requires p < |input|
    {
      var c := input[p];
      if c == '#' then HashAt(p)
      else if c == '<' then
        if StartsWithAt(p + 1, "!--") then Lexed(Token(Cdo, p, "<!--", Plain), p + 4)
        else Lexed(Token(Delim, p, "<", Plain), p + 1)
      else if c == '@' then
        if StartsIdent(p + 1) then
          var n := NameAt(p + 1);
          Lexed(Token(AtKeyword, p, n.value, Plain), n.stop)
        else Lexed(Token(Delim, p, "@", Plain), p + 1)
      else NameLikeAt(p)
    }

    /**
     * What consumeNumericToken produces from `i`: the number, then a '%' makes
     * a percentage, a following identifier start a dimension whose unit is
     * the name read there; otherwise the number alone.
     */
    function NumericAt(i: nat): (r: Lexed)
      requires i <= |input|
    {
      var e := NumberEnd(i);
      var v := input[i..e];
      if At(e) == '%' as int then Lexed(PercentageToken(i, v, IsIntegerAt(i)), e + 1)
      else if StartsIdent(e) then
        var n := NameAt(e);
        Lexed(DimensionToken(i, v, IsIntegerAt(i), n.value), n.stop)
      else Lexed(NumberToken(i, v, IsIntegerAt(i)), e)
    }

    /**
     * What nextToken produces for '$', '*', '^', '~' or '|' at `p`: followed
     * by '=' the attribute match operators, "||" a column, otherwise a
     * delimiter.
     */
    function MatchOrDelimAt(p: nat): (r: Lexed)
      requires p < |input| && input[p] in "$*^~|"
    {
      var c := input[p];
      if At(p + 1) == '=' as int then
        var kind := if c == '$' then SuffixMatch else if c == '*' then SubstringMatch
                    else if c == '^' then PrefixMatch else if c == '~' then IncludeMatch else DashMatch;
        Lexed(Token(kind, p, [c, '='], Plain), p + 2)
      else if c == '|' && At(p + 1) == '|' as int then Lexed(Token(Column, p, "||", Plain), p + 2)
      else Lexed(Token(Delim, p, [c], Plain), p + 1)
    }

    /** What nextToken produces for a '+', '-' or '.' at `p` that starts nothing else: "-->" is a CDC, anything else a delimiter. */
    function CdcOrDelimAt(p: nat): (r: Lexed)
      requires p < |input|
    {
      if input[p] == '-' && StartsWithAt(p, "-->") then Lexed(Token(Cdc, p, "-->", Plain), p + 3)
      else Lexed(Token(Delim, p, [input[p]], Plain), p + 1)
    }

    /** What nextToken produces for '+', '-', '.' or a digit at `p`. */
    function NumberLikeAt(p: nat): (r: Lexed)
      requires p < |input|
    {
      if StartsNumber(p) then NumericAt(p)
      else if input[p] == '-' && StartsIdent(p) then IdentLikeAt(p)
      else CdcOrDelimAt(p)
    }

    /**
     * The token the switch of nextToken reads at `p`, once comments are
     * skipped: a whitespace run, a string, the match operators, the
     * one-code-point punctuation, the number-like cases and the rest.
     */
    function TokenAt(p: nat): (r: Lexed)
      requires p < |input|
    {
      var c := input[p];
      if IsSpace(c as int) then Lexed(Token(Whitespace, p, "", Plain), p + SpaceRun(p))
      else if c == '"' || c == '\'' then StringTokenAt(p, c == '\'')
      else if c in "$*^~|" then MatchOrDelimAt(p)
      else if c in "(),:;[]{}" then Lexed(Token(PunctuationKind(c), p, [c], Plain), p + 1)
      else if c in "+-." || IsDigit(c as int) then NumberLikeAt(p)
      else OtherAt(p)
    }

    /** A whitespace code point at `p` starts a WHITESPACE token covering the run. */
    lemma TokenAtSpace(p: nat)
      requires p < |input| && IsSpace(input[p] as int)
      ensures TokenAt(p) == Lexed(Token(Whitespace, p, "", Plain), p + SpaceRun(p))
    { }

    /** A quote at `p` starts a string token. */
    lemma TokenAtString(p: nat, apostrophe: bool)
      requires p < |input| && input[p] == Quote(apostrophe)
      ensures TokenAt(p) == StringTokenAt(p, apostrophe)
    { }

    /** '$', '*', '^', '~' or '|' at `p` start a match operator, a column or a delimiter. */
    lemma TokenAtMatch(p: nat)
      requires p < |input| && input[p] in "$*^~|"
      ensures TokenAt(p) == MatchOrDelimAt(p)
    { }

    /** The punctuation code points are tokens of their own. */
    lemma TokenAtPunctuation(p: nat)
      requires p < |input| && input[p] in "(),:;[]{}"
      ensures TokenAt(p) == Lexed(Token(PunctuationKind(input[p]), p, [input[p]], Plain), p + 1)
    { }

    /** '+', '-', '.' or a digit at `p` start the number-like cases. */
    lemma TokenAtNumberLike(p: nat)
      requires p < |input| && (input[p] in "+-." || IsDigit(input[p] as int))
      ensures TokenAt(p) == NumberLikeAt(p)
    { }

    /** Any other code point at `p` starts the cases of OtherAt. */
    lemma TokenAtOther(p: nat)
      requires p < |input| && !IsSpace(input[p] as int)
      requires input[p] !in "\"'$*^~|(),:;[]{}+-." && !IsDigit(input[p] as int)
      ensures TokenAt(p) == OtherAt(p)
    { }

    /** Where skipComments leaves the cursor when started at `i`: past one comment, if one opens there. */
    function CommentEnd(i: nat): (e: nat)
      requires i <= |input|
      ensures i <= e <= |input|
    {
      if StartsWithAt(i, "/*") then CloseEnd(i + 2) else i
    }

    /** Past the first star-slash at or after `j`, or the end of the input. */
    function CloseEnd(j: nat): (e: nat)
      requires j <= |input|
      ensures j <= e <= |input|
      decreases |input| - j
    {
      if j == |input| then j else if CloseAt(j) then j + 2 else CloseEnd(j + 1)
    }

    // -------------------------------------------------------------------------
    // What the tokens read from the input look like.
    // -------------------------------------------------------------------------

    /**
     * A token read from `start`: reading moves past `start` and stays within
     * the input, and the token lies within what was read, carries the detail
     * of its type and is not EOF.
     */
    predicate ReadFrom(r: Lexed, start: nat)
    {
      && start < r.stop <= |input|
      && start <= r.token.position <= r.stop
      && r.token.WellKinded() && r.token.kind != Eof
    }

    /**
     * A name read from `i` stops before a code point that neither continues
     * a name nor starts a valid escape, takes at least one code point when
     * one of those is at `i`, and, when it covers no backslash, is the text
     * it covers.
     */
    lemma NameShape(i: nat)
      requires i <= |input|
      ensures var n := NameAt(i);
        && i <= n.stop <= |input| && !n.bad
        && !IsName(At(n.stop)) && !IsValidEscape(At(n.stop), At(n.stop + 1))
        && (IsName(At(i)) || IsValidEscape(At(i), At(i + 1)) ==> i < n.stop)
        && (NoBackslash(i, n.stop) ==> n.value == input[i..n.stop])
    {
      var e := NameAt(i).stop;
      if NoBackslash(i, e) {
        NamePlain(i, "");
        assert "" + input[i..e] == input[i..e];
      }
    }

    /**
     * A string opened at `i` is a STRING token at the quote, read up to the
     * end of the input or past the closing quote, or an empty BAD_STRING
     * token read up to the newline that broke it.
     */
    lemma StringTokenShape(i: nat, apostrophe: bool)
      requires i < |input|
      ensures var r := StringTokenAt(i, apostrophe);
        && ReadFrom(r, i) && r.token.detail == Plain && r.token.position == i
        && (r.token.kind == String || r.token.kind == BadString)
        && (r.token.kind == BadString ==> r.token.value == "" && At(r.stop) == LF as int)
        && (r.token.kind == String ==> r.stop == |input| || input[r.stop - 1] == Quote(apostrophe))
    {
      var str := StringAt(i + 1, Quote(apostrophe));
      assert StringTokenAt(i, apostrophe) == Lexed(Token(if str.bad then BadString else String, i, if str.bad then "" else str.value, Plain), str.stop);
    }

    /**
     * A string without a backslash up to its end holds the text between the
     * quotes and stops past the closing quote or at the end of the input; one
     * broken by a newline is a BAD_STRING token stopping before it.
     */
    lemma StringTokenPlain(i: nat, apostrophe: bool)
      requires i < |input|
      ensures var r := StringTokenAt(i, apostrophe);
        var e := StringEnd(i + 1, Quote(apostrophe));
        && (e == |input| ==> r.token.kind == String && r.token.value == input[i + 1..e] && r.stop == e)
        && (e < |input| && input[e] == Quote(apostrophe) ==>
              r.token.kind == String && r.token.value == input[i + 1..e] && r.stop == e + 1)
        && (e < |input| && input[e] == LF ==> r.token.kind == BadString && r.stop == e)
    {
      var e := StringEnd(i + 1, Quote(apostrophe));
      StringPlain(i + 1, apostrophe, "");
      assert "" + input[i + 1..e] == input[i + 1..e];
    }

    /** An unquoted URL read from `i` is a URL or BAD_URL token. */
    lemma UnquotedUrlTokenShape(i: nat)
      requires i <= |input|
      ensures UrlShaped(i, UnquotedUrlTokenAt(i))
    {
      UnquotedUrlPlain(i);
    }

    /** An unquoted URL that ends at ')' or at the end of the input is a URL token holding its text. */
    lemma UnquotedUrlTokenPlain(i: nat)
      requires i <= |input|
      ensures var e := UrlEnd(i);
        e == |input| || input[e] == ')' ==>
          UnquotedUrlTokenAt(i) == Lexed(PlainToken(Url, i, input[i..e]), if e < |input| then e + 1 else e)
    {
      UnquotedUrlPlain(i);
    }

    /** A URL quoted at `i` is a URL token placed at the quote, or a BAD_URL token past it. */
    lemma QuotedUrlShape(i: nat, apostrophe: bool)
      requires i < |input|
      ensures var r := QuotedUrlAt(i, apostrophe);
        UrlShaped(i, r) && i < r.stop && (r.token.kind == Url ==> r.token.position == i)
    {
      var str := StringAt(i + 1, Quote(apostrophe));
      assert StringTokenAt(i, apostrophe).stop == str.stop;
    }

    /** A URL token read from `i`, just past "url(", has the shape of one. */
    lemma UrlTokenShape(i: nat)
      requires i <= |input|
      ensures UrlShaped(i, UrlTokenAt(i))
    {
      var s := i + SpaceRun(i);
      if s < |input| && input[s] == '"' {
        UrlTokenQuoted(i, false);
      } else if s < |input| && input[s] == '\'' {
        UrlTokenQuoted(i, true);
      } else if s < |input| {
        UrlTokenUnquoted(i);
      }
    }

    /** A URL token that opens with a quote, after any whitespace, has the shape of one. */
    lemma UrlTokenQuoted(i: nat, apostrophe: bool)
      requires i <= |input| && i + SpaceRun(i) < |input| && input[i + SpaceRun(i)] == Quote(apostrophe)
      ensures UrlShaped(i, UrlTokenAt(i))
    {
      var s := i + SpaceRun(i);
      QuotedUrlShape(s, apostrophe);
      UrlTokenQuote(i, apostrophe);
      UrlShapedEarlier(i, s, UrlTokenAt(i));
    }

    /** A URL token read from `s` is one read from any `i` before it. */
    lemma UrlShapedEarlier(i: nat, s: nat, r: Lexed)
      requires i <= s && UrlShaped(s, r)
      ensures UrlShaped(i, r)
    {
    }

    /** A URL token that opens with neither quote, after any whitespace, has the shape of one. */
    lemma UrlTokenUnquoted(i: nat)
      requires i <= |input| && i + SpaceRun(i) < |input|
      requires input[i + SpaceRun(i)] != '"' && input[i + SpaceRun(i)] != '\''
      ensures UrlShaped(i, UrlTokenAt(i))
    {
      var s := i + SpaceRun(i);
      UrlTokenBare(i);
      UnquotedUrlTokenShape(s);
      UrlShapedEarlier(i, s, UnquotedUrlTokenAt(s));
    }

    /** Past "url(" and any whitespace, a quote opens a quoted URL. */
    lemma UrlTokenQuote(i: nat, apostrophe: bool)
      requires i <= |input| && i + SpaceRun(i) < |input| && input[i + SpaceRun(i)] == Quote(apostrophe)
      ensures UrlTokenAt(i) == QuotedUrlAt(i + SpaceRun(i), apostrophe)
    {
    }

    /** Past "url(" and any whitespace, anything but a quote opens an unquoted URL. */
    lemma UrlTokenBare(i: nat)
      requires i <= |input| && i + SpaceRun(i) < |input|
      requires input[i + SpaceRun(i)] != '"' && input[i + SpaceRun(i)] != '\''
      ensures UrlTokenAt(i) == UnquotedUrlTokenAt(i + SpaceRun(i))
    {
    }

    /**
     * An unquoted URL read from `i`, just past "url(" and any whitespace,
     * that ends at ')' or at the end of the input is exactly the text before
     * that.
     */
    lemma UrlTokenPlain(i: nat)
      requires i <= |input|
      ensures var s := i + SpaceRun(i);
        var e := UrlEnd(s);
        (s == |input| || (input[s] != '"' && input[s] != '\'')) && (e == |input| || input[e] == ')') ==>
          UrlTokenAt(i) == Lexed(PlainToken(Url, s, input[s..e]), if e < |input| then e + 1 else e)
    {
      var s := i + SpaceRun(i);
      if s < |input| && input[s] != '"' && input[s] != '\'' {
        UnquotedUrlTokenPlain(s);
      }
    }

    /**
     * The shape of an ident-like token read from `i`: an IDENT not followed
     * by '(', a FUNCTION read up to its '(' whose name is not "url" in any
     * case, or a URL or BAD_URL token read up to ')' or the end of the input;
     * an identifier or function name without a backslash is the text it
     * covers.
     */
    predicate IdentLikeShaped(i: nat, r: Lexed)
    {
      && ReadFrom(r, i) && r.token.detail == Plain
      && (r.token.kind == Ident || r.token.kind == Function || r.token.kind == Url || r.token.kind == BadUrl)
      && (r.token.kind == Ident ==>
            r.token.position == i && At(r.stop) != '(' as int &&
            (NoBackslash(i, r.stop) ==> r.token.value == input[i..r.stop]))
      && (r.token.kind == Function ==>
            r.token.position == i && input[r.stop - 1] == '(' && !EqualsIgnoreCase(r.token.value, "url") &&
            (NoBackslash(i, r.stop - 1) ==> r.token.value == input[i..r.stop - 1]))
      && (r.token.kind == Url || r.token.kind == BadUrl ==>
            i < r.token.position && (r.stop == |input| || input[r.stop - 1] == ')'))
    }

    /** Every ident-like token read from the start of an identifier has the shape of one. */
    lemma IdentLikeShape(i: nat)
      requires StartsIdent(i)
      ensures IdentLikeShaped(i, IdentLikeAt(i))
    {
      NameShape(i);
      var n := NameAt(i);
      if At(n.stop) != '(' as int {
        AfterNameIdent(i, n);
      } else if !EqualsIgnoreCase(n.value, "url") {
        AfterNameFunction(i, n);
      } else {
        AfterNameUrl(i, n);
      }
    }

    /** A name not followed by '(' is an identifier. */
    lemma AfterNameIdent(i: nat, n: Scan)
      requires i < n.stop <= |input| && At(n.stop) != '(' as int
      requires NoBackslash(i, n.stop) ==> n.value == input[i..n.stop]
      ensures IdentLikeShaped(i, AfterName(i, n))
    {
    }

    /** A name other than "url" followed by '(' is a function. */
    lemma AfterNameFunction(i: nat, n: Scan)
      requires i < n.stop < |input| && input[n.stop] == '(' && !EqualsIgnoreCase(n.value, "url")
      requires NoBackslash(i, n.stop) ==> n.value == input[i..n.stop]
      ensures IdentLikeShaped(i, AfterName(i, n))
    {
    }

    /** "url" in any case followed by '(' starts a URL token. */
    lemma AfterNameUrl(i: nat, n: Scan)
      requires i < n.stop < |input| && input[n.stop] == '(' && EqualsIgnoreCase(n.value, "url")
      ensures IdentLikeShaped(i, AfterName(i, n))
    {
      UrlTokenShape(n.stop + 1);
      AfterNameIsUrl(i, n);
      IdentLikeByUrl(i, n.stop + 1, AfterName(i, n), UrlTokenAt(n.stop + 1));
    }

    /** A token equal to a URL token read from past `i` has the shape of an ident-like token read from `i`. */
    lemma IdentLikeByUrl(i: nat, j: nat, r: Lexed, u: Lexed)
      requires i < j && r == u && UrlShaped(j, u)
      ensures IdentLikeShaped(i, r)
    {
      UrlIsIdentLike(i, u, j);
    }

    /** "url" in any case followed by '(' is read on as a URL token past the '('. */
    lemma AfterNameIsUrl(i: nat, n: Scan)
      requires i < n.stop < |input| && input[n.stop] == '(' && EqualsIgnoreCase(n.value, "url")
      ensures AfterName(i, n) == UrlTokenAt(n.stop + 1)
    {
    }

    /** A URL token read from past `i` has the shape of an ident-like token read from `i`. */
    lemma UrlIsIdentLike(i: nat, r: Lexed, j: nat)
      requires i < j && UrlShaped(j, r)
      ensures IdentLikeShaped(i, r)
    {
    }

    /**
     * '#' at `p` followed by a name is a HASH token flagged by whether the
     * name would start an identifier; otherwise it is a delimiter.
     */
    lemma HashShape(p: nat)
      requires p < |input| && input[p] == '#'
      ensures var r := HashAt(p);
        var named := IsName(At(p + 1)) || IsValidEscape(At(p + 1), At(p + 2));
        && ReadFrom(r, p) && r.token.position == p
        && (named ==> r.token.kind == Hash && r.token.detail == HashFlag(StartsIdent(p + 1)))
        && (!named ==> r == Lexed(Token(Delim, p, "#", Plain), p + 1))
    {
    }

    /**
     * 'U' or 'u' at `p` before "+hex" or "+?" is a UNICODE_RANGE token; a name
     * start or a valid escape an ident-like token; anything else a delimiter
     * holding that code point.
     */
    lemma NameLikeShape(p: nat)
      requires p < |input|
      ensures var r := NameLikeAt(p);
        var c := input[p] as int;
        var range := (c == 'U' as int || c == 'u' as int) && At(p + 1) == '+' as int &&
                     (At(p + 2) == '?' as int || IsHexDigit(At(p + 2)));
        && ReadFrom(r, p)
        && (range ==> r.token.kind == UnicodeRange)
        && (!range && (IsNameStart(c) || IsValidEscape(c, At(p + 1))) ==>
              r.token.kind == Ident || r.token.kind == Function || r.token.kind == Url || r.token.kind == BadUrl)
        && (!range && !IsNameStart(c) && !IsValidEscape(c, At(p + 1)) ==>
              r == Lexed(Token(Delim, p, [input[p]], Plain), p + 1))
    {
      var c := input[p] as int;
      var range := (c == 'U' as int || c == 'u' as int) && At(p + 1) == '+' as int &&
                   (At(p + 2) == '?' as int || IsHexDigit(At(p + 2)));
      if range {
        var u := UnicodeRangeAt(p + 2);
        assert NameLikeAt(p) == Lexed(UnicodeRangeToken(p + 2, u.start, u.end), u.stop);
      } else if IsNameStart(c) || IsValidEscape(c, At(p + 1)) {
        assert NameLikeAt(p) == IdentLikeAt(p);
        IdentLikeShape(p);
      }
    }

    /** Every token of the remaining cases of nextToken is read from `p`. */
    lemma OtherShape(p: nat)
      requires p < |input|
      ensures ReadFrom(OtherAt(p), p)
    {
      if input[p] == '#' {
        HashShape(p);
      } else if input[p] != '<' && input[p] != '@' {
        NameLikeShape(p);
      }
    }

    // -------------------------------------------------------------------------
    // Primitive cursor moves.
    // -------------------------------------------------------------------------

    /** Tokenizer.next: the code point at the cursor, which then moves past it; EOF at the end. */
    method Next() returns (c: int)
      requires Valid()
      modifies this`pos
      ensures Valid()
      ensures c == At(old(pos))
      ensures pos == if old(pos) < |input| then old(pos) + 1 else old(pos)
    {
      if pos >= |input| {
        return EOF;
      }
      c := input[pos] as int;
      pos := pos + 1;
    }

    /** Tokenizer.consume: moves past `s` exactly when the input continues with it. */
    method Consume(s: string) returns (b: bool)
      requires Valid()
      modifies this`pos
      ensures Valid()
      ensures b == (old(pos) < |input| && StartsWithAt(old(pos), s))
      ensures pos == if b then old(pos) + |s| else old(pos)
    {
      if pos < |input| && pos + |s| <= |input| && input[pos..pos + |s|] == s {
        pos := pos + |s|;
        return true;
      }
      return false;
    }

    /** Tokenizer.skipComments: skips one comment, up to its first closing star-slash or the end. */
    method SkipComments()
      requires Valid()
      modifies this`pos
      ensures Valid() && old(pos) <= pos
      ensures !(old(pos) < |input| && StartsWithAt(old(pos), "/*")) ==> pos == old(pos)
      ensures old(pos) < |input| && StartsWithAt(old(pos), "/*") ==>
        old(pos) + 2 <= pos &&
        (forall m :: old(pos) + 2 <= m < pos - 2 ==> !CloseAt(m)) &&
        ((old(pos) + 4 <= pos && CloseAt(pos - 2)) ||
         (pos == |input| && forall m :: old(pos) + 2 <= m < pos ==> !CloseAt(m)))
      ensures pos == CommentEnd(old(pos))
    {
      ghost var start := pos;
      var open := Consume("/*");
      if open {
        while true
          invariant Valid() && start + 2 <= pos
          invariant forall m :: start + 2 <= m < pos ==> !CloseAt(m)
          invariant CloseEnd(start + 2) == CloseEnd(pos)
          decreases |input| - pos
        {
          var c := Next();
          if c == EOF {
            return;
          }
          if c == '*' as int && At(pos) == '/' as int {
            c := Next();
            return;
          }
        }
      }
    }

    /** Tokenizer.skipSpace: skips the whitespace run at the cursor and returns its length. */
    method SkipSpace() returns (n: nat)
      requires Valid()
      modifies this`pos
      ensures Valid() && pos == old(pos) + n && n == SpaceRun(old(pos))
    {
      n := 0;
      while IsSpace(At(pos))
        invariant Valid() && pos == old(pos) + n
        invariant SpaceRun(old(pos)) == n + SpaceRun(pos)
        decreases |input| - pos
      {
        n := n + 1;
        var c := Next();
      }
    }

    // -------------------------------------------------------------------------
    // Escapes, names and numbers.
    // -------------------------------------------------------------------------

    /**
     * Tokenizer.consumeEscape, with the backslash already consumed: at the end
     * U+FFFD; up to six hex digits and one following whitespace give the code
     * point they spell (U+FFFD for 0, surrogates and values past U+10FFFF);
     * any other code point stands for itself.
     */
    method ConsumeEscape() returns (c: char)
      requires Valid()
      modifies this`pos
      ensures Valid() && old(pos) <= pos <= old(pos) + 7
      ensures old(pos) == |input| ==> c as int == REPLACEMENT_CHAR && pos == old(pos)
      ensures old(pos) < |input| && !IsHexDigit(At(old(pos))) ==>
        c == input[old(pos)] && pos == old(pos) + 1
      ensures old(pos) < |input| && IsHexDigit(At(old(pos))) ==>
        var k := HexRun(old(pos), 6);
        1 <= k &&
        c as int == EscapedCodePoint(HexValueAt(old(pos), k)) &&
        pos == old(pos) + k + (if IsSpace(At(old(pos) + k)) then 1 else 0)
      ensures c == EscapeChar(old(pos)) && pos == EscapeEnd(old(pos))
    {
      if pos >= |input| {
        return REPLACEMENT_CHAR as char;
      }
      if IsHexDigit(At(pos)) {
        ghost var start := pos;
        var uc := ConsumeHex(6);
        assert 1 <= pos - start == HexRun(start, 6) <= 6;
        var v := EscapedCodePoint(uc);
        if IsSpace(At(pos)) {
          var sp := Next();
        }
        c := v as char;
        return;
      }
      var d := Next();
      c := input[pos - 1];
    }

    /**
     * Tokenizer.consumeName: consumes name code points and valid escapes and
     * stops before the first code point that is neither. A name start (or an
     * escape) at the cursor makes it consume something, and a name written
     * without backslashes is returned as it stands in the input.
     */
    method ConsumeName() returns (name: string)
      requires Valid()
      modifies this`pos, this`mark
      ensures Valid() && old(pos) <= pos
      ensures NameAt(old(pos)) == Scan(name, pos, false)
    {
      name := "";
      ghost var start := pos;
      ghost var whole := NameAt(start);
      var more := true;
      while more
        invariant Valid() && start <= pos
        invariant NameFrom(pos, name) == whole
        invariant !more ==> whole == Scan(name, pos, false)
        decreases |input| - pos, more
      {
        name, more := ConsumeNamePart(name);
      }
    }

    /**
     * One turn of consumeName's loop: a name code point or a valid escape at
     * the cursor is consumed and what it stands for appended to `name`;
     * anything else ends the name and is left where it is.
     */
    method ConsumeNamePart(name: string) returns (r: string, more: bool)
      requires Valid()
      modifies this`pos, this`mark
      ensures Valid()
      ensures more ==> old(pos) < pos && NameFrom(old(pos), name) == NameFrom(pos, r)
      ensures !more ==> r == name && pos == old(pos) && NameFrom(pos, name) == Scan(name, pos, false)
    {
      mark := pos;
      var c := Next();
      if IsName(c) {
        NameTakes(mark, name);
        return name + [input[pos - 1]], true;
      } else if IsValidEscape(c, At(pos)) {
        NameEscapes(mark, name);
        var e := ConsumeEscape();
        return name + [e], true;
      }
      pos := mark;
      NameEnds(pos, name);
      return name, false;
    }

    /**
     * The loop `(v << 4) + hexValue(next())` over at most `limit` hex digits,
     * shared by escapes and Unicode ranges: it consumes the hex run and
     * returns its value.
     */
    method ConsumeHex(limit: nat) returns (v: nat)
      requires Valid()
      modifies this`pos
      ensures Valid()
      ensures pos == old(pos) + HexRun(old(pos), limit)
      ensures v == HexValueAt(old(pos), pos - old(pos))
    {
      v := 0;
      var len := limit;
      while len > 0 && IsHexDigit(At(pos))
        invariant Valid() && old(pos) <= pos && 0 <= len <= limit && pos - old(pos) == limit - len
        invariant HexRun(old(pos), limit) == (pos - old(pos)) + HexRun(pos, len)
        invariant v == HexValueAt(old(pos), pos - old(pos))
      {
        var d := Next();
        v := v * 16 + HexValue(d);
        len := len - 1;
      }
    }

    /** `while (isDigit(peek())) sb.appendCodePoint(next())`. */
    method ConsumeDigits(sb: string) returns (r: string)
      requires Valid()
      modifies this`pos
      ensures Valid()
      ensures pos == old(pos) + DigitRun(old(pos))
      ensures r == sb + input[old(pos)..pos]
    {
      r := sb;
      while IsDigit(At(pos))
        invariant Valid() && old(pos) <= pos
        invariant DigitRun(old(pos)) == (pos - old(pos)) + DigitRun(pos)
        invariant r == sb + input[old(pos)..pos]
        decreases |input| - pos
      {
        var c := Next();
        r := r + [input[pos - 1]];
      }
    }

    /**
     * Tokenizer.consumeNumber: an optional sign, digits, a fraction (a dot
     * and at least one digit) and an exponent (e or E, an optional sign and at
     * least one digit). The token's text is exactly the consumed input, and it
     * is an integer exactly when it has neither fraction nor exponent.
     */
    method ConsumeNumber() returns (t: Token)
      requires Valid()
      modifies this`pos, this`mark
      ensures Valid() && pos == NumberEnd(old(pos))
      ensures t == NumberToken(old(pos), input[old(pos)..pos], IsIntegerAt(old(pos)))
    {
      var p := pos;
      var sb := "";
      var c := At(pos);
      if c == '+' as int || c == '-' as int {
        c := Next();
        sb := sb + [input[pos - 1]];
      }
      assert pos == p + SignLen(p) && sb == input[p..pos];
      sb := ConsumeDigits(sb);
      ghost var e1 := pos;
      assert e1 == IntegerEnd(p);
      var fraction;
      sb, fraction := ConsumeFraction(p, sb);
      ghost var e2 := pos;
      assert e2 == FractionEnd(e1);
      var exponent;
      sb, exponent := ConsumeExponent(p, sb);
      assert pos == ExponentEnd(e2);
      return NumberToken(p, sb, !fraction && !exponent);
    }

    /** The fraction part of consumeNumber: a dot followed by a digit, then the digits. */
    method ConsumeFraction(ghost p: nat, sb: string) returns (r: string, fraction: bool)
      requires Valid() && p <= pos && sb == input[p..pos]
      modifies this`pos, this`mark
      ensures Valid() && pos == FractionEnd(old(pos)) && fraction == HasFraction(old(pos))
      ensures r == input[p..pos]
    {
      mark := pos;
      var c1 := Next();
      var c2 := Next();
      if c1 == '.' as int && IsDigit(c2) {
        assert input[p..pos] == sb + [input[pos - 2], input[pos - 1]];
        r := ConsumeDigits(sb + [input[pos - 2], input[pos - 1]]);
        fraction := true;
      } else {
        pos := mark;
        r := sb;
        fraction := false;
      }
    }

    /** The exponent part of consumeNumber: e or E, an optional sign and a digit, then the digits. */
    method ConsumeExponent(ghost p: nat, sb: string) returns (r: string, exponent: bool)
      requires Valid() && p <= pos && sb == input[p..pos]
      modifies this`pos
      ensures Valid() && pos == ExponentEnd(old(pos)) && exponent == HasExponent(old(pos))
      ensures r == input[p..pos]
    {
      exponent := HasExponent(pos);
      r := sb;
      if exponent {
        var c1 := Next();
        var c2 := Next();
        assert input[p..pos] == sb + [input[pos - 2], input[pos - 1]];
        r := ConsumeDigits(sb + [input[pos - 2], input[pos - 1]]);
      }
    }

    /**
     * Tokenizer.consumeNumericToken: a number followed by '%' is a percentage,
     * a number followed by an identifier start is a dimension whose unit is
     * the name that follows, anything else leaves the number alone.
     */
    method ConsumeNumericToken() returns (t: Token)
      requires Valid()
      modifies this`pos, this`mark
      ensures Valid() && NumberEnd(old(pos)) <= pos
      ensures var e := NumberEnd(old(pos));
        var v := input[old(pos)..e];
        var integer := IsIntegerAt(old(pos));
        if At(e) == '%' as int then
          t == PercentageToken(old(pos), v, integer) && pos == e + 1
        else if StartsIdent(e) then
          t.detail.Dimensioned? && t == DimensionToken(old(pos), v, integer, t.detail.unit) && e < pos &&
          (NoBackslash(e, pos) ==> t.detail.unit == input[e..pos]) &&
          t.detail.unit == NameAt(e).value && pos == NameAt(e).stop
        else
          t == NumberToken(old(pos), v, integer) && pos == e
      ensures NumericAt(old(pos)) == Lexed(t, pos)
    {
      var number := ConsumeNumber();
      if At(pos) == '%' as int {
        var c := Next();
        return PercentageToken(number.position, number.value, number.Integer());
      }
      if StartsIdent(pos) {
        NameShape(pos);
        var unit := ConsumeName();
        return DimensionToken(number.position, number.value, number.Integer(), unit);
      }
      return number;
    }

    /**
     * Tokenizer.consumeIdentLikeToken: a name; followed by '(' it is a function,
     * or, when the name is "url" in any case, the start of a URL token.
     */
    method ConsumeIdentLikeToken() returns (t: Token)
      requires Valid() && StartsIdent(pos)
      modifies this`pos, this`mark
      ensures Valid() && old(pos) < pos
      ensures IdentLikeAt(old(pos)) == Lexed(t, pos)
    {
      var p := pos;
      var name := ConsumeName();
      ghost var q := pos;
      if At(pos) == '(' as int {
        var c := Next();
        assert pos == q + 1 && input[q] == '(';
        if EqualsIgnoreCase(name, "url") {
          t := ConsumeUrlToken();
        } else {
          t := Token(Function, p, name, Plain);
        }
      } else {
        t := Token(Ident, p, name, Plain);
      }
    }

    /**
     * Tokenizer.consumeStringToken, with the cursor on the opening quote. A raw
     * newline ends it as a bad string, left unconsumed; the end of the input
     * or the matching quote ends it as a string. A string whose text holds no
     * backslash is returned as it stands in the input.
     */
    method ConsumeStringToken(apostrophe: bool) returns (t: Token)
      requires Valid() && pos < |input|
      modifies this`pos, this`mark
      ensures Valid() && old(pos) < pos
      ensures StringTokenAt(old(pos), apostrophe) == Lexed(t, pos)
    {
      var q := Quote(apostrophe);
      var sb := "";
      var p := pos;
      var c := Next();
      ghost var whole := StringAt(pos, q);
      var more, bad := true, false;
      while more
        invariant Valid() && p < pos
        invariant more ==> StringFrom(pos, q, sb) == whole
        invariant !more ==> whole == Scan(sb, pos, bad)
        decreases |input| - pos, more
      {
        sb, more, bad := ConsumeStringPart(apostrophe, sb);
      }
      StringPlain(p + 1, apostrophe, "");
      if bad {
        t := Token(BadString, p, "", Plain);
      } else {
        t := Token(String, p, sb, Plain);
      }
    }

    /**
     * One turn of consumeStringToken's loop: the end of the input or the
     * closing quote ends the string, a raw newline ends it as a bad one and
     * is left where it is, and anything else adds what it stands for to `sb`.
     */
    method ConsumeStringPart(apostrophe: bool, sb: string) returns (r: string, more: bool, bad: bool)
      requires Valid()
      modifies this`pos, this`mark
      ensures Valid()
      ensures more ==> old(pos) < pos && StringFrom(old(pos), Quote(apostrophe), sb) == StringFrom(pos, Quote(apostrophe), r)
      ensures !more ==> r == sb && StringFrom(old(pos), Quote(apostrophe), sb) == Scan(sb, pos, bad)
    {
      var q := Quote(apostrophe);
      mark := pos;
      var c := Next();
      if c == EOF || c == q as int {
        StringCloses(mark, q, sb);
        return sb, false, false;
      }
      if c == LF as int {
        pos := mark;
        StringBreaks(pos, q, sb);
        return sb, false, true;
      }
      if c == '\\' as int {
        StringBackslash(mark, q, sb);
        var e := pos;
        r := ConsumeStringEscape(sb);
        if e == |input| {
          assert r == sb && pos == e;
        } else if input[e] == LF {
          assert r == sb && pos == e + 1;
        } else {
          assert r == sb + [EscapeChar(e)] && pos == EscapeEnd(e);
        }
        return r, true, false;
      }
      StringTakes(mark, q, sb);
      return sb + [input[pos - 1]], true, false;
    }

    /**
     * The backslash case of consumeStringToken's loop: at the end of the input
     * nothing is added, an escaped newline is skipped, anything else is an
     * escape whose code point is appended.
     */
    method ConsumeStringEscape(sb: string) returns (r: string)
      requires Valid()
      modifies this`pos
      ensures Valid() && old(pos) <= pos
      ensures old(pos) == |input| ==> r == sb && pos == old(pos)
      ensures At(old(pos)) == LF as int ==> r == sb && pos == old(pos) + 1
      ensures old(pos) < |input| && At(old(pos)) != LF as int ==> |r| == |sb| + 1 && r[..|sb|] == sb
      ensures old(pos) < |input| && At(old(pos)) != LF as int ==>
        r == sb + [EscapeChar(old(pos))] && pos == EscapeEnd(old(pos))
    {
      r := sb;
      var d := At(pos);
      if d != EOF {
        if d == LF as int {
          d := Next();
        } else {
          var x := ConsumeEscape();
          r := sb + [x];
        }
      }
    }

    /** Tokenizer.consumeBadUrl: skips to just past the next ')' not escaped, or to the end. */
    method ConsumeBadUrl()
      requires Valid()
      modifies this`pos
      ensures Valid() && old(pos) <= pos
      ensures pos == |input| || (old(pos) < pos && input[pos - 1] == ')')
      ensures pos == BadUrlEnd(old(pos))
    {
      while true
        invariant Valid() && old(pos) <= pos
        invariant BadUrlEnd(old(pos)) == BadUrlEnd(pos)
        decreases |input| - pos
      {
        var c := Next();
        if c == ')' as int || c == EOF {
          break;
        }
        if IsValidEscape(c, At(pos)) {
          var e := ConsumeEscape();
        }
      }
    }

    /**
     * Tokenizer.consumeUrlToken, with "url(" already consumed. It always ends
     * just past a ')' or at the end of the input. An unquoted URL that runs
     * to ')' or the end without whitespace, quotes, '(', backslashes or
     * non-printable code points is a URL token holding that text.
     */
    method ConsumeUrlToken() returns (t: Token)
      requires Valid()
      modifies this`pos, this`mark
      ensures Valid() && old(pos) <= pos
      ensures UrlTokenAt(old(pos)) == Lexed(t, pos)
    {
      var start := pos;
      var n := SkipSpace();
      var p := pos;
      if pos >= |input| {
        return PlainToken(Url, p, "");
      }
      if input[pos] == '\'' || input[pos] == '"' {
        var apostrophe := input[pos] == '\'';
        UrlTokenQuote(start, apostrophe);
        t := ConsumeQuotedUrl(apostrophe);
      } else {
        UrlTokenBare(start);
        t := ConsumeUnquotedUrl();
      }
    }

    /** The branch of consumeUrlToken for a quoted URL: a string, whitespace, then ')' or the end. */
    method ConsumeQuotedUrl(apostrophe: bool) returns (t: Token)
      requires Valid() && pos < |input|
      modifies this`pos, this`mark
      ensures Valid() && old(pos) < pos
      ensures QuotedUrlAt(old(pos), apostrophe) == Lexed(t, pos)
    {
      var p := pos;
      var token := ConsumeStringToken(apostrophe);
      QuotedUrlAfterString(p, apostrophe, Lexed(token, pos));
      if token.kind == BadString {
        t := ConsumeBadUrlToken(token.value);
      } else {
        t := FinishQuotedUrl(p, token.value);
      }
    }

    /** What consumeUrlToken does after a well-formed string: whitespace, then ')' or the end ends the URL. */
    method FinishQuotedUrl(p: nat, value: string) returns (t: Token)
      requires Valid() && p < pos
      modifies this`pos
      ensures Valid() && old(pos) <= pos
      ensures AfterQuotedUrl(old(pos), p, value) == Lexed(t, pos)
    {
      var n := SkipSpace();
      var c := At(pos);
      if c == ')' as int || c == EOF {
        if c == ')' as int {
          c := Next();
        }
        t := PlainToken(Url, p, value);
      } else {
        t := ConsumeBadUrlToken(value);
      }
    }

    /** `p = pos; consumeBadUrl(); return new Token(BAD_URL, p, value)`, which consumeUrlToken repeats. */
    method ConsumeBadUrlToken(value: string) returns (t: Token)
      requires Valid()
      modifies this`pos
      ensures Valid() && old(pos) <= pos
      ensures t == PlainToken(BadUrl, old(pos), value)
      ensures pos == |input| || (old(pos) < pos && input[pos - 1] == ')')
      ensures pos == BadUrlEnd(old(pos))
    {
      var p := pos;
      ConsumeBadUrl();
      return PlainToken(BadUrl, p, value);
    }

    /** The loop of consumeUrlToken for an unquoted URL. */
    method ConsumeUnquotedUrl() returns (t: Token)
      requires Valid()
      modifies this`pos, this`mark
      ensures Valid() && old(pos) <= pos
      ensures UnquotedUrlTokenAt(old(pos)) == Lexed(t, pos)
    {
      var p := pos;
      var sb, bad := ScanUrl();
      if bad {
        t := ConsumeBadUrlToken("");
      } else {
        t := PlainToken(Url, p, sb);
      }
    }

    /**
     * The loop of consumeUrlToken for an unquoted URL up to its end: just
     * past ')' or at the end of the input (`bad` false), or just past a code
     * point that makes the URL bad (`bad` true).
     */
    method ScanUrl() returns (sb: string, bad: bool)
      requires Valid()
      modifies this`pos
      ensures Valid() && old(pos) <= pos
      ensures !bad ==> pos == |input| || (old(pos) < pos && input[pos - 1] == ')')
      ensures var e := UrlEnd(old(pos));
        e == |input| || input[e] == ')' ==>
          !bad && sb == input[old(pos)..e] && pos == (if e < |input| then e + 1 else e)
      ensures UnquotedUrlAt(old(pos)) == Scan(sb, pos, bad)
    {
      var p := pos;
      ghost var whole := UnquotedUrlAt(p);
      sb, bad := "", false;
      var spaceSeen, more := false, true;
      while more
        invariant Valid() && p <= pos
        invariant more ==> UrlFrom(pos, spaceSeen, sb) == whole
        invariant !more ==> whole == Scan(sb, pos, bad)
        decreases |input| - pos, more
      {
        sb, spaceSeen, more, bad := ConsumeUrlPart(sb, spaceSeen);
      }
      UnquotedUrlPlain(p);
    }

    /**
     * One turn of the loop of consumeUrlToken for an unquoted URL: ')' or the
     * end of the input ends it, whitespace is skipped and remembered, a code
     * point that makes the URL bad ends it as a bad one, and anything else
     * adds what it stands for to `sb`.
     */
    method ConsumeUrlPart(sb: string, spaceSeen: bool) returns (r: string, seen: bool, more: bool, bad: bool)
      requires Valid()
      modifies this`pos
      ensures Valid()
      ensures more ==> old(pos) < pos && UrlFrom(old(pos), spaceSeen, sb) == UrlFrom(pos, seen, r)
      ensures !more ==> r == sb && UrlFrom(old(pos), spaceSeen, sb) == Scan(sb, pos, bad)
    {
      ghost var m := pos;
      var c := Next();
      if c == ')' as int || c == EOF {
        UrlCloses(m, spaceSeen, sb);
        return sb, spaceSeen, false, false;
      }
      if IsSpace(c) {
        UrlSpace(m, spaceSeen, sb);
        var n := SkipSpace();
        return sb, true, true, false;
      }
      if spaceSeen || c == '\'' as int || c == '"' as int || c == '(' as int || IsNonPrintable(c) ||
         (c == '\\' as int && !IsValidEscape(c, At(pos))) {
        UrlBad(m, spaceSeen, sb);
        return sb, spaceSeen, false, true;
      }
      if c == '\\' as int {
        UrlEscapes(m, sb);
        var e := ConsumeEscape();
        return sb + [e], spaceSeen, true, false;
      }
      UrlTakes(m, sb);
      return sb + [input[pos - 1]], spaceSeen, true, false;
    }

    // -------------------------------------------------------------------------
    // Unicode ranges.
    // -------------------------------------------------------------------------

    /**
     * What consumeUnicodeRangeToken reads when started at `i`, just past
     * "u+": the start and end of the range and where it stops. Up to six hex
     * digits, then question marks up to six code points in all; with q > 0
     * question marks the range covers every value the wildcards allow,
     * otherwise a '-' and hex digits give the end, or the range is the one
     * start value.
     */
    function UnicodeRangeAt(i: nat): (r: RangeScan)
      ensures i <= r.stop <= i + 13
    {
      var h := HexRun(i, 6);
      RangeAfterDigits(i + h, HexValueAt(i, h), h)
    }

    /** The part of UnicodeRangeAt after `n` digits of value `v`, which end at `j`. */
    function RangeAfterDigits(j: nat, v: nat, n: nat): (r: RangeScan)
      requires n <= 6
      ensures j <= r.stop <= j + 7
    {
      var q := QuestionRun(j, 6 - n);
      if q > 0 then RangeScan(WidenStart(v, q), WidenEnd(v, q), j + q)
      else if At(j) == '-' as int && IsHexDigit(At(j + 1)) then
        var h := HexRun(j + 1, 6);
        RangeScan(v, HexValueAt(j + 1, h), j + 1 + h)
      else RangeScan(v, v, j)
    }

    /** `start << 4`, q times. */
    static function WidenStart(v: nat, q: nat): nat {
      if q == 0 then v else WidenStart(v, q - 1) * 16
    }

    /** `(end << 4) + 15`, q times. */
    static function WidenEnd(v: nat, q: nat): nat {
      if q == 0 then v else WidenEnd(v, q - 1) * 16 + 15
    }

    /** Each wildcard multiplies the start by 16 and widens the range to the next power of 16. */
    static lemma {:induction false} WidenBounds(v: nat, q: nat)
      ensures WidenStart(v, q) == v * Pow16(q)
      ensures WidenEnd(v, q) - WidenStart(v, q) == Pow16(q) - 1
    {
      if q > 0 {
        WidenBounds(v, q - 1);
        var p := Pow16(q - 1);
        assert Pow16(q) == 16 * p;
        assert WidenStart(v, q) == 16 * (v * p);
      }
    }

    /**
     * The Unicode range a token covers: at most six digits and wildcards are
     * read; with q > 0 wildcards the range starts at the digits' value times
     * 16^q and holds exactly 16^q values; without wildcards and without a
     * "-hex" end it is a single value.
     */
    lemma UnicodeRangeBounds(i: nat, h: nat, q: nat, r: RangeScan)
      requires h == HexRun(i, 6) && q == QuestionRun(i + h, 6 - h) && r == UnicodeRangeAt(i)
      ensures h + q <= 6
      ensures q > 0 ==> r.start <= r.end && r.end - r.start == Pow16(q) - 1 && r.stop == i + h + q
      ensures q == 0 && !(At(i + h) == '-' as int && IsHexDigit(At(i + h + 1))) ==> r.start == r.end && r.stop == i + h
    {
      var v := HexValueAt(i, h);
      assert r == RangeAfterDigits(i + h, v, h);
      RangeAfterDigitsBounds(i + h, v, h);
      if q > 0 {
        assert r.end - r.start == Pow16(q) - 1 && r.stop == i + h + q;
      }
    }

    lemma RangeAfterDigitsBounds(j: nat, v: nat, n: nat)
      requires n <= 6
      ensures var q := QuestionRun(j, 6 - n);
        var r := RangeAfterDigits(j, v, n);
        n + q <= 6 &&
        (q > 0 ==> r.start == v * Pow16(q) && r.start <= r.end && r.end - r.start == Pow16(q) - 1 && r.stop == j + q) &&
        (q == 0 && !(At(j) == '-' as int && IsHexDigit(At(j + 1))) ==> r.start == v && r.end == v && r.stop == j)
    {
      var q := QuestionRun(j, 6 - n);
      if q > 0 {
        WidenBounds(v, q);
      }
    }

    /** Tokenizer.consumeUnicodeRangeToken, with "u+" already consumed; the token's position is the one just past "u+". */
    method ConsumeUnicodeRangeToken() returns (t: Token)
      requires Valid()
      modifies this`pos
      ensures Valid()
      ensures var r := UnicodeRangeAt(old(pos));
        t == UnicodeRangeToken(old(pos), r.start, r.end) && pos == r.stop
    {
      var p := pos;
      var start, end := ConsumeRangeBounds();
      return UnicodeRangeToken(p, start, end);
    }

    /** The loops of consumeUnicodeRangeToken, which read the start and the end of the range. */
    method ConsumeRangeBounds() returns (start: nat, end: nat)
      requires Valid()
      modifies this`pos
      ensures Valid() && RangeScan(start, end, pos) == UnicodeRangeAt(old(pos))
    {
      var p := pos;
      var value := ConsumeHex(6);
      assert UnicodeRangeAt(p) == RangeAfterDigits(pos, value, pos - p);
      start, end := ConsumeRangeRest(value, pos - p);
    }

    /** consumeUnicodeRangeToken after the `length` digits of value `value`: the wildcards, or a '-' and the end digits. */
    method ConsumeRangeRest(value: nat, length: nat) returns (start: nat, end: nat)
      requires Valid() && length <= 6
      modifies this`pos
      ensures Valid() && RangeScan(start, end, pos) == RangeAfterDigits(old(pos), value, length)
    {
      var q := ConsumeQuestions(6 - length);
      if q != 0 {
        start, end := Widen(value, q);
      } else if At(pos) == '-' as int && IsHexDigit(At(pos + 1)) {
        var c := Next();
        start := value;
        end := ConsumeHex(6);
      } else {
        start, end := value, value;
      }
    }

    /** The wildcard loop of consumeUnicodeRangeToken: at most `limit` question marks. */
    method ConsumeQuestions(limit: nat) returns (q: nat)
      requires Valid()
      modifies this`pos
      ensures Valid() && q == QuestionRun(old(pos), limit) && pos == old(pos) + q
    {
      q := 0;
      while q < limit && At(pos) == '?' as int
        invariant Valid() && pos == old(pos) + q && q <= limit
        invariant QuestionRun(old(pos), limit) == q + QuestionRun(pos, limit - q)
      {
        var c := Next();
        q := q + 1;
      }
    }

    /** The loop `start = start << 4; end = (end << 4) + 15`, run q times. */
    static method Widen(value: nat, q: nat) returns (start: nat, end: nat)
      ensures start == WidenStart(value, q) && end == WidenEnd(value, q)
    {
      start, end := value, value;
      var i := 0;
      while i < q
        invariant i <= q
        invariant start == WidenStart(value, i) && end == WidenEnd(value, i)
      {
        start := start * 16;
        end := end * 16 + 15;
        i := i + 1;
      }
    }

    // -------------------------------------------------------------------------
    // nextToken.
    // -------------------------------------------------------------------------

    /** What every token nextToken reads from the input satisfies: progress, a position inside what was read, and the right detail. */
    ghost predicate Read(t: Token, start: nat)
      reads this
    {
      Valid() && ReadFrom(Lexed(t, pos), start)
    }

    /**
     * Tokenizer.nextToken: past the end the shared EOF token, with the cursor
     * left where it is; otherwise one comment is skipped and, unless that
     * reaches the end, the next token is read, which moves the cursor forward.
     * A whitespace run becomes one WHITESPACE token with an empty value.
     */
    method NextToken() returns (t: Token)
      requires Valid()
      modifies this`pos, this`mark, this`emitted
      ensures Valid() && emitted == old(emitted) + [t] && old(pos) <= pos
      ensures t.WellKinded()
      ensures old(pos) >= |input| ==> t == EofToken && pos == old(pos)
      ensures t.kind == Eof ==> t == EofToken && pos == |input|
      ensures t.kind != Eof ==> old(pos) < pos && old(pos) <= t.position <= pos
      ensures old(pos) < |input| && IsSpace(At(old(pos))) ==>
        t == Token(Whitespace, old(pos), "", Plain) && pos == old(pos) + SpaceRun(old(pos))
      ensures old(pos) < |input| ==>
        var q := CommentEnd(old(pos));
        if q == |input| then t == EofToken && pos == q else TokenAt(q) == Lexed(t, pos)
    {
      if IsEof() {
        t := EofToken;
      } else {
        var p := pos;
        SkipComments();
        assert p + 2 <= |input| ==> input[p..p + 2][0] == input[p];
        assert IsSpace(At(p)) ==> pos == p;
        if IsEof() {
          t := EofToken;
        } else {
          t := ScanToken();
        }
      }
      emitted := emitted + [t];
    }

    /** The part of nextToken after comments: a whitespace run, or the token that starts here. */
    method ScanToken() returns (t: Token)
      requires Valid() && pos < |input|
      modifies this`pos, this`mark
      ensures Read(t, old(pos))
      ensures IsSpace(At(old(pos))) ==>
        t == Token(Whitespace, old(pos), "", Plain) && pos == old(pos) + SpaceRun(old(pos))
      ensures TokenAt(old(pos)) == Lexed(t, pos)
    {
      var p := pos;
      var n := SkipSpace();
      if n > 0 {
        TokenAtSpace(p);
        return Token(Whitespace, p, "", Plain);
      }
      mark := pos;
      var c := Next();
      t := ScanSwitch(c);
    }

    /** The switch of nextToken on the code point `c` just read, which is not whitespace. */
    method ScanSwitch(c: int) returns (t: Token)
      requires Valid() && 0 < pos && mark == pos - 1 && input[pos - 1] as int == c && !IsSpace(c)
      modifies this`pos, this`mark
      ensures Read(t, old(pos) - 1)
      ensures TokenAt(old(pos) - 1) == Lexed(t, pos)
    {
      if c == '"' as int || c == '\'' as int {
        t := ScanString(c == '\'' as int);
      } else if c == '$' as int || c == '*' as int || c == '^' as int || c == '~' as int || c == '|' as int {
        t := ScanMatchOrDelim(c);
      } else if c == '(' as int || c == ')' as int || c == ',' as int || c == ':' as int || c == ';' as int ||
                c == '[' as int || c == ']' as int || c == '{' as int || c == '}' as int {
        t := ScanPunctuation();
      } else if c == '+' as int || c == '-' as int || c == '.' as int || IsDigit(c) {
        t := ScanNumberLike();
      } else {
        t := ScanOther();
      }
    }

    /** The cases '"' and '\'' of nextToken: the quote just read opens a string. */
    method ScanString(apostrophe: bool) returns (t: Token)
      requires Valid() && 0 < pos && mark == pos - 1 && input[pos - 1] == Quote(apostrophe)
      modifies this`pos, this`mark
      ensures Read(t, old(pos) - 1)
      ensures TokenAt(old(pos) - 1) == Lexed(t, pos)
    {
      var p := pos - 1;
      pos := mark;
      TokenAtString(p, apostrophe);
      t := ConsumeStringToken(apostrophe);
      StringTokenShape(p, apostrophe);
    }

    /** The one-code-point cases of nextToken: the punctuation just read is the token. */
    method ScanPunctuation() returns (t: Token)
      requires Valid() && 0 < pos && input[pos - 1] in "(),:;[]{}"
      ensures Read(t, pos - 1) && t == Token(PunctuationKind(input[pos - 1]), pos - 1, [input[pos - 1]], Plain)
      ensures TokenAt(pos - 1) == Lexed(t, pos)
    {
      var p := pos - 1;
      TokenAtPunctuation(p);
      t := Token(PunctuationKind(input[p]), p, [input[p]], Plain);
    }

    /** The one-code-point tokens of nextToken: parentheses, brackets, braces, comma, colon and semicolon. */
    static function PunctuationKind(c: char): (kind: TokenType)
      requires c in "(),:;[]{}"
    {
      match c
      case '(' => LeftParen case ')' => RightParen case ',' => Comma case ':' => Colon
      case ';' => Semicolon case '[' => LeftSquareBracket case ']' => RightSquareBracket
      case '{' => LeftCurlyBracket case _ => RightCurlyBracket
    }

    /**
     * The cases '$', '*', '^', '~' and '|' of nextToken, with the code point
     * just read: followed by '=' they are the attribute match operators,
     * "||" is a column, anything else a delimiter.
     */
    method ScanMatchOrDelim(c: int) returns (t: Token)
      requires Valid() && 0 < pos && input[pos - 1] as int == c && c in {'$' as int, '*' as int, '^' as int, '~' as int, '|' as int}
      modifies this`pos
      ensures Read(t, old(pos) - 1) && t.detail == Plain && t.position == old(pos) - 1
      ensures At(old(pos)) == '=' as int ==>
        pos == old(pos) + 1 && t.value == [input[old(pos) - 1], '='] &&
        t.kind == (if c == '$' as int then SuffixMatch else if c == '*' as int then SubstringMatch
                   else if c == '^' as int then PrefixMatch else if c == '~' as int then IncludeMatch else DashMatch)
      ensures At(old(pos)) != '=' as int && c == '|' as int && At(old(pos)) == '|' as int ==>
        t == Token(Column, old(pos) - 1, "||", Plain) && pos == old(pos) + 1
      ensures At(old(pos)) != '=' as int && !(c == '|' as int && At(old(pos)) == '|' as int) ==>
        t == Token(Delim, old(pos) - 1, [input[old(pos) - 1]], Plain) && pos == old(pos)
      ensures MatchOrDelimAt(old(pos) - 1) == Lexed(t, pos)
      ensures TokenAt(old(pos) - 1) == Lexed(t, pos)
    {
      var p := pos - 1;
      TokenAtMatch(p);
      var d := At(pos);
      if d == '=' as int {
        var x := Next();
        var kind := if c == '$' as int then SuffixMatch else if c == '*' as int then SubstringMatch
                    else if c == '^' as int then PrefixMatch else if c == '~' as int then IncludeMatch else DashMatch;
        t := Token(kind, p, [input[p], '='], Plain);
      } else if c == '|' as int && d == '|' as int {
        var x := Next();
        t := Token(Column, p, "||", Plain);
      } else {
        t := Token(Delim, p, [input[p]], Plain);
      }
    }

    /**
     * The cases '+', '-', '.' and digits of nextToken, with the code point
     * just read: a number start is a numeric token, a '-' that starts an
     * identifier an ident-like token, "-->" a CDC, anything else a delimiter.
     */
    method ScanNumberLike() returns (t: Token)
      requires Valid() && 0 < pos && input[pos - 1] in "+-." + ['0', '1', '2', '3', '4', '5', '6', '7', '8', '9']
      modifies this`pos, this`mark
      ensures Read(t, old(pos) - 1)
      ensures StartsNumber(old(pos) - 1) <==> t.IsNumeric()
      ensures input[old(pos) - 1] == '-' && !StartsNumber(old(pos) - 1) && !StartsIdent(old(pos) - 1) ==>
        t == (if StartsWithAt(old(pos) - 1, "-->") then Token(Cdc, old(pos) - 1, "-->", Plain)
              else Token(Delim, old(pos) - 1, "-", Plain))
      ensures NumberLikeAt(old(pos) - 1) == Lexed(t, pos)
      ensures TokenAt(old(pos) - 1) == Lexed(t, pos)
    {
      var p := pos - 1;
      TokenAtNumberLike(p);
      pos := p;
      if StartsNumber(pos) {
        t := ConsumeNumericToken();
      } else if input[p] == '-' && StartsIdent(pos) {
        t := ConsumeIdentLikeToken();
        IdentLikeShape(p);
      } else {
        t := ScanCdcOrDelim();
      }
    }

    /** A '+', '-' or '.' that starts no number (and, for '-', no identifier): "-->" is a CDC, anything else a delimiter. */
    method ScanCdcOrDelim() returns (t: Token)
      requires Valid() && pos < |input| && input[pos] in "+-."
      modifies this`pos
      ensures Valid() && pos > old(pos) && t.detail == Plain && t.position == old(pos)
      ensures if input[old(pos)] == '-' && StartsWithAt(old(pos), "-->") then t == Token(Cdc, old(pos), "-->", Plain)
        else t == Token(Delim, old(pos), [input[old(pos)]], Plain)
      ensures CdcOrDelimAt(old(pos)) == Lexed(t, pos)
    {
      var p := pos;
      var cdc := input[p] == '-';
      if cdc {
        cdc := Consume("-->");
      }
      if cdc {
        t := Token(Cdc, p, "-->", Plain);
      } else {
        var x := Next();
        t := Token(Delim, p, [input[p]], Plain);
      }
    }

    /**
     * The remaining cases of nextToken, with the code point just read: '#',
     * '<', '@' and '\', then 'U' or 'u' before "+hex" or "+?", name starts,
     * and any other code point as a delimiter.
     */
    method ScanOther() returns (t: Token)
      requires Valid() && 0 < pos && !IsSpace(input[pos - 1] as int)
      requires input[pos - 1] !in "\"'$*^~|(),:;[]{}+-." && !IsDigit(input[pos - 1] as int)
      modifies this`pos, this`mark
      ensures Read(t, old(pos) - 1)
      ensures OtherAt(old(pos) - 1) == Lexed(t, pos)
      ensures TokenAt(old(pos) - 1) == Lexed(t, pos)
    {
      var p := pos - 1;
      TokenAtOther(p);
      var c := input[p] as int;
      if c == '#' as int {
        t := ScanHash();
      } else if c == '<' as int {
        var cdo := Consume("!--");
        t := if cdo then Token(Cdo, p, "<!--", Plain) else Token(Delim, p, "<", Plain);
      } else if c == '@' as int {
        if StartsIdent(pos) {
          var name := ConsumeName();
          t := Token(AtKeyword, p, name, Plain);
        } else {
          t := Token(Delim, p, "@", Plain);
        }
      } else {
        t := ScanIdentLike();
      }
      OtherShape(p);
    }

    /**
     * The case '#' of nextToken: a name after it makes a hash token, flagged
     * as an id when the name would start an identifier; otherwise '#' is a
     * delimiter.
     */
    method ScanHash() returns (t: Token)
      requires Valid() && 0 < pos && input[pos - 1] == '#'
      modifies this`pos, this`mark
      ensures Valid()
      ensures HashAt(old(pos) - 1) == Lexed(t, pos)
    {
      var p := pos - 1;
      if StartsIdent(pos) {
        var name := ConsumeName();
        t := HashToken(p, name, true);
      } else if IsName(At(pos)) || IsValidEscape(At(pos), At(pos + 1)) {
        var name := ConsumeName();
        t := HashToken(p, name, false);
      } else {
        t := Token(Delim, p, "#", Plain);
      }
    }

    /**
     * The last cases of nextToken: a backslash that starts a valid escape,
     * 'U' or 'u' not followed by a Unicode range, and name starts begin an
     * ident-like token; 'U' or 'u' before "+hex" or "+?" a Unicode range;
     * anything else is a delimiter holding that code point.
     */
    method ScanIdentLike() returns (t: Token)
      requires Valid() && 0 < pos && !IsSpace(input[pos - 1] as int)
      requires input[pos - 1] !in "\"'$*^~|(),:;[]{}+-.#<@" && !IsDigit(input[pos - 1] as int)
      modifies this`pos, this`mark
      ensures Valid()
      ensures NameLikeAt(old(pos) - 1) == Lexed(t, pos)
    {
      var p := pos - 1;
      var c := input[p] as int;
      if (c == 'U' as int || c == 'u' as int) && At(pos) == '+' as int && (At(pos + 1) == '?' as int || IsHexDigit(At(pos + 1))) {
        var x := Next();
        t := ConsumeUnicodeRangeToken();
      } else if IsNameStart(c) || IsValidEscape(c, At(pos)) {
        pos := p;
        t := ConsumeIdentLikeToken();
      } else {
        t := Token(Delim, p, [input[p]], Plain);
      }
    }
  }

  /**
   * Reads every token of `s`, up to and including the EOF token, with the
   * cursor after each. Each call of nextToken that does not return EOF moves
   * the cursor forward, so the loop ends; only the last token is EOF, every
   * token carries the detail of its type and lies inside the text it was read
   * from, and the EOF token is read at the end of the preprocessed input.
   */
  method Tokenize(s: string) returns (tokens: seq<Token>, ends: seq<nat>)
    ensures Streams.Replay(tokens, ends).Valid()
    ensures ends[|ends| - 1] == |Preprocess(s)|
  {
    var tk := new Tokenizer(s);
    tokens, ends := [], [];
    while true
      invariant tk.Valid() && tk.emitted == tokens && ReadInTurn(tokens, ends)
      invariant tk.pos == if ends == [] then 0 else ends[|ends| - 1]
      decreases |tk.input| - tk.pos
    {
      var t := tk.NextToken();
      if t.kind == Eof {
        EofCloses(tokens, ends, tk.pos);
        tokens, ends := tokens + [t], ends + [tk.pos];
        return;
      }
      ReadOneMore(tokens, ends, t, tk.pos);
      tokens, ends := tokens + [t], ends + [tk.pos];
    }
  }

  /**
   * Tokens other than EOF, each with the detail of its type, each read from
   * where the one before it stopped (0 for the first) up to its end, and
   * lying within what it was read from.
   */
  ghost predicate ReadInTurn(tokens: seq<Token>, ends: seq<nat>)
  {
    && |ends| == |tokens|
    && (forall k :: 0 <= k < |tokens| ==> tokens[k].kind != Eof && tokens[k].WellKinded())
    && (forall k, m :: 0 <= k < m < |ends| ==> ends[k] <= ends[m])
    && (forall k {:trigger tokens[k]} :: 0 <= k < |tokens| ==>
          var start := if k == 0 then 0 else ends[k - 1];
          start < ends[k] && start <= tokens[k].position <= ends[k])
  }

  /** A token read from where the last one stopped extends the tokens read in turn. */
  lemma ReadOneMore(tokens: seq<Token>, ends: seq<nat>, t: Token, e: nat)
    requires ReadInTurn(tokens, ends)
    requires t.kind != Eof && t.WellKinded()
    requires var start := if ends == [] then 0 else ends[|ends| - 1];
      start < e && start <= t.position <= e
    ensures ReadInTurn(tokens + [t], ends + [e])
  {
    KindsOneMore(tokens, t);
    SpansOneMore(tokens, ends, t, e);
  }

  /** One more token other than EOF keeps every token other than EOF and well kinded. */
  lemma KindsOneMore(tokens: seq<Token>, t: Token)
    requires forall k :: 0 <= k < |tokens| ==> tokens[k].kind != Eof && tokens[k].WellKinded()
    requires t.kind != Eof && t.WellKinded()
    ensures var ts := tokens + [t];
      forall k :: 0 <= k < |ts| ==> ts[k].kind != Eof && ts[k].WellKinded()
  {
    var ts := tokens + [t];
    forall k | 0 <= k < |ts|
      ensures ts[k].kind != Eof && ts[k].WellKinded()
    {
      if k < |tokens| {
        assert ts[k] == tokens[k];
      }
    }
  }

  /** One more token read from where the last one stopped keeps the ends in order and each token within its span. */
  lemma SpansOneMore(tokens: seq<Token>, ends: seq<nat>, t: Token, e: nat)
    requires ReadInTurn(tokens, ends)
    requires var start := if ends == [] then 0 else ends[|ends| - 1];
      start < e && start <= t.position <= e
    ensures var ts, es := tokens + [t], ends + [e];
      && (forall k, m :: 0 <= k < m < |es| ==> es[k] <= es[m])
      && (forall k {:trigger ts[k]} :: 0 <= k < |ts| ==>
            var start := if k == 0 then 0 else es[k - 1];
            start < es[k] && start <= ts[k].position <= es[k])
  {
    var ts, es := tokens + [t], ends + [e];
    forall k, m | 0 <= k < m < |es|
      ensures es[k] <= es[m]
    {
      assert es[k] == ends[k];
      if m < |ends| {
        assert es[m] == ends[m];
      } else if k < m - 1 {
        assert ends[k] <= ends[|ends| - 1];
      }
    }
    forall k | 0 <= k < |ts|
      ensures var start := if k == 0 then 0 else es[k - 1];
        start < es[k] && start <= ts[k].position <= es[k]
    {
      if k < |tokens| {
        assert ts[k] == tokens[k] && es[k] == ends[k];
        if k > 0 {
          assert es[k - 1] == ends[k - 1];
        }
      }
    }
  }

  /** Tokens read one after another, closed by EOF read where the last one stopped or later, can be replayed. */
  lemma EofCloses(tokens: seq<Token>, ends: seq<nat>, e: nat)
    requires ReadInTurn(tokens, ends) && (ends == [] || ends[|ends| - 1] <= e)
    ensures Streams.Replay(tokens + [EofToken], ends + [e]).Valid()
  {
    var r := Streams.Replay(tokens + [EofToken], ends + [e]);
    forall k | 0 <= k < |r.tokens|
      ensures r.tokens[k].WellKinded() && (k < |tokens| ==> !r.tokens[k].kind.Eof?)
    {
      if k < |tokens| {
        assert r.tokens[k] == tokens[k];
      }
    }
    forall k, m | 0 <= k < m < |r.ends|
      ensures r.ends[k] <= r.ends[m]
    {
      assert r.ends[k] == ends[k];
      if m < |ends| {
        assert r.ends[m] == ends[m];
      } else if k < m - 1 {
        assert ends[k] <= ends[|ends| - 1];
      }
    }
    forall k | 0 <= k < |tokens|
      ensures var start := if k == 0 then 0 else r.ends[k - 1];
        start < r.ends[k] && start <= r.tokens[k].position <= r.ends[k]
    {
      assert r.tokens[k] == tokens[k] && r.ends[k] == ends[k];
      if k > 0 {
        assert r.ends[k - 1] == ends[k - 1];
      }
    }
  }
}
