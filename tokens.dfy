/**
 * Tokens produced by the tokenizer. The Java class Token and its subclasses
 * UnicodeRange, Hash, Number and Dimension become one immutable datatype: the
 * common fields (type, position, value) plus a Detail that carries the fields
 * of the subclass.
 */
module Tokens {

  datatype TokenType =
    | AtKeyword
    | BadString | BadUrl
    | Cdc | Cdo | Colon | Column | Comma
    | DashMatch | Delim | Dimension
    | Eof
    | Function
    | Hash | Ident | IncludeMatch
    | LeftCurlyBracket | LeftParen | LeftSquareBracket
    | Number
    | Percentage | PrefixMatch
    | RightCurlyBracket | RightParen | RightSquareBracket
    | Semicolon | String | SubstringMatch | SuffixMatch
    | UnicodeRange | Url
    | Whitespace

  /** The fields a Token subclass adds. */
  datatype Detail =
    | Plain
    | Range(start: int, end: int)
    | HashFlag(id: bool)
    | Numeric(integer: bool)
    | Dimensioned(integer: bool, unit: string)

  datatype Token = Token(kind: TokenType, position: int, value: string, detail: Detail)
  {
    /** The detail is the one the Java subclass for this type carries. */
    predicate WellKinded() {
      match detail
      case Plain => !kind.UnicodeRange? && !kind.Hash? && !kind.Number? && !kind.Percentage? && !kind.Dimension?
      case Range(_, _) => kind.UnicodeRange?
      case HashFlag(_) => kind.Hash?
      case Numeric(_) => kind.Number? || kind.Percentage?
      case Dimensioned(_, _) => kind.Dimension?
    }

    /** `token instanceof Token.Number`: numbers, percentages and dimensions. */
    predicate IsNumeric() {
      detail.Numeric? || detail.Dimensioned?
    }

    function Integer(): bool
      requires IsNumeric()
    {
      detail.integer
    }
  }

  /** The shared end-of-file token: type EOF, position -1, empty value. */
  const EofToken: Token := Token(Eof, -1, "", Plain)

  /** `new Token(type, position, value)` for a type without a subclass. */
  function PlainToken(kind: TokenType, position: int, value: string): (t: Token)
    requires !kind.UnicodeRange? && !kind.Hash? && !kind.Number? && !kind.Percentage? && !kind.Dimension?
    ensures t.WellKinded() && !t.IsNumeric()
    ensures t.kind == kind && t.position == position && t.value == value
  {
    Token(kind, position, value, Plain)
  }

  /** The text of a Unicode range token, `U+%04X-U+%04X`. */
  function RangeText(start: nat, end: nat): string {
    "U+" + Hex4(start) + "-U+" + Hex4(end)
  }

  function HexDigitChar(d: nat): (c: char)
    requires d < 16
  {
    if d < 10 then ('0' as int + d) as char else ('A' as int + d - 10) as char
  }

  /** Upper-case hex, at least four digits. */
  function Hex4(n: nat): (s: string)
    ensures |s| >= 4
  {
    HexPadded(n, 4)
  }

  function HexPadded(n: nat, width: nat): (s: string)
    ensures |s| >= width
    decreases n + width
  {
    if n == 0 && width == 0 then ""
    else HexPadded(n / 16, if width == 0 then 0 else width - 1) + [HexDigitChar(n % 16)]
  }

  /** Token.UnicodeRange: type UNICODE_RANGE, start and end kept as given. */
  function UnicodeRangeToken(position: int, start: nat, end: nat): (t: Token)
    ensures t.WellKinded() && t.kind.UnicodeRange? && t.position == position
    ensures t.detail == Range(start, end) && t.value == RangeText(start, end)
  {
    Token(UnicodeRange, position, RangeText(start, end), Range(start, end))
  }

  /** Token.Hash: type HASH with its id flag. */
  function HashToken(position: int, value: string, id: bool): (t: Token)
    ensures t.WellKinded() && t.kind.Hash? && t.position == position && t.value == value && t.detail.id == id
  {
    Token(Hash, position, value, HashFlag(id))
  }

  /** Token.Number.number: type NUMBER with its integer flag. */
  function NumberToken(position: int, value: string, integer: bool): (t: Token)
    ensures t.WellKinded() && t.kind.Number? && t.IsNumeric()
    ensures t.position == position && t.value == value && t.Integer() == integer
  {
    Token(Number, position, value, Numeric(integer))
  }

  /** Token.Number.percentage: type PERCENTAGE with its integer flag. */
  function PercentageToken(position: int, value: string, integer: bool): (t: Token)
    ensures t.WellKinded() && t.kind.Percentage? && t.IsNumeric()
    ensures t.position == position && t.value == value && t.Integer() == integer
  {
    Token(Percentage, position, value, Numeric(integer))
  }

  /** Token.Dimension: type DIMENSION with its integer flag and unit. */
  function DimensionToken(position: int, value: string, integer: bool, unit: string): (t: Token)
    ensures t.WellKinded() && t.kind.Dimension? && t.IsNumeric()
    ensures t.position == position && t.value == value && t.Integer() == integer && t.detail.unit == unit
  {
    Token(Dimension, position, value, Dimensioned(integer, unit))
  }

  /** Hex4 renders the number exactly: reading the digits back gives it. */
  lemma {:induction false} HexPaddedValue(n: nat, width: nat)
    ensures HexDigitsValue(HexPadded(n, width)) == n
    decreases n + width
  {
    if !(n == 0 && width == 0) {
      var w := if width == 0 then 0 else width - 1;
      HexPaddedValue(n / 16, w);
      var s := HexPadded(n / 16, w);
      assert HexPadded(n, width) == s + [HexDigitChar(n % 16)];
      assert (s + [HexDigitChar(n % 16)])[..|s|] == s;
    }
  }

  function HexDigitsValue(s: string): nat {
    if s == [] then 0
    else
      var c := s[|s| - 1] as int;
      var d := if '0' as int <= c <= '9' as int then c - '0' as int
               else if 'A' as int <= c <= 'F' as int then c - 'A' as int + 10
               else 0;
      HexDigitsValue(s[..|s| - 1]) * 16 + d
  }
}
