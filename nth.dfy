/**
 * NthParser: the An+B microsyntax (CSS Syntax Module Level 3, section 6)
 * read from the tokens after `:nth-child(` and the like, up to and including
 * the closing parenthesis.
 *
 * The pure functions NthAt, BAt and SignlessBAt say what each parser method
 * returns and how far it has read, for a replay of the tokenizer's output and
 * a read index. The class NthParser holds the imperative methods, each proved
 * to agree with its function.
 */
module Nth {
  import opened Wrappers
  import opened CodePoints
  import opened Tokens
  import opened Errors
  import opened Streams

  /** The values of A and B. */
  datatype NthPair = NthPair(a: int, b: int)

  /** What a parser method returns (a value or its exception) and the read index after it. */
  datatype Step<T> = Step(result: Result<T, ParseError>, next: nat)

  const INT_MIN: int := -0x8000_0000
  const INT_MAX: int := 0x7FFF_FFFF

  // ---------------------------------------------------------------------------
  // Integer.parseInt, for ASCII digits
  // ---------------------------------------------------------------------------

  predicate AllDigits(s: string) {
    s == [] || ('0' <= s[|s| - 1] <= '9' && AllDigits(s[..|s| - 1]))
  }

  /** The value of a string of decimal digits. */
  function DigitsValue(s: string): nat
    requires AllDigits(s)
  {
    if s == [] then 0 else DigitsValue(s[..|s| - 1]) * 10 + (s[|s| - 1] as int - '0' as int)
  }

  /**
   * Integer.parseInt: an optional sign and at least one digit, within the
   * 32-bit range; anything else is a NumberFormatException (None).
   */
  function ParseInt(s: string): (r: Option<int>)
    ensures r.Some? ==> INT_MIN <= r.value <= INT_MAX
  {
    if |s| == 0 then None
    else
      var digits := if s[0] == '-' || s[0] == '+' then s[1..] else s;
      if |digits| == 0 || !AllDigits(digits) then None
      else
        var d: int := DigitsValue(digits);
        var v := if s[0] == '-' then -d else d;
        if INT_MIN <= v <= INT_MAX then Some(v) else None
  }

  /** The decimal text of a natural number, as Integer.toString writes it. */
  function Decimal(n: nat): (s: string)
    ensures |s| > 0 && '0' <= s[0] <= '9'
  {
    if n < 10 then [('0' as int + n) as char] else Decimal(n / 10) + [('0' as int + n % 10) as char]
  }

  /** Integer.toString: a minus sign for negative values. */
  function IntText(v: int): string {
    if v < 0 then "-" + Decimal(-v) else Decimal(v)
  }

  /** The text with an explicit sign, as a signed number token carries it. */
  function SignedText(v: int): string {
    if v < 0 then "-" + Decimal(-v) else "+" + Decimal(v)
  }

  /** The digits of Decimal(n) read back give n. */
  lemma {:induction false} DecimalValue(n: nat)
    ensures AllDigits(Decimal(n)) && DigitsValue(Decimal(n)) == n
  {
    if n >= 10 {
      DecimalValue(n / 10);
      var s := Decimal(n / 10);
      var t := s + [('0' as int + n % 10) as char];
      assert t[..|t| - 1] == s;
    }
  }

  /** parseInt reads back every 32-bit value Integer.toString writes, with or without an explicit sign. */
  lemma ParseIntRoundTrip(v: int)
    requires INT_MIN <= v <= INT_MAX
    ensures ParseInt(IntText(v)) == Some(v)
    ensures ParseInt(SignedText(v)) == Some(v)
  {
    var n := if v < 0 then -v else v;
    DecimalValue(n);
    var d := Decimal(n);
    assert d[0] != '-' && d[0] != '+';
    assert ("-" + d)[1..] == d && ("+" + d)[1..] == d;
  }

  // ---------------------------------------------------------------------------
  // The string helpers
  // ---------------------------------------------------------------------------

  /** hasSignPrefix: the text starts with `+` or `-`. */
  predicate HasSignPrefix(s: string) {
    |s| > 0 && (s[0] == '+' || s[0] == '-')
  }

  /** parseNDashDigits: `n-` and at least one more character, read by parseInt from the dash on. */
  function NDashDigits(s: string): (r: Option<int>)
    ensures r.Some? ==> |s| >= 3 && s[..2] == "n-" && AllDigits(s[2..]) && r.value + DigitsValue(s[2..]) == 0
    ensures r.Some? ==> INT_MIN <= r.value <= 0
  {
    if |s| >= 3 && s[..2] == "n-" then ParseInt(s[1..]) else None
  }

  /** `n-` followed by digits is accepted whenever the negated value fits in 32 bits. */
  lemma NDashDigitsAccepts(d: string)
    requires |d| > 0 && AllDigits(d) && DigitsValue(d) <= -INT_MIN
    ensures NDashDigits("n-" + d) == Some(0 - DigitsValue(d) as int)
  {
    var s := "n-" + d;
    assert s[..2] == "n-";
    assert s[1..] == "-" + d;
    var m := "-" + d;
    assert m[0] == '-' && m[1..] == d;
    assert ParseInt(m) == Some(0 - DigitsValue(d) as int);
  }

  // ---------------------------------------------------------------------------
  // The specification: what each method returns, over a replay and a read index
  // ---------------------------------------------------------------------------

  /** skipWhitespace: the index of the next token that is not WHITESPACE. */
  function SkipWs(r: Replay, i: nat): (j: nat)
    requires r.Valid() && i < |r.tokens|
    ensures i <= j < |r.tokens| && !r.At(j).kind.Whitespace?
    decreases |r.tokens| - i
  {
    if r.At(i).kind.Whitespace? then SkipWs(r, r.Advance(i)) else i
  }

  /** skipWhitespace passes over WHITESPACE tokens only. */
  lemma {:induction false} SkipWsSkipsWhitespace(r: Replay, i: nat)
    requires r.Valid() && i < |r.tokens|
    ensures forall k :: i <= k < SkipWs(r, i) ==> r.At(k).kind.Whitespace?
    decreases |r.tokens| - i
  {
    if r.At(i).kind.Whitespace? {
      SkipWsSkipsWhitespace(r, r.Advance(i));
    }
  }

  /** The step that throws the parser's error once `next` tokens have been read. */
  function Fail<T>(pos: int, next: nat): Step<T> {
    Step(Failure(InvalidNth(pos)), next)
  }

  /**
   * A step that reads forward from `i`, fails only with the error built at
   * `pos`, and on success has just read a `)`.
   */
  ghost predicate Within<T>(r: Replay, i: nat, pos: int, s: Step<T>) {
    && i <= s.next < |r.tokens|
    && (s.result.Failure? ==> s.result.error == InvalidNth(pos))
    && (s.result.Success? ==> i < s.next && r.tokens[s.next - 1].kind.RightParen?)
  }

  /**
   * Reading up to the next token that is not whitespace, which must be `)`,
   * and then giving `v`; None stands for a value whose parsing threw.
   */
  function CloseWith<T>(r: Replay, i: nat, pos: int, v: Option<T>): (s: Step<T>)
    requires r.Valid() && i < |r.tokens|
    ensures Within(r, i, pos, s)
    ensures s.result.Success? <==> r.At(SkipWs(r, i)).kind.RightParen? && v.Some?
    ensures s.result.Success? ==> s.result.value == v.value
    ensures s.next == r.Advance(SkipWs(r, i))
  {
    var c := SkipWs(r, i);
    if r.At(c).kind.RightParen? && v.Some? then Step(Success(v.value), r.Advance(c))
    else Fail(pos, r.Advance(c))
  }

  /** parseSignlessB(sign): an unsigned integer number token, then `)`; the value times the sign. */
  function SignlessBAt(r: Replay, i: nat, sign: int, pos: int): (s: Step<int>)
    requires r.Valid() && i < |r.tokens| && (sign == 1 || sign == -1)
    ensures Within(r, i, pos, s)
    ensures s.result.Success? ==> -INT_MAX <= s.result.value <= INT_MAX
  {
    var j := SkipWs(r, i);
    var t := r.At(j);
    var k := r.Advance(j);
    if t.IsNumeric() && t.Integer() && !HasSignPrefix(t.value) then
      var n := ParseInt(t.value);
      CloseWith(r, k, pos, if n.Some? then Some(n.value * sign) else None)
    else Fail(pos, k)
  }

  /** parseB: `)` alone, a sign delimiter and an unsigned integer, or a signed integer number and `)`. */
  function BAt(r: Replay, i: nat, pos: int): (s: Step<int>)
    requires r.Valid() && i < |r.tokens|
    ensures Within(r, i, pos, s)
    ensures s.result.Success? ==> INT_MIN <= s.result.value <= INT_MAX
  {
    var j := SkipWs(r, i);
    var t := r.At(j);
    var k := r.Advance(j);
    if t.kind.RightParen? then Step(Success(0), k)
    else if t.kind.Delim? && t.value == "+" then SignlessBAt(r, k, 1, pos)
    else if t.kind.Delim? && t.value == "-" then SignlessBAt(r, k, -1, pos)
    else if t.kind.Number? && t.Integer() && HasSignPrefix(t.value) then CloseWith(r, k, pos, ParseInt(t.value))
    else Fail(pos, k)
  }

  /** The pair with `a` in front of a B step. */
  function WithA(r: Replay, i: nat, pos: int, a: int, s: Step<int>): (p: Step<NthPair>)
    requires Within(r, i, pos, s)
    ensures Within(r, i, pos, p)
    ensures p.next == s.next
    ensures p.result.Success? <==> s.result.Success?
    ensures p.result.Success? ==> p.result.value == NthPair(a, s.result.value)
    ensures p.result.Failure? ==> p.result.error == s.result.error
  {
    match s.result
    case Success(b) => Step(Success(NthPair(a, b)), s.next)
    case Failure(e) => Step(Failure(e), s.next)
  }

  /** A fixed pair that needs a closing parenthesis (mustMatchClosingParen). */
  function ClosedAt(r: Replay, i: nat, pos: int, p: NthPair): (s: Step<NthPair>)
    requires r.Valid() && i < |r.tokens|
    ensures Within(r, i, pos, s)
  {
    CloseWith(r, i, pos, Some(p))
  }

  /**
   * parseNDashDigits inside try/finally mustMatchClosingParen: the closing
   * parenthesis is read whether the digits parse or not.
   */
  function DashDigitsAt(r: Replay, i: nat, pos: int, a: int, str: string): (s: Step<NthPair>)
    requires r.Valid() && i < |r.tokens|
    ensures Within(r, i, pos, s)
  {
    var d := NDashDigits(str);
    CloseWith(r, i, pos, if d.Some? then Some(NthPair(a, d.value)) else None)
  }

  /** The NUMBER form: an integer B alone, then `)`; A is 0. */
  function NumberAt(r: Replay, j: nat, pos: int): (s: Step<NthPair>)
    requires r.Valid() && j < |r.tokens| && r.At(j).kind.Number?
    ensures Within(r, j, pos, s)
  {
    var t := r.At(j);
    var k := r.Advance(j);
    if !t.Integer() then Fail(pos, k)
    else
      var b := ParseInt(t.value);
      CloseWith(r, k, pos, if b.Some? then Some(NthPair(0, b.value)) else None)
  }

  /** The DIMENSION forms: an integer A with unit n, n- or n-<digits>, in any letter case. */
  function DimensionAt(r: Replay, j: nat, pos: int): (s: Step<NthPair>)
    requires r.Valid() && j < |r.tokens| && r.At(j).kind.Dimension?
    ensures Within(r, j, pos, s)
  {
    var t := r.At(j);
    var k := r.Advance(j);
    var a := ParseInt(t.value);
    if !t.Integer() || a.None? then Fail(pos, k)
    else
      var unit := Lower(t.detail.unit);
      if unit == "n" then WithA(r, k, pos, a.value, BAt(r, k, pos))
      else if unit == "n-" then WithA(r, k, pos, a.value, SignlessBAt(r, k, -1, pos))
      else DashDigitsAt(r, k, pos, a.value, unit)
  }

  /** The IDENT forms: even, odd, n, -n, n-, -n-, n-<digits> and -n-<digits>, in any letter case. */
  function IdentAt(r: Replay, j: nat, pos: int): (s: Step<NthPair>)
    requires r.Valid() && j < |r.tokens| && r.At(j).kind.Ident?
    ensures Within(r, j, pos, s)
  {
    var k := r.Advance(j);
    var str := Lower(r.At(j).value);
    if str == "even" then ClosedAt(r, k, pos, NthPair(2, 0))
    else if str == "odd" then ClosedAt(r, k, pos, NthPair(2, 1))
    else if str == "n" then WithA(r, k, pos, 1, BAt(r, k, pos))
    else if str == "-n" then WithA(r, k, pos, -1, BAt(r, k, pos))
    else if str == "n-" then WithA(r, k, pos, 1, SignlessBAt(r, k, -1, pos))
    else if str == "-n-" then WithA(r, k, pos, -1, SignlessBAt(r, k, -1, pos))
    else if |str| > 0 && str[0] == '-' then DashDigitsAt(r, k, pos, -1, str[1..])
    else DashDigitsAt(r, k, pos, 1, str)
  }

  /** The DELIM form: `+` and, with no whitespace between, an identifier n, n- or n-<digits>. */
  function PlusAt(r: Replay, j: nat, pos: int): (s: Step<NthPair>)
    requires r.Valid() && j < |r.tokens| && r.At(j).kind.Delim?
    ensures Within(r, j, pos, s)
  {
    var k := r.Advance(j);
    if r.At(j).value != "+" then Fail(pos, k)
    else if !r.At(k).kind.Ident? then Fail(pos, r.Advance(k))
    else
      var m := r.Advance(k);
      var str := Lower(r.At(k).value);
      if str == "n" then WithA(r, m, pos, 1, BAt(r, m, pos))
      else if str == "n-" then WithA(r, m, pos, 1, SignlessBAt(r, m, -1, pos))
      else DashDigitsAt(r, m, pos, 1, str)
  }

  /**
   * NthParser.parse: the pair A, B and the read index after the closing
   * parenthesis, or the one error built with the position where parsing began.
   */
  function NthAt(r: Replay, i: nat): (s: Step<NthPair>)
    requires r.Valid() && i < |r.tokens|
    ensures Within(r, i, r.Position(i), s)
  {
    var pos := r.Position(i);
    var j := SkipWs(r, i);
    var kind := r.At(j).kind;
    if kind.Number? then NumberAt(r, j, pos)
    else if kind.Dimension? then DimensionAt(r, j, pos)
    else if kind.Ident? then IdentAt(r, j, pos)
    else if kind.Delim? then PlusAt(r, j, pos)
    else Fail(pos, r.Advance(j))
  }

  // ---------------------------------------------------------------------------
  // Properties of the specification
  // ---------------------------------------------------------------------------

  /**
   * The tokens of `<a>n <sign><|b|>)` from index `i` on: a dimension with
   * unit n, whitespace, a signed integer number and `)`.
   */
  ghost predicate AnPlusBAt(r: Replay, i: nat, a: int, b: int) {
    && i + 3 < |r.tokens|
    && r.tokens[i] == DimensionToken(r.tokens[i].position, IntText(a), true, "n")
    && r.tokens[i + 1].kind.Whitespace?
    && r.tokens[i + 2] == NumberToken(r.tokens[i + 2].position, SignedText(b), true)
    && r.tokens[i + 3].kind.RightParen?
  }

  /**
   * The tokens of `<a>n- <d>)` from index `i` on: a dimension with unit n-,
   * whitespace, an unsigned integer number and `)`.
   */
  ghost predicate AnMinusDAt(r: Replay, i: nat, a: int, d: nat) {
    && i + 3 < |r.tokens|
    && r.tokens[i] == DimensionToken(r.tokens[i].position, IntText(a), true, "n-")
    && r.tokens[i + 1].kind.Whitespace?
    && r.tokens[i + 2] == NumberToken(r.tokens[i + 2].position, Decimal(d), true)
    && r.tokens[i + 3].kind.RightParen?
  }

  /** A dimension with unit n (any case) and an integer value A is followed by parseB. */
  lemma DimensionN(r: Replay, i: nat, j: nat, a: int)
    requires r.Valid() && i < |r.tokens| && j == SkipWs(r, i)
    requires r.At(j).kind.Dimension? && r.At(j).Integer() && ParseInt(r.At(j).value) == Some(a)
    requires Lower(r.At(j).detail.unit) == "n"
    ensures j + 1 < |r.tokens|
    ensures NthAt(r, i) == WithA(r, j + 1, r.Position(i), a, BAt(r, j + 1, r.Position(i)))
  {
    NthAtDimension(r, i, j);
    DimensionNAt(r, j, r.Position(i), a);
  }

  /** The dimension forms on unit n (any case) read parseB after the dimension. */
  lemma DimensionNAt(r: Replay, j: nat, pos: int, a: int)
    requires r.Valid() && j + 1 < |r.tokens|
    requires r.At(j).kind.Dimension? && r.At(j).Integer() && ParseInt(r.At(j).value) == Some(a)
    requires Lower(r.At(j).detail.unit) == "n"
    ensures DimensionAt(r, j, pos) == WithA(r, j + 1, pos, a, BAt(r, j + 1, pos))
  {
  }

  /** A dimension with unit n- (any case) and an integer value A is followed by parseSignlessB(-1). */
  lemma DimensionNDash(r: Replay, i: nat, j: nat, a: int)
    requires r.Valid() && i < |r.tokens| && j == SkipWs(r, i)
    requires r.At(j).kind.Dimension? && r.At(j).Integer() && ParseInt(r.At(j).value) == Some(a)
    requires Lower(r.At(j).detail.unit) == "n-"
    ensures j + 1 < |r.tokens|
    ensures NthAt(r, i) == WithA(r, j + 1, r.Position(i), a, SignlessBAt(r, j + 1, -1, r.Position(i)))
  {
    NthAtDimension(r, i, j);
    DimensionDashAt(r, j, r.Position(i), a);
  }

  /** The dimension forms on unit n- (any case) read parseSignlessB(-1) after the dimension. */
  lemma DimensionDashAt(r: Replay, j: nat, pos: int, a: int)
    requires r.Valid() && j + 1 < |r.tokens|
    requires r.At(j).kind.Dimension? && r.At(j).Integer() && ParseInt(r.At(j).value) == Some(a)
    requires Lower(r.At(j).detail.unit) == "n-"
    ensures DimensionAt(r, j, pos) == WithA(r, j + 1, pos, a, SignlessBAt(r, j + 1, -1, pos))
  {
    assert Lower(r.At(j).detail.unit) != "n" by {
      assert |"n-"| != |"n"|;
    }
  }

  /** The identifiers n and -n (any case) read parseB after the identifier, with A = 1 and -1. */
  lemma IdentNAt(r: Replay, j: nat, pos: int, a: int)
    requires r.Valid() && j + 1 < |r.tokens| && r.At(j).kind.Ident?
    requires (a == 1 && Lower(r.At(j).value) == "n") || (a == -1 && Lower(r.At(j).value) == "-n")
    ensures IdentAt(r, j, pos) == WithA(r, j + 1, pos, a, BAt(r, j + 1, pos))
  {
  }

  /** The identifiers n- and -n- (any case) read parseSignlessB(-1) after the identifier, with A = 1 and -1. */
  lemma IdentNDashAt(r: Replay, j: nat, pos: int, a: int)
    requires r.Valid() && j + 1 < |r.tokens| && r.At(j).kind.Ident?
    requires (a == 1 && Lower(r.At(j).value) == "n-") || (a == -1 && Lower(r.At(j).value) == "-n-")
    ensures IdentAt(r, j, pos) == WithA(r, j + 1, pos, a, SignlessBAt(r, j + 1, -1, pos))
  {
    var str := Lower(r.At(j).value);
    assert str != "n" && str != "-n" by {
      assert str[0] == "n"[0] || |str| == 3;
    }
  }

  /** A dimension, after any whitespace, is parsed by the dimension forms. */
  lemma NthAtDimension(r: Replay, i: nat, j: nat)
    requires r.Valid() && i < |r.tokens| && j == SkipWs(r, i) && r.At(j).kind.Dimension?
    ensures j + 1 < |r.tokens| && r.Advance(j) == j + 1
    ensures NthAt(r, i) == DimensionAt(r, j, r.Position(i))
  {
  }

  /** parseB on a signed integer number and `)`: the number's value. */
  lemma SignedB(r: Replay, k: nat, pos: int, j: nat, c: nat, v: int)
    requires r.Valid() && k < |r.tokens| && j == SkipWs(r, k)
    requires r.At(j).kind.Number? && r.At(j).Integer() && HasSignPrefix(r.At(j).value)
    requires ParseInt(r.At(j).value) == Some(v)
    requires j + 1 < |r.tokens| && c == SkipWs(r, j + 1) && r.At(c).kind.RightParen?
    ensures BAt(r, k, pos) == Step(Success(v), c + 1)
  {
  }

  /** parseSignlessB(-1) on an unsigned integer number and `)`: the negated value. */
  lemma UnsignedB(r: Replay, k: nat, pos: int, j: nat, c: nat, v: int)
    requires r.Valid() && k < |r.tokens| && j == SkipWs(r, k)
    requires r.At(j).IsNumeric() && r.At(j).Integer() && !HasSignPrefix(r.At(j).value)
    requires ParseInt(r.At(j).value) == Some(v)
    requires j + 1 < |r.tokens| && c == SkipWs(r, j + 1) && r.At(c).kind.RightParen?
    ensures SignlessBAt(r, k, -1, pos) == Step(Success(-v), c + 1)
  {
  }

  /** The positions of the tokens of `<a>n <sign><|b|>)`, `<a>n- <d>)` and the like as skipWhitespace finds them. */
  lemma ShapeSkips(r: Replay, i: nat)
    requires r.Valid() && i + 3 < |r.tokens|
    requires (r.tokens[i].kind.Dimension? || r.tokens[i].kind.Ident?) && r.tokens[i + 1].kind.Whitespace?
    requires r.tokens[i + 2].kind.Number? && r.tokens[i + 3].kind.RightParen?
    ensures SkipWs(r, i) == i && SkipWs(r, i + 1) == i + 2 && SkipWs(r, i + 3) == i + 3
  {
    assert SkipWs(r, i + 2) == i + 2;
  }

  /**
   * The token shape `A<unit> B)`: an integer dimension whose value parses to
   * A, whitespace, an integer number whose value parses to B, and `)`.
   */
  ghost predicate DimensionShape(r: Replay, i: nat, a: int, unit: string, b: int) {
    && r.Valid() && i + 3 < |r.tokens|
    && r.tokens[i].kind.Dimension? && r.tokens[i].Integer() && r.tokens[i].detail.unit == unit
    && ParseInt(r.tokens[i].value) == Some(a)
    && r.tokens[i + 1].kind.Whitespace?
    && r.tokens[i + 2].kind.Number? && r.tokens[i + 2].Integer() && ParseInt(r.tokens[i + 2].value) == Some(b)
    && r.tokens[i + 3].kind.RightParen?
  }

  /** `A n <signed B>)` parses to (A, B). */
  lemma NPlusB(r: Replay, i: nat, a: int, b: int)
    requires DimensionShape(r, i, a, "n", b) && HasSignPrefix(r.tokens[i + 2].value)
    ensures NthAt(r, i) == Step(Success(NthPair(a, b)), i + 4)
  {
    var pos := r.Position(i);
    ShapeSkips(r, i);
    assert BAt(r, i + 1, pos) == Step(Success(b), i + 4) by {
      SignedB(r, i + 1, pos, i + 2, i + 3, b);
    }
    LowerUnits();
    DimensionN(r, i, i, a);
  }

  /** `A n- <unsigned D>)` parses to (A, -D). */
  lemma NMinusD(r: Replay, i: nat, a: int, d: int)
    requires DimensionShape(r, i, a, "n-", d) && !HasSignPrefix(r.tokens[i + 2].value)
    ensures NthAt(r, i) == Step(Success(NthPair(a, -d)), i + 4)
  {
    DashNumber(r, i, a, d);
    DashDimension(r, i, a, d);
  }

  /** In `A n- <unsigned D>)`, parseSignlessB(-1) after the dimension reads -D through the `)`. */
  lemma DashNumber(r: Replay, i: nat, a: int, d: int)
    requires DimensionShape(r, i, a, "n-", d) && !HasSignPrefix(r.tokens[i + 2].value)
    ensures SignlessBAt(r, i + 1, -1, r.Position(i)) == Step(Success(-d), i + 4)
  {
    ShapeSkips(r, i);
    UnsignedB(r, i + 1, r.Position(i), i + 2, i + 3, d);
  }

  /** In `A n- ...`, the pair is A and what parseSignlessB(-1) reads. */
  lemma DashDimension(r: Replay, i: nat, a: int, d: int)
    requires DimensionShape(r, i, a, "n-", d)
    requires SignlessBAt(r, i + 1, -1, r.Position(i)) == Step(Success(-d), i + 4)
    ensures NthAt(r, i) == Step(Success(NthPair(a, -d)), i + 4)
  {
    ShapeSkips(r, i);
    LowerUnits();
    NthAtDimension(r, i, i);
    DimensionDashAt(r, i, r.Position(i), a);
  }

  /** The units n and n- and the identifiers -n and -n- are already in lower case. */
  lemma LowerUnits()
    ensures Lower("n") == "n" && Lower("n-") == "n-"
    ensures Lower("-n") == "-n" && Lower("-n-") == "-n-"
  {
    assert Lower("n")[0] == 'n';
    assert Lower("n-")[0] == 'n' && Lower("n-")[1] == '-';
    assert Lower("-n")[0] == '-' && Lower("-n")[1] == 'n';
    assert Lower("-n-")[0] == '-' && Lower("-n-")[1] == 'n' && Lower("-n-")[2] == '-';
  }

  /** Every 32-bit pair written as `<a>n <sign><|b|>)` parses back to itself, reading through the `)`. */
  lemma AnPlusBRoundTrip(r: Replay, i: nat, a: int, b: int)
    requires INT_MIN <= a <= INT_MAX && INT_MIN <= b <= INT_MAX
    requires r.Valid() && AnPlusBAt(r, i, a, b)
    ensures NthAt(r, i) == Step(Success(NthPair(a, b)), i + 4)
  {
    ParseIntRoundTrip(a);
    ParseIntRoundTrip(b);
    assert HasSignPrefix(SignedText(b));
    NPlusB(r, i, a, b);
  }

  /** `<a>n- <d>)` gives B = -d through parseSignlessB(-1). */
  lemma AnMinusDRoundTrip(r: Replay, i: nat, a: int, d: nat)
    requires INT_MIN <= a <= INT_MAX && d <= INT_MAX
    requires r.Valid() && AnMinusDAt(r, i, a, d)
    ensures NthAt(r, i) == Step(Success(NthPair(a, -(d as int))), i + 4)
  {
    ParseIntRoundTrip(a);
    ParseIntRoundTrip(d);
    DecimalValue(d);
    var t := r.tokens[i + 2];
    assert t.value == Decimal(d) == IntText(d);
    assert !HasSignPrefix(t.value);
    assert DimensionShape(r, i, a, "n-", d);
    NMinusD(r, i, a, d);
  }

  /** The identifier n for A = 1 and -n for A = -1. */
  function NText(a: int): string {
    if a == 1 then "n" else "-n"
  }

  /**
   * The tokens of `n <sign><|b|>)` or `-n <sign><|b|>)` from index `i` on:
   * the identifier for A (1 or -1), whitespace, a signed integer number and `)`.
   */
  ghost predicate NPlusBAt(r: Replay, i: nat, a: int, b: int) {
    && (a == 1 || a == -1)
    && i + 3 < |r.tokens|
    && r.tokens[i] == Token(Ident, r.tokens[i].position, NText(a), Plain)
    && r.tokens[i + 1].kind.Whitespace?
    && r.tokens[i + 2] == NumberToken(r.tokens[i + 2].position, SignedText(b), true)
    && r.tokens[i + 3].kind.RightParen?
  }

  /**
   * The tokens of `n- <d>)` or `-n- <d>)` from index `i` on: the identifier
   * for A (1 or -1) with a dash, whitespace, an unsigned integer number and `)`.
   */
  ghost predicate NMinusDAt(r: Replay, i: nat, a: int, d: nat) {
    && (a == 1 || a == -1)
    && i + 3 < |r.tokens|
    && r.tokens[i] == Token(Ident, r.tokens[i].position, NText(a) + "-", Plain)
    && r.tokens[i + 1].kind.Whitespace?
    && r.tokens[i + 2] == NumberToken(r.tokens[i + 2].position, Decimal(d), true)
    && r.tokens[i + 3].kind.RightParen?
  }

  /** Every 32-bit B written as `n <sign><|b|>)` or `-n <sign><|b|>)` parses back to (A, B), reading through the `)`. */
  lemma NPlusBRoundTrip(r: Replay, i: nat, a: int, b: int)
    requires INT_MIN <= b <= INT_MAX
    requires r.Valid() && NPlusBAt(r, i, a, b)
    ensures NthAt(r, i) == Step(Success(NthPair(a, b)), i + 4)
  {
    IdentSignedNumber(r, i, r.Position(i), a, b);
    IdentPlus(r, i, a, b);
  }

  /** In `n <sign><|b|>)` and `-n <sign><|b|>)`, parseB after the identifier reads B through the `)`. */
  lemma IdentSignedNumber(r: Replay, i: nat, pos: int, a: int, b: int)
    requires INT_MIN <= b <= INT_MAX
    requires r.Valid() && NPlusBAt(r, i, a, b)
    ensures BAt(r, i + 1, pos) == Step(Success(b), i + 4)
  {
    var t := r.tokens[i + 2];
    assert t.kind.Number? && t.Integer() && HasSignPrefix(t.value) && ParseInt(t.value) == Some(b) by {
      assert t.value == SignedText(b);
      ParseIntRoundTrip(b);
    }
    SignedTail(r, i, pos, b);
  }

  /** Whitespace, a signed integer number and `)` after index `i`: parseB from `i + 1` reads its value through the `)`. */
  lemma SignedTail(r: Replay, i: nat, pos: int, b: int)
    requires r.Valid() && i + 3 < |r.tokens|
    requires r.tokens[i + 1].kind.Whitespace? && r.tokens[i + 3].kind.RightParen?
    requires r.tokens[i + 2].kind.Number? && r.tokens[i + 2].Integer() && HasSignPrefix(r.tokens[i + 2].value)
    requires ParseInt(r.tokens[i + 2].value) == Some(b)
    ensures BAt(r, i + 1, pos) == Step(Success(b), i + 4)
  {
    assert SkipWs(r, i + 2) == i + 2;
    assert SkipWs(r, i + 3) == i + 3;
    SignedB(r, i + 1, pos, i + 2, i + 3, b);
  }

  /** In `n ...` and `-n ...`, the pair is A and what parseB reads. */
  lemma IdentPlus(r: Replay, i: nat, a: int, b: int)
    requires r.Valid() && NPlusBAt(r, i, a, b)
    requires BAt(r, i + 1, r.Position(i)) == Step(Success(b), i + 4)
    ensures NthAt(r, i) == Step(Success(NthPair(a, b)), i + 4)
  {
    ShapeSkips(r, i);
    LowerUnits();
    IdentNAt(r, i, r.Position(i), a);
  }

  /** `n- <d>)` and `-n- <d>)` give B = -d through parseSignlessB(-1). */
  lemma NMinusDRoundTrip(r: Replay, i: nat, a: int, d: nat)
    requires d <= INT_MAX
    requires r.Valid() && NMinusDAt(r, i, a, d)
    ensures NthAt(r, i) == Step(Success(NthPair(a, -(d as int))), i + 4)
  {
    IdentDashNumber(r, i, r.Position(i), a, d);
    IdentDash(r, i, a, d);
  }

  /** In `n- <d>)` and `-n- <d>)`, parseSignlessB(-1) after the identifier reads -d through the `)`. */
  lemma IdentDashNumber(r: Replay, i: nat, pos: int, a: int, d: nat)
    requires d <= INT_MAX
    requires r.Valid() && NMinusDAt(r, i, a, d)
    ensures SignlessBAt(r, i + 1, -1, pos) == Step(Success(-(d as int)), i + 4)
  {
    var t := r.tokens[i + 2];
    assert t.IsNumeric() && t.Integer() && !HasSignPrefix(t.value) && ParseInt(t.value) == Some(d) by {
      assert t.value == Decimal(d) == IntText(d);
      ParseIntRoundTrip(d);
    }
    ShapeSkips(r, i);
    UnsignedB(r, i + 1, pos, i + 2, i + 3, d);
  }

  /** In `n- ...` and `-n- ...`, the pair is A and what parseSignlessB(-1) reads. */
  lemma IdentDash(r: Replay, i: nat, a: int, d: nat)
    requires r.Valid() && NMinusDAt(r, i, a, d)
    requires SignlessBAt(r, i + 1, -1, r.Position(i)) == Step(Success(-(d as int)), i + 4)
    ensures NthAt(r, i) == Step(Success(NthPair(a, -(d as int))), i + 4)
  {
    ShapeSkips(r, i);
    LowerUnits();
    assert NText(a) + "-" == if a == 1 then "n-" else "-n-";
    IdentNDashAt(r, i, r.Position(i), a);
  }

  /** A lone integer number and `)` gives A = 0; a non-integer number is an error. */
  lemma NumberOnly(r: Replay, i: nat)
    requires r.Valid() && i < |r.tokens|
    requires r.At(SkipWs(r, i)).kind.Number?
    ensures var t := r.At(SkipWs(r, i));
      var s := NthAt(r, i);
      && (!t.Integer() ==> s.result.Failure?)
      && (s.result.Success? <==>
           t.Integer() && ParseInt(t.value).Some? && r.At(SkipWs(r, r.Advance(SkipWs(r, i)))).kind.RightParen?)
      && (s.result.Success? ==> s.result.value == NthPair(0, ParseInt(t.value).value))
  {
  }

  /** `even` and `odd`, in any letter case, give (2, 0) and (2, 1) when `)` follows. */
  lemma EvenOdd(r: Replay, i: nat)
    requires r.Valid() && i < |r.tokens|
    requires r.At(SkipWs(r, i)).kind.Ident?
    requires Lower(r.At(SkipWs(r, i)).value) in {"even", "odd"}
    ensures var k := r.Advance(SkipWs(r, i));
      var s := NthAt(r, i);
      && (s.result.Success? <==> r.At(SkipWs(r, k)).kind.RightParen?)
      && (s.result.Success? ==>
           s.result.value == NthPair(2, if Lower(r.At(SkipWs(r, i)).value) == "even" then 0 else 1))
  {
  }

  /** A `+` delimiter must be followed at once by an identifier: whitespace or anything else there is the error. */
  lemma PlusNeedsIdent(r: Replay, i: nat)
    requires r.Valid() && i < |r.tokens|
    requires r.At(SkipWs(r, i)).kind.Delim? && r.At(SkipWs(r, i)).value == "+"
    requires !r.At(r.Advance(SkipWs(r, i))).kind.Ident?
    ensures NthAt(r, i).result == Failure(InvalidNth(r.Position(i)))
  {
  }

  /** parseSignlessB rejects a sign-prefixed number, and otherwise gives the value times the sign. */
  lemma SignlessB(r: Replay, i: nat, sign: int, pos: int)
    requires r.Valid() && i < |r.tokens| && (sign == 1 || sign == -1)
    ensures var t := r.At(SkipWs(r, i));
      var s := SignlessBAt(r, i, sign, pos);
      && (t.IsNumeric() && HasSignPrefix(t.value) ==> s.result.Failure?)
      && (s.result.Success? ==> t.IsNumeric() && t.Integer() && s.result.value == ParseInt(t.value).value * sign)
  {
  }

  /** parseB's forms: `)` gives 0; a signed integer number then `)` gives its value; other tokens are errors. */
  lemma BForms(r: Replay, i: nat, pos: int)
    requires r.Valid() && i < |r.tokens|
    ensures var t := r.At(SkipWs(r, i));
      var s := BAt(r, i, pos);
      && (t.kind.RightParen? ==> s == Step(Success(0), r.Advance(SkipWs(r, i))))
      && (t.kind.Number? && s.result.Success? ==> HasSignPrefix(t.value) && s.result.value == ParseInt(t.value).value)
      && (s.result.Success? ==> (t.kind.RightParen? || t.kind.Number? || t.kind.Delim?))
  {
  }

  // ---------------------------------------------------------------------------
  // The parser object
  // ---------------------------------------------------------------------------

  /** NthParser: the shared tokenizer and the one error, built when parsing starts. */
  class NthParser {
    const tokenizer: TokenStream
    const error: ParseError

    /** The replay and the entry position the specification functions are taken at. */
    ghost const start: nat

    ghost predicate Valid()
      reads this, tokenizer
    {
      tokenizer.Valid() && start < |tokenizer.replay.tokens|
      && error == InvalidNth(tokenizer.replay.Position(start))
    }

    constructor(tokenizer: TokenStream)
      requires tokenizer.Valid()
      ensures Valid() && this.tokenizer == tokenizer && start == tokenizer.next
      ensures error == InvalidNth(tokenizer.Position())
    {
      this.tokenizer := tokenizer;
      this.error := InvalidNth(tokenizer.Position());
      this.start := tokenizer.next;
    }

    /** NthParser.parse. */
    static method Parse(tokenizer: TokenStream) returns (result: Result<NthPair, ParseError>)
      requires tokenizer.Valid()
      modifies tokenizer
      ensures tokenizer.Valid()
      ensures Step(result, tokenizer.next) == NthAt(tokenizer.replay, old(tokenizer.next))
    {
      var parser := new NthParser(tokenizer);
      result := parser.ParseArgs();
    }

    /** The body of parse, on a fresh parser. */
    method ParseArgs() returns (result: Result<NthPair, ParseError>)
      requires Valid() && tokenizer.next == start
      modifies tokenizer
      ensures Valid()
      ensures Step(result, tokenizer.next) == NthAt(tokenizer.replay, start)
    {
      ghost var j := SkipWs(tokenizer.replay, start);
      var token := SkipWhitespace();
      if token.kind.Number? {
        result := ParseNumber(token, j);
      } else if token.kind.Dimension? {
        result := ParseDimension(token, j);
      } else if token.kind.Ident? {
        result := ParseIdent(token, j);
      } else if token.kind.Delim? {
        result := ParsePlus(token, j);
      } else {
        result := Failure(error);
      }
    }

    /** The NUMBER case: an integer, then `)`. */
    method ParseNumber(token: Token, ghost j: nat) returns (result: Result<NthPair, ParseError>)
      requires Valid() && j < |tokenizer.replay.tokens| && token == tokenizer.replay.At(j) && token.kind.Number?
      requires tokenizer.next == tokenizer.replay.Advance(j)
      modifies tokenizer
      ensures Valid()
      ensures Step(result, tokenizer.next) == NumberAt(tokenizer.replay, j, tokenizer.replay.Position(start))
    {
      if !token.Integer() {
        return Failure(error);
      }
      var closed := MatchClosingParen();
      var b := ParseInt(token.value);
      if !closed || b.None? {
        return Failure(error);
      }
      result := Success(NthPair(0, b.value));
    }

    /** The DIMENSION case: an integer A, then the unit decides. */
    method ParseDimension(token: Token, ghost j: nat) returns (result: Result<NthPair, ParseError>)
      requires Valid() && j < |tokenizer.replay.tokens| && token == tokenizer.replay.At(j) && token.kind.Dimension?
      requires tokenizer.next == tokenizer.replay.Advance(j)
      modifies tokenizer
      ensures Valid()
      ensures Step(result, tokenizer.next) == DimensionAt(tokenizer.replay, j, tokenizer.replay.Position(start))
    {
      var a := ParseInt(token.value);
      if !token.Integer() || a.None? {
        return Failure(error);
      }
      var str := Lower(token.detail.unit);
      if str == "n" {
        var b := ParseB();
        result := Pair(a.value, b);
      } else if str == "n-" {
        var b := ParseSignlessB(-1);
        result := Pair(a.value, b);
      } else {
        result := DashDigitsThenClose(a.value, str);
      }
    }

    /** The IDENT case. */
    method ParseIdent(token: Token, ghost j: nat) returns (result: Result<NthPair, ParseError>)
      requires Valid() && j < |tokenizer.replay.tokens| && token == tokenizer.replay.At(j) && token.kind.Ident?
      requires tokenizer.next == tokenizer.replay.Advance(j)
      modifies tokenizer
      ensures Valid()
      ensures Step(result, tokenizer.next) == IdentAt(tokenizer.replay, j, tokenizer.replay.Position(start))
    {
      var str := Lower(token.value);
      if str == "even" {
        result := ClosedPair(NthPair(2, 0));
      } else if str == "odd" {
        result := ClosedPair(NthPair(2, 1));
      } else if str == "n" || str == "-n" {
        var b := ParseB();
        result := Pair(if str == "n" then 1 else -1, b);
      } else if str == "n-" || str == "-n-" {
        var b := ParseSignlessB(-1);
        result := Pair(if str == "n-" then 1 else -1, b);
      } else if |str| > 0 && str[0] == '-' {
        result := DashDigitsThenClose(-1, str[1..]);
      } else {
        result := DashDigitsThenClose(1, str);
      }
    }

    /** The DELIM case: only `+`, followed at once by an identifier. */
    method ParsePlus(token: Token, ghost j: nat) returns (result: Result<NthPair, ParseError>)
      requires Valid() && j < |tokenizer.replay.tokens| && token == tokenizer.replay.At(j) && token.kind.Delim?
      requires tokenizer.next == tokenizer.replay.Advance(j)
      modifies tokenizer
      ensures Valid()
      ensures Step(result, tokenizer.next) == PlusAt(tokenizer.replay, j, tokenizer.replay.Position(start))
    {
      if token.value != "+" {
        return Failure(error);
      }
      var next := tokenizer.NextToken();
      if !next.kind.Ident? {
        return Failure(error);
      }
      var str := Lower(next.value);
      if str == "n" {
        var b := ParseB();
        result := Pair(1, b);
      } else if str == "n-" {
        var b := ParseSignlessB(-1);
        result := Pair(1, b);
      } else {
        result := DashDigitsThenClose(1, str);
      }
    }

    /** `new Pair<>(a, b)` once B has been read. */
    static function Pair(a: int, b: Result<int, ParseError>): (result: Result<NthPair, ParseError>)
      ensures result.Success? <==> b.Success?
      ensures result.Success? ==> result.value == NthPair(a, b.value)
      ensures result.Failure? ==> result.error == b.error
    {
      match b
      case Success(v) => Success(NthPair(a, v))
      case Failure(e) => Failure(e)
    }

    /** even and odd: the pair, then mustMatchClosingParen. */
    method ClosedPair(p: NthPair) returns (result: Result<NthPair, ParseError>)
      requires Valid()
      modifies tokenizer
      ensures Valid()
      ensures Step(result, tokenizer.next) == ClosedAt(tokenizer.replay, old(tokenizer.next), tokenizer.replay.Position(start), p)
    {
      var ok := MustMatchClosingParen();
      result := if ok then Success(p) else Failure(error);
    }

    /** `try { parseNDashDigits(str) } finally { mustMatchClosingParen() }`. */
    method DashDigitsThenClose(a: int, str: string) returns (result: Result<NthPair, ParseError>)
      requires Valid()
      modifies tokenizer
      ensures Valid()
      ensures Step(result, tokenizer.next) == DashDigitsAt(tokenizer.replay, old(tokenizer.next), tokenizer.replay.Position(start), a, str)
    {
      var d := NDashDigits(str);
      var ok := MustMatchClosingParen();
      result := if d.Some? && ok then Success(NthPair(a, d.value)) else Failure(error);
    }

    /** parseB. */
    method ParseB() returns (result: Result<int, ParseError>)
      requires Valid()
      modifies tokenizer
      ensures Valid()
      ensures Step(result, tokenizer.next) == BAt(tokenizer.replay, old(tokenizer.next), tokenizer.replay.Position(start))
    {
      var token := SkipWhitespace();
      if token.kind.RightParen? {
        result := Success(0);
      } else if token.kind.Delim? && (token.value == "+" || token.value == "-") {
        result := ParseSignlessB(if token.value == "+" then 1 else -1);
      } else if token.kind.Number? && token.Integer() && HasSignPrefix(token.value) {
        var closed := MatchClosingParen();
        var n := ParseInt(token.value);
        result := if closed && n.Some? then Success(n.value) else Failure(error);
      } else {
        result := Failure(error);
      }
    }

    /** parseSignlessB(sign): any Token.Number (number, percentage or dimension). */
    method ParseSignlessB(sign: int) returns (result: Result<int, ParseError>)
      requires Valid() && (sign == 1 || sign == -1)
      modifies tokenizer
      ensures Valid()
      ensures Step(result, tokenizer.next) == SignlessBAt(tokenizer.replay, old(tokenizer.next), sign, tokenizer.replay.Position(start))
    {
      var token := SkipWhitespace();
      if token.IsNumeric() && token.Integer() && !HasSignPrefix(token.value) {
        var closed := MatchClosingParen();
        var n := ParseInt(token.value);
        result := if closed && n.Some? then Success(n.value * sign) else Failure(error);
      } else {
        result := Failure(error);
      }
    }

    /** matchClosingParen: whether the next token that is not whitespace is `)`. */
    method MatchClosingParen() returns (closed: bool)
      requires Valid()
      modifies tokenizer
      ensures Valid()
      ensures var c := SkipWs(tokenizer.replay, old(tokenizer.next));
        closed == (tokenizer.replay.At(c).kind.RightParen?) && tokenizer.next == tokenizer.replay.Advance(c)
    {
      var token := SkipWhitespace();
      closed := token.kind.RightParen?;
    }

    /** mustMatchClosingParen; false stands for the thrown error. */
    method MustMatchClosingParen() returns (ok: bool)
      requires Valid()
      modifies tokenizer
      ensures Valid()
      ensures var c := SkipWs(tokenizer.replay, old(tokenizer.next));
        ok == (tokenizer.replay.At(c).kind.RightParen?) && tokenizer.next == tokenizer.replay.Advance(c)
    {
      ok := MatchClosingParen();
    }

    /** skipWhitespace: read tokens until one is not WHITESPACE, and return it. */
    method SkipWhitespace() returns (token: Token)
      requires Valid()
      modifies tokenizer
      ensures Valid()
      ensures var j := SkipWs(tokenizer.replay, old(tokenizer.next));
        token == tokenizer.replay.At(j) && tokenizer.next == tokenizer.replay.Advance(j)
    {
      ghost var r := tokenizer.replay;
      while true
        invariant Valid() && old(tokenizer.next) <= tokenizer.next
        invariant SkipWs(r, old(tokenizer.next)) == SkipWs(r, tokenizer.next)
        decreases |r.tokens| - tokenizer.next
      {
        ghost var before := tokenizer.next;
        token := tokenizer.NextToken();
        if !token.kind.Whitespace? {
          return;
        }
        assert SkipWs(r, before) == SkipWs(r, tokenizer.next);
      }
    }
  }
}
