/**
 * SelectorParser: recursive descent over the tokenizer's output, building the
 * selector AST (Selectors Level 3: groups, sequences of simple selectors,
 * pseudo-elements and combinators).
 *
 * The parser reads tokens through a one-token pushback slot, savedToken. The
 * functions below describe each parser method over a replay of the tokens and
 * a Cursor: the index of the next token the parser will see and whether that
 * token already waits in the pushback slot. The class SelectorParser holds
 * the imperative methods, each proved to agree with its function.
 */
module SelectorParsing {
  import opened Wrappers
  import opened CodePoints
  import opened Tokens
  import opened Errors
  import opened Streams
  import opened Ast
  import Nth

  /**
   * Where the parser stands: `at` is the index of the next token nextToken
   * returns; `held` says that this token has already been read from the
   * tokenizer and waits in savedToken.
   */
  datatype Cursor = Cursor(at: nat, held: bool)

  /** What a parser method returns (a value or its exception) and where the parser stands after it. */
  datatype Parsed<T> = Parsed(result: Result<T, ParseError>, after: Cursor)

  /** parseName's pair (the name, whether a type selector was there), and where the parser stands after it. */
  datatype Name = Name(name: string, found: bool, after: Cursor)

  /** parseSimpleSelectors' pair: the simple selectors and the value of the pseudo-element that ended them. */
  datatype Sequence = Sequence(simpleSelectors: seq<SimpleSelector>, pseudoElement: Option<string>)

  /**
   * One turn of parseSelector's loop: the input ended (EOF or a comma), or a
   * combinator and a compound were read, linked to the compound on the left.
   */
  datatype Joint = Ended | Joined(compound: Compound, pseudoElement: Option<string>)

  /** A step that reads forward from index `at` and stays within the replay. */
  ghost predicate Forward<T>(r: Replay, at: nat, p: Parsed<T>) {
    at <= p.after.at < |r.tokens|
  }

  /** The token just before index `at` is the identifier `v`: where the name of a pseudo-element was read. */
  ghost predicate AfterName(r: Replay, at: nat, v: string) {
    0 < at <= |r.tokens| && r.tokens[at - 1].kind.Ident? && r.tokens[at - 1].value == v
  }

  /**
   * What parseOneSimpleSelector can give: never a type selector, never a
   * negation inside a negation, and a pseudo-element only right after its name.
   */
  ghost predicate Produced(r: Replay, s: SimpleSelector, at: nat, insideNegation: bool) {
    && !s.LocalName?
    && (insideNegation ==> !s.PseudoNegation?)
    && (s.PseudoElement? ==> AfterName(r, at, s.value))
  }

  /** Tokenizer.getPosition: the pushed-back token has already been read from the tokenizer. */
  function PositionOf(r: Replay, c: Cursor): int
    requires r.Valid() && c.at < |r.tokens|
  {
    r.Position(if c.held then r.Advance(c.at) else c.at)
  }

  /** expected(what, token): the error names the token's position and type. */
  function Expecting<T>(what: string, t: Token): Result<T, ParseError> {
    Failure(Expected(what, t.position, t.kind))
  }

  /** A method that returns a simple selector, seen as one that may return null. */
  function Optional(result: Result<SimpleSelector, ParseError>): (o: Result<Option<SimpleSelector>, ParseError>)
    ensures o.Success? <==> result.Success?
    ensures o.Success? ==> o.value == Some(result.value)
    ensures o.Failure? ==> o.error == result.error
  {
    match result
    case Success(s) => Success(Some(s))
    case Failure(e) => Failure(e)
  }

  /** The names after one colon that make a pseudo-element (compared in lower case). */
  predicate IsPseudoElementName(lower: string) {
    lower == "first-line" || lower == "first-letter" || lower == "before" || lower == "after"
  }

  /** The functional pseudo-classes handed to NthParser (compared in lower case). */
  predicate IsNthName(lower: string) {
    lower == "nth-child" || lower == "nth-last-child" || lower == "nth-of-type" || lower == "nth-last-of-type"
  }

  // ---------------------------------------------------------------------------
  // parseName
  // ---------------------------------------------------------------------------

  /**
   * parseName: after whitespace, an identifier or `*` is a type selector;
   * any other token is pushed back and the name is `*`.
   */
  function NameAt(r: Replay, c: Cursor): (n: Name)
    requires r.Valid() && c.at < |r.tokens|
    ensures c.at <= n.after.at < |r.tokens|
    ensures n.found ==> c.at < n.after.at
  {
    var j := Nth.SkipWs(r, c.at);
    var t := r.At(j);
    if t.kind.Delim? && t.value == "*" then Name("*", true, Cursor(r.Advance(j), false))
    else if t.kind.Ident? then Name(t.value, true, Cursor(r.Advance(j), false))
    else Name("*", false, Cursor(j, true))
  }

  // ---------------------------------------------------------------------------
  // parseOneSimpleSelector, parseAttribute, parseFunctionalPseudoClass
  // ---------------------------------------------------------------------------

  /** `.` then an identifier: the class selector [class~=value]. */
  function ClassAt(r: Replay, k: nat): (p: Parsed<Option<SimpleSelector>>)
    requires r.Valid() && k < |r.tokens|
    ensures Forward(r, k, p)
    ensures p.result.Success? ==> p.result.value.Some? && p.result.value.value.Attribute?
  {
    var t := r.At(k);
    if t.kind.Ident? then Parsed(Success(Some(Attribute(Some(Includes), "class", t.value))), Cursor(r.Advance(k), false))
    else Parsed(Expecting("class value", t), Cursor(r.Advance(k), false))
  }

  /** `::` then an identifier: a pseudo-element whatever its name. */
  function PseudoElementAt(r: Replay, k: nat): (p: Parsed<Option<SimpleSelector>>)
    requires r.Valid() && k < |r.tokens|
    ensures Forward(r, k, p)
  {
    var t := r.At(k);
    if t.kind.Ident? then Parsed(Success(Some(PseudoElement(t.value))), Cursor(r.Advance(k), false))
    else Parsed(Expecting("pseudo element value", t), Cursor(r.Advance(k), false))
  }

  /** The operator token of an attribute selector; any type the switch does not list leaves it null. */
  function MatchOf(t: Token): Option<Match> {
    if t.kind.PrefixMatch? then Some(Begins)
    else if t.kind.SuffixMatch? then Some(Ends)
    else if t.kind.SubstringMatch? then Some(Contains)
    else if t.kind.IncludeMatch? then Some(Includes)
    else if t.kind.DashMatch? then Some(Hyphens)
    else if t.kind.Delim? then Some(Equals)
    else None
  }

  /** parseAttribute from the value on: an identifier or string, then `]`. */
  function AttributeValueAt(r: Replay, i: nat, operator: Option<Match>, name: string): (p: Parsed<SimpleSelector>)
    requires r.Valid() && i < |r.tokens|
    ensures Forward(r, i, p)
    ensures p.result.Success? ==> p.result.value.Attribute?
  {
    var j := Nth.SkipWs(r, i);
    var t := r.At(j);
    var k := r.Advance(j);
    if !(t.kind.Ident? || t.kind.String?) then Parsed(Expecting("attribute value", t), Cursor(k, false))
    else
      var j2 := Nth.SkipWs(r, k);
      var close := r.At(j2);
      if !close.kind.RightSquareBracket? then Parsed(Expecting("]", close), Cursor(r.Advance(j2), false))
      else Parsed(Success(Attribute(operator, name, t.value)), Cursor(r.Advance(j2), false))
  }

  /** parseAttribute, after `[`: a name, then `]` or an operator and a value and `]`. */
  function AttributeAt(r: Replay, i: nat): (p: Parsed<SimpleSelector>)
    requires r.Valid() && i < |r.tokens|
    ensures Forward(r, i, p)
    ensures p.result.Success? ==> p.result.value.Attribute?
  {
    var j := Nth.SkipWs(r, i);
    var t := r.At(j);
    var k := r.Advance(j);
    if !t.kind.Ident? then Parsed(Expecting("attribute name", t), Cursor(k, false))
    else
      var j2 := Nth.SkipWs(r, k);
      var op := r.At(j2);
      var k2 := r.Advance(j2);
      if op.kind.RightSquareBracket? then Parsed(Success(Attribute(Some(Exists), t.value, "")), Cursor(k2, false))
      else if op.kind.Delim? && op.value != "=" then Parsed(Expecting("=", op), Cursor(k2, false))
      else AttributeValueAt(r, k2, MatchOf(op), t.value)
  }

  /** The nth-* pseudo-classes: NthParser reads the arguments and the `)`. */
  function NthPseudoAt(r: Replay, i: nat, name: string): (p: Parsed<SimpleSelector>)
    requires r.Valid() && i < |r.tokens|
    ensures Forward(r, i, p)
  {
    var s := Nth.NthAt(r, i);
    match s.result
    case Success(pair) => Parsed(Success(PseudoNth(name, pair.a, pair.b)), Cursor(s.next, false))
    case Failure(e) => Parsed(Failure(e), Cursor(s.next, false))
  }

  /**
   * Any other functional pseudo-class: the values of the tokens up to `)`,
   * concatenated after `text`; EOF first is an error at `pos`.
   */
  function ArgumentsAt(r: Replay, i: nat, pos: int, name: string, text: string): (p: Parsed<SimpleSelector>)
    requires r.Valid() && i < |r.tokens|
    ensures Forward(r, i, p)
    ensures p.result.Success? ==> p.result.value.PseudoFunction?
    ensures p.result.Failure? ==> p.result.error == EofInFunction(pos)
    decreases |r.tokens| - i
  {
    var t := r.At(i);
    if t.kind.Eof? then Parsed(Failure(EofInFunction(pos)), Cursor(i, false))
    else if t.kind.RightParen? then Parsed(Success(PseudoFunction(name, text)), Cursor(r.Advance(i), false))
    else ArgumentsAt(r, r.Advance(i), pos, name, text + t.value)
  }

  /** The end of a negation: after whitespace, `)`. */
  function NegationEndAt(r: Replay, c: Cursor, inner: SimpleSelector): (p: Parsed<SimpleSelector>)
    requires r.Valid() && c.at < |r.tokens|
    ensures Forward(r, c.at, p)
  {
    var j := Nth.SkipWs(r, c.at);
    var t := r.At(j);
    if t.kind.RightParen? then Parsed(Success(PseudoNegation(inner)), Cursor(r.Advance(j), false))
    else Parsed(Expecting(")", t), Cursor(r.Advance(j), false))
  }

  /**
   * parseOneSimpleSelector: a hash, a class, an attribute selector or a
   * pseudo-class or pseudo-element. Any other token is pushed back and the
   * result is null (None).
   */
  function OneSimpleAt(r: Replay, c: Cursor, insideNegation: bool): (p: Parsed<Option<SimpleSelector>>)
    requires r.Valid() && c.at < |r.tokens|
    ensures Forward(r, c.at, p)
    ensures p.result.Success? && p.result.value.Some? ==>
      c.at < p.after.at && Produced(r, p.result.value.value, p.after.at, insideNegation)
    decreases |r.tokens| - c.at, 0
  {
    var t := r.At(c.at);
    var k := r.Advance(c.at);
    if t.kind.Hash? then Parsed(Success(Some(Attribute(Some(Equals), "id", t.value))), Cursor(k, false))
    else if t.kind.Delim? && t.value == "." then ClassAt(r, k)
    else if t.kind.Delim? then Parsed(Expecting(".", t), Cursor(k, false))
    else if t.kind.LeftSquareBracket? then var a := AttributeAt(r, k); Parsed(Optional(a.result), a.after)
    else if t.kind.Colon? then PseudoAt(r, k, insideNegation)
    else Parsed(Success(None), Cursor(c.at, true))
  }

  /**
   * After a colon: an identifier (a pseudo-element for the four legacy names,
   * otherwise a pseudo-class), a second colon and a pseudo-element, or a
   * function. Any other token is pushed back and the result is null.
   */
  function PseudoAt(r: Replay, k: nat, insideNegation: bool): (p: Parsed<Option<SimpleSelector>>)
    requires r.Valid() && k < |r.tokens|
    ensures Forward(r, k, p)
    ensures p.result.Success? && p.result.value.Some? ==> Produced(r, p.result.value.value, p.after.at, insideNegation)
    decreases |r.tokens| - k, 0
  {
    var t := r.At(k);
    var k2 := r.Advance(k);
    if t.kind.Ident? then
      var s := if IsPseudoElementName(Lower(t.value)) then PseudoElement(t.value) else PseudoClass(t.value);
      Parsed(Success(Some(s)), Cursor(k2, false))
    else if t.kind.Colon? then PseudoElementAt(r, k2)
    else if t.kind.Function? then
      var f := FunctionalAt(r, k2, t.value, insideNegation);
      Parsed(Optional(f.result), f.after)
    else Parsed(Success(None), Cursor(k, true))
  }

  /**
   * parseFunctionalPseudoClass, after the function token: the nth-* forms,
   * a negation, or any other name with its raw arguments. Errors report the
   * position after the function token.
   */
  function FunctionalAt(r: Replay, i: nat, name: string, insideNegation: bool): (p: Parsed<SimpleSelector>)
    requires r.Valid() && i < |r.tokens|
    ensures Forward(r, i, p)
    ensures p.result.Success? ==> Produced(r, p.result.value, p.after.at, insideNegation)
    decreases |r.tokens| - i, 2
  {
    var pos := r.Position(i);
    var lower := Lower(name);
    if IsNthName(lower) then NthPseudoAt(r, i, name)
    else if lower == "not" then
      if insideNegation then Parsed(Failure(NestedNegation(pos)), Cursor(i, false))
      else NegationAt(r, i)
    else ArgumentsAt(r, i, pos, name, "")
  }

  /**
   * `:not(`: a type selector (`*` included), or else one simple selector
   * read inside the negation; then `)`.
   */
  function NegationAt(r: Replay, i: nat): (p: Parsed<SimpleSelector>)
    requires r.Valid() && i < |r.tokens|
    ensures Forward(r, i, p)
    ensures p.result.Success? ==> p.result.value.PseudoNegation? && !p.result.value.selector.PseudoNegation?
    decreases |r.tokens| - i, 1
  {
    var n := NameAt(r, Cursor(i, false));
    if n.found then NegationEndAt(r, n.after, LocalName(n.name))
    else
      var o := OneSimpleAt(r, n.after, true);
      match o.result
      case Failure(e) => Parsed(Failure(e), o.after)
      case Success(None) =>
        var t := r.At(o.after.at);
        Parsed(Expecting("simple selector", t), Cursor(r.Advance(o.after.at), false))
      case Success(Some(inner)) => NegationEndAt(r, o.after, inner)
  }

  // ---------------------------------------------------------------------------
  // parseSimpleSelectors
  // ---------------------------------------------------------------------------

  /**
   * The loop of parseSimpleSelectors, with the selectors read so far: it
   * stops at the first token that starts no simple selector or at a
   * pseudo-element. With nothing read and no type selector, the error names
   * the position where the compound began.
   */
  function SimplesAt(r: Replay, c: Cursor, pos: int, typed: bool, list: seq<SimpleSelector>): (p: Parsed<Sequence>)
    requires r.Valid() && c.at < |r.tokens|
    ensures Forward(r, c.at, p)
    decreases |r.tokens| - c.at
  {
    var o := OneSimpleAt(r, c, false);
    match o.result
    case Failure(e) => Parsed(Failure(e), o.after)
    case Success(None) =>
      if list == [] && !typed then Parsed(Failure(NoSimpleSelectors(pos)), o.after)
      else Parsed(Success(Sequence(list, None)), o.after)
    case Success(Some(s)) =>
      if s.PseudoElement? then Parsed(Success(Sequence(list, Some(s.value))), o.after)
      else SimplesAt(r, o.after, pos, typed, list + [s])
  }

  /** parseSimpleSelectors: an optional type selector, then simple selectors. */
  function CompoundAt(r: Replay, c: Cursor): (p: Parsed<Sequence>)
    requires r.Valid() && c.at < |r.tokens|
    ensures Forward(r, c.at, p)
  {
    var n := NameAt(r, c);
    var lead := if n.found && n.name != "*" then [LocalName(n.name)] else [];
    SimplesAt(r, n.after, PositionOf(r, c), n.found, lead)
  }

  // ---------------------------------------------------------------------------
  // parseSelector and parseSelectorList
  // ---------------------------------------------------------------------------

  /** The combinator a `>`, `+` or `~` delimiter stands for. */
  function DelimCombinator(t: Token): Option<Combinator> {
    if !t.kind.Delim? then None
    else if t.value == ">" then Some(Child)
    else if t.value == "+" then Some(NextSibling)
    else if t.value == "~" then Some(LaterSibling)
    else None
  }

  /**
   * The start of a turn of parseSelector's loop: after whitespace, EOF or a
   * comma (pushed back) ends the selector (None); `>`, `+` and `~` are
   * combinators; whitespace followed by anything else is the descendant
   * combinator, and that token is pushed back.
   */
  function CombinatorAt(r: Replay, c: Cursor): (p: Parsed<Option<Combinator>>)
    requires r.Valid() && c.at < |r.tokens|
    ensures Forward(r, c.at, p)
    ensures p.result.Success? && p.result.value.Some? ==> c.at < p.after.at
  {
    var j := Nth.SkipWs(r, c.at);
    var t := r.At(j);
    if t.kind.Eof? then Parsed(Success(None), Cursor(r.Advance(j), false))
    else if t.kind.Comma? then Parsed(Success(None), Cursor(j, true))
    else
      var d := DelimCombinator(t);
      if d.Some? then Parsed(Success(d), Cursor(r.Advance(j), false))
      else if j == c.at then Parsed(Expecting("one of ' ', '>', '+', '~'", t), Cursor(r.Advance(j), false))
      else Parsed(Success(Some(Descendant)), Cursor(j, true))
  }

  /** One turn of parseSelector's loop after `left`: the combinator, then the next compound linked to `left`. */
  function JointAt(r: Replay, c: Cursor, left: Compound): (p: Parsed<Joint>)
    requires r.Valid() && c.at < |r.tokens|
    ensures Forward(r, c.at, p)
    ensures p.result.Success? && p.result.value.Joined? ==> c.at < p.after.at
  {
    var k := CombinatorAt(r, c);
    match k.result
    case Failure(e) => Parsed(Failure(e), k.after)
    case Success(None) => Parsed(Success(Ended), k.after)
    case Success(Some(combinator)) =>
      var s := CompoundAt(r, k.after);
      match s.result
      case Failure(e) => Parsed(Failure(e), s.after)
      case Success(sq) => Parsed(Success(Joined(Compound(sq.simpleSelectors, Some(Link(combinator, left))), sq.pseudoElement)), s.after)
  }

  /**
   * parseSelector's loop: it runs while `pseudoElement` is null, but only
   * the first compound ever sets it, so a pseudo-element that ends a later
   * compound is dropped and the loop goes on.
   */
  function ChainAt(r: Replay, c: Cursor, left: Compound): (p: Parsed<Selector>)
    requires r.Valid() && c.at < |r.tokens|
    ensures Forward(r, c.at, p)
    ensures p.result.Success? ==> p.result.value.pseudoElement.None?
    decreases |r.tokens| - c.at
  {
    var s := JointAt(r, c, left);
    match s.result
    case Failure(e) => Parsed(Failure(e), s.after)
    case Success(Ended) => Parsed(Success(Selector(left, None)), s.after)
    case Success(Joined(linked, _)) => ChainAt(r, s.after, linked)
  }

  /** parseSelector: the first compound, then the loop; a pseudo-element is kept only when the first compound ends with it. */
  function SelectorAt(r: Replay, c: Cursor): (p: Parsed<Selector>)
    requires r.Valid() && c.at < |r.tokens|
    ensures Forward(r, c.at, p)
  {
    var s := CompoundAt(r, c);
    match s.result
    case Failure(e) => Parsed(Failure(e), s.after)
    case Success(sq) =>
      if sq.pseudoElement.Some? then Parsed(Success(Selector(CompoundOf(sq.simpleSelectors), sq.pseudoElement)), s.after)
      else ChainAt(r, s.after, CompoundOf(sq.simpleSelectors))
  }

  /**
   * parseSelector's loop as it is meant to run: a pseudo-element ends the
   * selector, in the first compound or in any later one.
   */
  function IntendedChainAt(r: Replay, c: Cursor, left: Compound): (p: Parsed<Selector>)
    requires r.Valid() && c.at < |r.tokens|
    ensures Forward(r, c.at, p)
    decreases |r.tokens| - c.at
  {
    var s := JointAt(r, c, left);
    match s.result
    case Failure(e) => Parsed(Failure(e), s.after)
    case Success(Ended) => Parsed(Success(Selector(left, None)), s.after)
    case Success(Joined(linked, pe)) =>
      if pe.Some? then Parsed(Success(Selector(linked, pe)), s.after)
      else IntendedChainAt(r, s.after, linked)
  }

  /** parseSelector as it is meant to run: the first compound, then the loop, either ending at a pseudo-element. */
  function IntendedSelectorAt(r: Replay, c: Cursor): (p: Parsed<Selector>)
    requires r.Valid() && c.at < |r.tokens|
    ensures Forward(r, c.at, p)
  {
    var s := CompoundAt(r, c);
    match s.result
    case Failure(e) => Parsed(Failure(e), s.after)
    case Success(sq) =>
      if sq.pseudoElement.Some? then Parsed(Success(Selector(CompoundOf(sq.simpleSelectors), sq.pseudoElement)), s.after)
      else IntendedChainAt(r, s.after, CompoundOf(sq.simpleSelectors))
  }

  /** The rest of parseSelectorList: EOF ends the list, a comma starts another selector. */
  function ListRestAt(r: Replay, c: Cursor, selectors: seq<Selector>): (p: Parsed<seq<Selector>>)
    requires r.Valid() && c.at < |r.tokens|
    ensures Forward(r, c.at, p)
    decreases |r.tokens| - c.at
  {
    var j := Nth.SkipWs(r, c.at);
    var t := r.At(j);
    var k := r.Advance(j);
    if t.kind.Eof? then Parsed(Success(selectors), Cursor(k, false))
    else if !t.kind.Comma? then Parsed(Expecting(",", t), Cursor(k, false))
    else
      var s := SelectorAt(r, Cursor(k, false));
      match s.result
      case Failure(e) => Parsed(Failure(e), s.after)
      case Success(sel) => ListRestAt(r, s.after, selectors + [sel])
  }

  /** parseSelectorList: one selector, then more after commas, up to EOF. */
  function SelectorListAt(r: Replay, c: Cursor): (p: Parsed<seq<Selector>>)
    requires r.Valid() && c.at < |r.tokens|
    ensures Forward(r, c.at, p)
  {
    var s := SelectorAt(r, c);
    match s.result
    case Failure(e) => Parsed(Failure(e), s.after)
    case Success(sel) => ListRestAt(r, s.after, [sel])
  }

  // ---------------------------------------------------------------------------
  // Properties of the specification
  // ---------------------------------------------------------------------------

  /** No pseudo-element among a compound's simple selectors. */
  ghost predicate NoPseudoElement(list: seq<SimpleSelector>) {
    forall k :: 0 <= k < |list| ==> !list[k].PseudoElement?
  }

  /** No pseudo-element in the simple selectors of any compound of the chain. */
  ghost predicate PlainChain(c: Compound)
    decreases c
  {
    NoPseudoElement(c.simpleSelectors) && (c.previous.Some? ==> PlainChain(c.previous.value.compound))
  }

  /** `c` is `left`, or links leftward, one or more combinators away, to `left`. */
  ghost predicate Extends(c: Compound, left: Compound)
    decreases c
  {
    c == left || (c.previous.Some? && Extends(c.previous.value.compound, left))
  }

  /** The concatenated values of a run of tokens. */
  function Values(ts: seq<Token>): string {
    if ts == [] then "" else ts[0].value + Values(ts[1..])
  }

  /**
   * The loop of parseSimpleSelectors keeps the selectors it was given in
   * front, adds no type selector and no pseudo-element to the list, and ends
   * the list at a pseudo-element right after its name. An empty result with
   * no pseudo-element needs a type selector.
   */
  lemma {:induction false} SimplesShape(r: Replay, c: Cursor, pos: int, typed: bool, list: seq<SimpleSelector>)
    requires r.Valid() && c.at < |r.tokens| && NoPseudoElement(list)
    ensures var p := SimplesAt(r, c, pos, typed, list);
      p.result.Success? ==>
        var sq := p.result.value;
        && |list| <= |sq.simpleSelectors| && sq.simpleSelectors[..|list|] == list
        && (forall k :: |list| <= k < |sq.simpleSelectors| ==> !sq.simpleSelectors[k].LocalName?)
        && NoPseudoElement(sq.simpleSelectors)
        && (sq.pseudoElement.Some? ==> AfterName(r, p.after.at, sq.pseudoElement.value))
        && (sq.simpleSelectors == [] && sq.pseudoElement.None? ==> typed)
    decreases |r.tokens| - c.at
  {
    var o := OneSimpleAt(r, c, false);
    if o.result.Success? && o.result.value.Some? && !o.result.value.value.PseudoElement? {
      var s := o.result.value.value;
      SimplesShape(r, o.after, pos, typed, list + [s]);
      var sq := SimplesAt(r, o.after, pos, typed, list + [s]).result;
      if sq.Success? {
        var l := sq.value.simpleSelectors;
        assert l[..|list|] == (l[..|list| + 1])[..|list|];
      }
    }
  }

  /**
   * parseSimpleSelectors: an identifier before the first simple selector
   * becomes a leading LocalName, `*` adds nothing, and no other simple
   * selector is a LocalName; a compound with neither a type selector nor
   * any simple selector or pseudo-element is the error "No simple selectors
   * found" at the position where it began.
   */
  lemma CompoundShape(r: Replay, c: Cursor)
    requires r.Valid() && c.at < |r.tokens|
    ensures var t := r.At(Nth.SkipWs(r, c.at));
      var p := CompoundAt(r, c);
      p.result.Success? ==>
        var list := p.result.value.simpleSelectors;
        && NoPseudoElement(list)
        && (t.kind.Ident? && t.value != "*" ==> |list| > 0 && list[0] == LocalName(t.value))
        && (forall k :: (t.kind.Ident? && t.value != "*" ==> 0 < k) && 0 <= k < |list| ==> !list[k].LocalName?)
        && (p.result.value.pseudoElement.Some? ==> AfterName(r, p.after.at, p.result.value.pseudoElement.value))
        && (list == [] && p.result.value.pseudoElement.None? ==> t.kind.Ident? || (t.kind.Delim? && t.value == "*"))
  {
    var n := NameAt(r, c);
    var lead := if n.found && n.name != "*" then [LocalName(n.name)] else [];
    SimplesShape(r, n.after, PositionOf(r, c), n.found, lead);
  }

  /** With no type selector and nothing else there, the compound is the error at its start position. */
  lemma EmptyCompound(r: Replay, c: Cursor)
    requires r.Valid() && c.at < |r.tokens|
    requires var j := Nth.SkipWs(r, c.at);
      && !r.At(j).kind.Ident? && !(r.At(j).kind.Delim? && r.At(j).value == "*")
      && OneSimpleAt(r, Cursor(j, true), false).result == Success(None)
    ensures CompoundAt(r, c).result == Failure(NoSimpleSelectors(PositionOf(r, c)))
  {
  }

  /**
   * One turn of parseSelector's loop: EOF or a comma ends the selector;
   * `>`, `+` and `~` give CHILD, NEXT_SIBLING and LATER_SIBLING; whitespace
   * followed by anything else gives DESCENDANT; without whitespace anything
   * else is an error. The new compound links leftward to the previous one.
   */
  lemma Combinators(r: Replay, c: Cursor, left: Compound)
    requires r.Valid() && c.at < |r.tokens|
    ensures var j := Nth.SkipWs(r, c.at);
      var t := r.At(j);
      var p := JointAt(r, c, left);
      && (p.result == Success(Ended) <==> t.kind.Eof? || t.kind.Comma?)
      && (t.kind.Comma? ==> p.after == Cursor(j, true))
      && (p.result.Success? && p.result.value.Joined? ==>
           var previous := p.result.value.compound.previous;
           && previous.Some? && previous.value.compound == left
           && (t.kind.Delim? && t.value == ">" ==> previous.value.combinator == Child)
           && (t.kind.Delim? && t.value == "+" ==> previous.value.combinator == NextSibling)
           && (t.kind.Delim? && t.value == "~" ==> previous.value.combinator == LaterSibling)
           && (DelimCombinator(t).None? ==> j != c.at && previous.value.combinator == Descendant))
      && (!t.kind.Eof? && !t.kind.Comma? && DelimCombinator(t).None? && j == c.at ==>
           p.result == Failure(Expected("one of ' ', '>', '+', '~'", t.position, t.kind)))
  {
    CombinatorRead(r, c);
    var k := CombinatorAt(r, c);
    if k.result.Success? && k.result.value.Some? {
      var s := CompoundAt(r, k.after);
      if s.result.Success? {
        assert JointAt(r, c, left).result.value.compound.previous == Some(Link(k.result.value.value, left));
      }
    }
  }

  /** What the combinator at the start of a turn of parseSelector's loop is. */
  lemma CombinatorRead(r: Replay, c: Cursor)
    requires r.Valid() && c.at < |r.tokens|
    ensures var j := Nth.SkipWs(r, c.at);
      var t := r.At(j);
      var k := CombinatorAt(r, c);
      && (k.result == Success(None) <==> t.kind.Eof? || t.kind.Comma?)
      && (t.kind.Comma? ==> k.after == Cursor(j, true))
      && (k.result.Success? && k.result.value.Some? ==>
            && (t.kind.Delim? && t.value == ">" ==> k.result.value == Some(Child))
            && (t.kind.Delim? && t.value == "+" ==> k.result.value == Some(NextSibling))
            && (t.kind.Delim? && t.value == "~" ==> k.result.value == Some(LaterSibling))
            && (DelimCombinator(t).None? ==> j != c.at && k.result.value == Some(Descendant)))
      && (!t.kind.Eof? && !t.kind.Comma? && DelimCombinator(t).None? && j == c.at ==>
            k.result == Failure(Expected("one of ' ', '>', '+', '~'", t.position, t.kind)))
  {
  }

  /**
   * parseSelector's loop keeps the compound it started from at the left end
   * of the chain and puts no pseudo-element in any compound's list (the one
   * a later compound ends with is dropped).
   */
  lemma {:induction false} ChainShape(r: Replay, c: Cursor, left: Compound)
    requires r.Valid() && c.at < |r.tokens| && PlainChain(left)
    ensures var p := ChainAt(r, c, left);
      p.result.Success? ==>
        && Extends(p.result.value.compound, left)
        && PlainChain(p.result.value.compound)
        && p.result.value.pseudoElement.None?
    decreases |r.tokens| - c.at
  {
    var s := JointAt(r, c, left);
    JointShape(r, c, left);
    if s.result.Success? && s.result.value.Joined? {
      var linked := s.result.value.compound;
      ChainShape(r, s.after, linked);
      var p := ChainAt(r, s.after, linked);
      if p.result.Success? {
        ExtendsTransitive(p.result.value.compound, linked, left);
      }
    }
  }

  /**
   * parseSelector's loop as it is meant to run keeps the compound it started from at
   * the left end of the chain, puts no pseudo-element in any compound's
   * list, and stops right after the name of a pseudo-element it keeps.
   */
  lemma {:induction false} IntendedChainShape(r: Replay, c: Cursor, left: Compound)
    requires r.Valid() && c.at < |r.tokens| && PlainChain(left)
    ensures var p := IntendedChainAt(r, c, left);
      p.result.Success? ==>
        && Extends(p.result.value.compound, left)
        && PlainChain(p.result.value.compound)
        && (p.result.value.pseudoElement.Some? ==> AfterName(r, p.after.at, p.result.value.pseudoElement.value))
    decreases |r.tokens| - c.at
  {
    var s := JointAt(r, c, left);
    JointShape(r, c, left);
    if s.result.Success? && s.result.value.Joined? && s.result.value.pseudoElement.None? {
      var linked := s.result.value.compound;
      IntendedChainShape(r, s.after, linked);
      var p := IntendedChainAt(r, s.after, linked);
      if p.result.Success? {
        ExtendsTransitive(p.result.value.compound, linked, left);
      }
    }
  }

  /** One turn of the loop links the new compound to `left` and lists no pseudo-element in it. */
  lemma JointShape(r: Replay, c: Cursor, left: Compound)
    requires r.Valid() && c.at < |r.tokens| && PlainChain(left)
    ensures var p := JointAt(r, c, left);
      p.result.Success? && p.result.value.Joined? ==>
        && Extends(p.result.value.compound, left)
        && PlainChain(p.result.value.compound)
        && (p.result.value.pseudoElement.Some? ==> AfterName(r, p.after.at, p.result.value.pseudoElement.value))
  {
    CompoundShape(r, CombinatorAt(r, c).after);
  }

  /** Linking leftward is transitive. */
  lemma {:induction false} ExtendsTransitive(a: Compound, b: Compound, c: Compound)
    requires Extends(a, b) && Extends(b, c)
    ensures Extends(a, c)
    decreases a
  {
    if a != b {
      ExtendsTransitive(a.previous.value.compound, b, c);
    }
  }

  /**
   * parseSelector: no compound lists a pseudo-element, and the selector
   * carries one only when its first compound ended with it: the selector is
   * then that one compound, and the parser stops right after the name.
   */
  lemma SelectorShape(r: Replay, c: Cursor)
    requires r.Valid() && c.at < |r.tokens|
    ensures var p := SelectorAt(r, c);
      p.result.Success? ==>
        && PlainChain(p.result.value.compound)
        && (p.result.value.pseudoElement.Some? ==>
              && p.result.value.compound.previous.None?
              && AfterName(r, p.after.at, p.result.value.pseudoElement.value))
  {
    CompoundShape(r, c);
    var s := CompoundAt(r, c);
    if s.result.Success? && s.result.value.pseudoElement.None? {
      ChainShape(r, s.after, CompoundOf(s.result.value.simpleSelectors));
    }
  }

  /**
   * parseSelector as it is meant to run: no compound lists a pseudo-element, and a
   * pseudo-element the selector carries ends it: the parser stops right
   * after its name.
   */
  lemma IntendedSelectorShape(r: Replay, c: Cursor)
    requires r.Valid() && c.at < |r.tokens|
    ensures var p := IntendedSelectorAt(r, c);
      p.result.Success? ==>
        && PlainChain(p.result.value.compound)
        && (p.result.value.pseudoElement.Some? ==> AfterName(r, p.after.at, p.result.value.pseudoElement.value))
  {
    CompoundShape(r, c);
    var s := CompoundAt(r, c);
    if s.result.Success? && s.result.value.pseudoElement.None? {
      IntendedChainShape(r, s.after, CompoundOf(s.result.value.simpleSelectors));
    }
  }

  /**
   * The rest of parseSelectorList keeps the selectors read so far in front,
   * and succeeds only once it has read the final EOF.
   */
  lemma {:induction false} ListRestShape(r: Replay, c: Cursor, selectors: seq<Selector>)
    requires r.Valid() && c.at < |r.tokens|
    ensures var p := ListRestAt(r, c, selectors);
      p.result.Success? ==>
        && |selectors| <= |p.result.value| && p.result.value[..|selectors|] == selectors
        && p.after.at == r.Last()
    decreases |r.tokens| - c.at
  {
    var j := Nth.SkipWs(r, c.at);
    var t := r.At(j);
    if t.kind.Comma? {
      var s := SelectorAt(r, Cursor(r.Advance(j), false));
      if s.result.Success? {
        var more := selectors + [s.result.value];
        ListRestShape(r, s.after, more);
        var p := ListRestAt(r, s.after, more);
        assert ListRestAt(r, c, selectors) == p;
        if p.result.Success? {
          assert p.result.value[..|selectors|] == p.result.value[..|more|][..|selectors|];
        }
      }
    }
  }

  /** After a selector: EOF ends the list, and anything but EOF or a comma is the error "Expected ,". */
  lemma ListSeparators(r: Replay, c: Cursor, selectors: seq<Selector>)
    requires r.Valid() && c.at < |r.tokens|
    ensures var t := r.At(Nth.SkipWs(r, c.at));
      var p := ListRestAt(r, c, selectors);
      && (t.kind.Eof? ==> p.result == Success(selectors))
      && (!t.kind.Eof? && !t.kind.Comma? ==> p.result == Failure(Expected(",", t.position, t.kind)))
  {
  }

  /** parseSelectorList: a non-empty list, read through to the final EOF. */
  lemma SelectorListShape(r: Replay, c: Cursor)
    requires r.Valid() && c.at < |r.tokens|
    ensures var p := SelectorListAt(r, c);
      p.result.Success? ==> |p.result.value| >= 1 && p.after.at == r.Last()
  {
    var s := SelectorAt(r, c);
    if s.result.Success? {
      ListRestShape(r, s.after, [s.result.value]);
    }
  }

  /**
   * parseOneSimpleSelector's forms: `#x` is [id=x], `.x` is [class~=x], any
   * other delimiter is the error "Expected .", and a token that starts no
   * simple selector is pushed back.
   */
  lemma SimpleForms(r: Replay, c: Cursor, insideNegation: bool)
    requires r.Valid() && c.at < |r.tokens|
    ensures var t := r.At(c.at);
      var k := r.Advance(c.at);
      var p := OneSimpleAt(r, c, insideNegation);
      && (t.kind.Hash? ==> p.result == Success(Some(Attribute(Some(Equals), "id", t.value))))
      && (t.kind.Delim? && t.value == "." && r.At(k).kind.Ident? ==>
           p.result == Success(Some(Attribute(Some(Includes), "class", r.At(k).value))))
      && (t.kind.Delim? && t.value == "." && !r.At(k).kind.Ident? ==>
           p.result == Failure(Expected("class value", r.At(k).position, r.At(k).kind)))
      && (t.kind.Delim? && t.value != "." ==> p.result == Failure(Expected(".", t.position, t.kind)))
      && (!t.kind.Hash? && !t.kind.Delim? && !t.kind.LeftSquareBracket? && !t.kind.Colon? ==>
           p == Parsed(Success(None), Cursor(c.at, true)))
  {
  }

  /**
   * After a colon: the four legacy names (in any letter case) are
   * pseudo-elements, any other identifier is a pseudo-class with the name as
   * written, and `::name` is always a pseudo-element.
   */
  lemma PseudoForms(r: Replay, k: nat, insideNegation: bool)
    requires r.Valid() && k < |r.tokens|
    ensures var t := r.At(k);
      var u := r.At(r.Advance(k));
      var p := PseudoAt(r, k, insideNegation);
      && (t.kind.Ident? && IsPseudoElementName(Lower(t.value)) ==> p.result == Success(Some(PseudoElement(t.value))))
      && (t.kind.Ident? && !IsPseudoElementName(Lower(t.value)) ==> p.result == Success(Some(PseudoClass(t.value))))
      && (t.kind.Colon? && u.kind.Ident? ==> p.result == Success(Some(PseudoElement(u.value))))
      && (t.kind.Colon? && !u.kind.Ident? ==> p.result == Failure(Expected("pseudo element value", u.position, u.kind)))
  {
  }

  /**
   * parseAttribute: the name must be an identifier; `]` right after it is
   * [name] (EXISTS, value ""); otherwise a delimiter other than `=` is an
   * error, the operator token gives the match (null for a token the switch
   * does not list), and the value is an identifier or string closed by `]`.
   */
  lemma AttributeForms(r: Replay, i: nat)
    requires r.Valid() && i < |r.tokens|
    ensures var j := Nth.SkipWs(r, i);
      var t := r.At(j);
      var j2 := Nth.SkipWs(r, r.Advance(j));
      var op := r.At(j2);
      var p := AttributeAt(r, i);
      && (!t.kind.Ident? ==> p.result == Failure(Expected("attribute name", t.position, t.kind)))
      && (t.kind.Ident? && op.kind.RightSquareBracket? ==> p.result == Success(Attribute(Some(Exists), t.value, "")))
      && (t.kind.Ident? && op.kind.Delim? && op.value != "=" ==> p.result == Failure(Expected("=", op.position, op.kind)))
      && (t.kind.Ident? && !op.kind.RightSquareBracket? && !(op.kind.Delim? && op.value != "=") ==>
           p == AttributeValueAt(r, r.Advance(j2), MatchOf(op), t.value))
      && (p.result.Success? ==>
           && p.result.value.Attribute? && p.result.value.name == t.value
           && (p.result.value.operator == Some(Exists) <==> op.kind.RightSquareBracket?)
           && (!op.kind.RightSquareBracket? ==> p.result.value.operator == MatchOf(op))
           && p.result.value.value == (if op.kind.RightSquareBracket? then "" else r.At(Nth.SkipWs(r, r.Advance(j2))).value)
           && r.tokens[p.after.at - 1].kind.RightSquareBracket?)
  {
    AttributeEarly(r, i);
    AttributeSuccess(r, i);
    var j := Nth.SkipWs(r, i);
    var op := r.At(Nth.SkipWs(r, r.Advance(j)));
    if r.At(j).kind.Ident? && !op.kind.RightSquareBracket? && !(op.kind.Delim? && op.value != "=") {
      AttributeOperator(r, i);
    }
  }

  /** The outcomes of parseAttribute decided before any value is read. */
  lemma AttributeEarly(r: Replay, i: nat)
    requires r.Valid() && i < |r.tokens|
    ensures var j := Nth.SkipWs(r, i);
      var t := r.At(j);
      var j2 := Nth.SkipWs(r, r.Advance(j));
      var op := r.At(j2);
      var p := AttributeAt(r, i);
      && (!t.kind.Ident? ==> p.result == Failure(Expected("attribute name", t.position, t.kind)))
      && (t.kind.Ident? && op.kind.RightSquareBracket? ==> p.result == Success(Attribute(Some(Exists), t.value, "")))
      && (t.kind.Ident? && op.kind.Delim? && op.value != "=" ==> p.result == Failure(Expected("=", op.position, op.kind)))
  {
  }

  /** What a successful parseAttribute holds, and that it reads through `]`. */
  lemma AttributeSuccess(r: Replay, i: nat)
    requires r.Valid() && i < |r.tokens|
    ensures var j := Nth.SkipWs(r, i);
      var t := r.At(j);
      var j2 := Nth.SkipWs(r, r.Advance(j));
      var op := r.At(j2);
      var p := AttributeAt(r, i);
      p.result.Success? ==>
        && p.result.value.Attribute? && p.result.value.name == t.value
        && (p.result.value.operator == Some(Exists) <==> op.kind.RightSquareBracket?)
        && (!op.kind.RightSquareBracket? ==> p.result.value.operator == MatchOf(op))
        && p.result.value.value == (if op.kind.RightSquareBracket? then "" else r.At(Nth.SkipWs(r, r.Advance(j2))).value)
        && r.tokens[p.after.at - 1].kind.RightSquareBracket?
  {
    var j := Nth.SkipWs(r, i);
    var t := r.At(j);
    if t.kind.Ident? {
      var j2 := Nth.SkipWs(r, r.Advance(j));
      var op := r.At(j2);
      if op.kind.RightSquareBracket? {
        assert r.Advance(j2) == j2 + 1;
      } else if !op.kind.Delim? || op.value == "=" {
        AttributeOperator(r, i);
      }
    }
  }

  /** An attribute name followed by an operator is completed by a value and `]`. */
  lemma AttributeOperator(r: Replay, i: nat)
    requires r.Valid() && i < |r.tokens|
    requires var j := Nth.SkipWs(r, i);
      var op := r.At(Nth.SkipWs(r, r.Advance(j)));
      r.At(j).kind.Ident? && !op.kind.RightSquareBracket? && (!op.kind.Delim? || op.value == "=")
    ensures var j := Nth.SkipWs(r, i);
      var t := r.At(j);
      var j2 := Nth.SkipWs(r, r.Advance(j));
      var op := r.At(j2);
      var p := AttributeAt(r, i);
      && p == AttributeValueAt(r, r.Advance(j2), MatchOf(op), t.value)
      && (p.result.Success? ==>
           && p.result.value.Attribute? && p.result.value.name == t.value
           && p.result.value.operator == MatchOf(op) && MatchOf(op) != Some(Exists)
           && p.result.value.value == r.At(Nth.SkipWs(r, r.Advance(j2))).value
           && r.tokens[p.after.at - 1].kind.RightSquareBracket?)
  {
    var j := Nth.SkipWs(r, i);
    var t := r.At(j);
    var j2 := Nth.SkipWs(r, r.Advance(j));
    var op := r.At(j2);
    var k2 := r.Advance(j2);
    assert AttributeAt(r, i) == AttributeValueAt(r, k2, MatchOf(op), t.value);
    AttributeValueShape(r, k2, MatchOf(op), t.value);
    Operators(op);
  }

  /**
   * The value part of parseAttribute: a token other than an identifier or a
   * string is the error "attribute value"; after the value, a token other
   * than `]` is the error "]"; otherwise the selector has the operator and
   * name given and the value token's value, read through the `]`.
   */
  lemma AttributeValueShape(r: Replay, i: nat, operator: Option<Match>, name: string)
    requires r.Valid() && i < |r.tokens|
    ensures var j := Nth.SkipWs(r, i);
      var v := r.At(j);
      var close := r.At(Nth.SkipWs(r, r.Advance(j)));
      var p := AttributeValueAt(r, i, operator, name);
      && (!(v.kind.Ident? || v.kind.String?) ==> p.result == Failure(Expected("attribute value", v.position, v.kind)))
      && ((v.kind.Ident? || v.kind.String?) && !close.kind.RightSquareBracket? ==>
           p.result == Failure(Expected("]", close.position, close.kind)))
      && ((v.kind.Ident? || v.kind.String?) && close.kind.RightSquareBracket? ==>
           p.result == Success(Attribute(operator, name, v.value)))
      && (p.result.Success? ==>
           && p.result.value.Attribute? && p.result.value.operator == operator && p.result.value.name == name
           && p.result.value.value == v.value && (v.kind.Ident? || v.kind.String?)
           && 0 < p.after.at && r.tokens[p.after.at - 1].kind.RightSquareBracket?)
  {
    var j := Nth.SkipWs(r, i);
    var t := r.At(j);
    if t.kind.Ident? || t.kind.String? {
      var j2 := Nth.SkipWs(r, r.Advance(j));
      if r.At(j2).kind.RightSquareBracket? {
        assert r.Advance(j2) == j2 + 1;
      }
    }
  }

  /** The operator tokens and the match each gives; a token of any other type gives none. */
  lemma Operators(t: Token)
    ensures t.kind.PrefixMatch? ==> MatchOf(t) == Some(Begins)
    ensures t.kind.SuffixMatch? ==> MatchOf(t) == Some(Ends)
    ensures t.kind.SubstringMatch? ==> MatchOf(t) == Some(Contains)
    ensures t.kind.IncludeMatch? ==> MatchOf(t) == Some(Includes)
    ensures t.kind.DashMatch? ==> MatchOf(t) == Some(Hyphens)
    ensures t.kind.Delim? ==> MatchOf(t) == Some(Equals)
    ensures MatchOf(t) != Some(Exists)
    ensures MatchOf(t).None? <==>
      !t.kind.PrefixMatch? && !t.kind.SuffixMatch? && !t.kind.SubstringMatch? &&
      !t.kind.IncludeMatch? && !t.kind.DashMatch? && !t.kind.Delim?
  {
  }

  /**
   * A functional pseudo-class other than nth-* and not: the concatenated
   * values of the tokens up to the first `)`, which is read; with no `)`
   * before EOF, the error.
   */
  lemma ArgumentsText(r: Replay, i: nat, pos: int, name: string, text: string)
    requires r.Valid() && i < |r.tokens|
    ensures var p := ArgumentsAt(r, i, pos, name, text);
      && (p.result.Success? ==>
           && i < p.after.at && r.tokens[p.after.at - 1].kind.RightParen?
           && (forall k :: i <= k < p.after.at - 1 ==> !r.tokens[k].kind.RightParen?)
           && p.result.value == PseudoFunction(name, text + Values(r.tokens[i..p.after.at - 1])))
      && (p.result.Failure? ==> forall k :: i <= k < |r.tokens| ==> !r.tokens[k].kind.RightParen?)
  {
    ArgumentsStop(r, i, pos, name, text);
    ArgumentsValue(r, i, pos, name, text);
  }

  /** The arguments end just past the first `)` from `i`; without one, at EOF with an error. */
  lemma {:induction false} ArgumentsStop(r: Replay, i: nat, pos: int, name: string, text: string)
    requires r.Valid() && i < |r.tokens|
    ensures var p := ArgumentsAt(r, i, pos, name, text);
      && (p.result.Success? ==>
           && i < p.after.at && r.tokens[p.after.at - 1].kind.RightParen?
           && (forall k :: i <= k < p.after.at - 1 ==> !r.tokens[k].kind.RightParen?))
      && (p.result.Failure? ==> forall k :: i <= k < |r.tokens| ==> !r.tokens[k].kind.RightParen?)
    decreases |r.tokens| - i
  {
    var t := r.At(i);
    if !t.kind.RightParen? && !t.kind.Eof? {
      ArgumentsStop(r, i + 1, pos, name, text + t.value);
      assert ArgumentsAt(r, i, pos, name, text) == ArgumentsAt(r, i + 1, pos, name, text + t.value);
    }
  }

  /** The text of the arguments is that of every token before the `)`. */
  lemma {:induction false} ArgumentsValue(r: Replay, i: nat, pos: int, name: string, text: string)
    requires r.Valid() && i < |r.tokens|
    ensures var p := ArgumentsAt(r, i, pos, name, text);
      p.result.Success? ==> i < p.after.at && p.result.value == PseudoFunction(name, text + Values(r.tokens[i..p.after.at - 1]))
    decreases |r.tokens| - i
  {
    var t := r.At(i);
    if t.kind.RightParen? {
      assert r.tokens[i..i] == [];
    } else if !t.kind.Eof? {
      ArgumentsValue(r, i + 1, pos, name, text + t.value);
      var p := ArgumentsAt(r, i + 1, pos, name, text + t.value);
      assert ArgumentsAt(r, i, pos, name, text) == p;
      if p.result.Success? {
        var e := p.after.at - 1;
        ValuesFirst(r.tokens, i, e);
        assert text + Values(r.tokens[i..e]) == (text + t.value) + Values(r.tokens[i + 1..e]);
      }
    }
  }

  /** The text of a run of tokens is the text of its first token, then that of the rest. */
  lemma ValuesFirst(ts: seq<Token>, i: nat, e: nat)
    requires i < e <= |ts|
    ensures Values(ts[i..e]) == ts[i].value + Values(ts[i + 1..e])
  {
    assert ts[i..e][1..] == ts[i + 1..e];
  }

  /**
   * parseFunctionalPseudoClass: nth-child, nth-last-child, nth-of-type and
   * nth-last-of-type (any letter case) take NthParser's pair under the name
   * as written; `not` inside a negation is an error at the position after
   * the function token.
   */
  lemma FunctionalForms(r: Replay, i: nat, name: string, insideNegation: bool)
    requires r.Valid() && i < |r.tokens|
    ensures var p := FunctionalAt(r, i, name, insideNegation);
      var n := Nth.NthAt(r, i);
      && (IsNthName(Lower(name)) ==>
           && (p.result.Success? <==> n.result.Success?)
           && (p.result.Success? ==> p.result.value == PseudoNth(name, n.result.value.a, n.result.value.b))
           && (p.result.Failure? ==> p.result.error == n.result.error))
      && (Lower(name) == "not" && insideNegation ==> p.result == Failure(NestedNegation(r.Position(i))))
      && (!IsNthName(Lower(name)) && Lower(name) != "not" ==> p == ArgumentsAt(r, i, r.Position(i), name, ""))
  {
  }

  /**
   * `:not(`: an identifier or `*` is negated as a type selector (so `:not(*)`
   * is the negation of LocalName("*")); otherwise one simple selector, and
   * nothing there is an error.
   */
  lemma NegationForms(r: Replay, i: nat)
    requires r.Valid() && i < |r.tokens|
    ensures var t := r.At(Nth.SkipWs(r, i));
      var p := NegationAt(r, i);
      && (t.kind.Ident? && p.result.Success? ==> p.result.value == PseudoNegation(LocalName(t.value)))
      && (t.kind.Delim? && t.value == "*" && p.result.Success? ==> p.result.value == PseudoNegation(LocalName("*")))
      && (p.result.Success? && !t.kind.Ident? && !(t.kind.Delim? && t.value == "*") ==> !p.result.value.selector.LocalName?)
  {
  }

  /**
   * After the selector inside `:not(`, the next token that is not whitespace
   * must be `)`: it completes the negation, and any other token is the error
   * ")" at that token.
   */
  lemma NegationEndForms(r: Replay, c: Cursor, inner: SimpleSelector)
    requires r.Valid() && c.at < |r.tokens|
    ensures var j := Nth.SkipWs(r, c.at);
      var t := r.At(j);
      var p := NegationEndAt(r, c, inner);
      && (t.kind.RightParen? ==> p == Parsed(Success(PseudoNegation(inner)), Cursor(j + 1, false)))
      && (!t.kind.RightParen? ==> p.result == Failure(Expected(")", t.position, t.kind)))
  {
  }

  /**
   * The steps of `:not(`: a type selector or else one simple selector, each
   * closed as NegationEndAt says; no simple selector there is the error
   * "simple selector" at the token that was pushed back, and an error inside
   * is passed on. So a negation succeeds only when `)` follows the inner
   * selector after any whitespace.
   */
  lemma NegationSteps(r: Replay, i: nat)
    requires r.Valid() && i < |r.tokens|
    ensures var n := NameAt(r, Cursor(i, false));
      var o := OneSimpleAt(r, n.after, true);
      var p := NegationAt(r, i);
      && (n.found ==> p == NegationEndAt(r, n.after, LocalName(n.name)))
      && (!n.found && o.result.Success? && o.result.value.Some? ==> p == NegationEndAt(r, o.after, o.result.value.value))
      && (!n.found && o.result.Success? && o.result.value.None? ==>
           var t := r.At(o.after.at);
           p.result == Failure(Expected("simple selector", t.position, t.kind)))
      && (!n.found && o.result.Failure? ==> p.result == Failure(o.result.error))
      && (p.result.Success? ==> 0 < p.after.at && r.tokens[p.after.at - 1].kind.RightParen?)
  {
    var n := NameAt(r, Cursor(i, false));
    if n.found {
      NegationEndForms(r, n.after, LocalName(n.name));
    } else {
      var o := OneSimpleAt(r, n.after, true);
      if o.result.Success? && o.result.value.Some? {
        NegationEndForms(r, o.after, o.result.value.value);
      }
    }
  }

  // ---------------------------------------------------------------------------
  // parseSelector's loop as the source writes it
  // ---------------------------------------------------------------------------

  /**
   * When a later compound ends with a pseudo-element, the loop as written
   * drops it and goes on reading compounds; when the input ends there, the
   * selector is returned without it, so it matches as if the pseudo-element
   * were not there. The loop as meant stops there and keeps it.
   */
  lemma LaterPseudoElementDropped(r: Replay, c: Cursor, left: Compound, linked: Compound, v: string, a: Cursor)
    requires r.Valid() && c.at < |r.tokens|
    requires JointAt(r, c, left) == Parsed(Success(Joined(linked, Some(v))), a)
    ensures a.at < |r.tokens| && ChainAt(r, c, left) == ChainAt(r, a, linked)
    ensures r.At(Nth.SkipWs(r, a.at)).kind.Eof? ==> ChainAt(r, c, left).result == Success(Selector(linked, None))
    ensures IntendedChainAt(r, c, left) == Parsed(Success(Selector(linked, Some(v))), a)
  {
    if r.At(Nth.SkipWs(r, a.at)).kind.Eof? {
      assert JointAt(r, a, linked).result == Success(Ended);
    }
  }

  /** The tokens of `div p::before`, at any positions. */
  ghost predicate DivPBefore(r: Replay) {
    && |r.tokens| == 7
    && r.tokens[0].kind.Ident? && r.tokens[0].value == "div"
    && r.tokens[1].kind.Whitespace?
    && r.tokens[2].kind.Ident? && r.tokens[2].value == "p"
    && r.tokens[3].kind.Colon? && r.tokens[4].kind.Colon?
    && r.tokens[5].kind.Ident? && r.tokens[5].value == "before"
  }

  /** `div p::before` as written gives the selector `div p` with no pseudo-element. */
  lemma DivPBeforeAsWritten(r: Replay)
    requires r.Valid() && DivPBefore(r)
    ensures var div := CompoundOf([LocalName("div")]);
      var linked := Compound([LocalName("p")], Some(Link(Descendant, div)));
      && SelectorAt(r, Cursor(0, false)).result == Success(Selector(linked, None))
      && IntendedSelectorAt(r, Cursor(0, false)).result == Success(Selector(linked, Some("before")))
  {
    var div := CompoundOf([LocalName("div")]);
    var linked := Compound([LocalName("p")], Some(Link(Descendant, div)));
    assert Nth.SkipWs(r, 0) == 0;
    assert OneSimpleAt(r, Cursor(1, false), false) == Parsed(Success(None), Cursor(1, true));
    assert CompoundAt(r, Cursor(0, false)) == Parsed(Success(Sequence([LocalName("div")], None)), Cursor(1, true));
    assert Nth.SkipWs(r, 2) == 2;
    assert Nth.SkipWs(r, 1) == 2;
    assert PseudoAt(r, 4, false) == Parsed(Success(Some(PseudoElement("before"))), Cursor(6, false));
    assert OneSimpleAt(r, Cursor(3, false), false) == Parsed(Success(Some(PseudoElement("before"))), Cursor(6, false));
    assert CompoundAt(r, Cursor(2, true)) == Parsed(Success(Sequence([LocalName("p")], Some("before"))), Cursor(6, false));
    assert JointAt(r, Cursor(1, true), div) == Parsed(Success(Joined(linked, Some("before"))), Cursor(6, false));
    assert Nth.SkipWs(r, 6) == 6;
    LaterPseudoElementDropped(r, Cursor(1, true), div, linked, "before", Cursor(6, false));
  }

  // ---------------------------------------------------------------------------
  // The parser object
  // ---------------------------------------------------------------------------

  /** SelectorParser: the shared tokenizer and the one-token pushback slot. */
  class SelectorParser {
    const tokenizer: TokenStream
    var savedToken: Option<Token>

    /** The index of the next token nextToken returns. */
    ghost var at: nat

    /** The pushed-back token, when there is one, is the token at `at`, already read from the tokenizer. */
    ghost predicate Valid()
      reads this, tokenizer
    {
      && tokenizer.Valid() && at < |tokenizer.replay.tokens|
      && (savedToken.None? ==> tokenizer.next == at)
      && (savedToken.Some? ==> savedToken.value == tokenizer.replay.At(at) && tokenizer.next == tokenizer.replay.Advance(at))
    }

    /** Where the parser stands. */
    ghost function Here(): Cursor
      reads this
    {
      Cursor(at, savedToken.Some?)
    }

    constructor(tokenizer: TokenStream)
      requires tokenizer.Valid()
      ensures Valid() && this.tokenizer == tokenizer && Here() == Cursor(tokenizer.next, false)
    {
      this.tokenizer := tokenizer;
      savedToken := None;
      at := tokenizer.next;
    }

    /** SelectorParser.parse(Tokenizer): the selector list read from the tokenizer's current position. */
    static method Parse(tokenizer: TokenStream) returns (result: Result<seq<Selector>, ParseError>)
      requires tokenizer.Valid()
      modifies tokenizer
      ensures result == SelectorListAt(tokenizer.replay, Cursor(old(tokenizer.next), false)).result
    {
      var parser := new SelectorParser(tokenizer);
      result := parser.ParseSelectorList();
    }

    /** parseSelectorList. */
    method ParseSelectorList() returns (result: Result<seq<Selector>, ParseError>)
      requires Valid()
      modifies this, tokenizer
      ensures Valid()
      ensures Parsed(result, Here()) == SelectorListAt(tokenizer.replay, old(Here()))
    {
      ghost var r := tokenizer.replay;
      ghost var start := Here();
      var first := ParseSelector();
      if first.Failure? {
        return Failure(first.error);
      }
      var selectors := [first.value];
      while true
        invariant Valid()
        invariant ListRestAt(r, Here(), selectors) == SelectorListAt(r, start)
        decreases |r.tokens| - at
      {
        var token, _ := SkipWhitespace();
        if token.kind.Eof? {
          break;
        }
        if !token.kind.Comma? {
          return Expecting(",", token);
        }
        var next := ParseSelector();
        if next.Failure? {
          return Failure(next.error);
        }
        selectors := selectors + [next.value];
      }
      result := Success(selectors);
    }

    /**
     * parseSelector: the loop runs while the first compound's pseudo-element
     * is null, which no turn of it changes.
     */
    method ParseSelector() returns (result: Result<Selector, ParseError>)
      requires Valid()
      modifies this, tokenizer
      ensures Valid()
      ensures Parsed(result, Here()) == SelectorAt(tokenizer.replay, old(Here()))
    {
      ghost var r := tokenizer.replay;
      ghost var start := Here();
      var simpleSelectors := ParseSimpleSelectors();
      if simpleSelectors.Failure? {
        return Failure(simpleSelectors.error);
      }
      var compound := CompoundOf(simpleSelectors.value.simpleSelectors);
      var pseudoElement := simpleSelectors.value.pseudoElement;
      while pseudoElement.None?
        invariant Valid()
        invariant pseudoElement.None? ==> ChainAt(r, Here(), compound) == SelectorAt(r, start)
        invariant pseudoElement.Some? ==> Parsed(Success(Selector(compound, pseudoElement)), Here()) == SelectorAt(r, start)
        decreases |r.tokens| - at
      {
        var combinator := ParseCombinator();
        if combinator.Failure? {
          return Failure(combinator.error);
        } else if combinator.value.None? {
          break;
        }
        simpleSelectors := ParseSimpleSelectors();
        if simpleSelectors.Failure? {
          return Failure(simpleSelectors.error);
        }
        compound := Compound(simpleSelectors.value.simpleSelectors, Some(Link(combinator.value.value, compound)));
      }
      result := Success(Selector(compound, pseudoElement));
    }

    /** The start of parseSelector's loop body: EOF or a comma (None), or the combinator. */
    method ParseCombinator() returns (result: Result<Option<Combinator>, ParseError>)
      requires Valid()
      modifies this, tokenizer
      ensures Valid()
      ensures Parsed(result, Here()) == CombinatorAt(tokenizer.replay, old(Here()))
    {
      ghost var j := Nth.SkipWs(tokenizer.replay, at);
      var token, skipped := SkipWhitespace();
      if token.kind.Eof? {
        return Success(None);
      } else if token.kind.Comma? {
        savedToken, at := Some(token), j;
        return Success(None);
      }
      var combinator := DelimCombinator(token);
      if combinator.None? {
        if !skipped {
          return Expecting("one of ' ', '>', '+', '~'", token);
        }
        combinator := Some(Descendant);
        savedToken, at := Some(token), j;
      }
      result := Success(combinator);
    }

    /** parseSimpleSelectors. */
    method ParseSimpleSelectors() returns (result: Result<Sequence, ParseError>)
      requires Valid()
      modifies this, tokenizer
      ensures Valid()
      ensures Parsed(result, Here()) == CompoundAt(tokenizer.replay, old(Here()))
    {
      ghost var r := tokenizer.replay;
      ghost var start := Here();
      var pos := tokenizer.Position();
      var selectorSequence: seq<SimpleSelector> := [];
      var pseudoElement: Option<string> := None;
      var empty := true;
      var name, found := ParseName();
      if found && name != "*" {
        selectorSequence := [LocalName(name)];
        empty := false;
      }
      while true
        invariant Valid()
        invariant empty <==> selectorSequence == []
        invariant SimplesAt(r, Here(), pos, found, selectorSequence) == CompoundAt(r, start)
        decreases |r.tokens| - at
      {
        var selector := ParseOneSimpleSelector(false);
        if selector.Failure? {
          return Failure(selector.error);
        }
        if selector.value.None? {
          break;
        }
        if selector.value.value.PseudoElement? {
          empty := false;
          pseudoElement := Some(selector.value.value.value);
          break;
        }
        selectorSequence := selectorSequence + [selector.value.value];
        empty := false;
      }
      if empty && !found {
        return Failure(NoSimpleSelectors(pos));
      }
      result := Success(Sequence(selectorSequence, pseudoElement));
    }

    /** parseName. */
    method ParseName() returns (name: string, found: bool)
      requires Valid()
      modifies this, tokenizer
      ensures Valid()
      ensures Name(name, found, Here()) == NameAt(tokenizer.replay, old(Here()))
    {
      ghost var j := Nth.SkipWs(tokenizer.replay, at);
      var token, _ := SkipWhitespace();
      if token.kind.Delim? && token.value == "*" {
        return "*", true;
      } else if token.kind.Ident? {
        return token.value, true;
      }
      savedToken, at := Some(token), j;
      name, found := "*", false;
    }

    /** parseOneSimpleSelector; Success(None) stands for null. */
    method ParseOneSimpleSelector(insideNegation: bool) returns (result: Result<Option<SimpleSelector>, ParseError>)
      requires Valid()
      modifies this, tokenizer
      ensures Valid()
      ensures Parsed(result, Here()) == OneSimpleAt(tokenizer.replay, old(Here()), insideNegation)
      decreases |tokenizer.replay.tokens| - at, 0
    {
      ghost var first := at;
      var token := NextToken();
      if token.kind.Hash? {
        return Success(Some(Attribute(Some(Equals), "id", token.value)));
      } else if token.kind.Delim? {
        if token.value == "." {
          token := NextToken();
          if token.kind.Ident? {
            return Success(Some(Attribute(Some(Includes), "class", token.value)));
          }
          return Expecting("class value", token);
        }
        return Expecting(".", token);
      } else if token.kind.LeftSquareBracket? {
        var attribute := ParseAttribute();
        return Optional(attribute);
      } else if token.kind.Colon? {
        first := at;
        token := NextToken();
        if token.kind.Ident? {
          if IsPseudoElementName(Lower(token.value)) {
            return Success(Some(PseudoElement(token.value)));
          }
          return Success(Some(PseudoClass(token.value)));
        } else if token.kind.Colon? {
          token := NextToken();
          if !token.kind.Ident? {
            return Expecting("pseudo element value", token);
          }
          return Success(Some(PseudoElement(token.value)));
        } else if token.kind.Function? {
          var functional := ParseFunctionalPseudoClass(token.value, insideNegation);
          return Optional(functional);
        }
      }
      savedToken, at := Some(token), first;
      result := Success(None);
    }

    /** parseAttribute, after `[`. */
    method ParseAttribute() returns (result: Result<SimpleSelector, ParseError>)
      requires Valid() && savedToken.None?
      modifies this, tokenizer
      ensures Valid()
      ensures Parsed(result, Here()) == AttributeAt(tokenizer.replay, old(at))
    {
      var token, skipped := SkipWhitespace();
      if !token.kind.Ident? {
        return Expecting("attribute name", token);
      }
      var name := token.value;
      token, skipped := SkipWhitespace();
      if token.kind.RightSquareBracket? {
        return Success(Attribute(Some(Exists), name, ""));
      }
      if token.kind.Delim? && token.value != "=" {
        return Expecting("=", token);
      }
      var operator := MatchOf(token);
      token, skipped := SkipWhitespace();
      if !(token.kind.Ident? || token.kind.String?) {
        return Expecting("attribute value", token);
      }
      var value := token.value;
      token, skipped := SkipWhitespace();
      if !token.kind.RightSquareBracket? {
        return Expecting("]", token);
      }
      result := Success(Attribute(operator, name, value));
    }

    /** parseFunctionalPseudoClass, after the function token. */
    method ParseFunctionalPseudoClass(name: string, insideNegation: bool) returns (result: Result<SimpleSelector, ParseError>)
      requires Valid() && savedToken.None?
      modifies this, tokenizer
      ensures Valid()
      ensures Parsed(result, Here()) == FunctionalAt(tokenizer.replay, old(at), name, insideNegation)
      decreases |tokenizer.replay.tokens| - at, 2
    {
      ghost var r := tokenizer.replay;
      ghost var start := at;
      var pos := tokenizer.Position();
      var lower := Lower(name);
      if IsNthName(lower) {
        var nth := Nth.NthParser.Parse(tokenizer);
        at := tokenizer.next;
        match nth {
          case Success(pair) => result := Success(PseudoNth(name, pair.a, pair.b));
          case Failure(e) => result := Failure(e);
        }
        return;
      } else if lower == "not" {
        if insideNegation {
          return Failure(NestedNegation(pos));
        }
        result := ParseNegation();
        return;
      }
      var text := "";
      while true
        invariant Valid() && savedToken.None? && start <= at
        invariant ArgumentsAt(r, at, pos, name, text) == ArgumentsAt(r, start, pos, name, "")
        decreases |r.tokens| - at
      {
        var token := NextToken();
        if token.kind.Eof? {
          return Failure(EofInFunction(pos));
        } else if token.kind.RightParen? {
          break;
        }
        text := text + token.value;
      }
      result := Success(PseudoFunction(name, text));
    }

    /** The `not` case of parseFunctionalPseudoClass. */
    method ParseNegation() returns (result: Result<SimpleSelector, ParseError>)
      requires Valid() && savedToken.None?
      modifies this, tokenizer
      ensures Valid()
      ensures Parsed(result, Here()) == NegationAt(tokenizer.replay, old(at))
      decreases |tokenizer.replay.tokens| - at, 1
    {
      var name, found := ParseName();
      var inner: SimpleSelector;
      if found {
        inner := LocalName(name);
      } else {
        var simpleSelector := ParseOneSimpleSelector(true);
        if simpleSelector.Failure? {
          return Failure(simpleSelector.error);
        }
        if simpleSelector.value.None? {
          var token := NextToken();
          return Expecting("simple selector", token);
        }
        inner := simpleSelector.value.value;
      }
      var token, _ := SkipWhitespace();
      if !token.kind.RightParen? {
        return Expecting(")", token);
      }
      result := Success(PseudoNegation(inner));
    }

    /** nextToken: the pushed-back token if there is one, otherwise the tokenizer's next. */
    method NextToken() returns (token: Token)
      requires Valid()
      modifies this, tokenizer
      ensures Valid() && savedToken.None?
      ensures token == tokenizer.replay.At(old(at)) && at == tokenizer.replay.Advance(old(at))
    {
      if savedToken.Some? {
        token := savedToken.value;
        savedToken := None;
        at := tokenizer.replay.Advance(at);
      } else {
        token := tokenizer.NextToken();
        at := tokenizer.next;
      }
    }

    /** skipWhitespace: the next token that is not whitespace, and whether any whitespace came first. */
    method SkipWhitespace() returns (token: Token, skipped: bool)
      requires Valid()
      modifies this, tokenizer
      ensures Valid() && savedToken.None?
      ensures var j := Nth.SkipWs(tokenizer.replay, old(at));
        token == tokenizer.replay.At(j) && skipped == (j != old(at)) && at == tokenizer.replay.Advance(j)
    {
      ghost var r := tokenizer.replay;
      skipped := false;
      while true
        invariant Valid() && old(at) <= at
        invariant Nth.SkipWs(r, old(at)) == Nth.SkipWs(r, at)
        invariant skipped == (at != old(at))
        decreases |r.tokens| - at
      {
        token := NextToken();
        if !token.kind.Whitespace? {
          return;
        }
        skipped := true;
      }
    }
  }
}
