/**
 * The selector AST (the classes of the `selector` package) and the errors the
 * parsers raise. Every class there is immutable and its `equals` compares all
 * fields, so each becomes a datatype with structural equality.
 */
module Ast {
  import opened Wrappers

  /** AttributeSelector.Match. */
  datatype Match = Exists | Equals | Includes | Begins | Ends | Contains | Hyphens

  /** Combinator. */
  datatype Combinator = Child | Descendant | NextSibling | LaterSibling

  /**
   * The SimpleSelector classes. An attribute selector's operator (its Match) is optional:
   * the parser can build one whose match is null.
   */
  datatype SimpleSelector =
    | LocalName(name: string)
    | Attribute(operator: Option<Match>, name: string, value: string)
    | PseudoClass(value: string)
    | PseudoNth(name: string, a: int, b: int)
    | PseudoNegation(selector: SimpleSelector)
    | PseudoFunction(name: string, arguments: string)
    | PseudoElement(value: string)

  /**
   * CompoundSelector: its simple selectors and, for all but the leftmost
   * compound of a selector, the combinator and the compound to its left
   * (the Java Pair<Combinator, CompoundSelector>).
   */
  datatype Compound = Compound(simpleSelectors: seq<SimpleSelector>, previous: Option<Link>)

  datatype Link = Link(combinator: Combinator, compound: Compound)

  /** Selector: the rightmost compound and the value of its pseudo-element, if any. */
  datatype Selector = Selector(compound: Compound, pseudoElement: Option<string>)

  /** CompoundSelector.of: a compound with no previous compound. */
  function CompoundOf(simpleSelectors: seq<SimpleSelector>): (c: Compound)
    ensures c.previous.None? && c.simpleSelectors == simpleSelectors
  {
    Compound(simpleSelectors, None)
  }

  /** The number of compounds in the chain ending with `c`. */
  function Length(c: Compound): (n: nat)
    ensures n >= 1
  {
    match c.previous
    case None => 1
    case Some(link) => 1 + Length(link.compound)
  }
}

/**
 * The exceptions the parsers throw. The message texts are not modelled; each
 * error keeps the position and the token type its message reports.
 */
module Errors {
  import opened Tokens

  datatype ParseError =
      /** "Expected <what> at position <p>, got <type>". */
    | Expected(what: string, position: int, found: TokenType)
      /** "negations may not be nested", at the position after `not(`. */
    | NestedNegation(position: int)
      /** "EOF in function expression", at the position after the function token. */
    | EofInFunction(position: int)
      /** NthParser's one error, "Invalid nth arguments", at the position where it started. */
    | InvalidNth(position: int)
      /** The IllegalArgumentException "No simple selectors found". */
    | NoSimpleSelectors(position: int)
}
