/**
 * SelectorMatcher: right-to-left matching of a parsed selector against one
 * node of an arena tree. The matching rules are functions over the tree;
 * the matcher object, whose only state is the optional custom
 * SimpleSelectorMatcher fixed at construction, runs the same walks with
 * loops and is proved to compute those functions.
 */
module Matching {
  import opened Wrappers
  import opened CodePoints
  import opened Ast
  import opened Dom
  import Nth

  /** SelectorMatcher.MatchingResult. */
  datatype MatchingResult =
    | Matched
    | NotMatched
    | RestartFromClosestDescendant
    | RestartFromClosestLaterSibling

  /** SimpleSelectorMatcher.matches: a custom test of a simple selector on a node. */
  type Hook = (SimpleSelector, nat) -> bool

  /** The hook's verdict; without a hook (null), false. */
  predicate Custom(hook: Option<Hook>, s: SimpleSelector, e: nat) {
    hook.Some? && hook.value(s, e)
  }

  // ---------------------------------------------------------------------------
  // Attribute values
  // ---------------------------------------------------------------------------

  /** String.startsWith. */
  predicate StartsWith(v: string, w: string) {
    |w| <= |v| && v[..|w|] == w
  }

  /** String.endsWith. */
  predicate EndsWith(v: string, w: string) {
    |w| <= |v| && v[|v| - |w|..] == w
  }

  /** String.contains: `w` occurs in `v`, checked from each start index in turn. */
  predicate HasSubstring(v: string, w: string)
    decreases |v|
  {
    StartsWith(v, w) || (|v| > 0 && HasSubstring(v[1..], w))
  }

  /** A character of SPACE_REGEX, `[ \t\r\n\f]`. */
  predicate IsSplitSpace(c: char) {
    IsSpace(c as int)
  }

  /** The end of the run of spaces of `s` that starts at `p`. */
  function SkipSpaces(s: string, p: nat): (r: nat)
    requires p <= |s|
    ensures p <= r <= |s|
    ensures forall k | p <= k < r :: IsSplitSpace(s[k])
    ensures r < |s| ==> !IsSplitSpace(s[r])
    decreases |s| - p
  {
    if p == |s| || !IsSplitSpace(s[p]) then p else SkipSpaces(s, p + 1)
  }

  /** The end of the run of non-spaces of `s` that starts at `p`. */
  function SkipWord(s: string, p: nat): (r: nat)
    requires p <= |s|
    ensures p <= r <= |s|
    ensures forall k | p <= k < r :: !IsSplitSpace(s[k])
    ensures r < |s| ==> IsSplitSpace(s[r])
    decreases |s| - p
  {
    if p == |s| || IsSplitSpace(s[p]) then p else SkipWord(s, p + 1)
  }

  /** The maximal runs of non-space characters of `s` from index `p` on, left to right. */
  function FieldsFrom(s: string, p: nat): seq<string>
    requires p <= |s|
    decreases |s| - p
  {
    var i := SkipSpaces(s, p);
    if i == |s| then []
    else
      var j := SkipWord(s, i);
      [s[i..j]] + FieldsFrom(s, j)
  }

  /** The maximal runs of non-space characters of `s`. */
  function Fields(s: string): seq<string> {
    FieldsFrom(s, 0)
  }

  /**
   * SPACE_REGEX.split(v) (String.split drops trailing empty strings): the
   * fields, after one empty string when `v` starts with a space and has a
   * field; an empty `v` splits into one empty string.
   */
  function Split(v: string): (words: seq<string>)
  {
    if v == [] then [""]
    else if IsSplitSpace(v[0]) && Fields(v) != [] then [""] + Fields(v)
    else Fields(v)
  }

  /**
   * The test of one attribute value `v` against the selector's value `w`. A
   * null match makes the source's switch throw; the model answers false
   * there.
   */
  predicate ValueMatches(operator: Option<Match>, v: string, w: string) {
    match operator
    case None => false
    case Some(Exists) => true
    case Some(Equals) => v == w
    case Some(Includes) => w in Split(v)
    case Some(Begins) => StartsWith(v, w)
    case Some(Ends) => EndsWith(v, w)
    case Some(Contains) => HasSubstring(v, w)
    case Some(Hyphens) => v == w || StartsWith(v, w + "-")
  }

  /** matchesAttributeSelector: the element has the attribute and its value passes the test. */
  predicate AttributeMatches(attributes: Option<map<string, string>>, s: SimpleSelector)
    requires s.Attribute?
  {
    attributes.Some? && s.name in attributes.value && ValueMatches(s.operator, attributes.value[s.name], s.value)
  }

  // ---------------------------------------------------------------------------
  // Structural pseudo-classes
  // ---------------------------------------------------------------------------

  /**
   * matchesFirstOrLastChild, from node `x` on: no element sibling before `x`
   * (`first`) or after it, and a parent that is not the document.
   */
  predicate FirstOrLastFrom(t: Tree, x: nat, first: bool)
    requires t.WellFormed() && t.Has(x)
    decreases if first then x else |t.nodes| - x
  {
    var n := if first then t.PreviousSibling(x) else t.NextSibling(x);
    match n
    case None => var p := t.Parent(x); p.Some? && !t.Kind(p.value).Document?
    case Some(y) => !t.Kind(y).Element? && FirstOrLastFrom(t, y, first)
  }

  /** A sibling matchesNthChild counts: an element, with the tag `tag` when `ofType`. */
  predicate Counts(t: Tree, y: nat, tag: string, ofType: bool)
    requires t.Has(y)
  {
    t.Kind(y).Element? && (!ofType || tag == t.nodes[y].data)
  }

  /** The siblings before `x` (after it when `fromEnd`) that matchesNthChild counts. */
  function CountFrom(t: Tree, x: nat, tag: string, ofType: bool, fromEnd: bool): nat
    requires t.WellFormed() && t.Has(x)
    decreases if fromEnd then |t.nodes| - x else x
  {
    var n := if fromEnd then t.NextSibling(x) else t.PreviousSibling(x);
    match n
    case None => 0
    case Some(y) => (if Counts(t, y, tag, ofType) then 1 else 0) + CountFrom(t, y, tag, ofType, fromEnd)
  }

  /** The `i` of matchesNthChild: the 1-based position of `n` among the siblings it counts. */
  function NthIndex(t: Tree, n: nat, ofType: bool, fromEnd: bool): (i: nat)
    requires t.WellFormed() && t.Has(n)
    ensures i >= 1
  {
    1 + CountFrom(t, n, t.nodes[n].data, ofType, fromEnd)
  }

  /** Java's `/` on integers: the quotient truncated toward zero. */
  function TruncDiv(x: int, y: int): int
    requires y != 0
  {
    if x >= 0 && y > 0 then x / y
    else if x < 0 && y < 0 then (-x) / (-y)
    else if x >= 0 then -(x / (-y))
    else -((-x) / y)
  }

  /** Java's `%` on integers: the remainder of the truncated division, with the sign of `x`. */
  function TruncRem(x: int, y: int): int
    requires y != 0
  {
    x - y * TruncDiv(x, y)
  }

  /** The Java int value of an integer: the two's-complement wrap to 32 bits. */
  function Wrap32(x: int): (w: int)
    ensures Nth.INT_MIN <= w <= Nth.INT_MAX
  {
    (x - Nth.INT_MIN) % 0x1_0000_0000 + Nth.INT_MIN
  }

  /**
   * The last two statements of matchesNthChild as written, on Java ints:
   * `i - b` and the quotient wrap to 32 bits.
   */
  predicate NthHoldsAsWritten(a: int, b: int, i: int)
  {
    if a == 0 then b == i
    else
      var d := Wrap32(i - b);
      Wrap32(TruncDiv(d, a)) >= 0 && TruncRem(d, a) == 0
  }

  /** The same test without the wrap: `i - b` is a non-negative multiple of `a` (of 0 when `a` is 0). */
  predicate NthHolds(a: int, b: int, i: int)
  {
    if a == 0 then b == i
    else TruncDiv(i - b, a) >= 0 && TruncRem(i - b, a) == 0
  }

  /**
   * Whether `n` has a parent that is not the document, which every
   * structural test but :root needs (the parent may be an element or a node
   * of type OTHER, such as a document fragment).
   */
  predicate HasNonDocumentParent(t: Tree, n: nat)
    requires t.WellFormed() && t.Has(n)
  {
    var p := t.Parent(n);
    p.Some? && !t.Kind(p.value).Document?
  }

  /** matchesNthChild. */
  predicate NthChild(t: Tree, n: nat, a: int, b: int, ofType: bool, fromEnd: bool)
    requires t.WellFormed() && t.Has(n)
  {
    HasNonDocumentParent(t, n) && NthHolds(a, b, NthIndex(t, n, ofType, fromEnd))
  }

  /** The `:empty` loop from child `c` on: no element and no text with data among `c` and its later siblings. */
  predicate EmptyFrom(t: Tree, c: Option<nat>)
    requires t.WellFormed() && (c.Some? ==> t.Has(c.value))
    decreases if c.Some? then |t.nodes| - c.value else 0
  {
    match c
    case None => true
    case Some(x) =>
      if t.Kind(x).Element? then false
      else if t.Kind(x).Text? && t.nodes[x].data != "" then false
      else EmptyFrom(t, t.NextSibling(x))
  }

  /** matchesPseudoClassSelector: the structural pseudo-classes by their exact name; any other name is false. */
  predicate PseudoClassMatches(t: Tree, value: string, n: nat)
    requires t.WellFormed() && t.Has(n)
  {
    match value
    case "first-child" => FirstOrLastFrom(t, n, true)
    case "last-child" => FirstOrLastFrom(t, n, false)
    case "only-child" => FirstOrLastFrom(t, n, true) && FirstOrLastFrom(t, n, false)
    case "first-of-type" => NthChild(t, n, 0, 1, true, false)
    case "last-of-type" => NthChild(t, n, 0, 1, true, true)
    case "only-of-type" => NthChild(t, n, 0, 1, true, false) && NthChild(t, n, 0, 1, true, true)
    case "root" => var p := t.Parent(n); p.Some? && t.Kind(p.value).Document?
    case "empty" => EmptyFrom(t, t.FirstChild(n))
    case _ => false
  }

  /** matchesPseudoNthSelector as written: the name must be spelled in lower case. */
  predicate PseudoNthAsWritten(t: Tree, name: string, a: int, b: int, n: nat)
    requires t.WellFormed() && t.Has(n)
  {
    match name
    case "nth-child" => NthChild(t, n, a, b, false, false)
    case "nth-last-child" => NthChild(t, n, a, b, false, true)
    case "nth-of-type" => NthChild(t, n, a, b, true, false)
    case "nth-last-of-type" => NthChild(t, n, a, b, true, true)
    case _ => false
  }

  /**
   * matchesPseudoNthSelector with the name compared ignoring case, as the
   * parser does when it decides that a functional pseudo-class is an nth one.
   */
  predicate PseudoNthMatches(t: Tree, name: string, a: int, b: int, n: nat)
    requires t.WellFormed() && t.Has(n)
  {
    PseudoNthAsWritten(t, Lower(name), a, b, n)
  }

  // ---------------------------------------------------------------------------
  // Simple, compound and complete selectors
  // ---------------------------------------------------------------------------

  /** The first element among `c` and its later siblings. */
  function FirstElementFrom(t: Tree, c: Option<nat>): (e: Option<nat>)
    requires t.WellFormed() && (c.Some? ==> t.Has(c.value))
    ensures e.Some? ==> t.Has(e.value) && t.Kind(e.value).Element?
    decreases if c.Some? then |t.nodes| - c.value else 0
  {
    match c
    case None => None
    case Some(x) => if t.Kind(x).Element? then c else FirstElementFrom(t, t.NextSibling(x))
  }

  /** The node a simple selector is matched against: a document stands for its first element child. */
  function Target(t: Tree, n: nat): (m: Option<nat>)
    requires t.WellFormed() && t.Has(n)
    ensures m.Some? ==> t.Has(m.value)
  {
    if t.Kind(n).Document? then FirstElementFrom(t, t.FirstChild(n)) else Some(n)
  }

  /** matchesSimpleSelector. */
  predicate SimpleMatches(t: Tree, hook: Option<Hook>, s: SimpleSelector, n: nat)
    requires t.WellFormed() && t.Has(n)
    decreases s
  {
    var m := Target(t, n);
    if m.None? || !t.Kind(m.value).Element? then false
    else
      var e := m.value;
      match s
      case LocalName(name) => EqualsIgnoreCase(t.nodes[e].data, name)
      case Attribute(_, _, _) => AttributeMatches(t.nodes[e].attributes, s)
      case PseudoNegation(inner) => !SimpleMatches(t, hook, inner, e)
      case PseudoClass(value) => PseudoClassMatches(t, value, e) || Custom(hook, s, e)
      case PseudoNth(name, a, b) => PseudoNthAsWritten(t, name, a, b, e) || Custom(hook, s, e)
      case _ => Custom(hook, s, e)
  }

  /** Every simple selector of a compound matches `n`. */
  predicate AllMatch(t: Tree, hook: Option<Hook>, ss: seq<SimpleSelector>, n: nat)
    requires t.WellFormed() && t.Has(n)
  {
    forall k | 0 <= k < |ss| :: SimpleMatches(t, hook, ss[k], n)
  }

  /** The combinators whose walk follows getPreviousSibling rather than getParentNode. */
  predicate SiblingAxis(c: Combinator) {
    c.NextSibling? || c.LaterSibling?
  }

  /** The next node of the walk of a link with combinator `comb` from `x`: getPreviousSibling or getParentNode. */
  function AxisNext(t: Tree, comb: Combinator, x: nat): (y: Option<nat>)
    requires t.WellFormed() && t.Has(x)
    ensures y.Some? ==> y.value < x
  {
    if SiblingAxis(comb) then t.PreviousSibling(x) else t.Parent(x)
  }

  /** matchesCompoundSelector. */
  function CompoundResult(t: Tree, hook: Option<Hook>, c: Compound, n: nat): MatchingResult
    requires t.WellFormed() && t.Has(n)
    decreases c, 1, 0
  {
    if !AllMatch(t, hook, c.simpleSelectors, n) then RestartFromClosestLaterSibling
    else if c.previous.None? then Matched
    else Walk(t, hook, c, n)
  }

  /**
   * The `while (true)` loop of matchesCompoundSelector, standing at `x`: the
   * next node on the axis, skipping non-elements, and what the result of
   * the compound to the left there means for `c`.
   */
  function Walk(t: Tree, hook: Option<Hook>, c: Compound, x: nat): MatchingResult
    requires t.WellFormed() && t.Has(x) && c.previous.Some?
    decreases c, 0, x
  {
    var link := c.previous.value;
    var next := AxisNext(t, link.combinator, x);
    match next
    case None => if SiblingAxis(link.combinator) then RestartFromClosestDescendant else NotMatched
    case Some(y) =>
      if !t.Kind(y).Element? then Walk(t, hook, c, y)
      else
        var r := CompoundResult(t, hook, link.compound, y);
        if r.Matched? || r.NotMatched? then r
        else
          match link.combinator
          case Child => RestartFromClosestDescendant
          case NextSibling => r
          case LaterSibling => if r.RestartFromClosestDescendant? then r else Walk(t, hook, c, y)
          case Descendant => Walk(t, hook, c, y)
  }

  /** matchesSelector: no pseudo-element, and the rightmost compound yields MATCHED. */
  predicate SelectorMatches(t: Tree, hook: Option<Hook>, s: Selector, n: nat)
    requires t.WellFormed() && t.Has(n)
  {
    s.pseudoElement.None? && CompoundResult(t, hook, s.compound, n).Matched?
  }

  // ---------------------------------------------------------------------------
  // The matcher object
  // ---------------------------------------------------------------------------

  /** A SelectorMatcher and its custom simple selector matcher (None for null). */
  datatype SelectorMatcher = SelectorMatcher(hook: Option<Hook>)
  {
    /** matchesSelectors: true exactly when some selector of the list matches. */
    method MatchesSelectors(t: Tree, selectors: seq<Selector>, node: nat) returns (b: bool)
      requires t.WellFormed() && t.Has(node)
      ensures b <==> exists k | 0 <= k < |selectors| :: SelectorMatches(t, hook, selectors[k], node)
    {
      for k := 0 to |selectors|
        invariant forall j | 0 <= j < k :: !SelectorMatches(t, hook, selectors[j], node)
      {
        b := MatchesSelector(t, selectors[k], node);
        if b {
          return;
        }
      }
      return false;
    }

    /** matchesSelector. */
    method MatchesSelector(t: Tree, selector: Selector, node: nat) returns (b: bool)
      requires t.WellFormed() && t.Has(node)
      ensures b == SelectorMatches(t, hook, selector, node)
    {
      if selector.pseudoElement.Some? {
        return false;
      }
      var result := MatchesCompoundSelector(t, selector.compound, node);
      b := result.Matched?;
    }

    /** matchesSimpleSelector. */
    method MatchesSimpleSelector(t: Tree, selector: SimpleSelector, node: nat) returns (b: bool)
      requires t.WellFormed() && t.Has(node)
      ensures b == SimpleMatches(t, hook, selector, node)
      decreases selector
    {
      var target := Redirect(t, node);
      if target.None? || !t.Kind(target.value).Element? {
        return false;
      }
      var e := target.value;
      match selector {
        case LocalName(name) =>
          b := EqualsIgnoreCase(t.nodes[e].data, name);
        case Attribute(_, _, _) =>
          b := MatchesAttributeSelector(selector, t.nodes[e].attributes);
        case PseudoNegation(inner) =>
          b := MatchesSimpleSelector(t, inner, e);
          b := !b;
        case PseudoClass(value) =>
          b := MatchesPseudoClassSelector(t, value, e);
          b := b || (hook.Some? && hook.value(selector, e));
        case PseudoNth(name, x, y) =>
          b := MatchesPseudoNthSelector(t, name, x, y, e);
          b := b || (hook.Some? && hook.value(selector, e));
        case _ =>
          b := hook.Some? && hook.value(selector, e);
      }
    }

    /** The start of matchesSimpleSelector: a document is replaced by its first element child, if any. */
    static method Redirect(t: Tree, node: nat) returns (target: Option<nat>)
      requires t.WellFormed() && t.Has(node)
      ensures target == Target(t, node)
    {
      target := Some(node);
      if t.Kind(node).Document? {
        target := t.FirstChild(node);
        while target.Some?
          invariant target.Some? ==> t.Has(target.value)
          invariant FirstElementFrom(t, target) == Target(t, node)
          decreases if target.Some? then |t.nodes| - target.value else 0
        {
          if t.Kind(target.value).Element? {
            break;
          }
          target := t.NextSibling(target.value);
        }
      }
    }

    /** matchesCompoundSelector. */
    method MatchesCompoundSelector(t: Tree, selector: Compound, node: nat) returns (result: MatchingResult)
      requires t.WellFormed() && t.Has(node)
      ensures result == CompoundResult(t, hook, selector, node)
      decreases selector
    {
      for k := 0 to |selector.simpleSelectors|
        invariant forall j | 0 <= j < k :: SimpleMatches(t, hook, selector.simpleSelectors[j], node)
      {
        var b := MatchesSimpleSelector(t, selector.simpleSelectors[k], node);
        if !b {
          return RestartFromClosestLaterSibling;
        }
      }
      if selector.previous.None? {
        return Matched;
      }
      var link := selector.previous.value;
      var siblings := SiblingAxis(link.combinator);
      var candidateNotFound := if siblings then RestartFromClosestDescendant else NotMatched;
      var x := node;
      while true
        invariant t.Has(x)
        invariant Walk(t, hook, selector, x) == CompoundResult(t, hook, selector, node)
        decreases x
      {
        var next := if siblings then t.PreviousSibling(x) else t.Parent(x);
        if next.None? {
          return candidateNotFound;
        }
        x := next.value;
        if t.Kind(x).Element? {
          result := MatchesCompoundSelector(t, link.compound, x);
          if result.Matched? || result.NotMatched? {
            return;
          }
          match link.combinator {
            case Child =>
              return RestartFromClosestDescendant;
            case NextSibling =>
              return;
            case LaterSibling =>
              if result.RestartFromClosestDescendant? {
                return;
              }
            case Descendant =>
          }
        }
      }
    }

    /**
     * matchesAttributeSelector: the loop over the attribute entries, in any
     * order, stops at the one whose name is the selector's.
     */
    method MatchesAttributeSelector(selector: SimpleSelector, attributes: Option<map<string, string>>)
      returns (b: bool)
      requires selector.Attribute?
      ensures b == AttributeMatches(attributes, selector)
    {
      if attributes.None? {
        return false;
      }
      var entries := attributes.value;
      var keys := entries.Keys;
      while keys != {}
        invariant keys <= entries.Keys
        invariant selector.name in entries.Keys ==> selector.name in keys
        decreases keys
      {
        var key :| key in keys;
        keys := keys - {key};
        if key == selector.name {
          var v := entries[key];
          match selector.operator {
            case None =>
              return false;
            case Some(Exists) =>
              return true;
            case Some(Equals) =>
              return v == selector.value;
            case Some(Includes) =>
              b := SplitContains(v, selector.value);
              return;
            case Some(Begins) =>
              return StartsWith(v, selector.value);
            case Some(Ends) =>
              return EndsWith(v, selector.value);
            case Some(Contains) =>
              return HasSubstring(v, selector.value);
            case Some(Hyphens) =>
              return v == selector.value || StartsWith(v, selector.value + "-");
          }
        }
      }
      return false;
    }

    /** The INCLUDES loop: one word of the split value equals `w`. */
    static method SplitContains(v: string, w: string) returns (b: bool)
      ensures b <==> w in Split(v)
    {
      var words := Split(v);
      for k := 0 to |words|
        invariant w !in words[..k]
      {
        if words[k] == w {
          return true;
        }
      }
      return false;
    }

    /** matchesPseudoClassSelector, with the `:empty` loop over the children. */
    method MatchesPseudoClassSelector(t: Tree, value: string, node: nat) returns (b: bool)
      requires t.WellFormed() && t.Has(node)
      ensures b == PseudoClassMatches(t, value, node)
    {
      match value {
        case "first-child" =>
          b := MatchesFirstOrLastChild(t, node, true);
        case "last-child" =>
          b := MatchesFirstOrLastChild(t, node, false);
        case "only-child" =>
          b := MatchesFirstOrLastChild(t, node, true);
          if b {
            b := MatchesFirstOrLastChild(t, node, false);
          }
        case "first-of-type" =>
          b := MatchesNthChild(t, node, 0, 1, true, false);
        case "last-of-type" =>
          b := MatchesNthChild(t, node, 0, 1, true, true);
        case "only-of-type" =>
          b := MatchesNthChild(t, node, 0, 1, true, false);
          if b {
            b := MatchesNthChild(t, node, 0, 1, true, true);
          }
        case "root" =>
          var parentNode := t.Parent(node);
          b := parentNode.Some? && t.Kind(parentNode.value).Document?;
        case "empty" =>
          var child := t.FirstChild(node);
          while child.Some?
            invariant child.Some? ==> t.Has(child.value)
            invariant EmptyFrom(t, child) == EmptyFrom(t, t.FirstChild(node))
            decreases if child.Some? then |t.nodes| - child.value else 0
          {
            var c := child.value;
            if t.Kind(c).Element? {
              return false;
            } else if t.Kind(c).Text? && t.nodes[c].data != "" {
              return false;
            }
            child := t.NextSibling(c);
          }
          b := true;
        case _ =>
          b := false;
      }
    }

    /** matchesPseudoNthSelector: the switch on the name as the selector holds it. */
    method MatchesPseudoNthSelector(t: Tree, name: string, a: int, b: int, node: nat) returns (r: bool)
      requires t.WellFormed() && t.Has(node)
      ensures r == PseudoNthAsWritten(t, name, a, b, node)
    {
      match name {
        case "nth-child" =>
          r := MatchesNthChild(t, node, a, b, false, false);
        case "nth-last-child" =>
          r := MatchesNthChild(t, node, a, b, false, true);
        case "nth-of-type" =>
          r := MatchesNthChild(t, node, a, b, true, false);
        case "nth-last-of-type" =>
          r := MatchesNthChild(t, node, a, b, true, true);
        case _ =>
          r := false;
      }
    }

    /** matchesFirstOrLastChild. */
    static method MatchesFirstOrLastChild(t: Tree, node: nat, first: bool) returns (b: bool)
      requires t.WellFormed() && t.Has(node)
      ensures b == FirstOrLastFrom(t, node, first)
    {
      var x: nat := node;
      while true
        invariant t.Has(x)
        invariant FirstOrLastFrom(t, x, first) == FirstOrLastFrom(t, node, first)
        decreases if first then x else |t.nodes| - x
      {
        var n := if first then t.PreviousSibling(x) else t.NextSibling(x);
        if n.None? {
          var p := t.Parent(x);
          return p.Some? && !t.Kind(p.value).Document?;
        }
        if t.Kind(n.value).Element? {
          return false;
        }
        x := n.value;
      }
    }

    /** matchesNthChild: count the siblings, then test `i` against `a` and `b`. */
    static method MatchesNthChild(t: Tree, node: nat, a: int, b: int, ofType: bool, fromEnd: bool) returns (r: bool)
      requires t.WellFormed() && t.Has(node)
      ensures r == NthChild(t, node, a, b, ofType, fromEnd)
    {
      var parentNode := t.Parent(node);
      if parentNode.None? || t.Kind(parentNode.value).Document? {
        return false;
      }
      var n: nat := node;
      var i := 1;
      while true
        invariant t.Has(n)
        invariant i + CountFrom(t, n, t.nodes[node].data, ofType, fromEnd) == NthIndex(t, node, ofType, fromEnd)
        decreases if fromEnd then |t.nodes| - n else n
      {
        var sibling := if fromEnd then t.NextSibling(n) else t.PreviousSibling(n);
        if sibling.None? {
          break;
        }
        n := sibling.value;
        if t.Kind(n).Element? {
          if ofType {
            if t.nodes[node].data == t.nodes[n].data {
              i := i + 1;
            }
          } else {
            i := i + 1;
          }
        }
      }
      if a == 0 {
        return b == i;
      }
      return TruncDiv(i - b, a) >= 0 && TruncRem(i - b, a) == 0;
    }
  }
}
