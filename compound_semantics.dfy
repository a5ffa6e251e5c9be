/**
 * What a compound selector represents, stated directly over the tree, and
 * the right-to-left walk of matchesCompoundSelector proved exact against it:
 * a MATCHED result always comes with elements, one per compound, related by
 * the combinators, and whenever such elements exist the walk finds them. The
 * completeness proof rests on what the two restart results rule out:
 * NOT_MATCHED every node hanging from the ancestor line of the node, and
 * RESTART_FROM_CLOSEST_DESCENDANT the node and its earlier siblings. Also the simple-selector rules that do not depend on the
 * kind of selector: the redirection of a document to its first element
 * child, and negation.
 */
module CompoundSemantics {
  import opened Wrappers
  import opened Ast
  import opened Dom
  import opened Matching

  // ---------------------------------------------------------------------------
  // Relations between nodes
  // ---------------------------------------------------------------------------

  /** `a` is a proper ancestor of `n`. */
  predicate Ancestor(t: Tree, a: nat, n: nat)
    requires t.WellFormed() && t.Has(n)
    decreases n
  {
    match t.Parent(n)
    case None => false
    case Some(p) => p == a || Ancestor(t, a, p)
  }

  /** `s` is a sibling before `n`. */
  predicate EarlierSibling(t: Tree, s: nat, n: nat)
    requires t.WellFormed() && t.Has(n)
    decreases n
  {
    match t.PreviousSibling(n)
    case None => false
    case Some(p) => p == s || EarlierSibling(t, s, p)
  }

  /**
   * The closest element among the ancestors of `n`: its parent when that is
   * an element. Ancestors of other types (a node of type OTHER, such as an
   * entity reference) are passed over, as the walk of `>` passes over them;
   * a document ends the search, since it has no parent.
   */
  function ElementAbove(t: Tree, n: nat): (e: Option<nat>)
    requires t.WellFormed() && t.Has(n)
    ensures e.Some? ==> e.value < n && t.Kind(e.value).Element? && Ancestor(t, e.value, n)
    decreases n
  {
    match t.Parent(n)
    case None => None
    case Some(p) => if t.Kind(p).Element? then Some(p) else ElementAbove(t, p)
  }

  /** The closest element among the siblings before `n`. */
  function PreviousElement(t: Tree, n: nat): (e: Option<nat>)
    requires t.WellFormed() && t.Has(n)
    ensures e.Some? ==> e.value < n && t.Kind(e.value).Element? && EarlierSibling(t, e.value, n)
    decreases n
  {
    match t.PreviousSibling(n)
    case None => None
    case Some(p) => if t.Kind(p).Element? then Some(p) else PreviousElement(t, p)
  }

  /** The element `m` stands to `n` as a combinator requires: `m comb n`. */
  predicate Related(t: Tree, comb: Combinator, m: nat, n: nat)
    requires t.WellFormed() && t.Has(m) && t.Has(n)
  {
    && t.Kind(m).Element?
    && match comb
       case Child => ElementAbove(t, n) == Some(m)
       case Descendant => Ancestor(t, m, n)
       case NextSibling => PreviousElement(t, n) == Some(m)
       case LaterSibling => EarlierSibling(t, m, n)
  }

  /**
   * The compound `c` represents `n`: all its simple selectors match `n`, and
   * when there is a compound to its left, that compound represents an
   * element related to `n` by the combinator between them.
   */
  ghost predicate Represents(t: Tree, hook: Option<Hook>, c: Compound, n: nat)
    requires t.WellFormed() && t.Has(n)
    decreases c
  {
    && AllMatch(t, hook, c.simpleSelectors, n)
    && (c.previous.Some? ==>
          var link := c.previous.value;
          exists m: nat | t.Has(m) && Related(t, link.combinator, m, n) :: Represents(t, hook, link.compound, m))
  }

  /** A step up from a node that is `n` or one of its ancestors reaches an ancestor of `n`. */
  lemma {:induction false} AncestorStep(t: Tree, x: nat, y: nat, n: nat)
    requires t.WellFormed() && t.Has(x) && t.Has(n)
    requires x == n || Ancestor(t, x, n)
    requires t.Parent(x) == Some(y)
    ensures Ancestor(t, y, n)
    decreases n
  {
    if x != n {
      var p := t.Parent(n).value;
      if p != x {
        AncestorStep(t, x, y, p);
      }
    }
  }

  /** A step back from a node that is `n` or one of its earlier siblings reaches an earlier sibling of `n`. */
  lemma {:induction false} EarlierSiblingStep(t: Tree, x: nat, y: nat, n: nat)
    requires t.WellFormed() && t.Has(x) && t.Has(n)
    requires x == n || EarlierSibling(t, x, n)
    requires t.PreviousSibling(x) == Some(y)
    ensures EarlierSibling(t, y, n)
    decreases n
  {
    if x != n {
      var p := t.PreviousSibling(n).value;
      if p != x {
        EarlierSiblingStep(t, x, y, p);
      }
    }
  }

  // ---------------------------------------------------------------------------
  // Simple selectors: the node they are matched against
  // ---------------------------------------------------------------------------

  /** `e` is the first element of the sequence of nodes `s`. */
  predicate FirstAmong(t: Tree, s: seq<nat>, e: nat)
    requires forall k | 0 <= k < |s| :: t.Has(s[k])
  {
    exists k | 0 <= k < |s| :: s[k] == e && t.Kind(e).Element? && forall j | 0 <= j < k :: !t.Kind(s[j]).Element?
  }

  /** The scan for a first element finds the first element among the siblings from `c` on, if there is one. */
  lemma {:induction false} FirstElementScan(t: Tree, c: Option<nat>)
    requires t.WellFormed() && (c.Some? ==> t.Has(c.value))
    ensures FirstElementFrom(t, c).None? ==>
      forall k | 0 <= k < |t.SiblingsFrom(c)| :: !t.Kind(t.SiblingsFrom(c)[k]).Element?
    ensures FirstElementFrom(t, c).Some? ==> FirstAmong(t, t.SiblingsFrom(c), FirstElementFrom(t, c).value)
    decreases if c.Some? then |t.nodes| - c.value else 0
  {
    match c
    case None =>
    case Some(x) =>
      var s := t.SiblingsFrom(c);
      var rest := t.SiblingsFrom(t.NextSibling(x));
      assert s == [x] + rest;
      if t.Kind(x).Element? {
        assert s[0] == x;
      } else {
        FirstElementScan(t, t.NextSibling(x));
        ScanStep(t, x, rest, FirstElementFrom(t, c));
      }
  }

  /** Putting a non-element in front keeps the first element, and keeps a sequence without elements so. */
  lemma ScanStep(t: Tree, x: nat, rest: seq<nat>, e: Option<nat>)
    requires t.Has(x) && !t.Kind(x).Element? && forall k | 0 <= k < |rest| :: t.Has(rest[k])
    requires e.None? ==> forall k | 0 <= k < |rest| :: !t.Kind(rest[k]).Element?
    requires e.Some? ==> FirstAmong(t, rest, e.value)
    ensures var s := [x] + rest;
      && (e.None? ==> forall k | 0 <= k < |s| :: !t.Kind(s[k]).Element?)
      && (e.Some? ==> FirstAmong(t, s, e.value))
  {
    var s := [x] + rest;
    if e.None? {
      forall k | 0 <= k < |s|
        ensures !t.Kind(s[k]).Element?
      {
        if k > 0 {
          assert s[k] == rest[k - 1];
        }
      }
    } else {
      var k :| 0 <= k < |rest| && rest[k] == e.value && forall j | 0 <= j < k :: !t.Kind(rest[j]).Element?;
      assert s[k + 1] == e.value;
      forall j | 0 <= j < k + 1
        ensures !t.Kind(s[j]).Element?
      {
        if j > 0 {
          assert s[j] == rest[j - 1];
        }
      }
    }
  }

  /**
   * A simple selector matched against a document is matched against the document's first
   * element child; with no element child, it does not match.
   */
  lemma DocumentRedirect(t: Tree, hook: Option<Hook>, s: SimpleSelector, d: nat)
    requires t.WellFormed() && t.Has(d) && t.Kind(d).Document?
    ensures var cs := t.Children(d);
      match Target(t, d)
      case None => !SimpleMatches(t, hook, s, d) && forall k | 0 <= k < |cs| :: !t.Kind(cs[k]).Element?
      case Some(e) =>
        && SimpleMatches(t, hook, s, d) == SimpleMatches(t, hook, s, e)
        && FirstAmong(t, cs, e)
  {
    FirstElementScan(t, t.FirstChild(d));
    assert t.Children(d) == t.SiblingsFrom(t.FirstChild(d));
    match Target(t, d)
    case None =>
    case Some(e) =>
      assert Target(t, e) == Some(e);
  }

  /** Only an element, or a document with an element child, can match a simple selector. */
  lemma OnlyElementsMatch(t: Tree, hook: Option<Hook>, s: SimpleSelector, n: nat)
    requires t.WellFormed() && t.Has(n)
    requires SimpleMatches(t, hook, s, n)
    ensures t.Kind(n).Element? || (t.Kind(n).Document? && Target(t, n).Some?)
  {
  }

  /** `:not(s)` matches exactly the nodes `s` does not, among those that stand for an element. */
  lemma NegationComplement(t: Tree, hook: Option<Hook>, s: SimpleSelector, n: nat)
    requires t.WellFormed() && t.Has(n)
    requires Target(t, n).Some? && t.Kind(Target(t, n).value).Element?
    ensures SimpleMatches(t, hook, PseudoNegation(s), n) == !SimpleMatches(t, hook, s, n)
  {
    var e := Target(t, n).value;
    assert Target(t, e) == Some(e);
    assert SimpleMatches(t, hook, s, n) == SimpleMatches(t, hook, s, e);
  }

  // ---------------------------------------------------------------------------
  // Soundness of the right-to-left walk
  // ---------------------------------------------------------------------------

  /**
   * Where the walk of a compound's link can stand while it looks for the
   * element to the left of `n`: `n` itself, or a node on the combinator's
   * axis that it has gone past without finding an element there.
   */
  predicate OnAxis(t: Tree, comb: Combinator, x: nat, n: nat)
    requires t.WellFormed() && t.Has(x) && t.Has(n)
  {
    x == n ||
    match comb
    case Child => !t.Kind(x).Element? && ElementAbove(t, x) == ElementAbove(t, n)
    case Descendant => Ancestor(t, x, n)
    case NextSibling => PreviousElement(t, x) == PreviousElement(t, n)
    case LaterSibling => EarlierSibling(t, x, n)
  }

  /** A MATCHED compound represents the node. */
  lemma {:induction false} CompoundSound(t: Tree, hook: Option<Hook>, c: Compound, n: nat)
    requires t.WellFormed() && t.Has(n)
    requires CompoundResult(t, hook, c, n).Matched?
    ensures Represents(t, hook, c, n)
    decreases c, 1, 0
  {
    if c.previous.Some? {
      WalkSound(t, hook, c, n, n);
    }
  }

  /** A MATCHED walk from a point on the axis finds an element on the left that represents the left compound. */
  lemma {:induction false} WalkSound(t: Tree, hook: Option<Hook>, c: Compound, x: nat, n: nat)
    requires t.WellFormed() && t.Has(x) && t.Has(n) && c.previous.Some?
    requires OnAxis(t, c.previous.value.combinator, x, n)
    requires Walk(t, hook, c, x).Matched?
    ensures exists m: nat | t.Has(m) && Related(t, c.previous.value.combinator, m, n) ::
      Represents(t, hook, c.previous.value.compound, m)
    decreases c, 0, x
  {
    var link := c.previous.value;
    var comb := link.combinator;
    var y := AxisNext(t, comb, x).value;
    AxisStep(t, comb, x, n);
    if !t.Kind(y).Element? {
      WalkSound(t, hook, c, y, n);
    } else if CompoundResult(t, hook, link.compound, y).Matched? {
      CompoundSound(t, hook, link.compound, y);
    } else {
      WalkSound(t, hook, c, y, n);
    }
  }

  /**
   * One step of the walk keeps it on the axis: an element it reaches is
   * related to `n` by the combinator, and the walk may go on from the node
   * it reaches when that node is not an element or the combinator is `~` or
   * a descendant combinator.
   */
  lemma AxisStep(t: Tree, comb: Combinator, x: nat, n: nat)
    requires t.WellFormed() && t.Has(x) && t.Has(n)
    requires OnAxis(t, comb, x, n) && AxisNext(t, comb, x).Some?
    ensures var y := AxisNext(t, comb, x).value;
      && (t.Kind(y).Element? ==> Related(t, comb, y, n))
      && (!t.Kind(y).Element? || comb.Descendant? || comb.LaterSibling? ==> OnAxis(t, comb, y, n))
  {
    var y := AxisNext(t, comb, x).value;
    match comb
    case Child =>
    case Descendant => AncestorStep(t, x, y, n);
    case NextSibling =>
    case LaterSibling => EarlierSiblingStep(t, x, y, n);
  }

  /** matchesSelector only says yes for a node the selector's rightmost compound represents. */
  lemma SelectorSound(t: Tree, hook: Option<Hook>, s: Selector, n: nat)
    requires t.WellFormed() && t.Has(n)
    requires SelectorMatches(t, hook, s, n)
    ensures s.pseudoElement.None? && Represents(t, hook, s.compound, n)
  {
    CompoundSound(t, hook, s.compound, n);
  }

  /** A descendant combinator settles the walk: it never asks for a restart. */
  lemma {:induction false} DescendantSettles(t: Tree, hook: Option<Hook>, c: Compound, x: nat)
    requires t.WellFormed() && t.Has(x) && c.previous.Some? && c.previous.value.combinator.Descendant?
    ensures Walk(t, hook, c, x).Matched? || Walk(t, hook, c, x).NotMatched?
    decreases x
  {
    var link := c.previous.value;
    match AxisNext(t, link.combinator, x)
    case None =>
    case Some(y) =>
      var r := CompoundResult(t, hook, link.compound, y);
      if !t.Kind(y).Element? || !(r.Matched? || r.NotMatched?) {
        DescendantSettles(t, hook, c, y);
      }
  }

  /** A child combinator never asks to restart from a later sibling. */
  lemma {:induction false} ChildNeverLaterSibling(t: Tree, hook: Option<Hook>, c: Compound, x: nat)
    requires t.WellFormed() && t.Has(x) && c.previous.Some? && c.previous.value.combinator.Child?
    ensures !Walk(t, hook, c, x).RestartFromClosestLaterSibling?
    decreases x
  {
    var link := c.previous.value;
    match AxisNext(t, link.combinator, x)
    case None =>
    case Some(y) =>
      if !t.Kind(y).Element? {
        ChildNeverLaterSibling(t, hook, c, y);
      }
  }

  // ---------------------------------------------------------------------------
  // Completeness of the right-to-left walk
  // ---------------------------------------------------------------------------

  /**
   * `z` hangs from the ancestor line of `y`: it has no parent, or its parent
   * is an ancestor of `y`. These are `y`, its siblings, its ancestors and
   * their siblings: the nodes with no ancestor outside those of `y`.
   */
  predicate Under(t: Tree, z: nat, y: nat)
    requires t.WellFormed() && t.Has(z) && t.Has(y)
  {
    match t.Parent(z)
    case None => true
    case Some(q) => Ancestor(t, q, y)
  }

  /** An ancestor of an ancestor is an ancestor. */
  lemma {:induction false} AncestorTransitive(t: Tree, a: nat, b: nat, n: nat)
    requires t.WellFormed() && t.Has(b) && t.Has(n)
    requires Ancestor(t, a, b) && Ancestor(t, b, n)
    ensures Ancestor(t, a, n)
    decreases n
  {
    var p := t.Parent(n).value;
    if p != b {
      AncestorTransitive(t, a, b, p);
    }
  }

  /** An earlier sibling of an earlier sibling is an earlier sibling. */
  lemma {:induction false} EarlierSiblingTransitive(t: Tree, a: nat, b: nat, n: nat)
    requires t.WellFormed() && t.Has(b) && t.Has(n)
    requires EarlierSibling(t, a, b) && EarlierSibling(t, b, n)
    ensures EarlierSibling(t, a, n)
    decreases n
  {
    var p := t.PreviousSibling(n).value;
    if p != b {
      EarlierSiblingTransitive(t, a, b, p);
    }
  }

  /** Earlier siblings share the node's parent. */
  lemma {:induction false} EarlierSiblingParent(t: Tree, s: nat, n: nat)
    requires t.WellFormed() && t.Has(n)
    requires EarlierSibling(t, s, n)
    ensures t.Has(s) && t.Parent(s) == t.Parent(n)
    decreases n
  {
    var p := t.PreviousSibling(n).value;
    if p != s {
      EarlierSiblingParent(t, s, p);
    }
  }

  /** An element among the earlier siblings is the closest one or comes before it. */
  lemma {:induction false} ClosestElement(t: Tree, m: nat, n: nat)
    requires t.WellFormed() && t.Has(m) && t.Has(n)
    requires t.Kind(m).Element? && EarlierSibling(t, m, n)
    ensures PreviousElement(t, n).Some?
    ensures PreviousElement(t, n).value == m || EarlierSibling(t, m, PreviousElement(t, n).value)
    decreases n
  {
    var p := t.PreviousSibling(n).value;
    if !t.Kind(p).Element? {
      ClosestElement(t, m, p);
    }
  }

  /** A node and its ancestors hang from its ancestor line. */
  lemma UnderAncestor(t: Tree, m: nat, y: nat)
    requires t.WellFormed() && t.Has(m) && t.Has(y)
    requires m == y || Ancestor(t, m, y)
    ensures Under(t, m, y)
  {
    match t.Parent(m)
    case None =>
    case Some(q) => AncestorStep(t, m, q, y);
  }

  /** Hanging from an ancestor line depends only on the parents of the two nodes. */
  lemma UnderSameParent(t: Tree, m: nat, z: nat, s: nat, y: nat)
    requires t.WellFormed() && t.Has(m) && t.Has(z) && t.Has(s) && t.Has(y)
    requires t.Parent(m) == t.Parent(z) && t.Parent(s) == t.Parent(y)
    requires Under(t, z, y)
    ensures Under(t, m, s)
  {
    match t.Parent(m)
    case None =>
    case Some(q) =>
      assert Ancestor(t, q, s) == Ancestor(t, q, y);
  }

  /** A compound that represents the node yields MATCHED there. */
  lemma {:induction false} CompoundComplete(t: Tree, hook: Option<Hook>, c: Compound, n: nat)
    requires t.WellFormed() && t.Has(n)
    requires Represents(t, hook, c, n)
    ensures CompoundResult(t, hook, c, n).Matched?
    decreases c, 1, 0
  {
    if c.previous.Some? {
      var link := c.previous.value;
      var a := link.compound;
      var m: nat :| t.Has(m) && Related(t, link.combinator, m, n) && Represents(t, hook, a, m);
      CompoundComplete(t, hook, a, m);
      match link.combinator
      case Child => ChildComplete(t, hook, c, n, m);
      case NextSibling => NextSiblingComplete(t, hook, c, n, m);
      case Descendant => DescendantComplete(t, hook, c, n, m);
      case LaterSibling => LaterSiblingComplete(t, hook, c, n, m);
    }
  }

  /** The `>` walk passes over the ancestors that are not elements up to the closest element, which yields MATCHED. */
  lemma {:induction false} ChildComplete(t: Tree, hook: Option<Hook>, c: Compound, x: nat, m: nat)
    requires t.WellFormed() && t.Has(x) && t.Has(m) && c.previous.Some? && c.previous.value.combinator.Child?
    requires ElementAbove(t, x) == Some(m)
    requires CompoundResult(t, hook, c.previous.value.compound, m).Matched?
    ensures Walk(t, hook, c, x).Matched?
    decreases x
  {
    var p := t.Parent(x).value;
    assert AxisNext(t, Child, x) == Some(p);
    if p != m {
      assert Walk(t, hook, c, x) == Walk(t, hook, c, p);
      ChildComplete(t, hook, c, p, m);
    }
  }

  /** The `+` walk skips the non-elements before the closest earlier element, which yields MATCHED. */
  lemma {:induction false} NextSiblingComplete(t: Tree, hook: Option<Hook>, c: Compound, x: nat, m: nat)
    requires t.WellFormed() && t.Has(x) && t.Has(m) && c.previous.Some? && c.previous.value.combinator.NextSibling?
    requires PreviousElement(t, x) == Some(m)
    requires CompoundResult(t, hook, c.previous.value.compound, m).Matched?
    ensures Walk(t, hook, c, x).Matched?
    decreases x
  {
    var p := t.PreviousSibling(x).value;
    if p != m {
      NextSiblingComplete(t, hook, c, p, m);
    }
  }

  /**
   * The descendant walk from `x` up to an ancestor `m` that represents the
   * left compound: no ancestor on the way can yield NOT_MATCHED, since `m`
   * hangs from its ancestor line.
   */
  lemma {:induction false} DescendantComplete(t: Tree, hook: Option<Hook>, c: Compound, x: nat, m: nat)
    requires t.WellFormed() && t.Has(x) && t.Has(m) && c.previous.Some? && c.previous.value.combinator.Descendant?
    requires t.Kind(m).Element? && Ancestor(t, m, x)
    requires Represents(t, hook, c.previous.value.compound, m)
    requires CompoundResult(t, hook, c.previous.value.compound, m).Matched?
    ensures Walk(t, hook, c, x).Matched?
    decreases c, 0, x
  {
    var a := c.previous.value.compound;
    var p := t.Parent(x).value;
    assert AxisNext(t, Descendant, x) == Some(p);
    if p != m {
      DescendantComplete(t, hook, c, p, m);
      if t.Kind(p).Element? {
        UnderAncestor(t, m, p);
        RepresentedBlocks(t, hook, a, p, m);
        var r := CompoundResult(t, hook, a, p);
        assert Walk(t, hook, c, x) == if r.Matched? || r.NotMatched? then r else Walk(t, hook, c, p);
      } else {
        assert Walk(t, hook, c, x) == Walk(t, hook, c, p);
      }
    }
  }

  /**
   * The `~` walk from `x` back to an earlier sibling `m` that represents the
   * left compound: no sibling on the way can yield NOT_MATCHED or
   * RESTART_FROM_CLOSEST_DESCENDANT, since both would rule `m` out.
   */
  lemma {:induction false} LaterSiblingComplete(t: Tree, hook: Option<Hook>, c: Compound, x: nat, m: nat)
    requires t.WellFormed() && t.Has(x) && t.Has(m) && c.previous.Some? && c.previous.value.combinator.LaterSibling?
    requires t.Kind(m).Element? && EarlierSibling(t, m, x)
    requires Represents(t, hook, c.previous.value.compound, m)
    requires CompoundResult(t, hook, c.previous.value.compound, m).Matched?
    ensures Walk(t, hook, c, x).Matched?
    decreases c, 0, x
  {
    var a := c.previous.value.compound;
    var p := t.PreviousSibling(x).value;
    assert AxisNext(t, LaterSibling, x) == Some(p);
    if p != m {
      assert EarlierSibling(t, m, p);
      LaterSiblingComplete(t, hook, c, p, m);
      if t.Kind(p).Element? {
        EarlierSiblingParent(t, m, p);
        UnderAncestor(t, p, p);
        UnderSameParent(t, m, p, p, p);
        RepresentedBlocks(t, hook, a, p, m);
        var r := CompoundResult(t, hook, a, p);
        assert !r.NotMatched? && !r.RestartFromClosestDescendant?;
        assert Walk(t, hook, c, x) == if r.Matched? then r else Walk(t, hook, c, p);
      }
    }
  }

  /**
   * An element `m` that represents `a` keeps `a` from yielding NOT_MATCHED at
   * any `p` whose ancestor line `m` hangs from, and from yielding
   * RESTART_FROM_CLOSEST_DESCENDANT at any `p` that `m` comes before.
   */
  lemma RepresentedBlocks(t: Tree, hook: Option<Hook>, a: Compound, p: nat, m: nat)
    requires t.WellFormed() && t.Has(p) && t.Has(m) && t.Kind(m).Element?
    requires Represents(t, hook, a, m)
    ensures Under(t, m, p) ==> !CompoundResult(t, hook, a, p).NotMatched?
    ensures EarlierSibling(t, m, p) ==> !CompoundResult(t, hook, a, p).RestartFromClosestDescendant?
    decreases a, 2, 0
  {
    if CompoundResult(t, hook, a, p).NotMatched? {
      NotMatchedExcludes(t, hook, a, p);
    }
    if CompoundResult(t, hook, a, p).RestartFromClosestDescendant? {
      RestartExcludes(t, hook, a, p);
    }
  }

  /**
   * NOT_MATCHED is final: the compound represents no element hanging from
   * the ancestor line of the node, so no other candidate the matcher could
   * try after it can succeed.
   */
  lemma {:induction false} NotMatchedExcludes(t: Tree, hook: Option<Hook>, c: Compound, y: nat)
    requires t.WellFormed() && t.Has(y)
    requires CompoundResult(t, hook, c, y).NotMatched?
    ensures forall z: nat | t.Has(z) && t.Kind(z).Element? && Under(t, z, y) :: !Represents(t, hook, c, z)
    decreases c, 1, 0
  {
    var link := c.previous.value;
    var a := link.compound;
    match link.combinator
    case Child =>
      ChildNotMatched(t, hook, c, y);
      AncestorsExcluded(t, hook, c, y);
    case Descendant =>
      DescendantNotMatched(t, hook, c, y);
      AncestorsExcluded(t, hook, c, y);
    case NextSibling =>
      var s := NextSiblingNotMatched(t, hook, c, y);
      NotMatchedExcludes(t, hook, a, s);
      EarlierSiblingParent(t, s, y);
      SiblingsExcluded(t, hook, c, y, s);
    case LaterSibling =>
      var s := LaterSiblingNotMatched(t, hook, c, y);
      NotMatchedExcludes(t, hook, a, s);
      EarlierSiblingParent(t, s, y);
      SiblingsExcluded(t, hook, c, y, s);
  }

  /**
   * With `>` or a descendant combinator, an element hanging from the line of
   * `y` needs the left compound at an ancestor of `y`.
   */
  lemma AncestorsExcluded(t: Tree, hook: Option<Hook>, c: Compound, y: nat)
    requires t.WellFormed() && t.Has(y) && c.previous.Some? && !SiblingAxis(c.previous.value.combinator)
    requires forall m: nat | t.Has(m) && t.Kind(m).Element? && Ancestor(t, m, y) ::
      !Represents(t, hook, c.previous.value.compound, m)
    ensures forall z: nat | t.Has(z) && t.Kind(z).Element? && Under(t, z, y) :: !Represents(t, hook, c, z)
  {
    forall z: nat | t.Has(z) && t.Kind(z).Element? && Under(t, z, y)
      ensures !Represents(t, hook, c, z)
    {
      forall m: nat | t.Has(m) && Related(t, c.previous.value.combinator, m, z)
        ensures !Represents(t, hook, c.previous.value.compound, m)
      {
        RelatedAncestor(t, c.previous.value.combinator, m, z);
        var q := t.Parent(z).value;
        if m != q {
          AncestorTransitive(t, m, q, y);
        }
      }
    }
  }

  /** With `>` or a descendant combinator, the related element is an ancestor. */
  lemma RelatedAncestor(t: Tree, comb: Combinator, m: nat, z: nat)
    requires t.WellFormed() && t.Has(m) && t.Has(z) && !SiblingAxis(comb)
    requires Related(t, comb, m, z)
    ensures Ancestor(t, m, z)
  {
    if comb.Child? {
      assert ElementAbove(t, z) == Some(m);
    }
  }

  /**
   * With `+` or `~`, an element hanging from the line of `y` needs the left
   * compound at an earlier sibling, which hangs from the line of `s`, a
   * sibling of `y`.
   */
  lemma SiblingsExcluded(t: Tree, hook: Option<Hook>, c: Compound, y: nat, s: nat)
    requires t.WellFormed() && t.Has(y) && t.Has(s) && c.previous.Some? && SiblingAxis(c.previous.value.combinator)
    requires t.Parent(s) == t.Parent(y)
    requires forall w: nat | t.Has(w) && t.Kind(w).Element? && Under(t, w, s) ::
      !Represents(t, hook, c.previous.value.compound, w)
    ensures forall z: nat | t.Has(z) && t.Kind(z).Element? && Under(t, z, y) :: !Represents(t, hook, c, z)
  {
    forall z: nat | t.Has(z) && t.Kind(z).Element? && Under(t, z, y)
      ensures !Represents(t, hook, c, z)
    {
      SiblingCandidates(t, hook, c, y, s, z);
    }
  }

  /** The candidates on the sibling axis of an element `z` hanging from the line of `y` hang from the line of `s`. */
  lemma SiblingCandidates(t: Tree, hook: Option<Hook>, c: Compound, y: nat, s: nat, z: nat)
    requires t.WellFormed() && t.Has(y) && t.Has(s) && t.Has(z) && c.previous.Some? && SiblingAxis(c.previous.value.combinator)
    requires t.Parent(s) == t.Parent(y) && Under(t, z, y)
    requires forall w: nat | t.Has(w) && t.Kind(w).Element? && Under(t, w, s) ::
      !Represents(t, hook, c.previous.value.compound, w)
    ensures forall m: nat | t.Has(m) && Related(t, c.previous.value.combinator, m, z) ::
      !Represents(t, hook, c.previous.value.compound, m)
  {
    var comb := c.previous.value.combinator;
    forall m: nat | t.Has(m) && Related(t, comb, m, z)
      ensures !Represents(t, hook, c.previous.value.compound, m)
    {
      RelatedSibling(t, comb, m, z);
      UnderSameParent(t, m, z, s, y);
    }
  }

  /** On the sibling axis, the related element is an earlier sibling with the same parent. */
  lemma RelatedSibling(t: Tree, comb: Combinator, m: nat, z: nat)
    requires t.WellFormed() && t.Has(m) && t.Has(z) && SiblingAxis(comb)
    requires Related(t, comb, m, z)
    ensures EarlierSibling(t, m, z) && t.Parent(m) == t.Parent(z)
  {
    EarlierSiblingParent(t, m, z);
  }

  /** A `>` walk that yields NOT_MATCHED leaves no ancestor representing the left compound. */
  lemma {:induction false} ChildNotMatched(t: Tree, hook: Option<Hook>, c: Compound, y: nat)
    requires t.WellFormed() && t.Has(y) && c.previous.Some? && c.previous.value.combinator.Child?
    requires Walk(t, hook, c, y).NotMatched?
    ensures forall m: nat | t.Has(m) && t.Kind(m).Element? && Ancestor(t, m, y) ::
      !Represents(t, hook, c.previous.value.compound, m)
    decreases c, 0, y
  {
    var a := c.previous.value.compound;
    match t.Parent(y)
    case None =>
    case Some(p) =>
      assert AxisNext(t, Child, y) == Some(p);
      if !t.Kind(p).Element? {
        assert Walk(t, hook, c, y) == Walk(t, hook, c, p);
        ChildNotMatched(t, hook, c, p);
        AncestorsUp(t, hook, a, p, y);
      } else {
        NotMatchedExcludes(t, hook, a, p);
        LineAncestors(t, hook, a, p, y);
      }
  }

  /** A descendant walk that yields NOT_MATCHED leaves no ancestor representing the left compound. */
  lemma {:induction false} DescendantNotMatched(t: Tree, hook: Option<Hook>, c: Compound, x: nat)
    requires t.WellFormed() && t.Has(x) && c.previous.Some? && c.previous.value.combinator.Descendant?
    requires Walk(t, hook, c, x).NotMatched?
    ensures forall m: nat | t.Has(m) && t.Kind(m).Element? && Ancestor(t, m, x) ::
      !Represents(t, hook, c.previous.value.compound, m)
    decreases c, 0, x
  {
    var a := c.previous.value.compound;
    match t.Parent(x)
    case None =>
    case Some(p) =>
      assert AxisNext(t, Descendant, x) == Some(p);
      if !t.Kind(p).Element? {
        assert Walk(t, hook, c, x) == Walk(t, hook, c, p);
        DescendantNotMatched(t, hook, c, p);
        AncestorsUp(t, hook, a, p, x);
      } else {
        var r := CompoundResult(t, hook, a, p);
        assert Walk(t, hook, c, x) == if r.Matched? || r.NotMatched? then r else Walk(t, hook, c, p);
        if r.NotMatched? {
          NotMatchedExcludes(t, hook, a, p);
          LineAncestors(t, hook, a, p, x);
        } else {
          DescendantNotMatched(t, hook, c, p);
          if Represents(t, hook, a, p) {
            CompoundComplete(t, hook, a, p);
          }
          AncestorsUp(t, hook, a, p, x);
        }
      }
  }

  /** When neither the parent `p` nor any ancestor of `p` represents `a`, no ancestor of `x` does. */
  lemma AncestorsUp(t: Tree, hook: Option<Hook>, a: Compound, p: nat, x: nat)
    requires t.WellFormed() && t.Has(x) && t.Parent(x) == Some(p)
    requires !t.Kind(p).Element? || !Represents(t, hook, a, p)
    requires forall m: nat | t.Has(m) && t.Kind(m).Element? && Ancestor(t, m, p) :: !Represents(t, hook, a, m)
    ensures forall m: nat | t.Has(m) && t.Kind(m).Element? && Ancestor(t, m, x) :: !Represents(t, hook, a, m)
  {
  }

  /** When nothing hanging from the line of the parent `p` represents `a`, no ancestor of `x` does. */
  lemma LineAncestors(t: Tree, hook: Option<Hook>, a: Compound, p: nat, x: nat)
    requires t.WellFormed() && t.Has(x) && t.Parent(x) == Some(p)
    requires forall w: nat | t.Has(w) && t.Kind(w).Element? && Under(t, w, p) :: !Represents(t, hook, a, w)
    ensures forall m: nat | t.Has(m) && t.Kind(m).Element? && Ancestor(t, m, x) :: !Represents(t, hook, a, m)
  {
    forall m: nat | t.Has(m) && t.Kind(m).Element? && Ancestor(t, m, x)
      ensures !Represents(t, hook, a, m)
    {
      UnderAncestor(t, m, p);
    }
  }

  /** A `+` walk that yields NOT_MATCHED got it from the closest earlier element. */
  lemma {:induction false} NextSiblingNotMatched(t: Tree, hook: Option<Hook>, c: Compound, x: nat) returns (s: nat)
    requires t.WellFormed() && t.Has(x) && c.previous.Some? && c.previous.value.combinator.NextSibling?
    requires Walk(t, hook, c, x).NotMatched?
    ensures PreviousElement(t, x) == Some(s) && EarlierSibling(t, s, x)
    ensures CompoundResult(t, hook, c.previous.value.compound, s).NotMatched?
    decreases c, 0, x
  {
    var p := t.PreviousSibling(x).value;
    assert AxisNext(t, NextSibling, x) == Some(p);
    if !t.Kind(p).Element? {
      assert Walk(t, hook, c, x) == Walk(t, hook, c, p);
      assert PreviousElement(t, x) == PreviousElement(t, p);
      s := NextSiblingNotMatched(t, hook, c, p);
    } else {
      s := p;
    }
  }

  /** A `~` walk that yields NOT_MATCHED got it from an earlier element. */
  lemma {:induction false} LaterSiblingNotMatched(t: Tree, hook: Option<Hook>, c: Compound, x: nat) returns (s: nat)
    requires t.WellFormed() && t.Has(x) && c.previous.Some? && c.previous.value.combinator.LaterSibling?
    requires Walk(t, hook, c, x).NotMatched?
    ensures t.Has(s) && t.Kind(s).Element? && EarlierSibling(t, s, x)
    ensures CompoundResult(t, hook, c.previous.value.compound, s).NotMatched?
    decreases c, 0, x
  {
    var p := t.PreviousSibling(x).value;
    if t.Kind(p).Element? && CompoundResult(t, hook, c.previous.value.compound, p).NotMatched? {
      s := p;
    } else {
      s := LaterSiblingNotMatched(t, hook, c, p);
    }
  }

  /**
   * RESTART_FROM_CLOSEST_DESCENDANT rules out the node and its earlier
   * siblings: the compound represents none of them, so the matcher must go
   * up to a new candidate.
   */
  lemma {:induction false} RestartExcludes(t: Tree, hook: Option<Hook>, c: Compound, y: nat)
    requires t.WellFormed() && t.Has(y)
    requires CompoundResult(t, hook, c, y).RestartFromClosestDescendant?
    ensures forall z: nat | t.Has(z) && t.Kind(z).Element? && (z == y || EarlierSibling(t, z, y)) ::
      !Represents(t, hook, c, z)
    decreases c, 1, 0
  {
    var link := c.previous.value;
    var a := link.compound;
    match link.combinator
    case Descendant =>
      DescendantSettles(t, hook, c, y);
    case Child =>
      var p := ChildRestart(t, hook, c, y);
      if Represents(t, hook, a, p) {
        CompoundComplete(t, hook, a, p);
      }
      forall z: nat | t.Has(z) && t.Kind(z).Element? && (z == y || EarlierSibling(t, z, y))
        ensures !Represents(t, hook, c, z)
      {
        if z != y {
          EarlierSiblingParent(t, z, y);
          assert ElementAbove(t, z) == ElementAbove(t, y);
        }
      }
    case NextSibling =>
      NextSiblingRestart(t, hook, c, y);
      forall z: nat | t.Has(z) && t.Kind(z).Element? && (z == y || EarlierSibling(t, z, y))
        ensures !Represents(t, hook, c, z)
      {
        forall m: nat | t.Has(m) && Related(t, NextSibling, m, z)
          ensures !Represents(t, hook, a, m)
        {
          NextSiblingCandidate(t, hook, c, y, z, m);
        }
      }
    case LaterSibling =>
      LaterSiblingRestart(t, hook, c, y);
      forall z: nat | t.Has(z) && t.Kind(z).Element? && (z == y || EarlierSibling(t, z, y))
        ensures !Represents(t, hook, c, z)
      {
        forall m: nat | t.Has(m) && Related(t, LaterSibling, m, z)
          ensures !Represents(t, hook, a, m)
        {
          if z != y {
            EarlierSiblingTransitive(t, m, z, y);
          }
        }
      }
  }

  /** A `>` walk asks for a restart only after the closest element above did not match the left compound. */
  lemma {:induction false} ChildRestart(t: Tree, hook: Option<Hook>, c: Compound, x: nat) returns (p: nat)
    requires t.WellFormed() && t.Has(x) && c.previous.Some? && c.previous.value.combinator.Child?
    requires Walk(t, hook, c, x).RestartFromClosestDescendant?
    ensures ElementAbove(t, x) == Some(p) && t.Has(p)
    ensures !CompoundResult(t, hook, c.previous.value.compound, p).Matched?
    decreases x
  {
    var q := t.Parent(x).value;
    assert AxisNext(t, Child, x) == Some(q);
    if !t.Kind(q).Element? {
      assert Walk(t, hook, c, x) == Walk(t, hook, c, q);
      p := ChildRestart(t, hook, c, q);
    } else {
      p := q;
    }
  }

  /** The element before a node `z` that is `y` or comes before it is, or comes before, the closest element before `y`. */
  lemma NextSiblingCandidate(t: Tree, hook: Option<Hook>, c: Compound, y: nat, z: nat, m: nat)
    requires t.WellFormed() && t.Has(y) && t.Has(z) && t.Has(m) && c.previous.Some?
    requires z == y || EarlierSibling(t, z, y)
    requires Related(t, NextSibling, m, z)
    requires PreviousElement(t, y).Some? ==>
      CompoundResult(t, hook, c.previous.value.compound, PreviousElement(t, y).value).RestartFromClosestDescendant?
    ensures !Represents(t, hook, c.previous.value.compound, m)
    decreases c, 0, 0
  {
    if z != y {
      EarlierSiblingTransitive(t, m, z, y);
    }
    ClosestElement(t, m, y);
    RestartExcludes(t, hook, c.previous.value.compound, PreviousElement(t, y).value);
  }

  /** A `+` walk asks for a restart higher up only when there is no earlier element or that element asked for it. */
  lemma {:induction false} NextSiblingRestart(t: Tree, hook: Option<Hook>, c: Compound, x: nat)
    requires t.WellFormed() && t.Has(x) && c.previous.Some? && c.previous.value.combinator.NextSibling?
    requires Walk(t, hook, c, x).RestartFromClosestDescendant?
    ensures PreviousElement(t, x).Some? ==>
      CompoundResult(t, hook, c.previous.value.compound, PreviousElement(t, x).value).RestartFromClosestDescendant?
    decreases c, 0, x
  {
    match t.PreviousSibling(x)
    case None =>
    case Some(p) =>
      assert AxisNext(t, NextSibling, x) == Some(p);
      if !t.Kind(p).Element? {
        assert Walk(t, hook, c, x) == Walk(t, hook, c, p);
        assert PreviousElement(t, x) == PreviousElement(t, p);
        NextSiblingRestart(t, hook, c, p);
      } else {
        assert PreviousElement(t, x) == Some(p);
        assert Walk(t, hook, c, x) == CompoundResult(t, hook, c.previous.value.compound, p);
      }
  }

  /** A `~` walk that asks for a restart higher up leaves no earlier sibling representing the left compound. */
  lemma {:induction false} LaterSiblingRestart(t: Tree, hook: Option<Hook>, c: Compound, x: nat)
    requires t.WellFormed() && t.Has(x) && c.previous.Some? && c.previous.value.combinator.LaterSibling?
    requires Walk(t, hook, c, x).RestartFromClosestDescendant?
    ensures forall w: nat | t.Has(w) && t.Kind(w).Element? && EarlierSibling(t, w, x) ::
      !Represents(t, hook, c.previous.value.compound, w)
    decreases c, 0, x
  {
    var a := c.previous.value.compound;
    match t.PreviousSibling(x)
    case None =>
    case Some(p) =>
      if !t.Kind(p).Element? {
        LaterSiblingRestart(t, hook, c, p);
      } else if CompoundResult(t, hook, a, p).RestartFromClosestDescendant? {
        RestartExcludes(t, hook, a, p);
      } else {
        LaterSiblingRestart(t, hook, c, p);
        if Represents(t, hook, a, p) {
          CompoundComplete(t, hook, a, p);
        }
      }
  }

  /** matchesCompoundSelector is exact: MATCHED exactly when the compound represents the node. */
  lemma CompoundExact(t: Tree, hook: Option<Hook>, c: Compound, n: nat)
    requires t.WellFormed() && t.Has(n)
    ensures CompoundResult(t, hook, c, n).Matched? <==> Represents(t, hook, c, n)
  {
    if CompoundResult(t, hook, c, n).Matched? {
      CompoundSound(t, hook, c, n);
    }
    if Represents(t, hook, c, n) {
      CompoundComplete(t, hook, c, n);
    }
  }

  /** matchesSelector is exact: yes exactly for a selector without pseudo-element whose rightmost compound represents the node. */
  lemma SelectorExact(t: Tree, hook: Option<Hook>, s: Selector, n: nat)
    requires t.WellFormed() && t.Has(n)
    ensures SelectorMatches(t, hook, s, n) <==> s.pseudoElement.None? && Represents(t, hook, s.compound, n)
  {
    CompoundExact(t, hook, s.compound, n);
  }
}
