/**
 * The tree the matcher walks, as an arena: DOMNode's getters become fields of
 * a node record, and the node references they return become indexes into the
 * arena (None for null). The nodes are stored in document order, so a parent
 * and a previous sibling always have a smaller index than the node and a
 * first child or a next sibling a larger one; the index is then the measure
 * of every walk along parents or siblings. Any finite tree can be stored this
 * way.
 */
module Dom {
  import opened Wrappers

  /** DOMNode.Type. */
  datatype NodeType = Document | Element | Text | Other

  /**
   * One node: getType, getData (the tag name of an element, the content of a
   * text node; null is modelled as the empty string), getAttributes (null is
   * None) and the four links.
   */
  datatype Node = Node(
    kind: NodeType,
    data: string,
    attributes: Option<map<string, string>>,
    parent: Option<nat>,
    firstChild: Option<nat>,
    previousSibling: Option<nat>,
    nextSibling: Option<nat>)

  datatype Tree = Tree(nodes: seq<Node>)
  {
    /**
     * The links point into the arena in document order and agree with each
     * other: a node is the next sibling of its previous sibling and the
     * previous sibling of its next sibling, siblings share their parent, and
     * a first child has the node as its parent and no previous sibling. A
     * document has no parent. A parent may be of any type: DOMNode does not
     * restrict it, and a document fragment is a node of type OTHER.
     */
    ghost predicate WellFormed() {
      forall i | 0 <= i < |nodes| ::
        && (nodes[i].parent.Some? ==>
              var p := nodes[i].parent.value;
              p < i && (nodes[i].previousSibling.None? ==> nodes[p].firstChild == Some(i)))
        && (nodes[i].previousSibling.Some? ==>
              var s := nodes[i].previousSibling.value;
              s < i && nodes[s].nextSibling == Some(i) && nodes[s].parent == nodes[i].parent)
        && (nodes[i].nextSibling.Some? ==>
              var s := nodes[i].nextSibling.value;
              i < s < |nodes| && nodes[s].previousSibling == Some(i) && nodes[s].parent == nodes[i].parent)
        && (nodes[i].firstChild.Some? ==>
              var c := nodes[i].firstChild.value;
              i < c < |nodes| && nodes[c].parent == Some(i) && nodes[c].previousSibling.None?)
        && (nodes[i].parent.None? ==> nodes[i].previousSibling.None? && nodes[i].nextSibling.None?)
        && (nodes[i].kind.Document? ==> nodes[i].parent.None?)
    }

    predicate Has(i: nat) {
      i < |nodes|
    }

    function Kind(i: nat): NodeType
      requires Has(i)
    {
      nodes[i].kind
    }

    /** getParentNode: an earlier node, of any type (ChildOfParent shows `i` is among its children); none for a document. */
    function Parent(i: nat): (p: Option<nat>)
      requires WellFormed() && Has(i)
      ensures p.Some? ==> p.value < i
      ensures Kind(i).Document? ==> p.None?
    {
      nodes[i].parent
    }

    /** getPreviousSibling: an earlier node with the same parent. */
    function PreviousSibling(i: nat): (s: Option<nat>)
      requires WellFormed() && Has(i)
      ensures s.Some? ==> s.value < i && Parent(s.value) == Parent(i) && NextSibling(s.value) == Some(i)
      ensures Parent(i).None? ==> s.None?
    {
      nodes[i].previousSibling
    }

    /** getNextSibling: a later node with the same parent. */
    function NextSibling(i: nat): (s: Option<nat>)
      requires WellFormed() && Has(i)
      ensures s.Some? ==> i < s.value < |nodes| && nodes[s.value].parent == Parent(i)
      ensures s.Some? ==> nodes[s.value].previousSibling == Some(i)
      ensures Parent(i).None? ==> s.None?
    {
      nodes[i].nextSibling
    }

    /** getFirstChild: a later node whose parent is `i` and which has no previous sibling. */
    function FirstChild(i: nat): (c: Option<nat>)
      requires WellFormed() && Has(i)
      ensures c.Some? ==> i < c.value < |nodes| && Parent(c.value) == Some(i) && PreviousSibling(c.value).None?
    {
      nodes[i].firstChild
    }

    /** The siblings from `c` on, following getNextSibling: the children of a node when `c` is its first child. */
    function SiblingsFrom(c: Option<nat>): (s: seq<nat>)
      requires WellFormed() && (c.Some? ==> Has(c.value))
      ensures forall k | 0 <= k < |s| :: Has(s[k])
      decreases if c.Some? then |nodes| - c.value else 0
    {
      match c
      case None => []
      case Some(x) => [x] + SiblingsFrom(NextSibling(x))
    }

    /** The siblings before `i`, in document order. */
    function PrecedingSiblings(i: nat): (s: seq<nat>)
      requires WellFormed() && Has(i)
      ensures forall k | 0 <= k < |s| :: s[k] < i
      decreases i
    {
      match PreviousSibling(i)
      case None => []
      case Some(p) => PrecedingSiblings(p) + [p]
    }

    /** The children of `i` in document order. */
    function Children(i: nat): (s: seq<nat>)
      requires WellFormed() && Has(i)
      ensures forall k | 0 <= k < |s| :: Has(s[k])
    {
      SiblingsFrom(FirstChild(i))
    }

    /** Following getNextSibling from a node on the walk stays on the walk. */
    lemma {:induction false} SiblingsFromNext(c: Option<nat>, x: nat)
      requires WellFormed() && (c.Some? ==> Has(c.value)) && Has(x)
      requires x in SiblingsFrom(c) && NextSibling(x).Some?
      ensures NextSibling(x).value in SiblingsFrom(c)
      decreases if c.Some? then |nodes| - c.value else 0
    {
      var n := NextSibling(c.value);
      if x != c.value {
        SiblingsFromNext(n, x);
      }
    }

    /** Every node with a parent is one of that parent's children (getParentNode and the child walk agree). */
    lemma {:induction false} ChildOfParent(i: nat)
      requires WellFormed() && Has(i) && Parent(i).Some?
      ensures i in Children(Parent(i).value)
      decreases i
    {
      var p := Parent(i).value;
      match PreviousSibling(i)
      case None =>
      case Some(s) =>
        ChildOfParent(s);
        SiblingsFromNext(FirstChild(p), s);
    }
  }
}
