/**
 * What the matching rules mean: the nth test, its 32-bit form, the structural
 * pseudo-classes in terms of a node's position among its parent's children,
 * the attribute operators in terms of the value's text, and right-to-left
 * compound matching against a direct definition of what a compound selector
 * represents.
 */
module MatchingProofs {
  import opened Wrappers
  import opened CodePoints
  import opened Ast
  import opened Dom
  import opened Matching
  import Nth

  // ---------------------------------------------------------------------------
  // The nth test
  // ---------------------------------------------------------------------------

  /** The `n`-th term of the sequence `an+b`. */
  function Term(a: int, b: int, n: nat): int {
    a * n + b
  }

  /** Euclidean division by a positive divisor cancels a factor of the divisor. */
  lemma MulDivCancel(k: int, q: int)
    requires k > 0
    ensures (k * q) / k == q
  {
    var x := k * q;
    var d := x / k;
    var r := x % k;
    assert x == k * d + r && 0 <= r < k;
    assert k * (q - d) == r;
    if q - d >= 1 {
      assert false;
    } else if q - d <= -1 {
      assert false;
    }
  }

  /** Truncated division is exact on a multiple: (a*n)/a == n with no remainder. */
  lemma DivOfMultiple(a: int, n: nat)
    requires a != 0
    ensures TruncDiv(a * n, a) == n && TruncRem(a * n, a) == 0
  {
    if a > 0 {
      MulDivCancel(a, n);
      assert a * n >= 0;
    } else {
      assert (-a) * n == -(a * n);
      MulDivCancel(-a, n);
      if n == 0 {
        assert a * n == 0;
      } else {
        assert (-a) * n > 0;
      }
    }
  }

  /** A zero truncated remainder leaves `x` equal to the divisor times the quotient. */
  lemma RemZero(x: int, a: int)
    requires a != 0 && TruncRem(x, a) == 0
    ensures x == a * TruncDiv(x, a)
  {
  }

  /**
   * The nth test holds exactly when `i` is a term of `an+b` for some n >= 0:
   * for a == 0 that is i == b, otherwise i - b is a non-negative multiple of a.
   */
  lemma NthTerms(a: int, b: int, i: int)
    ensures NthHolds(a, b, i) <==> exists n: nat :: Term(a, b, n) == i
  {
    if a == 0 {
      if i == b {
        assert Term(a, b, 0) == i;
      }
    } else if NthHolds(a, b, i) {
      RemZero(i - b, a);
      var n: nat := TruncDiv(i - b, a);
      assert Term(a, b, n) == i;
    } else {
      forall n: nat | Term(a, b, n) == i
        ensures false
      {
        assert i - b == a * n;
        DivOfMultiple(a, n);
      }
    }
  }

  /**
   * As written, `i - b` wraps: with a == 1 and b == -2147483647 (the argument
   * `n-2147483647`) no position i up to 2^31 passes, though every such i is
   * the term n = i + 2147483647.
   */
  lemma NthOverflow(i: int)
    requires 1 <= i <= 0x8000_0000
    ensures !NthHoldsAsWritten(1, -0x7FFF_FFFF, i)
    ensures NthHolds(1, -0x7FFF_FFFF, i)
    ensures Term(1, -0x7FFF_FFFF, i + 0x7FFF_FFFF) == i
  {
    var d := Wrap32(i + 0x7FFF_FFFF);
    assert d == i + 0x7FFF_FFFF - 0x1_0000_0000;
    assert d < 0;
  }

  /** Without overflow of `i - b` the test as written and the unbounded test agree. */
  lemma NthNoOverflow(a: int, b: int, i: int)
    requires Nth.INT_MIN <= a <= Nth.INT_MAX && Nth.INT_MIN <= b <= Nth.INT_MAX
    requires 1 <= i && i - b <= Nth.INT_MAX
    ensures NthHoldsAsWritten(a, b, i) == NthHolds(a, b, i)
  {
    if a != 0 {
      var d := i - b;
      assert Wrap32(d) == d by {
        assert 0 <= d - Nth.INT_MIN < 0x1_0000_0000;
      }
      var q := TruncDiv(d, a);
      assert -0x8000_0000 < d;
      assert Nth.INT_MIN <= q <= Nth.INT_MAX by {
        QuotientBound(d, a);
      }
      assert Wrap32(q) == q by {
        assert 0 <= q - Nth.INT_MIN < 0x1_0000_0000;
      }
    }
  }

  /** Euclidean division of a natural number by a positive divisor does not increase it. */
  lemma DivAtMost(m: nat, k: int)
    requires k >= 1
    ensures 0 <= m / k <= m
  {
    var q := m / k;
    assert m == k * q + m % k && m % k >= 0;
    MulAtLeast(k, q);
  }

  /** A natural number times a positive integer is at least that number. */
  lemma {:induction false} MulAtLeast(k: int, q: nat)
    requires k >= 1
    ensures k * q >= q
  {
    if q > 0 {
      MulAtLeast(k, q - 1);
      assert k * q == k * (q - 1) + k;
    }
  }

  /** The truncated quotient is no larger in magnitude than the dividend. */
  lemma QuotientBound(x: int, a: int)
    requires a != 0
    ensures -(if x < 0 then -x else x) <= TruncDiv(x, a) <= (if x < 0 then -x else x)
  {
    var m: nat := if x < 0 then -x else x;
    var k := if a < 0 then -a else a;
    DivAtMost(m, k);
  }

  // ---------------------------------------------------------------------------
  // The nth pseudo-class names
  // ---------------------------------------------------------------------------

  /**
   * As written, an nth pseudo-class whose name has an upper-case letter
   * never matches, although the parser accepted it as an nth pseudo-class
   * ignoring case; with the name lower-cased it is the nth test.
   */
  lemma NthNameCase(t: Tree, name: string, a: int, b: int, n: nat)
    requires t.WellFormed() && t.Has(n)
    requires Lower(name) == "nth-child" && name != "nth-child"
    ensures !PseudoNthAsWritten(t, name, a, b, n)
    ensures PseudoNthMatches(t, name, a, b, n) == NthChild(t, n, a, b, false, false)
  {
    assert name != "nth-last-child" && name != "nth-of-type" && name != "nth-last-of-type" by {
      assert |name| == 9;
    }
  }

  /**
   * The input that shows it: `:NTH-CHILD(1)`, which the parser reads as the
   * nth pseudo-class (0, 1), matches no node when there is no custom matcher,
   * even a first child, which `:nth-child(1)` matches.
   */
  lemma UpperCaseNth(t: Tree, n: nat)
    requires t.WellFormed() && t.Has(n)
    ensures !PseudoNthAsWritten(t, "NTH-CHILD", 0, 1, n)
    ensures PseudoNthMatches(t, "NTH-CHILD", 0, 1, n) == NthChild(t, n, 0, 1, false, false)
    ensures !SimpleMatches(t, None, PseudoNth("NTH-CHILD", 0, 1), n)
  {
    assert Lower("NTH-CHILD") == "nth-child";
    NthNameCase(t, "NTH-CHILD", 0, 1, n);
    NeverWithoutHook(t, "NTH-CHILD", 0, 1, n);
  }

  /** Without a custom matcher, an nth pseudo-class whose name has an upper-case letter matches no node. */
  lemma NeverWithoutHook(t: Tree, name: string, a: int, b: int, n: nat)
    requires t.WellFormed() && t.Has(n)
    requires Lower(name) == "nth-child" && name != "nth-child"
    ensures !SimpleMatches(t, None, PseudoNth(name, a, b), n)
  {
    var m := Target(t, n);
    if m.Some? && t.Kind(m.value).Element? {
      NthNameCase(t, name, a, b, m.value);
    }
  }

  // ---------------------------------------------------------------------------
  // Positions among the parent's children
  // ---------------------------------------------------------------------------

  /** The nodes of `s` that matchesNthChild counts. */
  function Counted(t: Tree, s: seq<nat>, tag: string, ofType: bool): nat
    requires forall k | 0 <= k < |s| :: t.Has(s[k])
  {
    if s == [] then 0 else (if Counts(t, s[0], tag, ofType) then 1 else 0) + Counted(t, s[1..], tag, ofType)
  }

  lemma {:induction false} CountedSnoc(t: Tree, s: seq<nat>, x: nat, tag: string, ofType: bool)
    requires forall k | 0 <= k < |s| :: t.Has(s[k])
    requires t.Has(x)
    ensures Counted(t, s + [x], tag, ofType) == Counted(t, s, tag, ofType) + (if Counts(t, x, tag, ofType) then 1 else 0)
  {
    if s != [] {
      assert (s + [x])[1..] == s[1..] + [x];
      CountedSnoc(t, s[1..], x, tag, ofType);
    }
  }

  /** A node's children are the siblings before one child, that child, and the siblings after it. */
  lemma {:induction false} ChildrenAround(t: Tree, n: nat, p: nat)
    requires t.WellFormed() && t.Has(n) && t.Parent(n) == Some(p)
    ensures t.Children(p) == t.PrecedingSiblings(n) + [n] + t.SiblingsFrom(t.NextSibling(n))
    decreases n
  {
    var after := t.SiblingsFrom(t.NextSibling(n));
    assert t.SiblingsFrom(Some(n)) == [n] + after;
    match t.PreviousSibling(n)
    case None =>
      assert t.nodes[n].parent == Some(p) && t.nodes[n].previousSibling.None?;
      assert t.FirstChild(p) == Some(n);
    case Some(s) =>
      assert t.Parent(s) == Some(p) && t.NextSibling(s) == Some(n);
      ChildrenAround(t, s, p);
      var before := t.PrecedingSiblings(s);
      assert t.PrecedingSiblings(n) == before + [s];
      calc {
        t.Children(p);
        before + [s] + ([n] + after);
        { assert before + [s] + ([n] + after) == before + [s] + [n] + after; }
        before + [s] + [n] + after;
      }
  }

  /** Counting backwards from `x` counts the siblings before it. */
  lemma {:induction false} CountBackward(t: Tree, x: nat, tag: string, ofType: bool)
    requires t.WellFormed() && t.Has(x)
    ensures CountFrom(t, x, tag, ofType, false) == Counted(t, t.PrecedingSiblings(x), tag, ofType)
    decreases x
  {
    match t.PreviousSibling(x)
    case None =>
    case Some(y) =>
      CountBackward(t, y, tag, ofType);
      CountedSnoc(t, t.PrecedingSiblings(y), y, tag, ofType);
  }

  /** Counting forwards from `x` counts the siblings after it. */
  lemma {:induction false} CountForward(t: Tree, x: nat, tag: string, ofType: bool)
    requires t.WellFormed() && t.Has(x)
    ensures CountFrom(t, x, tag, ofType, true) == Counted(t, t.SiblingsFrom(t.NextSibling(x)), tag, ofType)
    decreases |t.nodes| - x
  {
    match t.NextSibling(x)
    case None =>
    case Some(y) =>
      CountForward(t, y, tag, ofType);
      assert t.SiblingsFrom(Some(y))[1..] == t.SiblingsFrom(t.NextSibling(y));
  }

  /**
   * The `i` of matchesNthChild is 1 + the number of counted children of the
   * parent before the node (after it when counting from the end).
   */
  lemma NthIndexPosition(t: Tree, n: nat, p: nat, ofType: bool)
    requires t.WellFormed() && t.Has(n) && t.Parent(n) == Some(p)
    ensures var k := |t.PrecedingSiblings(n)|;
      && k < |t.Children(p)| && t.Children(p)[k] == n
      && NthIndex(t, n, ofType, false) == 1 + Counted(t, t.Children(p)[..k], t.nodes[n].data, ofType)
      && NthIndex(t, n, ofType, true) == 1 + Counted(t, t.Children(p)[k + 1..], t.nodes[n].data, ofType)
  {
    var k := |t.PrecedingSiblings(n)|;
    ChildrenAround(t, n, p);
    assert t.Children(p)[..k] == t.PrecedingSiblings(n);
    assert t.Children(p)[k + 1..] == t.SiblingsFrom(t.NextSibling(n));
    CountBackward(t, n, t.nodes[n].data, ofType);
    CountForward(t, n, t.nodes[n].data, ofType);
  }

  /** The walk of matchesFirstOrLastChild is the count of element siblings in the same direction being zero. */
  lemma {:induction false} FirstOrLastCount(t: Tree, x: nat, first: bool, tag: string)
    requires t.WellFormed() && t.Has(x)
    ensures FirstOrLastFrom(t, x, first) <==> HasNonDocumentParent(t, x) && CountFrom(t, x, tag, false, !first) == 0
    decreases if first then x else |t.nodes| - x
  {
    var n := if first then t.PreviousSibling(x) else t.NextSibling(x);
    match n
    case None =>
    case Some(y) =>
      FirstOrLastCount(t, y, first, tag);
      assert t.Parent(y) == t.Parent(x);
  }

  /** `:first-child` is `:nth-child(1)` and `:last-child` is `:nth-last-child(1)`. */
  lemma FirstChildIsNth(t: Tree, n: nat, first: bool)
    requires t.WellFormed() && t.Has(n)
    ensures FirstOrLastFrom(t, n, first) == NthChild(t, n, 0, 1, false, !first)
  {
    FirstOrLastCount(t, n, first, t.nodes[n].data);
  }

  /** A child that keeps a node `:empty`: neither an element nor a text with data. */
  predicate Blank(t: Tree, x: nat)
    requires t.Has(x)
  {
    !t.Kind(x).Element? && !(t.Kind(x).Text? && t.nodes[x].data != "")
  }

  /** Every node of `s` is blank, checked head first. */
  predicate AllBlank(t: Tree, s: seq<nat>)
    requires forall k | 0 <= k < |s| :: t.Has(s[k])
  {
    s == [] || (Blank(t, s[0]) && AllBlank(t, s[1..]))
  }

  lemma {:induction false} AllBlankEvery(t: Tree, s: seq<nat>)
    requires forall k | 0 <= k < |s| :: t.Has(s[k])
    ensures AllBlank(t, s) <==> forall k | 0 <= k < |s| :: Blank(t, s[k])
  {
    if s != [] {
      AllBlankEvery(t, s[1..]);
      if !Blank(t, s[0]) {
        assert !(forall k | 0 <= k < |s| :: Blank(t, s[k]));
      } else if AllBlank(t, s) {
        forall k | 0 <= k < |s|
          ensures Blank(t, s[k])
        {
          if k > 0 {
            assert s[k] == s[1..][k - 1];
          }
        }
      } else {
        var j :| 0 <= j < |s| - 1 && !Blank(t, s[1..][j]);
        assert s[j + 1] == s[1..][j];
      }
    }
  }

  /** The `:empty` loop checks the siblings from `c` on, head first. */
  lemma {:induction false} EmptySiblings(t: Tree, c: Option<nat>)
    requires t.WellFormed() && (c.Some? ==> t.Has(c.value))
    ensures EmptyFrom(t, c) == AllBlank(t, t.SiblingsFrom(c))
    decreases if c.Some? then |t.nodes| - c.value else 0
  {
    match c
    case None =>
    case Some(x) =>
      EmptySiblings(t, t.NextSibling(x));
      assert t.SiblingsFrom(c)[1..] == t.SiblingsFrom(t.NextSibling(x));
  }

  /** `:empty` holds exactly when every child is blank. */
  lemma EmptyChildren(t: Tree, n: nat)
    requires t.WellFormed() && t.Has(n)
    ensures PseudoClassMatches(t, "empty", n) <==> forall k | 0 <= k < |t.Children(n)| :: Blank(t, t.Children(n)[k])
  {
    assert PseudoClassMatches(t, "empty", n) == EmptyFrom(t, t.FirstChild(n));
    EmptySiblings(t, t.FirstChild(n));
    AllBlankEvery(t, t.Children(n));
  }

  // ---------------------------------------------------------------------------
  // Attribute values
  // ---------------------------------------------------------------------------

  /** `w` has no character of SPACE_REGEX. */
  predicate NoSpace(w: string) {
    forall k | 0 <= k < |w| :: !IsSplitSpace(w[k])
  }

  /**
   * `w` is a whole word of `v` at index `i`: a non-empty run without spaces,
   * with a space or an end of `v` on each side.
   */
  predicate WordAt(v: string, w: string, i: int) {
    && 0 <= i && i + |w| <= |v| && v[i..i + |w|] == w
    && w != [] && NoSpace(w)
    && (i == 0 || IsSplitSpace(v[i - 1]))
    && (i + |w| == |v| || IsSplitSpace(v[i + |w|]))
  }

  /** The `m`-th character of a word at `k` is a non-space character of `v`. */
  lemma WordChar(v: string, w: string, k: int, m: int)
    requires WordAt(v, w, k) && 0 <= m < |w|
    ensures v[k + m] == w[m] && !IsSplitSpace(v[k + m])
  {
    assert v[k..k + |w|][m] == v[k + m];
  }

  /** Each field from `p` on is a whole word at or after `p`. */
  lemma {:induction false} FieldIsWord(v: string, p: nat, w: string)
    requires p <= |v| && (p == 0 || p == |v| || IsSplitSpace(v[p]))
    requires w in FieldsFrom(v, p)
    ensures exists i :: p <= i && WordAt(v, w, i)
    decreases |v| - p
  {
    var i := SkipSpaces(v, p);
    var j := SkipWord(v, i);
    if w == v[i..j] {
      assert WordAt(v, w, i);
    } else {
      FieldIsWord(v, j, w);
    }
  }

  /** Each whole word at or after `p` is a field from `p` on. */
  lemma {:induction false} WordIsField(v: string, p: nat, w: string, k: int)
    requires p <= k && WordAt(v, w, k)
    ensures w in FieldsFrom(v, p)
    decreases |v| - p
  {
    var i := SkipSpaces(v, p);
    var j := SkipWord(v, i);
    // The characters around and inside the word, as the scans see them.
    WordChar(v, w, k, 0);
    if k < j && j < k + |w| {
      WordChar(v, w, k, j - k);
    }
    assert k > 0 ==> IsSplitSpace(v[k - 1]);
    if k < j {
      assert k == i && k + |w| == j;
    } else {
      WordIsField(v, j, w, k);
    }
  }

  /** The fields of `v` are exactly its whole words. */
  lemma FieldsAreWords(v: string, w: string)
    ensures w in Fields(v) <==> exists i :: WordAt(v, w, i)
  {
    if w in Fields(v) {
      FieldIsWord(v, 0, w);
    }
    if i :| WordAt(v, w, i) {
      WordIsField(v, 0, w, i);
    }
  }

  /**
   * `[name~=w]` for a non-empty `w`: the value has `w` as a whole
   * whitespace-separated word (Selectors Level 3, section 6.3.1).
   */
  lemma IncludesWord(v: string, w: string)
    requires w != ""
    ensures ValueMatches(Some(Includes), v, w) <==> exists i :: WordAt(v, w, i)
  {
    FieldsAreWords(v, w);
  }

  /**
   * `[name~=""]`: as String.split leaves an empty first string before a
   * leading space, and returns the empty value unsplit, the empty word is
   * found in an empty value and in a value that starts with a space and has
   * a word.
   */
  lemma IncludesEmpty(v: string)
    ensures ValueMatches(Some(Includes), v, "") <==> v == "" || (IsSplitSpace(v[0]) && Fields(v) != [])
  {
    FieldsAreWords(v, "");
  }

  /** `w` occurs in `v` at index `i`. */
  predicate OccursAt(v: string, w: string, i: int) {
    0 <= i && i + |w| <= |v| && v[i..i + |w|] == w
  }

  /** String.contains: `w` occurs in `v` at some index. */
  lemma {:induction false} SubstringOccurs(v: string, w: string)
    ensures HasSubstring(v, w) <==> exists i :: OccursAt(v, w, i)
    decreases |v|
  {
    if StartsWith(v, w) {
      assert OccursAt(v, w, 0);
    } else if |v| > 0 {
      SubstringOccurs(v[1..], w);
      if i :| OccursAt(v[1..], w, i) {
        assert v[i + 1..i + 1 + |w|] == v[1..][i..i + |w|];
        assert OccursAt(v, w, i + 1);
      }
      if i :| OccursAt(v, w, i) {
        assert i > 0;
        assert v[1..][i - 1..i - 1 + |w|] == v[i..i + |w|];
        assert OccursAt(v[1..], w, i - 1);
      }
    }
  }

  /**
   * `[name|=w]`: the value is `w` or begins with `w` followed by a hyphen.
   */
  lemma HyphenPrefix(v: string, w: string)
    ensures ValueMatches(Some(Hyphens), v, w) <==> v == w || (|v| > |w| && v[..|w|] == w && v[|w|] == '-')
  {
    if |v| > |w| && v[..|w|] == w && v[|w|] == '-' {
      assert v[..|w| + 1] == w + "-";
    }
    if StartsWith(v, w + "-") {
      assert v[..|w|] == (w + "-")[..|w|];
    }
  }
}
