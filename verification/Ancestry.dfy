/** Ancestors, common ancestors and section attribution over a heading tree (src/heading.rs). */
module Ancestry {
  import opened Options
  import opened Headings

  ghost predicate Node(t: HeadingTree, n: Option<nat>) {
    n.Some? ==> n.value < |t.headings|
  }

  ghost predicate AncestorOrSelf(t: HeadingTree, a: nat, b: nat)
    requires Nested(t) && b < |t.headings|
    ensures AncestorOrSelf(t, a, b) ==> a <= b
    decreases b
  {
    a == b || (t.headings[b].parent.Some? && AncestorOrSelf(t, a, t.headings[b].parent.value))
  }

  lemma {:induction false} AncestorTransitive(t: HeadingTree, a: nat, b: nat, c: nat)
    requires Nested(t) && c < |t.headings| && b < |t.headings|
    requires AncestorOrSelf(t, a, b) && AncestorOrSelf(t, b, c)
    ensures AncestorOrSelf(t, a, c)
    decreases c
  {
    if b != c {
      AncestorTransitive(t, a, b, t.headings[c].parent.value);
    }
  }

  // ---- ranges ----

  /** The declarative reading of one record. */
  lemma HeadingFacts(t: HeadingTree, i: nat)
    requires WellFormed(t) && i < |t.headings|
    ensures var hs, h, n := t.headings, t.headings[i], t.LineCount();
      && 1 <= h.line <= h.sectionEnd <= h.subtreeEnd <= n
      && h.sectionEnd == (if i + 1 < |hs| then hs[i + 1].line - 1 else n)
      && (match h.parent
          case None => forall j :: 0 <= j < i ==> hs[j].level >= h.level
          case Some(p) => p < i && hs[p].level < h.level && forall j :: p < j < i ==> hs[j].level >= h.level)
  {
    var fs, n := AsFound(t.headings), t.LineCount();
    var h := t.headings[i];
    assert IsRecord(t.headings, fs, i, n);
    NearestLowerIsNearest(fs, i, h.level);
    var e := NextAtOrAbove(fs, |fs|, i + 1, h.level);
    assert forall j :: 0 <= j < |fs| ==> fs[j].level == t.headings[j].level && fs[j].line == t.headings[j].line;
    if i + 1 < |fs| { assert fs[i].line < fs[i + 1].line <= fs[if e < |fs| then e else i + 1].line; }
  }

  lemma LinesOrdered(t: HeadingTree, i: nat, j: nat)
    requires WellFormed(t) && i < |t.headings| && j < |t.headings|
    ensures t.headings[i].line < t.headings[j].line <==> i < j
    ensures t.headings[i].line == t.headings[j].line <==> i == j
  {
    var fs := AsFound(t.headings);
    assert fs[i].line == t.headings[i].line && fs[j].line == t.headings[j].line;
  }

  /** The end of the subtree as an index: headings `i..e` are exactly those on its lines. */
  lemma SubtreeSpan(t: HeadingTree, i: nat) returns (e: nat)
    requires WellFormed(t) && i < |t.headings|
    ensures i < e <= |t.headings|
    ensures forall j :: i < j < e ==> t.headings[j].level > t.headings[i].level
    ensures e < |t.headings| ==> t.headings[e].level <= t.headings[i].level
    ensures t.headings[i].subtreeEnd == if e < |t.headings| then t.headings[e].line - 1 else t.LineCount()
    ensures forall j :: 0 <= j < |t.headings| ==>
              (i <= j < e <==> t.headings[i].line <= t.headings[j].line <= t.headings[i].subtreeEnd)
  {
    var hs, fs := t.headings, AsFound(t.headings);
    assert IsRecord(hs, fs, i, t.LineCount());
    e := NextAtOrAbove(fs, |fs|, i + 1, fs[i].level);
    NextIsFirst(fs, |fs|, i + 1, fs[i].level);
    assert forall j :: 0 <= j < |fs| ==> fs[j].level == hs[j].level && fs[j].line == hs[j].line;
    forall j | 0 <= j < |hs|
      ensures i <= j < e <==> hs[i].line <= hs[j].line <= hs[i].subtreeEnd
    {
      HeadingFacts(t, j);
      LinesOrdered(t, i, j);
      if e < |hs| { LinesOrdered(t, j, e); }
    }
  }

  /** A heading's line lies in another's subtree range exactly when the other is an ancestor
      of it, or the heading itself. */
  lemma SubtreeHoldsDescendants(t: HeadingTree, i: nat, j: nat)
    requires WellFormed(t) && i < |t.headings| && j < |t.headings|
    ensures t.headings[i].line <= t.headings[j].line <= t.headings[i].subtreeEnd
            <==> AncestorOrSelf(t, i, j)
  {
    var e := SubtreeSpan(t, i);
    SpanIsDescendants(t, i, e, j);
  }

  lemma {:induction false} SpanIsDescendants(t: HeadingTree, i: nat, e: nat, j: nat)
    requires WellFormed(t) && i < e <= |t.headings| && j < |t.headings|
    requires forall k :: i < k < e ==> t.headings[k].level > t.headings[i].level
    requires e < |t.headings| ==> t.headings[e].level <= t.headings[i].level
    ensures i <= j < e <==> AncestorOrSelf(t, i, j)
    decreases j
  {
    HeadingFacts(t, j);
    match t.headings[j].parent
    case None =>
    case Some(p) => SpanIsDescendants(t, i, e, p);
  }

  /** Subtree ranges are nested or disjoint. */
  lemma SubtreesNestOrPart(t: HeadingTree, i: nat, j: nat)
    requires WellFormed(t) && i < j < |t.headings|
    ensures if AncestorOrSelf(t, i, j)
            then t.headings[i].line < t.headings[j].line <= t.headings[j].subtreeEnd <= t.headings[i].subtreeEnd
            else t.headings[i].subtreeEnd < t.headings[j].line
  {
    var ei := SubtreeSpan(t, i);
    var ej := SubtreeSpan(t, j);
    SpanIsDescendants(t, i, ei, j);
    HeadingFacts(t, i);
    HeadingFacts(t, j);
    LinesOrdered(t, i, j);
    if AncestorOrSelf(t, i, j) && ei < |t.headings| {
      assert ej <= ei;
      LinesOrdered(t, ej, ei);
    }
  }

  // ---- common ancestor ----

  function Height(n: Option<nat>): nat {
    match n case None => 0 case Some(i) => i + 1
  }

  function CommonAncestor(t: HeadingTree, a: Option<nat>, b: Option<nat>): (c: Option<nat>)
    requires Nested(t) && Node(t, a) && Node(t, b)
    ensures Node(t, c)
    decreases Height(a) + Height(b)
  {
    if a.None? || b.None? then None
    else if a == b then a
    else if a.value > b.value then CommonAncestor(t, t.headings[a.value].parent, b)
    else CommonAncestor(t, a, t.headings[b.value].parent)
  }

  /** The walk as written: step the later of the two up until they meet. */
  method FindCommonAncestor(t: HeadingTree, a: Option<nat>, b: Option<nat>) returns (c: Option<nat>)
    requires Nested(t) && Node(t, a) && Node(t, b)
    ensures c == CommonAncestor(t, a, b)
  {
    if a.None? || b.None? { return None; }
    var x: nat, y: nat := a.value, b.value;
    while x != y
      invariant x < |t.headings| && y < |t.headings|
      invariant CommonAncestor(t, Some(x), Some(y)) == CommonAncestor(t, a, b)
      decreases x + y
    {
      if x > y {
        var p := t.headings[x].parent;
        if p.None? { return None; }
        x := p.value;
      } else {
        var p := t.headings[y].parent;
        if p.None? { return None; }
        y := p.value;
      }
    }
    c := Some(x);
  }

  /** What the two nodes share is exactly the chain above the result, so the result is the
      deepest shared ancestor-or-self and is missing only when nothing is shared. */
  lemma {:induction false} CommonAncestorIsDeepest(t: HeadingTree, a: nat, b: nat, d: nat)
    requires Nested(t) && a < |t.headings| && b < |t.headings|
    ensures var c := CommonAncestor(t, Some(a), Some(b));
      AncestorOrSelf(t, d, a) && AncestorOrSelf(t, d, b) <==> c.Some? && AncestorOrSelf(t, d, c.value)
    decreases a + b
  {
    if a > b {
      match t.headings[a].parent
      case None =>
      case Some(p) => CommonAncestorIsDeepest(t, p, b, d);
    } else if b > a {
      match t.headings[b].parent
      case None =>
      case Some(p) => CommonAncestorIsDeepest(t, a, p, d);
    }
  }

  // ---- heading paths ----

  function PathNodes(t: HeadingTree, node: Option<nat>): (path: seq<nat>)
    requires Nested(t) && Node(t, node)
    ensures forall k :: 0 <= k < |path| ==> path[k] < |t.headings|
    decreases Height(node)
  {
    if node.None? then [] else PathNodes(t, t.headings[node.value].parent) + [node.value]
  }

  /** The path of a heading lists its ancestors and itself, each once, in document order. */
  lemma {:induction false} PathListsAncestors(t: HeadingTree, b: nat)
    requires Nested(t) && b < |t.headings|
    ensures var path := PathNodes(t, Some(b));
      && (forall a: nat :: a in path <==> AncestorOrSelf(t, a, b))
      && (forall k, l :: 0 <= k < l < |path| ==> path[k] < path[l])
      && path[|path| - 1] == b
    decreases b
  {
    var p := t.headings[b].parent;
    if p.Some? {
      PathListsAncestors(t, p.value);
      var above := PathNodes(t, p);
      forall k | 0 <= k < |above|
        ensures above[k] < b
      {
        assert above[k] in above;
      }
    }
  }

  function Texts(t: HeadingTree, nodes: seq<nat>): (r: seq<string>)
    requires forall k :: 0 <= k < |nodes| ==> nodes[k] < |t.headings|
  {
    seq(|nodes|, k requires 0 <= k < |nodes| => t.headings[nodes[k]].text)
  }

  function Reverse(s: seq<string>): (r: seq<string>)
    ensures |r| == |s| && forall k :: 0 <= k < |s| ==> r[k] == s[|s| - 1 - k]
  {
    if s == [] then [] else Reverse(s[1..]) + [s[0]]
  }

  method Path(t: HeadingTree, node: Option<nat>) returns (path: seq<string>)
    requires Nested(t) && Node(t, node)
    ensures path == Texts(t, PathNodes(t, node))
  {
    path := [];
    var cur := node;
    ghost var whole := PathNodes(t, node);
    while cur.Some?
      invariant Node(t, cur)
      invariant PathNodes(t, cur) <= whole && |path| == |whole| - |PathNodes(t, cur)|
      invariant forall k :: 0 <= k < |path| ==> path[k] == t.headings[whole[|whole| - 1 - k]].text
      decreases Height(cur)
    {
      path := path + [t.headings[cur.value].text];
      cur := t.headings[cur.value].parent;
    }
    path := Reverse(path);
  }

  // ---- section attribution ----

  datatype SectionId = Root | Preamble | AtHeading(index: nat) {

    /** The narrowest section containing both. */
    function Merge(other: SectionId, t: HeadingTree): (r: SectionId)
      requires Nested(t) && Valid(t) && other.Valid(t)
      ensures r.Valid(t)
    {
      if this == other then this
      else if this.AtHeading? && other.AtHeading? then
        match CommonAncestor(t, Some(this.index), Some(other.index))
        case None => Root
        case Some(c) => AtHeading(c)
      else Root
    }

    ghost predicate Valid(t: HeadingTree) {
      this.AtHeading? ==> index < |t.headings|
    }

    function First(t: HeadingTree): nat
      requires Valid(t)
    {
      if this.AtHeading? then t.headings[index].line else 1
    }

    function Last(t: HeadingTree): nat
      requires Valid(t)
    {
      match this
      case AtHeading(i) => t.headings[i].subtreeEnd
      case Preamble => t.PreambleEnd()
      case Root => t.LineCount()
    }

    /** Whether the section exists in the document at all: it has a line. */
    ghost predicate Present(t: HeadingTree) {
      Valid(t) && t.LineCount() >= 1 && (this == Preamble ==> t.PreambleEnd() >= 1)
    }

    ghost predicate Within(outer: SectionId, t: HeadingTree)
      requires Nested(t) && Valid(t)
    {
      || outer == Root || this == outer
      || (this.AtHeading? && outer.AtHeading? && AncestorOrSelf(t, outer.index, this.index))
    }

    ghost predicate Covers(inner: SectionId, t: HeadingTree)
      requires Valid(t) && inner.Valid(t)
    {
      First(t) <= inner.First(t) && inner.Last(t) <= Last(t)
    }
  }

  /** Merging is the least upper bound in the section order. */
  lemma MergeIsJoin(t: HeadingTree, s: SectionId, u: SectionId, w: SectionId)
    requires Nested(t) && s.Valid(t) && u.Valid(t)
    ensures s.Within(w, t) && u.Within(w, t) <==> s.Merge(u, t).Within(w, t)
  {
    if s.AtHeading? && u.AtHeading? && w.AtHeading? {
      CommonAncestorIsDeepest(t, s.index, u.index, w.index);
    }
  }

  lemma MergeLaws(t: HeadingTree, a: SectionId, b: SectionId, c: SectionId)
    requires Nested(t) && a.Valid(t) && b.Valid(t) && c.Valid(t)
    ensures a.Merge(a, t) == a
    ensures a.Merge(b, t) == b.Merge(a, t)
    ensures a.Merge(b, t).Merge(c, t) == a.Merge(b.Merge(c, t), t)
  {
    var ab, ba := a.Merge(b, t), b.Merge(a, t);
    MergeIsJoin(t, a, b, ba);
    MergeIsJoin(t, b, a, ba);
    MergeIsJoin(t, a, b, ab);
    MergeIsJoin(t, b, a, ab);
    var x, y := ab.Merge(c, t), a.Merge(b.Merge(c, t), t);
    JoinOfThree(t, a, b, c, x);
    JoinOfThree(t, a, b, c, y);
  }

  lemma JoinOfThree(t: HeadingTree, a: SectionId, b: SectionId, c: SectionId, w: SectionId)
    requires Nested(t) && a.Valid(t) && b.Valid(t) && c.Valid(t)
    ensures a.Merge(b, t).Merge(c, t).Within(w, t) <==> a.Merge(b.Merge(c, t), t).Within(w, t)
  {
    MergeIsJoin(t, a, b, w);
    MergeIsJoin(t, b, c, w);
    MergeIsJoin(t, a.Merge(b, t), c, w);
    MergeIsJoin(t, a, b.Merge(c, t), w);
  }

  /** The section order is containment of line ranges, except that a first heading spanning
      the whole document has the range of the root. */
  lemma CoversIsWithin(t: HeadingTree, s: SectionId, u: SectionId)
    requires WellFormed(t) && s.Present(t) && u.Present(t)
    ensures u.Covers(s, t) <==> s.Within(u, t) || (s == Root && u.First(t) == 1 && u.Last(t) == t.LineCount())
    ensures 1 <= s.First(t) <= s.Last(t) <= t.LineCount()
  {
    if t.headings != [] { HeadingFacts(t, 0); }
    if s.AtHeading? {
      HeadingFacts(t, s.index);
      LinesOrdered(t, 0, s.index);
    }
    if u.AtHeading? {
      HeadingFacts(t, u.index);
      LinesOrdered(t, 0, u.index);
    }
    if s.AtHeading? && u.AtHeading? {
      SubtreeHoldsDescendants(t, u.index, s.index);
      if u.index < s.index { SubtreesNestOrPart(t, u.index, s.index); }
    }
  }

  /** The merged section covers both arguments, and any section covering both covers it. */
  lemma MergeIsNarrowest(t: HeadingTree, s: SectionId, u: SectionId, w: SectionId)
    requires WellFormed(t) && s.Present(t) && u.Present(t) && w.Present(t)
    ensures s.Merge(u, t).Present(t)
    ensures s.Merge(u, t).Covers(s, t) && s.Merge(u, t).Covers(u, t)
    ensures w.Covers(s, t) && w.Covers(u, t) ==> w.Covers(s.Merge(u, t), t)
  {
    var m := s.Merge(u, t);
    MergeIsJoin(t, s, u, m);
    MergeIsJoin(t, s, u, w);
    CoversIsWithin(t, s, m);
    CoversIsWithin(t, u, m);
    CoversIsWithin(t, s, w);
    CoversIsWithin(t, u, w);
    CoversIsWithin(t, m, w);
  }
}
