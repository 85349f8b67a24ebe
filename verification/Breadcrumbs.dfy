/** A chunk's breadcrumb never restates a heading the chunk already shows (src/chunk.rs). */
module Breadcrumbs {
  import opened Options
  import opened Text
  import opened Lines
  import opened Headings
  import opened Ancestry
  import opened Chunks
  import opened Sectioning
  import opened ChunkLaws

  ghost predicate Heads(t: HeadingTree, d: nat, b: Option<nat>)
    requires Nested(t) && Node(t, b)
  {
    b.Some? && AncestorOrSelf(t, d, b.value)
  }

  ghost predicate HeadsAll(t: HeadingTree, d: nat, g: Group)
    requires Nested(t) && GoodGroup(t, g)
  {
    forall k :: 0 <= k < |g| ==> GoodPiece(t, g[k]) && Heads(t, d, g[k].breadcrumb)
  }

  lemma HeadsAllSnoc(t: HeadingTree, d: nat, g: Group)
    requires Nested(t) && GoodGroup(t, g) && g != []
    ensures var n := |g| - 1;
      && GoodGroup(t, g[..n]) && GoodPiece(t, g[n])
      && (HeadsAll(t, d, g) <==> HeadsAll(t, d, g[..n]) && Heads(t, d, g[n].breadcrumb))
  {
    var n := |g| - 1;
    assert g == g[..n] + [g[n]];
    assert GoodPiece(t, g[n]);
  }

  /** A chunk's breadcrumb is the deepest heading its pieces' breadcrumbs share: a heading is an
      ancestor of, or is, the one exactly when it is so of them all. */
  lemma {:induction false} BreadcrumbIsDeepest(t: HeadingTree, g: Group, d: nat)
    requires Nested(t) && GoodGroup(t, g) && g != []
    ensures Node(t, Breadcrumb(t, g))
    ensures Heads(t, d, Breadcrumb(t, g)) <==> HeadsAll(t, d, g)
  {
    var n := |g| - 1;
    HeadsAllSnoc(t, d, g);
    if n > 0 {
      BreadcrumbIsDeepest(t, g[..n], d);
      var front, last := Breadcrumb(t, g[..n]), g[n].breadcrumb;
      if front.Some? && last.Some? { CommonAncestorIsDeepest(t, front.value, last.value, d); }
    }
  }

  /** So a chunk's breadcrumb is an ancestor of, or is, the breadcrumb of each of its pieces. */
  lemma BreadcrumbAbove(t: HeadingTree, g: Group, k: nat)
    requires Nested(t) && GoodGroup(t, g) && k < |g|
    ensures var b := Breadcrumb(t, g);
      Node(t, b) && (b.Some? ==> g[k].breadcrumb.Some? && AncestorOrSelf(t, b.value, g[k].breadcrumb.value))
  {
    BreadcrumbIsDeepest(t, g, 0);
    if Breadcrumb(t, g).Some? { BreadcrumbIsDeepest(t, g, Breadcrumb(t, g).value); }
  }

  /** Nothing but whitespace stands between the section's start and the piece, so the piece
      opens with the section's heading line. */
  ghost predicate OpensSection(body: string, s: Section, p: Piece) {
    s.byteStart <= p.at <= |body| && Blank(body[s.byteStart..p.at])
  }

  /** Only the first fragment has nothing but whitespace before it. */
  lemma FirstFragmentOpens(text: string, fs: seq<Fragment>, max: nat, m: nat)
    requires FragmentsOk(text, fs, max) && m < |fs|
    ensures fs[m].offset <= |text|
    ensures Blank(text[..fs[m].offset]) <==> m == 0
  {
    if m > 0 {
      OffsetsGrow(text, fs, max, 0, m);
      assert Solid(fs[0].text);
      assert !IsWhitespace(text[..fs[m].offset][fs[0].offset]);
    }
  }

  /** The section's text is where the body has it. */
  ghost predicate InBody(body: string, s: Section) {
    s.byteStart + |s.text| <= |body| && s.text == body[s.byteStart..s.byteStart + |s.text|]
  }

  lemma SectionInBody(body: string, t: HeadingTree, s: Section)
    requires SectionOk(body, t, s)
    ensures InBody(body, s)
  {
    RangeInText(body, s.lineStart, s.lineEnd);
  }

  /** The first piece of a section is exactly the one that opens it. It has the parent of the section's
      heading as breadcrumb, every later piece the heading itself; in the preamble none has any. */
  lemma OpeningPieceLeads(body: string, t: HeadingTree, s: Section, split: Splitter, max: nat, m: nat)
    requires InBody(body, s) && SplitterOk(split, max) && m < |PiecesOf(t, s, split, max)|
    ensures OpensSection(body, s, PiecesOf(t, s, split, max)[m]) <==> m == 0
    ensures var b := PiecesOf(t, s, split, max)[m].breadcrumb;
      match s.heading
      case None => b == None
      case Some(h) => h < |t.headings| ==> b == if m == 0 then t.headings[h].parent else Some(h)
  {
    if s.TrimmedSize() > max {
      var fs := split(max, s.text);
      assert SplitOkAt(split, max, s.text);
      FirstFragmentOpens(s.text, fs, max, m);
      PrefixOfSection(body, s, fs[m].offset);
    }
  }

  lemma PrefixOfSection(body: string, s: Section, n: nat)
    requires InBody(body, s) && n <= |s.text|
    ensures body[s.byteStart..s.byteStart + n] == s.text[..n]
  {
  }

  lemma {:induction false} OffsetsGrow(text: string, fs: seq<Fragment>, max: nat, i: nat, j: nat)
    requires FragmentsOk(text, fs, max) && i < j < |fs|
    ensures fs[i].offset < fs[j].offset
    decreases j - i
  {
    assert Solid(fs[i].text);
    assert fs[i].offset + |fs[i].text| <= fs[i + 1].offset;
    if i + 1 < j { OffsetsGrow(text, fs, max, i + 1, j); }
  }

  lemma ParentIsStrict(t: HeadingTree, b: nat, i: nat)
    requires Nested(t) && i < |t.headings|
    ensures AncestorOrSelf(t, b, i) && b != i <==>
            t.headings[i].parent.Some? && AncestorOrSelf(t, b, t.headings[i].parent.value)
  {
  }

  /** The breadcrumb of a chunk is none, or lies above every piece: strictly above the heading
      whose line opens the piece, and at or above the heading of a continuation. */
  lemma BreadcrumbNeverRestates(body: string, t: HeadingTree, split: Splitter, lim: Limits, i: nat, k: nat)
    returns (s: Section)
    requires Document(body, t) && SplitterOk(split, lim.max)
    requires i < |Groups(t, Sections(body, t), split, lim)|
    requires k < |Groups(t, Sections(body, t), split, lim)[i]|
    ensures s in Sections(body, t)
    ensures var g := Groups(t, Sections(body, t), split, lim)[i];
      var b, p := Breadcrumb(t, g), g[k];
      && p.section == s.Id()
      && (b.Some? ==> s.heading.Some? && s.heading.value < |t.headings| && b.value < |t.headings|
                      && AncestorOrSelf(t, b.value, s.heading.value)
                      && (OpensSection(body, s, p) ==> b.value != s.heading.value))
  {
    var ss := Sections(body, t);
    var g := Groups(t, ss, split, lim)[i];
    SectionsChain(body, t);
    OkIsInRange(split, lim.max);
    ChunkIsGood(body, t, ss, split, lim, i);
    BreadcrumbAbove(t, g, k);
    var j, m := ChunkPieceOrigin(body, t, ss, split, lim, i, k);
    s := ss[j];
    SectionInBody(body, t, s);
    OpeningPieceLeads(body, t, s, split, lim.max, m);
    var b := Breadcrumb(t, g);
    if b.Some? && s.heading.Some? {
      ParentIsStrict(t, b.value, s.heading.value);
    }
  }

  // ---- the breadcrumb of a chunk, exactly ----

  /** The section of a heading. */
  function HeadingSection(body: string, t: HeadingTree, h: nat): Section
    requires h < |t.headings|
  {
    SectionOver(body, t.headings[h].line, t.headings[h].sectionEnd, Some(h))
  }

  /** The piece stands under `d`; if it opens its section, strictly under. */
  ghost predicate LiesUnder(body: string, t: HeadingTree, d: nat, p: Piece)
    requires Nested(t)
  {
    && p.section.AtHeading? && p.section.index < |t.headings| && AncestorOrSelf(t, d, p.section.index)
    && (OpensSection(body, HeadingSection(body, t, p.section.index), p) ==> d != p.section.index)
  }

  lemma HeadsIsUnder(body: string, t: HeadingTree, s: Section, split: Splitter, max: nat, m: nat, d: nat)
    requires Document(body, t) && SectionOk(body, t, s) && SplitterOk(split, max) && m < |PiecesOf(t, s, split, max)|
    requires GoodPiece(t, PiecesOf(t, s, split, max)[m])
    ensures var p := PiecesOf(t, s, split, max)[m];
      Heads(t, d, p.breadcrumb) <==> LiesUnder(body, t, d, p)
  {
    hide SplitterOk, OpensSection;
    var p := PiecesOf(t, s, split, max)[m];
    SectionInBody(body, t, s);
    OpeningPieceLeads(body, t, s, split, max, m);
    PiecesOfIn(t, s, split, max);
    if s.heading.Some? {
      assert s == HeadingSection(body, t, s.heading.value);
      ParentIsStrict(t, d, s.heading.value);
    }
  }

  /** A heading is shown in a chunk's breadcrumb exactly if every piece stands under it, the pieces
      that open with a heading line strictly. */
  lemma BreadcrumbShows(body: string, t: HeadingTree, split: Splitter, lim: Limits, i: nat, d: nat)
    requires Document(body, t) && SplitterOk(split, lim.max)
    requires i < |Groups(t, Sections(body, t), split, lim)|
    ensures var g := Groups(t, Sections(body, t), split, lim)[i];
      && Node(t, Breadcrumb(t, g))
      && (Heads(t, d, Breadcrumb(t, g)) <==> forall k :: 0 <= k < |g| ==> LiesUnder(body, t, d, g[k]))
  {
    hide Groups, Sections, SplitterOk, PiecesOf, LiesUnder, Heads, Breadcrumb, SectionOk, PieceOk;
    var ss := Sections(body, t);
    var g := Groups(t, ss, split, lim)[i];
    SectionsChain(body, t);
    OkIsInRange(split, lim.max);
    ChunkIsGood(body, t, ss, split, lim, i);
    BreadcrumbIsDeepest(t, g, d);
    forall k | 0 <= k < |g|
      ensures GoodPiece(t, g[k]) && (Heads(t, d, g[k].breadcrumb) <==> LiesUnder(body, t, d, g[k]))
    {
      var j, m := ChunkPieceOrigin(body, t, ss, split, lim, i, k);
      HeadsIsUnder(body, t, ss[j], split, lim.max, m, d);
    }
  }

  /** So a chunk kept to one section, none of whose pieces opens it, shows the section's own heading. */
  lemma ContinuationShowsHeading(body: string, t: HeadingTree, split: Splitter, lim: Limits, i: nat)
    requires Document(body, t) && SplitterOk(split, lim.max) && lim.isolate
    requires i < |Groups(t, Sections(body, t), split, lim)|
    ensures var g := Groups(t, Sections(body, t), split, lim)[i];
      var id := Attribution(t, g);
      id.AtHeading? && id.index < |t.headings|
      && (forall k :: 0 <= k < |g| ==> !OpensSection(body, HeadingSection(body, t, id.index), g[k]))
      ==> Breadcrumb(t, g) == Some(id.index)
  {
    hide Groups, Sections, SplitterOk, OpensSection, Breadcrumb, Attribution;
    var g := Groups(t, Sections(body, t), split, lim)[i];
    var id := Attribution(t, g);
    OkIsInRange(split, lim.max);
    ChunksStayInOneSection(body, t, split, lim, i);
    if id.AtHeading? && id.index < |t.headings|
       && forall k :: 0 <= k < |g| ==> !OpensSection(body, HeadingSection(body, t, id.index), g[k]) {
      BreadcrumbShows(body, t, split, lim, i, id.index);
      var b := Breadcrumb(t, g).value;
      BreadcrumbShows(body, t, split, lim, i, b);
      assert LiesUnder(body, t, b, g[0]);
    }
  }

  /** A chunk attributed to the root or the preamble has no breadcrumb. */
  lemma {:induction false} BreadcrumbUnderAttribution(t: HeadingTree, g: Group)
    requires WellFormed(t) && GoodGroup(t, g) && g != []
    requires forall k :: 0 <= k < |g| ==> g[k].breadcrumb.Some? ==>
               g[k].section.AtHeading? && AncestorOrSelf(t, g[k].breadcrumb.value, g[k].section.index)
    ensures Attribution(t, g).Valid(t) && Node(t, Breadcrumb(t, g))
    ensures Breadcrumb(t, g).Some? ==>
              Attribution(t, g).AtHeading? && AncestorOrSelf(t, Breadcrumb(t, g).value, Attribution(t, g).index)
  {
    assert GoodPiece(t, g[|g| - 1]);
    if |g| > 1 {
      var front, last := g[..|g| - 1], g[|g| - 1];
      BreadcrumbUnderAttribution(t, front);
      var f, b := Breadcrumb(t, front), Breadcrumb(t, g);
      if b.Some? {
        var a := Attribution(t, front);
        CommonAncestorIsDeepest(t, f.value, last.breadcrumb.value, b.value);
        AncestorTransitive(t, b.value, f.value, a.index);
        AncestorTransitive(t, b.value, last.breadcrumb.value, last.section.index);
        MergeIsJoin(t, a, last.section, AtHeading(b.value));
      }
    }
  }

  lemma NoBreadcrumbWithoutHeading(body: string, t: HeadingTree, split: Splitter, lim: Limits, i: nat)
    requires Document(body, t) && SplitterInRange(split, lim.max)
    requires i < |Groups(t, Sections(body, t), split, lim)|
    ensures var g := Groups(t, Sections(body, t), split, lim)[i];
      Attribution(t, g) == Root || Attribution(t, g) == Preamble ==> Breadcrumb(t, g) == None
  {
    var ss := Sections(body, t);
    var g := Groups(t, ss, split, lim)[i];
    SectionsChain(body, t);
    ChunkIsGood(body, t, ss, split, lim, i);
    forall k | 0 <= k < |g| && g[k].breadcrumb.Some?
      ensures g[k].section.AtHeading? && AncestorOrSelf(t, g[k].breadcrumb.value, g[k].section.index)
    {
      var j, m := ChunkPieceOrigin(body, t, ss, split, lim, i, k);
      ParentIsStrict(t, g[k].breadcrumb.value, ss[j].heading.value);
    }
    BreadcrumbUnderAttribution(t, g);
  }
}
