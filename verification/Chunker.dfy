/** `chunk_markdown` as written (src/chunk.rs): chunks under construction are objects that are
    appended to in place. */
module Chunker {
  import opened Options
  import opened Text
  import opened Lines
  import opened Headings
  import opened Ancestry
  import opened Chunks
  import opened Sectioning
  import opened Emission

  class RawChunk {
    var text: string
    var lineStart: nat
    var lineEnd: nat
    var breadcrumb: Option<nat>
    var section: SectionId

    /** The object holds what the group `g` becomes. */
    ghost predicate Holds(t: HeadingTree, g: Group)
      reads this
    {
      && Emittable(t, g) && GoodGroup(t, g)
      && text == BodyText(g) && lineStart == g[0].lineStart && lineEnd == g[|g| - 1].lineEnd
      && breadcrumb == Breadcrumb(t, g) && section == Attribution(t, g)
    }

    constructor (p: Piece, ghost t: HeadingTree)
      requires Nested(t) && GoodPiece(t, p)
      ensures Holds(t, [p])
    {
      text, lineStart, lineEnd, breadcrumb, section := p.text, p.lineStart, p.lineEnd, p.breadcrumb, p.section;
    }

    /** Append the text of the group `more`, narrowing breadcrumb and section. */
    method Append(moreText: string, moreEnd: nat, moreBreadcrumb: Option<nat>, moreSection: SectionId,
                  t: HeadingTree, ghost g: Group, ghost more: Group)
      requires Holds(t, g) && Emittable(t, more) && GoodGroup(t, more)
      requires moreText == BodyText(more) && moreEnd == more[|more| - 1].lineEnd
      requires moreBreadcrumb == Breadcrumb(t, more) && moreSection == Attribution(t, more)
      modifies this
      ensures Holds(t, g + more)
    {
      GroupsJoin(t, g, more);
      text := text + "\n\n";
      text := text + moreText;
      lineEnd := moreEnd;
      breadcrumb := FindCommonAncestor(t, breadcrumb, moreBreadcrumb);
      section := section.Merge(moreSection, t);
    }
  }

  lemma {:induction false} CommonAncestorAssociative(t: HeadingTree, a: Option<nat>, b: Option<nat>, c: Option<nat>)
    requires Nested(t) && Node(t, a) && Node(t, b) && Node(t, c)
    ensures CommonAncestor(t, CommonAncestor(t, a, b), c) == CommonAncestor(t, a, CommonAncestor(t, b, c))
  {
    if a.Some? && b.Some? && c.Some? {
      var ab, bc := CommonAncestor(t, a, b), CommonAncestor(t, b, c);
      var x, y := CommonAncestor(t, ab, c), CommonAncestor(t, a, bc);
      if x.Some? { AncestorsAgree(t, a.value, b.value, c.value, x.value); }
      if y.Some? { AncestorsAgree(t, a.value, b.value, c.value, y.value); }
    }
  }

  lemma AncestorsAgree(t: HeadingTree, a: nat, b: nat, c: nat, d: nat)
    requires Nested(t) && a < |t.headings| && b < |t.headings| && c < |t.headings|
    ensures var x := CommonAncestor(t, CommonAncestor(t, Some(a), Some(b)), Some(c));
      var y := CommonAncestor(t, Some(a), CommonAncestor(t, Some(b), Some(c)));
      (x.Some? && AncestorOrSelf(t, d, x.value)) <==> (y.Some? && AncestorOrSelf(t, d, y.value))
  {
    var ab, bc := CommonAncestor(t, Some(a), Some(b)), CommonAncestor(t, Some(b), Some(c));
    CommonAncestorIsDeepest(t, a, b, d);
    CommonAncestorIsDeepest(t, b, c, d);
    if ab.Some? { CommonAncestorIsDeepest(t, ab.value, c, d); }
    if bc.Some? { CommonAncestorIsDeepest(t, a, bc.value, d); }
  }

  lemma AssocText(a: string, b: string, c: string)
    ensures a + "\n\n" + (b + "\n\n" + c) == a + "\n\n" + b + "\n\n" + c
  {
  }

  /** What two groups have in common is what their parts have in common. */
  lemma {:induction false} GroupsJoin(t: HeadingTree, g: Group, more: Group)
    requires Nested(t) && Emittable(t, g) && Emittable(t, more) && GoodGroup(t, g) && GoodGroup(t, more)
    ensures Emittable(t, g + more) && GoodGroup(t, g + more)
    ensures BodyText(g + more) == BodyText(g) + "\n\n" + BodyText(more)
    ensures Breadcrumb(t, g + more) == CommonAncestor(t, Breadcrumb(t, g), Breadcrumb(t, more))
    ensures Attribution(t, g + more) == Attribution(t, g).Merge(Attribution(t, more), t)
  {
    var n := |more| - 1;
    var last := more[n];
    assert (g + more)[..|g + more| - 1] == g + more[..n] && (g + more)[|g + more| - 1] == last;
    GoodIsEmittable(t, g + more);
    if n == 0 {
      assert g + more[..0] == g;
    } else {
      GoodIsEmittable(t, more[..n]);
      GroupsJoin(t, g, more[..n]);
      AssocText(BodyText(g), BodyText(more[..n]), last.text);
      CommonAncestorAssociative(t, Breadcrumb(t, g), Breadcrumb(t, more[..n]), last.breadcrumb);
      MergeLaws(t, Attribution(t, g), Attribution(t, more[..n]), last.section);
    }
  }

  // ---- lists of chunks under construction ----

  ghost predicate Represent(t: HeadingTree, cs: seq<RawChunk>, gs: seq<Group>)
    reads cs
  {
    && |cs| == |gs|
    && (forall i :: 0 <= i < |cs| ==> cs[i].Holds(t, gs[i]))
    && (forall i, j :: 0 <= i < j < |cs| ==> cs[i] != cs[j])
  }

  ghost predicate RepresentOne(t: HeadingTree, cs: seq<RawChunk>, c: RawChunk?, g: Group)
    reads cs, if c == null then {} else {c}
  {
    (c == null <==> g == []) && (c != null ==> c !in cs && c.Holds(t, g))
  }

  method AddFragment(t: HeadingTree, cs: seq<RawChunk>, pending: RawChunk?, p: Piece, max: nat, ghost fr: Frags)
    returns (cs': seq<RawChunk>, pending': RawChunk?)
    requires Nested(t) && GoodPiece(t, p)
    requires Represent(t, cs, fr.done) && RepresentOne(t, cs, pending, fr.pending)
    modifies if pending == null then {} else {pending}
    ensures var fr' := FragStep(fr, p, max);
      Represent(t, cs', fr'.done) && RepresentOne(t, cs', pending', fr'.pending)
    ensures forall i :: 0 <= i < |cs'| ==> cs'[i] in cs || cs'[i] == pending || fresh(cs'[i])
    ensures pending' == null || pending' == pending || fresh(pending')
  {
    hide Trim, GoodGroup;
    if pending != null {
      var prevLen := |Trim(pending.text)|;
      var combined := prevLen + 2 + |Trim(p.text)|;
      if combined <= max || prevLen < MIN_MERGE_SIZE {
        pending.Append(p.text, p.lineEnd, p.breadcrumb, p.section, t, fr.pending, [p]);
        if |Trim(pending.text)| < MIN_MERGE_SIZE {
          return cs, pending;
        }
        return cs + [pending], null;
      }
      var own := new RawChunk(p, t);
      if |Trim(p.text)| < MIN_MERGE_SIZE {
        return cs + [pending], own;
      }
      return cs + [pending] + [own], null;
    }
    var own := new RawChunk(p, t);
    if |Trim(p.text)| < MIN_MERGE_SIZE {
      return cs, own;
    }
    return cs + [own], null;
  }

  /** The trailing small fragment joins the last chunk, or becomes a chunk of its own. */
  method MergeTail(t: HeadingTree, cs: seq<RawChunk>, pending: RawChunk?, lim: Limits, ghost fr: Frags)
    returns (cs': seq<RawChunk>)
    requires Nested(t) && Represent(t, cs, fr.done) && RepresentOne(t, cs, pending, fr.pending)
    modifies if cs == [] then {} else {cs[|cs| - 1]}
    ensures Represent(t, cs', TailMerge(t, fr, lim))
    ensures forall i :: 0 <= i < |cs'| ==> cs'[i] in cs || cs'[i] == pending
  {
    hide Trim, GoodGroup, BodyText, Breadcrumb, Attribution;
    if pending == null { return cs; }
    if cs == [] { return [pending]; }
    var last := cs[|cs| - 1];
    var combined := |Trim(last.text)| + 2 + |Trim(pending.text)|;
    var sameSection := last.section == pending.section;
    if combined <= lim.max && (sameSection || !lim.isolate) {
      last.Append(pending.text, pending.lineEnd, pending.breadcrumb, pending.section, t,
                  fr.done[|cs| - 1], fr.pending);
      return cs;
    }
    return cs + [pending];
  }

  ghost predicate KnownSection(t: HeadingTree, s: Section) {
    Nested(t) && s.Id().Valid(t)
  }

  lemma AnyPieceIsGood(t: HeadingTree, s: Section, split: Splitter, max: nat)
    requires KnownSection(t, s)
    ensures GoodGroup(t, PiecesOf(t, s, split, max)) && GoodPiece(t, WholePiece(t, s))
  {
  }

  /** Split an oversized section and add its chunks. */
  method AddOversized(t: HeadingTree, s: Section, split: Splitter, cs: seq<RawChunk>, lim: Limits,
                      ghost before: seq<Group>)
    returns (cs': seq<RawChunk>)
    requires KnownSection(t, s) && s.TrimmedSize() > lim.max
    requires Represent(t, cs, before)
    modifies cs
    ensures Represent(t, cs', TailMerge(t, FragRun(before, PiecesOf(t, s, split, lim.max), lim.max), lim))
    ensures forall i :: 0 <= i < |cs'| ==> cs'[i] in cs || fresh(cs'[i])
  {
    var pieces := FragmentPieces(t, s, split(lim.max, s.text));
    AnyPieceIsGood(t, s, split, lim.max);
    var added, pending := AddFragments(t, cs, pieces, lim.max, before);
    assert added != [] ==> added[|added| - 1] in added;
    cs' := MergeTail(t, added, pending, lim, FragRun(before, pieces, lim.max));
  }

  /** The loop over the fragments of one section. */
  method AddFragments(t: HeadingTree, cs: seq<RawChunk>, pieces: seq<Piece>, max: nat, ghost before: seq<Group>)
    returns (cs': seq<RawChunk>, pending: RawChunk?)
    requires Nested(t) && GoodGroup(t, pieces) && Represent(t, cs, before)
    ensures var fr := FragRun(before, pieces, max);
      Represent(t, cs', fr.done) && RepresentOne(t, cs', pending, fr.pending)
    ensures forall i :: 0 <= i < |cs'| ==> cs'[i] in cs || fresh(cs'[i])
    ensures pending == null || fresh(pending)
  {
    cs', pending := cs, null;
    for k := 0 to |pieces|
      invariant forall i :: 0 <= i < |cs'| ==> cs'[i] in cs || fresh(cs'[i])
      invariant pending == null || fresh(pending)
      invariant var fr := FragRun(before, pieces[..k], max);
        Represent(t, cs', fr.done) && RepresentOne(t, cs', pending, fr.pending)
    {
      assert pieces[..k + 1][..k] == pieces[..k];
      cs', pending := AddFragment(t, cs', pending, pieces[k], max, FragRun(before, pieces[..k], max));
    }
    assert pieces[..|pieces|] == pieces;
  }

  /** One round of the loop over sections. */
  method AddSection(t: HeadingTree, s: Section, split: Splitter, cs: seq<RawChunk>, current: RawChunk?,
                    lim: Limits, ghost st: State)
    returns (cs': seq<RawChunk>, current': RawChunk?)
    requires KnownSection(t, s)
    requires Represent(t, cs, st.chunks) && RepresentOne(t, cs, current, st.current)
    modifies cs, if current == null then {} else {current}
    ensures var st' := SectionStep(t, st, s, split, lim);
      Represent(t, cs', st'.chunks) && RepresentOne(t, cs', current', st'.current)
    ensures forall i :: 0 <= i < |cs'| ==> cs'[i] in cs || cs'[i] == current || fresh(cs'[i])
    ensures current' == null || current' == current || fresh(current')
  {
    AnyPieceIsGood(t, s, split, lim.max);
    cs', current' := cs, current;
    if s.TrimmedSize() > lim.max {
      if current' != null {
        cs', current' := cs' + [current'], null;
      }
      cs' := AddOversized(t, s, split, cs', lim, Flush(st));
      return;
    }
    var combined := if current' != null then |Trim(current'.text)| + 2 + |Trim(s.text)| else |Trim(s.text)|;
    var whole := WholePiece(t, s);
    if combined <= lim.target && !lim.isolate {
      if current' != null {
        current'.Append(whole.text, whole.lineEnd, whole.breadcrumb, whole.section, t, st.current, [whole]);
      } else {
        current' := new RawChunk(whole, t);
      }
    } else {
      if current' != null {
        cs' := cs' + [current'];
      }
      current' := new RawChunk(whole, t);
    }
  }

  /** The emitted form of one chunk. */
  method Finish(t: HeadingTree, config: Config, description: Option<string>, raw: RawChunk, index: nat, ghost g: Group)
    returns (c: Chunk)
    requires raw.Holds(t, g)
    ensures c == Emit(t, config, description, g, index)
  {
    var bodyLen := |raw.text|;
    var withDesc := DescriptionPrefix(config, description) + raw.text;
    var text := withDesc;
    if config.prependHeadingPath {
      var path := Path(t, raw.breadcrumb);
      var prefix := FormatHeadingPath(path, SatSub(config.HeadingReserve(), 2));
      if prefix.Some? { text := prefix.value + "\n\n" + withDesc; }
    }
    var headingPath := Path(t, HeadingOf(raw.section));
    PrefixesJoin(HeadingPrefix(t, config, raw.breadcrumb), DescriptionPrefix(config, description), raw.text);
    c := Chunk(text, index, raw.lineStart, raw.lineEnd, headingPath, Level(t, raw.section),
               raw.section.First(t), raw.section.Last(t), |text| - bodyLen);
  }

  lemma PrefixesJoin(a: string, b: string, c: string)
    ensures a + (b + c) == a + b + c && (a == "" ==> a + b + c == b + c)
  {
  }

  method SplitSections(body: string, t: HeadingTree) returns (sections: seq<Section>)
    ensures sections == Sections(body, t)
  {
    hide Trim, Slice, SectionOver;
    var preambleEnd := t.PreambleEnd();
    var keep := preambleEnd > 0 && Trim(Slice(body, 1, preambleEnd)) != "";
    ghost var pre := if keep then 1 else 0;
    sections := if keep then [SectionOver(body, 1, preambleEnd, None)] else [];
    assert sections == SectionsWith(body, t, pre)[..pre];
    for i := 0 to |t.headings|
      invariant sections == SectionsWith(body, t, pre)[..pre + i]
    {
      assert SectionsWith(body, t, pre)[pre + i] == SectionNo(body, t, pre, pre + i);
      sections := sections + [SectionOver(body, t.headings[i].line, t.headings[i].sectionEnd, Some(i))];
    }
  }

  ghost predicate KnownSections(t: HeadingTree, sections: seq<Section>) {
    forall n :: 0 <= n < |sections| ==> KnownSection(t, sections[n])
  }

  /** The loop over all sections, and the final flush. */
  method GroupSections(t: HeadingTree, sections: seq<Section>, split: Splitter, lim: Limits)
    returns (cs: seq<RawChunk>)
    requires KnownSections(t, sections)
    ensures Represent(t, cs, Groups(t, sections, split, lim))
  {
    cs := [];
    var current: RawChunk? := null;
    ghost var st := State([], []);
    for n := 0 to |sections|
      invariant forall i :: 0 <= i < |cs| ==> fresh(cs[i])
      invariant current == null || fresh(current)
      invariant st == Run(t, sections[..n], split, lim)
      invariant Represent(t, cs, st.chunks) && RepresentOne(t, cs, current, st.current)
    {
      RunStep(t, sections, n, split, lim);
      cs, current := AddSection(t, sections[n], split, cs, current, lim, st);
      st := SectionStep(t, st, sections[n], split, lim);
    }
    assert sections[..|sections|] == sections;
    if current != null {
      cs := cs + [current];
    }
  }

  lemma RunStep(t: HeadingTree, sections: seq<Section>, n: nat, split: Splitter, lim: Limits)
    requires n < |sections|
    ensures Run(t, sections[..n + 1], split, lim)
            == SectionStep(t, Run(t, sections[..n], split, lim), sections[n], split, lim)
  {
    assert sections[..n + 1][..n] == sections[..n];
  }

  ghost predicate Emitted(
      t: HeadingTree, config: Config, description: Option<string>, gs: seq<Group>, chunks: seq<Chunk>) {
    && |chunks| == |gs|
    && forall i :: 0 <= i < |gs| ==> Emittable(t, gs[i]) && chunks[i] == Emit(t, config, description, gs[i], i)
  }

  method EmitAll(t: HeadingTree, config: Config, description: Option<string>, cs: seq<RawChunk>, ghost gs: seq<Group>)
    returns (chunks: seq<Chunk>)
    requires Represent(t, cs, gs)
    ensures Emitted(t, config, description, gs, chunks)
  {
    chunks := [];
    for i := 0 to |cs|
      invariant |chunks| == i
      invariant forall k :: 0 <= k < i ==> Emittable(t, gs[k]) && chunks[k] == Emit(t, config, description, gs[k], k)
    {
      var c := Finish(t, config, description, cs[i], i, gs[i]);
      chunks := chunks + [c];
    }
  }

  /** The heading tree of a body, given what the markdown parser reports. */
  function TreeFor(body: string, candidates: seq<Candidate>): HeadingTree {
    TreeOf(Kept(Cleaned(candidates)), Index(body))
  }

  lemma SectionsAreKnown(body: string, t: HeadingTree)
    requires Document(body, t)
    ensures KnownSections(t, Sections(body, t))
  {
    SectionsChain(body, t);
    forall n | 0 <= n < |Sections(body, t)|
      ensures KnownSection(t, Sections(body, t)[n])
    {
      assert ChainAt(body, t, Sections(body, t), n);
    }
  }

  /** The whole of `chunk_markdown`: the chunks are the emitted forms of the groups, whatever
      the splitter yields; the tree is that of the body's kept headings. */
  method ChunkMarkdown(body: string, candidates: seq<Candidate>, description: Option<string>, config: Config,
                       split: Splitter)
    returns (chunks: seq<Chunk>)
    requires forall i :: 0 <= i < |candidates| ==> 1 <= candidates[i].line <= Index(body).LineCount()
    ensures var t := TreeFor(body, candidates);
      && Document(body, t)
      && Emitted(t, config, description, Groups(t, Sections(body, t), split, config.GetLimits()), chunks)
  {
    var t := Parse(candidates, Index(body));
    var sections := SplitSections(body, t);
    SectionsAreKnown(body, t);
    var cs := GroupSections(t, sections, split, config.GetLimits());
    chunks := EmitAll(t, config, description, cs, Groups(t, sections, split, config.GetLimits()));
  }
}
