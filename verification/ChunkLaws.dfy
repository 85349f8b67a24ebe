/** Properties of every chunking (src/chunk.rs): isolation, line ranges, breadcrumbs, sizes. */
module ChunkLaws {
  import opened Headings
  import opened Ancestry
  import opened Chunks
  import opened Grouping
  import opened Sectioning

  /** Every piece of a document, in order, is a piece of one of its sections. */
  lemma PieceOrigin(body: string, t: HeadingTree, ss: seq<Section>, split: Splitter, max: nat, x: nat)
    returns (j: nat, k: nat)
    requires Document(body, t) && SectionsOk(body, t, ss) && SplitterInRange(split, max)
    requires x < |AllPieces(t, ss, split, max)|
    ensures j < |ss| && k < |PiecesOf(t, ss[j], split, max)|
    ensures x == Offset(PieceLists(t, ss, split, max), j) + k
    ensures AllPieces(t, ss, split, max)[x] == PiecesOf(t, ss[j], split, max)[k]
    ensures SectionOk(body, t, ss[j]) && PieceOk(t, ss[j], AllPieces(t, ss, split, max)[x])
  {
    j, k := FindPiece(PieceLists(t, ss, split, max), x);
    assert OkAt(body, t, ss, j);
    PieceInSection(body, t, ss[j], split, max, k);
  }

  lemma OriginIsGood(body: string, t: HeadingTree, s: Section, p: Piece)
    requires Document(body, t) && SectionOk(body, t, s) && PieceOk(t, s, p)
    ensures GoodPiece(t, p) && p.section != Root
  {
    if s.heading.Some? { HeadingFacts(t, s.heading.value); }
  }

  lemma GoodPieces(body: string, t: HeadingTree, s: Section, split: Splitter, max: nat)
    requires Document(body, t) && SectionOk(body, t, s) && SplitterInRange(split, max)
    ensures GoodGroup(t, PiecesOf(t, s, split, max))
  {
    forall k | 0 <= k < |PiecesOf(t, s, split, max)|
      ensures GoodPiece(t, PiecesOf(t, s, split, max)[k])
    {
      PieceInSection(body, t, s, split, max, k);
      OriginIsGood(body, t, s, PiecesOf(t, s, split, max)[k]);
    }
  }

  /** All pieces carry real sections and breadcrumbs. */
  lemma PiecesAreGood(body: string, t: HeadingTree, ss: seq<Section>, split: Splitter, max: nat)
    requires Document(body, t) && SectionsOk(body, t, ss) && SplitterInRange(split, max)
    ensures GoodGroup(t, AllPieces(t, ss, split, max))
  {
    forall x | 0 <= x < |AllPieces(t, ss, split, max)|
      ensures GoodPiece(t, AllPieces(t, ss, split, max)[x])
    {
      var j, k := PieceOrigin(body, t, ss, split, max, x);
      OriginIsGood(body, t, ss[j], AllPieces(t, ss, split, max)[x]);
    }
  }

  ghost predicate AllGood(t: HeadingTree, gs: seq<Group>) {
    forall i :: 0 <= i < |gs| ==> GoodGroup(t, gs[i])
  }

  lemma GoodGroups(t: HeadingTree, gs: seq<Group>)
    requires GoodGroup(t, Flatten(gs))
    ensures AllGood(t, gs)
  {
    forall i, k | 0 <= i < |gs| && 0 <= k < |gs[i]|
      ensures GoodPiece(t, gs[i][k])
    {
      PieceAt(gs, i, k);
    }
  }

  // ---- one section per chunk ----

  ghost predicate Uniform(g: Group) {
    forall k :: 0 <= k < |g| ==> g[k].section == g[0].section
  }

  ghost predicate AllUniform(gs: seq<Group>) {
    forall i :: 0 <= i < |gs| ==> gs[i] != [] && Uniform(gs[i])
  }

  lemma {:induction false} UniformAttribution(t: HeadingTree, g: Group)
    requires Nested(t) && g != [] && Uniform(g) && GoodGroup(t, g)
    ensures Attribution(t, g) == g[0].section
  {
    if |g| > 1 {
      UniformAttribution(t, g[..|g| - 1]);
      assert g[|g| - 1].section == g[0].section;
      assert GoodPiece(t, g[0]);
    }
  }

  ghost predicate AllIn(ps: seq<Piece>, id: SectionId) {
    forall k :: 0 <= k < |ps| ==> ps[k].section == id
  }

  lemma FragStepUniform(fr: Frags, p: Piece, max: nat)
    requires AllUniform(fr.done) && AllIn(fr.pending, p.section)
    ensures AllUniform(FragStep(fr, p, max).done) && AllIn(FragStep(fr, p, max).pending, p.section)
  {
    hide TrimmedSize;
  }

  lemma {:induction false} FragRunUniform(done: seq<Group>, ps: seq<Piece>, max: nat, id: SectionId)
    requires AllUniform(done) && AllIn(ps, id)
    ensures AllUniform(FragRun(done, ps, max).done) && AllIn(FragRun(done, ps, max).pending, id)
  {
    if ps != [] {
      var n := |ps| - 1;
      FragRunUniform(done, ps[..n], max, id);
      FragStepUniform(FragRun(done, ps[..n], max), ps[n], max);
    }
  }

  lemma TailMergeUniform(t: HeadingTree, fr: Frags, lim: Limits, id: SectionId)
    requires Nested(t) && lim.isolate && AllUniform(fr.done) && AllIn(fr.pending, id)
    requires AllGood(t, fr.done) && GoodGroup(t, fr.pending)
    ensures AllUniform(TailMerge(t, fr, lim))
  {
    if fr.pending != [] && fr.done != [] {
      var last := fr.done[|fr.done| - 1];
      assert GoodGroup(t, last);
      UniformAttribution(t, last);
      UniformAttribution(t, fr.pending);
    }
  }

  lemma PiecesOfIn(t: HeadingTree, s: Section, split: Splitter, max: nat)
    ensures AllIn(PiecesOf(t, s, split, max), s.Id())
  {
  }

  lemma SectionStepUniform(t: HeadingTree, st: State, s: Section, split: Splitter, lim: Limits)
    requires Nested(t) && lim.isolate
    requires AllUniform(st.chunks) && Uniform(st.current)
    requires GoodGroup(t, Content(st)) && GoodGroup(t, PiecesOf(t, s, split, lim.max))
    ensures AllUniform(SectionStep(t, st, s, split, lim).chunks)
    ensures Uniform(SectionStep(t, st, s, split, lim).current)
  {
    hide TrimmedSize, FragRun, TailMerge, PiecesOf, Flatten, GoodPiece;
    if s.TrimmedSize() > lim.max {
      var ps := PiecesOf(t, s, split, lim.max);
      var fr := FragRun(Flush(st), ps, lim.max);
      PiecesOfIn(t, s, split, lim.max);
      FlushConserves(st);
      FragRunUniform(Flush(st), ps, lim.max, s.Id());
      FragRunConserves(Flush(st), ps, lim.max);
      FragsAreGood(t, fr);
      TailMergeUniform(t, fr, lim, s.Id());
    }
  }

  lemma FragsAreGood(t: HeadingTree, fr: Frags)
    requires GoodGroup(t, FragContent(fr))
    ensures AllGood(t, fr.done) && GoodGroup(t, fr.pending)
  {
    var n := |Flatten(fr.done)|;
    assert forall k :: 0 <= k < n ==> Flatten(fr.done)[k] == FragContent(fr)[k];
    assert forall k :: 0 <= k < |fr.pending| ==> fr.pending[k] == FragContent(fr)[n + k];
    GoodGroups(t, fr.done);
  }

  lemma {:induction false} RunUniform(
      body: string, t: HeadingTree, ss: seq<Section>, n: nat, split: Splitter, lim: Limits)
    requires n <= |ss| && lim.isolate
    requires Document(body, t) && Chain(body, t, ss) && SplitterInRange(split, lim.max)
    ensures AllUniform(Run(t, ss[..n], split, lim).chunks) && Uniform(Run(t, ss[..n], split, lim).current)
  {
    if n > 0 {
      assert ss[..n][..n - 1] == ss[..n - 1];
      ChainIsOk(body, t, ss, n - 1);
      RunUniform(body, t, ss, n - 1, split, lim);
      RunConserves(t, ss[..n - 1], split, lim);
      PiecesAreGood(body, t, ss[..n - 1], split, lim.max);
      var s := ss[n - 1];
      assert ChainAt(body, t, ss, n - 1);
      GoodPieces(body, t, s, split, lim.max);
      SectionStepUniform(t, Run(t, ss[..n - 1], split, lim), s, split, lim);
    }
  }

  // ---- the order of pieces ----

  /** The lines of a piece never reach past the start of a later one. */
  lemma PiecesInOrder(body: string, t: HeadingTree, ss: seq<Section>, split: Splitter, max: nat, x: nat)
    requires Document(body, t) && Chain(body, t, ss) && SplitterInRange(split, max)
    requires x + 1 < |AllPieces(t, ss, split, max)|
    ensures var ps := AllPieces(t, ss, split, max);
      && ps[x].lineStart <= ps[x].lineEnd <= ps[x + 1].lineStart <= ps[x + 1].lineEnd
      && Rank(ps[x].section) <= Rank(ps[x + 1].section)
  {
    hide PiecesOf, SplitterInRange, Chain, SectionsOk, SectionOk, Flatten;
    ChainIsOk(body, t, ss, |ss|);
    assert ss[..|ss|] == ss;
    var ls := PieceLists(t, ss, split, max);
    var i, k := PieceOrigin(body, t, ss, split, max, x);
    var j, m := PieceOrigin(body, t, ss, split, max, x + 1);
    if j < i { OffsetMonotone(ls, j + 1, i); GroupIsSlice(ls, j); }
    if i < j {
      ChainOrdered(body, t, ss, i, j);
    } else if i == j {
      FragmentsInOrder(body, t, ss[i], split, max, k);
    }
  }

  lemma {:induction false} PiecesOrdered(
      body: string, t: HeadingTree, ss: seq<Section>, split: Splitter, max: nat, x: nat, y: nat)
    requires Document(body, t) && Chain(body, t, ss) && SplitterInRange(split, max)
    requires x < y < |AllPieces(t, ss, split, max)|
    ensures var ps := AllPieces(t, ss, split, max);
      && ps[x].lineStart <= ps[x].lineEnd <= ps[y].lineStart <= ps[y].lineEnd
      && Rank(ps[x].section) <= Rank(ps[y].section)
    decreases y - x
  {
    PiecesInOrder(body, t, ss, split, max, x);
    if x + 1 < y { PiecesOrdered(body, t, ss, split, max, x + 1, y); }
  }

  /** Pieces of the chunks, compared by their place in the chunk list. */
  lemma ChunkPiecesOrdered(body: string, t: HeadingTree, ss: seq<Section>, split: Splitter, lim: Limits,
                           i: nat, k: nat, j: nat, m: nat)
    requires Document(body, t) && Chain(body, t, ss) && SplitterInRange(split, lim.max)
    requires var gs := Groups(t, ss, split, lim);
      i < |gs| && k < |gs[i]| && j < |gs| && m < |gs[j]| && (i < j || (i == j && k < m))
    ensures var p, q := Groups(t, ss, split, lim)[i][k], Groups(t, ss, split, lim)[j][m];
      && p.lineStart <= p.lineEnd <= q.lineStart <= q.lineEnd && Rank(p.section) <= Rank(q.section)
  {
    var gs := Groups(t, ss, split, lim);
    PiecesAreConserved(t, ss, split, lim);
    PieceAt(gs, i, k);
    PieceAt(gs, j, m);
    if i < j { OffsetMonotone(gs, i + 1, j); GroupIsSlice(gs, i); }
    PiecesOrdered(body, t, ss, split, lim.max, Offset(gs, i) + k, Offset(gs, j) + m);
  }

  /** Each piece of a chunk, traced back to its section. */
  lemma ChunkPieceOrigin(body: string, t: HeadingTree, ss: seq<Section>, split: Splitter, lim: Limits, i: nat, k: nat)
    returns (j: nat, m: nat)
    requires Document(body, t) && Chain(body, t, ss) && SplitterInRange(split, lim.max)
    requires i < |Groups(t, ss, split, lim)| && k < |Groups(t, ss, split, lim)[i]|
    ensures j < |ss| && SectionOk(body, t, ss[j]) && m < |PiecesOf(t, ss[j], split, lim.max)|
    ensures Groups(t, ss, split, lim)[i][k] == PiecesOf(t, ss[j], split, lim.max)[m]
    ensures PieceOk(t, ss[j], Groups(t, ss, split, lim)[i][k])
  {
    hide Groups, AllPieces, PiecesOf, SplitterInRange, SectionOk, PieceOk, Chain, SectionsOk, Flatten;
    var gs := Groups(t, ss, split, lim);
    ChainIsOk(body, t, ss, |ss|);
    assert ss[..|ss|] == ss;
    PiecesAreConserved(t, ss, split, lim);
    PieceAt(gs, i, k);
    j, m := PieceOrigin(body, t, ss, split, lim.max, Offset(gs, i) + k);
  }

  lemma ChunkIsGood(body: string, t: HeadingTree, ss: seq<Section>, split: Splitter, lim: Limits, i: nat)
    requires Document(body, t) && Chain(body, t, ss) && SplitterInRange(split, lim.max)
    requires i < |Groups(t, ss, split, lim)|
    ensures Groups(t, ss, split, lim)[i] != [] && GoodGroup(t, Groups(t, ss, split, lim)[i])
  {
    PiecesAreConserved(t, ss, split, lim);
    forall k | 0 <= k < |Groups(t, ss, split, lim)[i]|
      ensures GoodPiece(t, Groups(t, ss, split, lim)[i][k])
    {
      var j, m := ChunkPieceOrigin(body, t, ss, split, lim, i, k);
      OriginIsGood(body, t, ss[j], Groups(t, ss, split, lim)[i][k]);
    }
  }

  // ---- isolation ----

  /** With sections kept apart, all pieces of a chunk belong to one section, which is the
      chunk's attribution and never the root. */
  lemma ChunksStayInOneSection(body: string, t: HeadingTree, split: Splitter, lim: Limits, i: nat)
    requires Document(body, t) && SplitterInRange(split, lim.max) && lim.isolate
    requires i < |Groups(t, Sections(body, t), split, lim)|
    ensures var g := Groups(t, Sections(body, t), split, lim)[i];
      && g != [] && (forall k :: 0 <= k < |g| ==> g[k].section == Attribution(t, g))
      && Attribution(t, g) != Root
  {
    var ss := Sections(body, t);
    var g := Groups(t, ss, split, lim)[i];
    SectionsChain(body, t);
    assert ss[..|ss|] == ss;
    RunUniform(body, t, ss, |ss|, split, lim);
    ChunkIsGood(body, t, ss, split, lim, i);
    assert Uniform(g);
    UniformAttribution(t, g);
    var j, m := ChunkPieceOrigin(body, t, ss, split, lim, i, 0);
  }

  /** With sections kept apart, attributions appear in document order. */
  lemma AttributionsInOrder(body: string, t: HeadingTree, split: Splitter, lim: Limits, i: nat, j: nat)
    requires Document(body, t) && SplitterInRange(split, lim.max) && lim.isolate
    requires i < j < |Groups(t, Sections(body, t), split, lim)|
    ensures var gs := Groups(t, Sections(body, t), split, lim);
      Rank(Attribution(t, gs[i])) <= Rank(Attribution(t, gs[j]))
  {
    SectionsChain(body, t);
    ChunksStayInOneSection(body, t, split, lim, i);
    ChunksStayInOneSection(body, t, split, lim, j);
    ChunkPiecesOrdered(body, t, Sections(body, t), split, lim, i, 0, j, 0);
  }

  /** With sections kept apart, every kept section owns a chunk, a bare heading line included. */
  lemma EverySectionOwnsAChunk(body: string, t: HeadingTree, split: Splitter, lim: Limits, j: nat) returns (i: nat)
    requires Document(body, t) && SplitterOk(split, lim.max) && lim.isolate
    requires j < |Sections(body, t)|
    ensures i < |Groups(t, Sections(body, t), split, lim)|
    ensures Attribution(t, Groups(t, Sections(body, t), split, lim)[i]) == Sections(body, t)[j].Id()
  {
    hide Groups, Attribution, Sections, Document;
    var ss := Sections(body, t);
    var s, ls := ss[j], PieceLists(t, ss, split, lim.max);
    OkIsInRange(split, lim.max);
    assert SplitOkAt(split, lim.max, s.text);
    assert ls[j] != [];
    PieceAt(ls, j, 0);
    PiecesAreConserved(t, ss, split, lim);
    var k;
    i, k := FindPiece(Groups(t, ss, split, lim), Offset(ls, j));
    ChunksStayInOneSection(body, t, split, lim, i);
    PiecesOfIn(t, s, split, lim.max);
  }

  // ---- the attribution is the narrowest section ----

  ghost predicate AllWithin(t: HeadingTree, g: Group, w: SectionId)
    requires Nested(t) && GoodGroup(t, g)
  {
    forall k :: 0 <= k < |g| ==> GoodPiece(t, g[k]) && g[k].section.Within(w, t)
  }

  lemma AllWithinSnoc(t: HeadingTree, g: Group, w: SectionId)
    requires Nested(t) && GoodGroup(t, g) && g != []
    ensures var n := |g| - 1;
      && GoodGroup(t, g[..n]) && GoodPiece(t, g[n])
      && (AllWithin(t, g, w) <==> AllWithin(t, g[..n], w) && g[n].section.Within(w, t))
  {
    var n := |g| - 1;
    assert g == g[..n] + [g[n]];
    assert GoodPiece(t, g[n]);
  }

  /** A section contains the one a chunk is attributed to exactly when it contains every piece. */
  lemma {:induction false} AttributionIsNarrowest(t: HeadingTree, g: Group, w: SectionId)
    requires Nested(t) && GoodGroup(t, g) && g != []
    ensures Attribution(t, g).Valid(t)
    ensures Attribution(t, g).Within(w, t) <==> AllWithin(t, g, w)
  {
    var n := |g| - 1;
    AllWithinSnoc(t, g, w);
    if n > 0 {
      AttributionIsNarrowest(t, g[..n], w);
      MergeIsJoin(t, Attribution(t, g[..n]), g[n].section, w);
    }
  }

  // ---- line ranges ----

  lemma {:induction false} AttributionCovers(t: HeadingTree, g: Group, k: nat)
    requires WellFormed(t) && g != [] && GoodGroup(t, g) && k < |g|
    requires forall m :: 0 <= m < |g| ==> g[m].section.Present(t)
    ensures Attribution(t, g).Present(t) && Attribution(t, g).Covers(g[k].section, t)
  {
    if |g| > 1 {
      var front, last := g[..|g| - 1], g[|g| - 1];
      assert last.section.Present(t);
      AttributionCovers(t, front, if k < |front| then k else 0);
      var a := Attribution(t, front);
      MergeIsNarrowest(t, a, last.section, a);
    }
  }

  /** Every chunk lies within the range of the section it is attributed to, and chunks follow
      one another: for any in-range, ordered splitter offsets and any sequence of merges. */
  lemma ChunkLines(body: string, t: HeadingTree, split: Splitter, lim: Limits, i: nat)
    requires Document(body, t) && SplitterInRange(split, lim.max)
    requires i < |Groups(t, Sections(body, t), split, lim)|
    ensures var gs := Groups(t, Sections(body, t), split, lim);
      && gs[i] != [] && Attribution(t, gs[i]).Valid(t)
      && var first, last, id := gs[i][0].lineStart, gs[i][|gs[i]| - 1].lineEnd, Attribution(t, gs[i]);
      && 1 <= id.First(t) <= first <= last <= id.Last(t) <= t.LineCount()
      && (i + 1 < |gs| ==> gs[i + 1] != [] && last <= gs[i + 1][0].lineStart)
  {
    hide Sections, Groups, Attribution, PiecesOf, SplitterInRange, Chain, GoodGroup;
    var ss := Sections(body, t);
    var gs := Groups(t, ss, split, lim);
    SectionsChain(body, t);
    ChunkIsGood(body, t, ss, split, lim, i);
    var g, n := gs[i], |gs[i]| - 1;
    forall m | 0 <= m < |g|
      ensures g[m].section.Present(t) && g[m].section.First(t) <= g[m].lineStart <= g[m].lineEnd <= g[m].section.Last(t)
    {
      var j, r := ChunkPieceOrigin(body, t, ss, split, lim, i, m);
      SectionIsPresent(body, t, ss[j]);
    }
    AttributionCovers(t, g, 0);
    AttributionCovers(t, g, n);
    CoversIsWithin(t, Attribution(t, g), Attribution(t, g));
    if n > 0 { ChunkPiecesOrdered(body, t, ss, split, lim, i, 0, i, n); }
    if i + 1 < |gs| {
      ChunkIsGood(body, t, ss, split, lim, i + 1);
      ChunkPiecesOrdered(body, t, ss, split, lim, i, n, i + 1, 0);
    }
  }
}
