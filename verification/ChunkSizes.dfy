/** How large chunks get, how small fragments may stay, and when sections are not merged. */
module ChunkSizes {
  import opened Text
  import opened Headings
  import opened Chunks
  import opened Grouping
  import opened Sectioning
  import opened ChunkLaws

  /** Trimmed piece lengths plus the two characters of every join. */
  ghost function ContentSize(g: Group): nat {
    if g == [] then 0
    else if |g| == 1 then |Trim(g[0].text)|
    else ContentSize(g[..|g| - 1]) + 2 + |Trim(g[|g| - 1].text)|
  }

  ghost predicate Visible(g: Group) {
    forall k :: 0 <= k < |g| ==> !Blank(g[k].text)
  }

  ghost predicate AllSolid(g: Group) {
    forall k :: 0 <= k < |g| ==> Solid(g[k].text)
  }

  lemma BodySnoc(g: Group, p: Piece)
    requires g != []
    ensures BodyText(g + [p]) == BodyText(g) + "\n\n" + p.text
    ensures ContentSize(g + [p]) == ContentSize(g) + 2 + |Trim(p.text)|
  {
    assert (g + [p])[..|g|] == g;
  }

  lemma {:induction false} BodyVisible(g: Group)
    requires g != [] && Visible(g)
    ensures !Blank(BodyText(g))
    ensures ContentSize(g) <= TrimmedSize(g)
  {
    if |g| > 1 {
      var front, last := g[..|g| - 1], g[|g| - 1];
      BodyVisible(front);
      TrimJoined(BodyText(front), "\n\n", last.text);
      TrimEmptyIffBlank(BodyText(g));
    }
  }

  lemma SolidTrim(s: string)
    requires Solid(s)
    ensures Trim(s) == s && !Blank(s)
  {
    assert !IsWhitespace(s[0]);
  }

  lemma {:induction false} BodySolid(g: Group)
    requires g != [] && AllSolid(g)
    ensures Solid(BodyText(g)) && TrimmedSize(g) == ContentSize(g)
  {
    var last := g[|g| - 1];
    assert Solid(last.text);
    if |g| > 1 {
      var front := g[..|g| - 1];
      BodySolid(front);
      SolidTrim(BodyText(front));
      SolidTrim(last.text);
    }
    SolidTrim(BodyText(g));
  }

  // ---- fragments ----

  /** Pieces as the splitter makes them. */
  ghost predicate FragmentLike(ps: seq<Piece>, max: nat) {
    forall k :: 0 <= k < |ps| ==> Solid(ps[k].text) && |ps[k].text| <= max
  }

  ghost predicate SmallPending(fr: Frags, max: nat) {
    fr.pending != [] ==> FragmentLike(fr.pending, max) && TrimmedSize(fr.pending) < MIN_MERGE_SIZE
  }

  /** What a finished fragment group is: solid, neither too small nor too large. */
  ghost predicate FinishedGroup(g: Group, max: nat) {
    && g != [] && FragmentLike(g, max)
    && MIN_MERGE_SIZE <= TrimmedSize(g) <= max + MIN_MERGE_SIZE + 1
  }

  /** `a` with some finished groups added at the end. */
  ghost predicate Extends(a: seq<Group>, b: seq<Group>, max: nat) {
    && a <= b
    && forall i :: |a| <= i < |b| ==> FinishedGroup(b[i], max)
  }

  /** A pending group is always below the minimum, so it is always merged forward; the branch
      that gives up on a substantial pending group is never taken. */
  lemma FragStepSizes(fr: Frags, p: Piece, max: nat)
    requires SmallPending(fr, max) && FragmentLike([p], max)
    ensures SmallPending(FragStep(fr, p, max), max) && Extends(fr.done, FragStep(fr, p, max).done, max)
    ensures fr.pending != [] ==>
              var fr' := FragStep(fr, p, max);
              fr' == Frags(fr.done, fr.pending + [p]) || fr' == Frags(fr.done + [fr.pending + [p]], [])
  {
    assert Solid([p][0].text);
    SolidTrim(p.text);
    if fr.pending != [] {
      var merged := fr.pending + [p];
      BodySnoc(fr.pending, p);
      forall k | 0 <= k < |merged|
        ensures Solid(merged[k].text) && |merged[k].text| <= max
      {
      }
      BodySolid(fr.pending);
      BodySolid(merged);
    } else {
      BodySolid([p]);
    }
  }

  lemma {:induction false} FragRunSizes(done: seq<Group>, ps: seq<Piece>, max: nat)
    requires FragmentLike(ps, max)
    ensures SmallPending(FragRun(done, ps, max), max) && Extends(done, FragRun(done, ps, max).done, max)
  {
    if ps != [] {
      var n := |ps| - 1;
      FragRunSizes(done, ps[..n], max);
      FragStepSizes(FragRun(done, ps[..n], max), ps[n], max);
    }
  }

  // ---- the size bound ----

  lemma {:induction false} ContentConcat(a: Group, b: Group)
    requires a != [] && b != []
    ensures ContentSize(a + b) == ContentSize(a) + 2 + ContentSize(b)
  {
    var n := |b| - 1;
    assert (a + b)[..|a + b| - 1] == a + b[..n];
    if n > 0 {
      ContentConcat(a, b[..n]);
    } else {
      assert a + b[..0] == a;
    }
  }

  ghost predicate Bounded(gs: seq<Group>, bound: nat) {
    forall i :: 0 <= i < |gs| ==> gs[i] != [] && Visible(gs[i]) && ContentSize(gs[i]) <= bound
  }

  lemma FragmentsVisible(g: Group, max: nat)
    requires g != [] && FragmentLike(g, max)
    ensures Visible(g) && AllSolid(g) && TrimmedSize(g) == ContentSize(g)
  {
    forall k | 0 <= k < |g|
      ensures !Blank(g[k].text)
    {
      SolidTrim(g[k].text);
    }
    BodySolid(g);
  }

  lemma TailMergeBounded(t: HeadingTree, fr: Frags, lim: Limits)
    requires Bounded(fr.done, lim.max + MIN_MERGE_SIZE + 1) && SmallPending(fr, lim.max)
    ensures Bounded(TailMerge(t, fr, lim), lim.max + MIN_MERGE_SIZE + 1)
  {
    hide Trim, BodyText, Solid, Attribution;
    if fr.pending != [] {
      FragmentsVisible(fr.pending, lim.max);
      if fr.done != [] {
        var last := fr.done[|fr.done| - 1];
        BodyVisible(last);
        ContentConcat(last, fr.pending);
      }
    }
  }

  lemma ExtendsBounded(a: seq<Group>, b: seq<Group>, max: nat)
    requires Bounded(a, max + MIN_MERGE_SIZE + 1) && Extends(a, b, max)
    ensures Bounded(b, max + MIN_MERGE_SIZE + 1)
  {
    forall i | 0 <= i < |b|
      ensures b[i] != [] && Visible(b[i]) && ContentSize(b[i]) <= max + MIN_MERGE_SIZE + 1
    {
      if i < |a| {
        assert b[i] == a[i];
      } else {
        assert FinishedGroup(b[i], max);
        FragmentsVisible(b[i], max);
      }
    }
  }

  lemma PiecesAreFragments(t: HeadingTree, s: Section, split: Splitter, max: nat)
    requires SplitterOk(split, max) && s.TrimmedSize() > max
    ensures FragmentLike(PiecesOf(t, s, split, max), max)
  {
    var fs := split(max, s.text);
    assert SplitOkAt(split, max, s.text);
  }

  lemma NothingIsSmall()
    ensures ContentSize([]) == 0
    ensures forall p: Piece :: ContentSize([p]) == |Trim(p.text)|
  {
  }

  lemma SectionStepBounded(t: HeadingTree, st: State, s: Section, split: Splitter, lim: Limits)
    requires SplitterOk(split, lim.max) && lim.target <= lim.max && !Blank(s.text)
    requires Bounded(st.chunks, lim.max + MIN_MERGE_SIZE + 1)
    requires Visible(st.current) && ContentSize(st.current) <= lim.max
    ensures var st' := SectionStep(t, st, s, split, lim);
      && Bounded(st'.chunks, lim.max + MIN_MERGE_SIZE + 1)
      && Visible(st'.current) && ContentSize(st'.current) <= lim.max
  {
    hide Trim, BodyText, FragRun, TailMerge, PiecesOf, SplitterOk, TrimmedSize, Blank, Extends, SmallPending,
         ContentSize;
    NothingIsSmall();
    if s.TrimmedSize() > lim.max {
      var ps := PiecesOf(t, s, split, lim.max);
      var fr := FragRun(Flush(st), ps, lim.max);
      PiecesAreFragments(t, s, split, lim.max);
      FragRunSizes(Flush(st), ps, lim.max);
      ExtendsBounded(Flush(st), fr.done, lim.max);
      TailMergeBounded(t, fr, lim);
    } else if st.current != [] {
      BodyVisible(st.current);
      BodySnoc(st.current, WholePiece(t, s));
    } else {
      assert st.current + [WholePiece(t, s)] == [WholePiece(t, s)];
    }
  }

  /** What is assumed of the parser: a heading's lines show something. */
  ghost predicate HeadingsVisible(ss: seq<Section>) {
    forall k :: 0 <= k < |ss| ==> !Blank(ss[k].text)
  }

  lemma {:induction false} RunBounded(t: HeadingTree, ss: seq<Section>, split: Splitter, lim: Limits)
    requires SplitterOk(split, lim.max) && lim.target <= lim.max && HeadingsVisible(ss)
    ensures var st := Run(t, ss, split, lim);
      && Bounded(st.chunks, lim.max + MIN_MERGE_SIZE + 1)
      && Visible(st.current) && ContentSize(st.current) <= lim.max
  {
    if ss != [] {
      var n := |ss| - 1;
      RunBounded(t, ss[..n], split, lim);
      SectionStepBounded(t, Run(t, ss[..n], split, lim), ss[n], split, lim);
    }
  }

  /** The content of a chunk stays below the effective maximum plus one small fragment. */
  lemma ChunkSizeBound(t: HeadingTree, ss: seq<Section>, split: Splitter, lim: Limits, i: nat)
    requires SplitterOk(split, lim.max) && lim.target <= lim.max && HeadingsVisible(ss)
    requires i < |Groups(t, ss, split, lim)|
    ensures ContentSize(Groups(t, ss, split, lim)[i]) <= lim.max + MIN_MERGE_SIZE + 1
  {
    RunBounded(t, ss, split, lim);
  }

  // ---- the exact size with sections kept apart ----

  /** A chunk whose text has no whitespace at its joins. */
  ghost predicate Exact(g: Group) {
    |g| == 1 || AllSolid(g)
  }

  ghost predicate AllExact(gs: seq<Group>) {
    forall i :: 0 <= i < |gs| ==> gs[i] != [] && Exact(gs[i])
  }

  ghost predicate Below(gs: seq<seq<Piece>>, rank: nat) {
    forall i :: 0 <= i < |gs| ==> gs[i] != [] && Rank(gs[i][0].section) < rank
  }

  lemma TailMergeExact(t: HeadingTree, before: seq<Group>, fr: Frags, lim: Limits, s: Section)
    requires Nested(t) && lim.isolate && SmallPending(fr, lim.max) && Extends(before, fr.done, lim.max)
    requires AllExact(before) && Below(before, Rank(s.Id()))
    requires AllUniform(fr.done) && AllIn(fr.pending, s.Id()) && AllGood(t, fr.done) && GoodGroup(t, fr.pending)
    ensures AllExact(TailMerge(t, fr, lim))
  {
    forall i | 0 <= i < |fr.done|
      ensures fr.done[i] != [] && Exact(fr.done[i])
      ensures i >= |before| ==> AllSolid(fr.done[i])
    {
      if i < |before| {
        assert fr.done[i] == before[i];
      } else {
        assert FinishedGroup(fr.done[i], lim.max);
        FragmentsVisible(fr.done[i], lim.max);
      }
    }
    if fr.pending != [] {
      FragmentsVisible(fr.pending, lim.max);
      if fr.done != [] {
        var n := |fr.done| - 1;
        var last := fr.done[n];
        assert GoodGroup(t, last) && Uniform(last);
        UniformAttribution(t, last);
        UniformAttribution(t, fr.pending);
        if n < |before| { assert last == before[n]; }
      }
    }
  }

  lemma ContentBelow(body: string, t: HeadingTree, ss: seq<Section>, n: nat, split: Splitter, lim: Limits)
    requires Document(body, t) && Chain(body, t, ss) && SplitterInRange(split, lim.max) && n < |ss|
    ensures Below(Flush(Run(t, ss[..n], split, lim)), Rank(ss[n].Id()))
    ensures GoodGroup(t, Content(Run(t, ss[..n], split, lim)))
  {
    hide Document, Chain, SplitterInRange, Run, TrimmedSize;
    var st := Run(t, ss[..n], split, lim);
    ChainIsOk(body, t, ss, n);
    RunConserves(t, ss[..n], split, lim);
    FlushConserves(st);
    PiecesAreGood(body, t, ss[..n], split, lim.max);
    var gs: seq<seq<Piece>> := Flush(st);
    forall i | 0 <= i < |gs|
      ensures gs[i] != [] && Rank(gs[i][0].section) < Rank(ss[n].Id())
    {
      PieceAt(gs, i, 0);
      var j, k := PieceOrigin(body, t, ss[..n], split, lim.max, Offset(gs, i));
      ChainOrdered(body, t, ss, j, n);
    }
  }

  lemma {:induction false} RunExact(
      body: string, t: HeadingTree, ss: seq<Section>, n: nat, split: Splitter, lim: Limits)
    requires n <= |ss| && lim.isolate
    requires Document(body, t) && Chain(body, t, ss) && SplitterOk(split, lim.max)
    ensures var st := Run(t, ss[..n], split, lim); AllExact(st.chunks) && |st.current| <= 1
  {
    hide Trim, Chain, SplitterOk, Document, Uniform, AllUniform, TailMerge, FragRun, GoodGroup;
    if n > 0 {
      assert ss[..n][..n - 1] == ss[..n - 1];
      RunExact(body, t, ss, n - 1, split, lim);
      var st, s := Run(t, ss[..n - 1], split, lim), ss[n - 1];
      if s.TrimmedSize() > lim.max {
        OkIsInRange(split, lim.max);
        ContentBelow(body, t, ss, n - 1, split, lim);
        RunUniform(body, t, ss, n - 1, split, lim);
        OversizedExact(body, t, ss, n - 1, st, split, lim);
      }
    }
  }

  lemma OversizedExact(body: string, t: HeadingTree, ss: seq<Section>, n: nat, st: State, split: Splitter, lim: Limits)
    requires Document(body, t) && Chain(body, t, ss) && lim.isolate
    requires SplitterOk(split, lim.max) && SplitterInRange(split, lim.max)
    requires n < |ss| && ss[n].TrimmedSize() > lim.max
    requires AllExact(st.chunks) && |st.current| <= 1 && AllUniform(st.chunks) && Uniform(st.current)
    requires GoodGroup(t, Content(st)) && Below(Flush(st), Rank(ss[n].Id()))
    ensures AllExact(SectionStep(t, st, ss[n], split, lim).chunks)
  {
    var s := ss[n];
    assert ChainAt(body, t, ss, n);
    PiecesAreFragments(t, s, split, lim.max);
    PiecesOfIn(t, s, split, lim.max);
    GoodPieces(body, t, s, split, lim.max);
    FlushConserves(st);
    FragmentsExact(t, Flush(st), PiecesOf(t, s, split, lim.max), lim, s);
  }

  lemma FragmentsExact(t: HeadingTree, before: seq<Group>, ps: seq<Piece>, lim: Limits, s: Section)
    requires Nested(t) && lim.isolate && FragmentLike(ps, lim.max) && AllIn(ps, s.Id()) && GoodGroup(t, ps)
    requires NonEmpty(before) && AllExact(before) && AllUniform(before) && Below(before, Rank(s.Id()))
    requires GoodGroup(t, Flatten(before))
    ensures AllExact(TailMerge(t, FragRun(before, ps, lim.max), lim))
  {
    var fr := FragRun(before, ps, lim.max);
    FragRunSizes(before, ps, lim.max);
    FragRunUniform(before, ps, lim.max, s.Id());
    FragRunConserves(before, ps, lim.max);
    FragsAreGood(t, fr);
    TailMergeExact(t, before, fr, lim, s);
  }

  /** With sections kept apart the bound holds of the text itself, trimmed. */
  lemma IsolatedChunkSize(body: string, t: HeadingTree, split: Splitter, lim: Limits, i: nat)
    requires Document(body, t) && SplitterOk(split, lim.max) && lim.isolate && lim.target <= lim.max
    requires HeadingsVisible(Sections(body, t))
    requires i < |Groups(t, Sections(body, t), split, lim)|
    ensures TrimmedSize(Groups(t, Sections(body, t), split, lim)[i]) <= lim.max + MIN_MERGE_SIZE + 1
  {
    hide Sections, Run, Trim, Solid, Chain, SplitterOk;
    var ss := Sections(body, t);
    var g := Groups(t, ss, split, lim)[i];
    SectionsChain(body, t);
    assert ss[..|ss|] == ss;
    RunExact(body, t, ss, |ss|, split, lim);
    ChunkSizeBound(t, ss, split, lim, i);
    assert g != [] && Exact(g);
    if AllSolid(g) { BodySolid(g); }
  }
}
