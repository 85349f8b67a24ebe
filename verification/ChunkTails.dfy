/** How the fragments of an oversized section become chunks (src/chunk.rs): small ones are gathered
    forward, and a small one left over stands alone only if it cannot join the chunk before. */
module ChunkTails {
  import opened Text
  import opened Headings
  import opened Chunks
  import opened Grouping
  import opened Sectioning
  import opened ChunkLaws
  import opened ChunkSizes
  import opened Emission
  import opened Chunker

  // ---- gathering forward ----

  ghost predicate SmallUpTo(g: Group, n: nat)
    requires n <= |g|
  {
    forall k :: 1 <= k <= n ==> TrimmedSize(g[..k]) < MIN_MERGE_SIZE
  }

  /** The fragments up to the first that makes the whole large enough, and no further. */
  ghost predicate Shortest(g: Group) {
    g != [] && TrimmedSize(g) >= MIN_MERGE_SIZE && SmallUpTo(g, |g| - 1)
  }

  ghost predicate AllShortest(cuts: seq<Group>) { forall i :: 0 <= i < |cuts| ==> Shortest(cuts[i]) }

  /** The fragments `ps` are gathered into `cuts`, with `rest` left over. */
  ghost predicate Gathered(ps: seq<Piece>, cuts: seq<Group>, rest: Group) {
    ps == Flatten(cuts) + rest && AllShortest(cuts) && SmallUpTo(rest, |rest|)
  }

  lemma SmallSnoc(g: Group, p: Piece)
    requires SmallUpTo(g, |g|)
    ensures SmallUpTo(g + [p], |g|)
    ensures TrimmedSize(g + [p]) < MIN_MERGE_SIZE ==> SmallUpTo(g + [p], |g| + 1)
  {
    hide TrimmedSize;
    assert forall k :: 1 <= k <= |g| ==> (g + [p])[..k] == g[..k];
    assert (g + [p])[..|g| + 1] == g + [p];
  }

  /** One fragment is added to those waiting; as soon as they are large enough they are a chunk. */
  lemma StepGathers(fr: Frags, p: Piece, max: nat)
    requires SmallPending(fr, max) && FragmentLike([p], max)
    ensures var gathered := fr.pending + [p];
      FragStep(fr, p, max)
      == if TrimmedSize(gathered) < MIN_MERGE_SIZE then Frags(fr.done, gathered) else Frags(fr.done + [gathered], [])
  {
    if fr.pending == [] { assert fr.pending + [p] == [p]; }
  }

  lemma GatheredSnoc(ps: seq<Piece>, cuts: seq<Group>, rest: Group, p: Piece)
    requires Gathered(ps, cuts, rest)
    ensures var gathered := rest + [p];
      if TrimmedSize(gathered) < MIN_MERGE_SIZE then Gathered(ps + [p], cuts, gathered)
      else Gathered(ps + [p], cuts + [gathered], [])
  {
    hide TrimmedSize, Flatten;
    var gathered := rest + [p];
    SmallSnoc(rest, p);
    FlattenSnoc(cuts, gathered);
    Assoc(Flatten(cuts), rest, [p]);
  }

  lemma {:induction false} Gathering(done: seq<Group>, ps: seq<Piece>, max: nat) returns (cuts: seq<Group>)
    requires FragmentLike(ps, max)
    ensures FragRun(done, ps, max).done == done + cuts
    ensures Gathered(ps, cuts, FragRun(done, ps, max).pending)
  {
    hide TrimmedSize, FragStep, Gathered;
    if ps == [] {
      cuts := [];
      NothingGathered();
    } else {
      var n := |ps| - 1;
      var before, p := FragRun(done, ps[..n], max), ps[n];
      cuts := Gathering(done, ps[..n], max);
      FragRunSizes(done, ps[..n], max);
      StepGathers(before, p, max);
      GatheredSnoc(ps[..n], cuts, before.pending, p);
      assert ps == ps[..n] + [p];
      if TrimmedSize(before.pending + [p]) >= MIN_MERGE_SIZE { cuts := cuts + [before.pending + [p]]; }
    }
  }

  lemma NothingGathered()
    ensures Gathered([], [], [])
  {
  }

  // ---- the fragment left over ----

  /** The two chunks cannot be one: together they are too large, or belong to sections kept apart. */
  ghost predicate Apart(t: HeadingTree, a: Group, b: Group, lim: Limits) {
    || TrimmedSize(a) + 2 + TrimmedSize(b) > lim.max
    || (lim.isolate && Attribution(t, a) != Attribution(t, b))
  }

  /** From `before` to `after`, by adding `rest`: nothing to add, joined to the last chunk, or a chunk
      of its own that has to be apart from it. */
  ghost predicate TailAdded(t: HeadingTree, before: seq<Group>, rest: Group, after: seq<Group>, lim: Limits) {
    if rest == [] then after == before
    else if before == [] || Apart(t, before[|before| - 1], rest, lim) then after == before + [rest]
    else after == before[..|before| - 1] + [before[|before| - 1] + rest]
  }

  /** What an oversized section adds: its fragments, gathered forward as far as needed, and what is
      left over of them. */
  lemma OversizedSection(t: HeadingTree, st: State, s: Section, split: Splitter, lim: Limits)
    returns (cuts: seq<Group>, rest: Group)
    requires SplitterOk(split, lim.max) && s.TrimmedSize() > lim.max
    ensures Gathered(PiecesOf(t, s, split, lim.max), cuts, rest)
    ensures var st' := SectionStep(t, st, s, split, lim);
      st'.current == [] && TailAdded(t, Flush(st) + cuts, rest, st'.chunks, lim)
  {
    hide PiecesOf, SplitterOk, Attribution, TrimmedSize, Gathered, FragRun;
    var ps := PiecesOf(t, s, split, lim.max);
    PiecesAreFragments(t, s, split, lim.max);
    cuts := Gathering(Flush(st), ps, lim.max);
    rest := FragRun(Flush(st), ps, lim.max).pending;
  }

  // ---- no small fragment stands alone without need ----

  /** The piece comes from an oversized section. */
  ghost predicate IsFragment(ss: seq<Section>, max: nat, p: Piece) {
    exists j: nat :: j < |ss| && ss[j].TrimmedSize() > max && p.section == ss[j].Id()
  }

  ghost predicate Fragmentary(ss: seq<Section>, max: nat, g: Group) {
    g != [] && forall k :: 0 <= k < |g| ==> IsFragment(ss, max, g[k])
  }

  ghost predicate NeedAt(t: HeadingTree, ss: seq<Section>, gs: seq<Group>, lim: Limits, i: nat)
    requires i + 1 < |gs|
  {
    Fragmentary(ss, lim.max, gs[i + 1]) && TrimmedSize(gs[i + 1]) < MIN_MERGE_SIZE ==> Apart(t, gs[i], gs[i + 1], lim)
  }

  ghost predicate Needed(t: HeadingTree, ss: seq<Section>, gs: seq<Group>, lim: Limits) {
    forall i: nat :: i + 1 < |gs| ==> NeedAt(t, ss, gs, lim, i)
  }

  /** Adding a last chunk that is large, holds a whole section, or has to be apart. */
  lemma NeededSnoc(t: HeadingTree, ss: seq<Section>, gs: seq<Group>, g: Group, lim: Limits)
    requires Needed(t, ss, gs, lim)
    requires gs != [] && Fragmentary(ss, lim.max, g) && TrimmedSize(g) < MIN_MERGE_SIZE ==>
               Apart(t, gs[|gs| - 1], g, lim)
    ensures Needed(t, ss, gs + [g], lim)
  {
    hide Fragmentary, TrimmedSize, Apart;
    var all := gs + [g];
    forall i: nat | i + 1 < |all|
      ensures NeedAt(t, ss, all, lim, i)
    {
      if i + 1 < |gs| { assert NeedAt(t, ss, gs, lim, i); }
    }
  }

  lemma NeededPrefix(t: HeadingTree, ss: seq<Section>, gs: seq<Group>, n: nat, lim: Limits)
    requires Needed(t, ss, gs, lim) && n <= |gs|
    ensures Needed(t, ss, gs[..n], lim)
  {
    hide Fragmentary, TrimmedSize, Apart;
    forall i: nat | i + 1 < n
      ensures NeedAt(t, ss, gs[..n], lim, i)
    {
      assert NeedAt(t, ss, gs, lim, i);
    }
  }

  lemma {:induction false} NeededCuts(t: HeadingTree, ss: seq<Section>, gs: seq<Group>, cuts: seq<Group>, lim: Limits)
    requires Needed(t, ss, gs, lim) && AllShortest(cuts)
    ensures Needed(t, ss, gs + cuts, lim)
  {
    hide Fragmentary, TrimmedSize, Apart, Needed;
    if cuts == [] {
      assert gs + cuts == gs;
    } else {
      var n := |cuts| - 1;
      NeededCuts(t, ss, gs, cuts[..n], lim);
      assert Shortest(cuts[n]);
      NeededSnoc(t, ss, gs + cuts[..n], cuts[n], lim);
      assert gs + cuts == gs + cuts[..n] + [cuts[n]];
    }
  }

  /** A group with more text after it is no smaller. */
  lemma LongerIsLarger(t: HeadingTree, a: Group, b: Group)
    requires Nested(t) && a != [] && b != [] && GoodGroup(t, a) && GoodGroup(t, b) && !Blank(BodyText(b))
    ensures TrimmedSize(a + b) >= TrimmedSize(a)
    ensures Attribution(t, a).Valid(t) && Attribution(t, b).Valid(t)
    ensures Attribution(t, a) == Attribution(t, b) ==> Attribution(t, a + b) == Attribution(t, a)
  {
    GoodIsEmittable(t, a);
    GoodIsEmittable(t, b);
    GroupsJoin(t, a, b);
    if Blank(BodyText(a)) {
      TrimEmptyIffBlank(BodyText(a));
    } else {
      TrimJoined(BodyText(a), "\n\n", BodyText(b));
    }
  }

  lemma ApartGrows(t: HeadingTree, prev: Group, a: Group, b: Group, ss: seq<Section>, lim: Limits)
    requires Nested(t) && a != [] && b != [] && GoodGroup(t, a) && GoodGroup(t, b) && !Blank(BodyText(b))
    requires !Apart(t, a, b, lim)
    requires Fragmentary(ss, lim.max, a) && TrimmedSize(a) < MIN_MERGE_SIZE ==> Apart(t, prev, a, lim)
    requires Fragmentary(ss, lim.max, a + b) && TrimmedSize(a + b) < MIN_MERGE_SIZE
    ensures Apart(t, prev, a + b, lim)
  {
    hide TrimmedSize, Attribution, IsFragment, GoodGroup;
    LongerIsLarger(t, a, b);
    forall k | 0 <= k < |a|
      ensures IsFragment(ss, lim.max, a[k])
    {
      assert (a + b)[k] == a[k];
    }
  }

  lemma TailNeeded(t: HeadingTree, ss: seq<Section>, before: seq<Group>, rest: Group, after: seq<Group>, lim: Limits)
    requires Nested(t) && AllGood(t, before) && NonEmpty(before) && GoodGroup(t, rest)
    requires rest != [] ==> !Blank(BodyText(rest))
    requires Needed(t, ss, before, lim) && TailAdded(t, before, rest, after, lim)
    ensures Needed(t, ss, after, lim)
  {
    hide Fragmentary, TrimmedSize, Apart, Needed, GoodGroup, BodyText, Attribution;
    if rest != [] {
      if before == [] || Apart(t, before[|before| - 1], rest, lim) {
        NeededSnoc(t, ss, before, rest, lim);
      } else {
        var n := |before| - 1;
        NeededPrefix(t, ss, before, n, lim);
        var last := before[n] + rest;
        if n > 0 && Fragmentary(ss, lim.max, last) && TrimmedSize(last) < MIN_MERGE_SIZE {
          NeedFor(t, ss, before, lim, n - 1);
          ApartGrows(t, before[n - 1], before[n], rest, ss, lim);
        }
        NeededSnoc(t, ss, before[..n], last, lim);
      }
    }
  }

  lemma NeedFor(t: HeadingTree, ss: seq<Section>, gs: seq<Group>, lim: Limits, i: nat)
    requires Needed(t, ss, gs, lim) && i + 1 < |gs|
    ensures NeedAt(t, ss, gs, lim, i)
  {
  }

  // ---- along the whole run ----

  ghost predicate WholeOnly(ss: seq<Section>, max: nat, g: Group) {
    forall k :: 0 <= k < |g| ==> !IsFragment(ss, max, g[k])
  }

  lemma WholeIsNoFragment(body: string, t: HeadingTree, ss: seq<Section>, n: nat, max: nat)
    requires Chain(body, t, ss) && n < |ss| && ss[n].TrimmedSize() <= max && Document(body, t)
    ensures !IsFragment(ss, max, WholePiece(t, ss[n]))
  {
    forall j: nat | j < |ss| && ss[j].TrimmedSize() > max
      ensures ss[j].Id() != ss[n].Id()
    {
      if j < n { ChainOrdered(body, t, ss, j, n); } else { ChainOrdered(body, t, ss, n, j); }
    }
  }

  lemma WholeStep(t: HeadingTree, ss: seq<Section>, st: State, s: Section, split: Splitter, lim: Limits)
    requires s.TrimmedSize() <= lim.max && !IsFragment(ss, lim.max, WholePiece(t, s))
    requires Needed(t, ss, Flush(st), lim) && WholeOnly(ss, lim.max, st.current)
    ensures var st' := SectionStep(t, st, s, split, lim);
      Needed(t, ss, Flush(st'), lim) && WholeOnly(ss, lim.max, st'.current)
  {
    hide TrimmedSize, Needed, Apart, IsFragment, WholePiece;
    var st' := SectionStep(t, st, s, split, lim);
    var g := st'.current;
    assert g[|g| - 1] == WholePiece(t, s);
    assert !Fragmentary(ss, lim.max, g);
    if st'.chunks == st.chunks && st.current != [] {
      NeededPrefix(t, ss, Flush(st), |st.chunks|, lim);
      assert Flush(st)[..|st.chunks|] == st.chunks;
    }
    NeededSnoc(t, ss, st'.chunks, g, lim);
  }

  lemma OversizedStep(
      body: string, t: HeadingTree, ss: seq<Section>, n: nat, st: State, split: Splitter, lim: Limits)
    requires Document(body, t) && Chain(body, t, ss) && SplitterOk(split, lim.max) && n < |ss|
    requires ss[n].TrimmedSize() > lim.max && st == Run(t, ss[..n], split, lim)
    requires Needed(t, ss, Flush(st), lim)
    ensures Needed(t, ss, Flush(SectionStep(t, st, ss[n], split, lim)), lim)
  {
    hide TrimmedSize, Needed, SplitterOk, Chain, Document, PiecesOf, Run, Gathered, TailAdded, GoodGroup, BodyText;
    var s := ss[n];
    var ps := PiecesOf(t, s, split, lim.max);
    OkIsInRange(split, lim.max);
    ContentBelow(body, t, ss, n, split, lim);
    RunConserves(t, ss[..n], split, lim);
    FlushConserves(st);
    SectionIsGood(body, t, ss, n, split, lim.max);
    var cuts, rest := OversizedSection(t, st, s, split, lim);
    PiecesAreFragments(t, s, split, lim.max);
    RestIsGood(t, ps, cuts, rest, lim.max);
    AllGoodJoin(t, Flush(st), cuts);
    GatheredShortest(ps, cuts, rest);
    NeededCuts(t, ss, Flush(st), cuts, lim);
    TailNeeded(t, ss, Flush(st) + cuts, rest, SectionStep(t, st, s, split, lim).chunks, lim);
  }

  lemma GatheredShortest(ps: seq<Piece>, cuts: seq<Group>, rest: Group)
    requires Gathered(ps, cuts, rest)
    ensures AllShortest(cuts)
  {
  }

  lemma SectionIsGood(body: string, t: HeadingTree, ss: seq<Section>, n: nat, split: Splitter, max: nat)
    requires Document(body, t) && Chain(body, t, ss) && SplitterInRange(split, max) && n < |ss|
    ensures Nested(t) && GoodGroup(t, PiecesOf(t, ss[n], split, max))
  {
    hide GoodGroup, PiecesOf;
    assert ChainAt(body, t, ss, n);
    GoodPieces(body, t, ss[n], split, max);
  }

  /** Cuts and rest are made of the section's fragments. */
  lemma RestIsGood(t: HeadingTree, ps: seq<Piece>, cuts: seq<Group>, rest: Group, max: nat)
    requires Gathered(ps, cuts, rest) && GoodGroup(t, ps) && FragmentLike(ps, max)
    ensures AllGood(t, cuts) && NonEmpty(cuts) && GoodGroup(t, rest)
    ensures rest != [] ==> !Blank(BodyText(rest))
  {
    hide BodyText, GoodPiece, Flatten, SmallUpTo, TrimmedSize;
    var n := |Flatten(cuts)|;
    forall k | 0 <= k < |rest|
      ensures GoodPiece(t, rest[k]) && Solid(rest[k].text) && |rest[k].text| <= max
    {
      assert rest[k] == ps[n + k];
    }
    forall k | 0 <= k < n
      ensures GoodPiece(t, Flatten(cuts)[k])
    {
      assert Flatten(cuts)[k] == ps[k];
    }
    GoodGroups(t, cuts);
    forall i | 0 <= i < |cuts|
      ensures cuts[i] != []
    {
      assert Shortest(cuts[i]);
    }
    if rest != [] {
      FragmentsVisible(rest, max);
      BodyVisible(rest);
    }
  }

  lemma AllGoodJoin(t: HeadingTree, a: seq<Group>, b: seq<Group>)
    requires GoodGroup(t, Flatten(a)) && AllGood(t, b) && NonEmpty(a) && NonEmpty(b)
    ensures AllGood(t, a + b) && NonEmpty(a + b)
  {
    hide GoodGroup;
    GoodGroups(t, a);
  }

  lemma {:induction false} RunNeeds(
      body: string, t: HeadingTree, ss: seq<Section>, n: nat, split: Splitter, lim: Limits)
    requires Document(body, t) && Chain(body, t, ss) && SplitterOk(split, lim.max) && n <= |ss|
    ensures var st := Run(t, ss[..n], split, lim);
      Needed(t, ss, Flush(st), lim) && WholeOnly(ss, lim.max, st.current)
  {
    hide Needed, Document, Chain, SplitterOk, IsFragment, SectionStep;
    if n == 0 {
      NothingNeeded(t, ss, lim);
    } else {
      assert ss[..n][..n - 1] == ss[..n - 1];
      var st, s := Run(t, ss[..n - 1], split, lim), ss[n - 1];
      RunNeeds(body, t, ss, n - 1, split, lim);
      if s.TrimmedSize() > lim.max {
        OversizedStep(body, t, ss, n - 1, st, split, lim);
        var cuts, rest := OversizedSection(t, st, s, split, lim);
      } else {
        WholeIsNoFragment(body, t, ss, n - 1, lim.max);
        WholeStep(t, ss, st, s, split, lim);
      }
    }
  }

  lemma NothingNeeded(t: HeadingTree, ss: seq<Section>, lim: Limits)
    ensures Needed(t, ss, [], lim)
  {
  }

  /** A chunk of fragments below the minimum size stands alone only if joining the chunk before would
      exceed the maximum or cross into another section where sections are kept apart. */
  lemma SmallFragmentsStandApart(body: string, t: HeadingTree, split: Splitter, lim: Limits, i: nat)
    requires Document(body, t) && SplitterOk(split, lim.max)
    requires i + 1 < |Groups(t, Sections(body, t), split, lim)|
    ensures var ss := Sections(body, t);
      var gs := Groups(t, ss, split, lim);
      Fragmentary(ss, lim.max, gs[i + 1]) && TrimmedSize(gs[i + 1]) < MIN_MERGE_SIZE ==> Apart(t, gs[i], gs[i + 1], lim)
  {
    hide Document, SplitterOk, Apart, Fragmentary, TrimmedSize, Chain;
    var ss := Sections(body, t);
    SectionsChain(body, t);
    RunNeeds(body, t, ss, |ss|, split, lim);
    assert ss[..|ss|] == ss;
    NeedFor(t, ss, Groups(t, ss, split, lim), lim, i);
  }
}
