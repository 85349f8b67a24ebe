/** Nothing is lost: the chunks, taken apart again, are the pieces in document order. */
module Grouping {
  import opened Headings
  import opened Chunks

  ghost predicate NonEmpty(gs: seq<Group>) {
    forall i :: 0 <= i < |gs| ==> gs[i] != []
  }

  lemma FlattenSnoc(gs: seq<Group>, g: Group)
    ensures Flatten(gs + [g]) == Flatten(gs) + g
  {
    assert (gs + [g])[..|gs|] == gs;
  }

  lemma Assoc(a: seq<Piece>, b: seq<Piece>, c: seq<Piece>)
    ensures a + b + c == a + (b + c)
  {
  }

  lemma SnocSplit(a: seq<Piece>, ps: seq<Piece>)
    requires ps != []
    ensures a + ps[..|ps| - 1] + [ps[|ps| - 1]] == a + ps
  {
  }

  ghost function FragContent(fr: Frags): seq<Piece> {
    Flatten(fr.done) + fr.pending
  }

  lemma FragStepConserves(fr: Frags, p: Piece, max: nat)
    requires NonEmpty(fr.done)
    ensures NonEmpty(FragStep(fr, p, max).done)
    ensures FragContent(FragStep(fr, p, max)) == FragContent(fr) + [p]
  {
    hide TrimmedSize, Flatten;
    if fr.pending == [] {
      FlattenSnoc(fr.done, [p]);
    } else {
      Assoc(Flatten(fr.done), fr.pending, [p]);
      FlattenSnoc(fr.done, fr.pending + [p]);
      FlattenSnoc(fr.done, fr.pending);
      FlattenSnoc(fr.done + [fr.pending], [p]);
    }
  }

  lemma {:induction false} FragRunConserves(done: seq<Group>, ps: seq<Piece>, max: nat)
    requires NonEmpty(done)
    ensures NonEmpty(FragRun(done, ps, max).done)
    ensures FragContent(FragRun(done, ps, max)) == Flatten(done) + ps
  {
    if ps != [] {
      var n := |ps| - 1;
      var before := FragRun(done, ps[..n], max);
      FragRunConserves(done, ps[..n], max);
      FragStepConserves(before, ps[n], max);
      assert FragRun(done, ps, max) == FragStep(before, ps[n], max);
      SnocSplit(Flatten(done), ps);
    }
  }

  lemma TailMergeConserves(t: HeadingTree, fr: Frags, lim: Limits)
    requires NonEmpty(fr.done)
    ensures NonEmpty(TailMerge(t, fr, lim))
    ensures Flatten(TailMerge(t, fr, lim)) == FragContent(fr)
  {
    if fr.pending != [] {
      FlattenSnoc(fr.done, fr.pending);
      if fr.done == [] {
        FlattenSnoc([], fr.pending);
        assert [] + [fr.pending] == [fr.pending];
      } else {
        var n := |fr.done| - 1;
        FlattenSnoc(fr.done[..n], fr.done[n] + fr.pending);
        Assoc(Flatten(fr.done[..n]), fr.done[n], fr.pending);
      }
    }
  }

  ghost function Content(st: State): seq<Piece> {
    Flatten(st.chunks) + st.current
  }

  lemma FlushConserves(st: State)
    requires NonEmpty(st.chunks)
    ensures NonEmpty(Flush(st)) && Flatten(Flush(st)) == Content(st)
  {
    FlattenSnoc(st.chunks, st.current);
  }

  lemma SectionStepConserves(t: HeadingTree, st: State, s: Section, split: Splitter, lim: Limits)
    requires NonEmpty(st.chunks)
    ensures NonEmpty(SectionStep(t, st, s, split, lim).chunks)
    ensures Content(SectionStep(t, st, s, split, lim)) == Content(st) + PiecesOf(t, s, split, lim.max)
  {
    FlushConserves(st);
    if s.TrimmedSize() > lim.max {
      FragRunConserves(Flush(st), PiecesOf(t, s, split, lim.max), lim.max);
      TailMergeConserves(t, FragRun(Flush(st), PiecesOf(t, s, split, lim.max), lim.max), lim);
    } else {
      Assoc(Flatten(st.chunks), st.current, [WholePiece(t, s)]);
    }
  }

  lemma AllPiecesSnoc(t: HeadingTree, sections: seq<Section>, split: Splitter, max: nat)
    requires sections != []
    ensures AllPieces(t, sections, split, max)
            == AllPieces(t, sections[..|sections| - 1], split, max)
               + PiecesOf(t, sections[|sections| - 1], split, max)
  {
    var n := |sections| - 1;
    assert PieceLists(t, sections, split, max)[..n] == PieceLists(t, sections[..n], split, max);
  }

  lemma {:induction false} RunConserves(t: HeadingTree, sections: seq<Section>, split: Splitter, lim: Limits)
    ensures NonEmpty(Run(t, sections, split, lim).chunks)
    ensures Content(Run(t, sections, split, lim)) == AllPieces(t, sections, split, lim.max)
  {
    if sections != [] {
      var n := |sections| - 1;
      RunConserves(t, sections[..n], split, lim);
      SectionStepConserves(t, Run(t, sections[..n], split, lim), sections[n], split, lim);
      AllPiecesSnoc(t, sections, split, lim.max);
    }
  }

  /** In both modes, whatever the splitter yields: taking all chunks apart gives exactly the
      section texts, or fragments of the oversized ones, with none lost, repeated or moved. */
  lemma PiecesAreConserved(t: HeadingTree, sections: seq<Section>, split: Splitter, lim: Limits)
    ensures NonEmpty(Groups(t, sections, split, lim))
    ensures Flatten(Groups(t, sections, split, lim)) == AllPieces(t, sections, split, lim.max)
  {
    RunConserves(t, sections, split, lim);
    FlushConserves(Run(t, sections, split, lim));
  }

  // ---- where a group sits among all pieces ----

  ghost function Offset(gs: seq<Group>, i: nat): nat
    requires i <= |gs|
  {
    |Flatten(gs[..i])|
  }

  lemma {:induction false} GroupIsSlice(gs: seq<Group>, i: nat)
    requires i < |gs|
    ensures Offset(gs, i + 1) == Offset(gs, i) + |gs[i]| <= |Flatten(gs)|
    ensures Flatten(gs)[Offset(gs, i)..Offset(gs, i + 1)] == gs[i]
  {
    var n := |gs| - 1;
    assert gs[..i + 1][..i] == gs[..i];
    if i == n {
      assert gs[..i + 1] == gs;
    } else {
      GroupIsSlice(gs[..n], i);
      assert gs[..n][..i] == gs[..i] && gs[..n][..i + 1] == gs[..i + 1];
    }
  }

  lemma PieceAt(gs: seq<Group>, i: nat, k: nat)
    requires i < |gs| && k < |gs[i]|
    ensures Offset(gs, i) + k < |Flatten(gs)| && Flatten(gs)[Offset(gs, i) + k] == gs[i][k]
  {
    GroupIsSlice(gs, i);
    assert Flatten(gs)[Offset(gs, i)..Offset(gs, i + 1)][k] == gs[i][k];
  }

  lemma {:induction false} FindPiece(gs: seq<Group>, x: nat) returns (i: nat, k: nat)
    requires x < |Flatten(gs)|
    ensures i < |gs| && k < |gs[i]| && gs[i][k] == Flatten(gs)[x]
    ensures x == Offset(gs, i) + k
  {
    var n := |gs| - 1;
    var front := Flatten(gs[..n]);
    if x < |front| {
      i, k := FindPiece(gs[..n], x);
      assert gs[..n][..i] == gs[..i];
    } else {
      i, k := n, x - |front|;
    }
  }

  lemma {:induction false} OffsetMonotone(gs: seq<Group>, i: nat, j: nat)
    requires i <= j <= |gs|
    ensures Offset(gs, i) <= Offset(gs, j) <= |Flatten(gs)|
    decreases j - i
  {
    if i < j {
      OffsetMonotone(gs, i + 1, j);
      GroupIsSlice(gs, i);
    } else if i < |gs| {
      GroupIsSlice(gs, i);
    } else {
      assert gs[..i] == gs;
    }
  }
}
