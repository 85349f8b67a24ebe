/** Sections are merged exactly while they fit the target (src/chunk.rs). */
module Accumulation {
  import opened Headings
  import opened Chunks

  /** From `a` to `b`, every group that already had a successor stays as it is and the last
      one can only grow. */
  ghost predicate Settled(a: seq<Group>, b: seq<Group>) {
    && |a| <= |b|
    && (forall i :: 0 <= i < |a| - 1 ==> b[i] == a[i])
    && (a != [] ==> a[|a| - 1] <= b[|a| - 1])
  }

  lemma {:induction false} FragRunSettled(done: seq<Group>, ps: seq<Piece>, max: nat)
    ensures done <= FragRun(done, ps, max).done
  {
    if ps != [] { FragRunSettled(done, ps[..|ps| - 1], max); }
  }

  lemma SectionStepSettled(t: HeadingTree, st: State, s: Section, split: Splitter, lim: Limits)
    ensures Settled(Flush(st), Flush(SectionStep(t, st, s, split, lim)))
  {
    hide TrimmedSize, PiecesOf, FragRun, Attribution, WholePiece;
    if s.TrimmedSize() > lim.max {
      FragRunSettled(Flush(st), PiecesOf(t, s, split, lim.max), lim.max);
    }
  }

  lemma {:induction false} RunSettled(t: HeadingTree, ss: seq<Section>, n: nat, split: Splitter, lim: Limits)
    requires n <= |ss|
    ensures Settled(Flush(Run(t, ss[..n], split, lim)), Groups(t, ss, split, lim))
    decreases |ss| - n
  {
    if n == |ss| {
      assert ss[..n] == ss;
    } else {
      var a, b := Run(t, ss[..n], split, lim), Run(t, ss[..n + 1], split, lim);
      assert ss[..n + 1][..n] == ss[..n];
      SectionStepSettled(t, a, ss[n], split, lim);
      RunSettled(t, ss, n + 1, split, lim);
      SettledTransitive(Flush(a), Flush(b), Groups(t, ss, split, lim));
    }
  }

  lemma SettledTransitive(a: seq<Group>, b: seq<Group>, c: seq<Group>)
    requires Settled(a, b) && Settled(b, c)
    ensures Settled(a, c)
  {
    if a != [] {
      var n := |a| - 1;
      assert b[n] <= c[n];
    }
  }

  /** Where two neighbouring sections, neither oversized, end up: in one chunk, right after
      one another, exactly when the chunk so far, a join and the next section fit the target;
      otherwise the first ends its chunk and the second starts the next. */
  lemma NeighboursMergeWhileTheyFit(t: HeadingTree, ss: seq<Section>, n: nat, split: Splitter, lim: Limits)
    returns (i: nat, k: nat)
    requires !lim.isolate && n + 1 < |ss|
    requires ss[n].TrimmedSize() <= lim.max && ss[n + 1].TrimmedSize() <= lim.max
    ensures i < |Groups(t, ss, split, lim)| && k < |Groups(t, ss, split, lim)[i]|
    ensures var gs := Groups(t, ss, split, lim);
      && gs[i][k] == WholePiece(t, ss[n])
      && if TrimmedSize(gs[i][..k + 1]) + 2 + ss[n + 1].TrimmedSize() <= lim.target
         then k + 1 < |gs[i]| && gs[i][k + 1] == WholePiece(t, ss[n + 1])
         else k + 1 == |gs[i]| && i + 1 < |gs| && gs[i + 1] != [] && gs[i + 1][0] == WholePiece(t, ss[n + 1])
  {
    var a, b := Run(t, ss[..n + 1], split, lim), Run(t, ss[..n + 2], split, lim);
    assert ss[..n + 1][..n] == ss[..n] && ss[..n + 2][..n + 1] == ss[..n + 1];
    RunSettled(t, ss, n + 2, split, lim);
    i, k := |a.chunks|, |a.current| - 1;
    SmallStep(a, b, WholePiece(t, ss[n + 1]), ss[n + 1].TrimmedSize(), lim.target, Groups(t, ss, split, lim));
  }

  lemma SmallStep(a: State, b: State, w: Piece, size: nat, target: nat, gs: seq<Group>)
    requires a.current != [] && Settled(Flush(b), gs)
    requires b == if TrimmedSize(a.current) + 2 + size <= target then State(a.chunks, a.current + [w])
                  else State(Flush(a), [w])
    ensures var i, k := |a.chunks|, |a.current| - 1;
      && i < |gs| && k < |gs[i]| && gs[i][..k + 1] == a.current
      && if TrimmedSize(a.current) + 2 + size <= target then k + 1 < |gs[i]| && gs[i][k + 1] == w
         else k + 1 == |gs[i]| && i + 1 < |gs| && gs[i + 1] != [] && gs[i + 1][0] == w
  {
    var i := |a.chunks|;
    if TrimmedSize(a.current) + 2 + size <= target {
      assert Flush(b)[i] == a.current + [w] <= gs[i];
    } else {
      assert Flush(b)[i] == a.current && Flush(b)[i + 1] == [w] <= gs[i + 1];
    }
  }
}
