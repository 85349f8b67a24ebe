/** What a document's neighbour list is (src/contradictions.rs): the best hits, and only those. */
module Neighbours {
  import opened Options
  import opened Ordering
  import opened Contradictions

  /** The hit counts for `q`: another known document, at or above the floor. */
  predicate Counts(hit: Hit, q: Path, path: Path, known: set<Path>, floor: real) {
    hit.file == Some(q) && q != path && q in known && hit.score >= floor
  }

  ghost predicate HitAt(hits: seq<Hit>, q: Path, path: Path, known: set<Path>, floor: real, i: nat)
    requires i < |hits|
  {
    Counts(hits[i], q, path, known, floor)
  }

  /** Each document with a counting hit is scored, by its best one, and no other document is. */
  lemma {:induction false} BestIsHighest(hits: seq<Hit>, q: Path, path: Path, known: set<Path>, floor: real)
    ensures var best := BestScores(hits, path, known, floor);
      && (q in best <==> exists i: nat :: i < |hits| && HitAt(hits, q, path, known, floor, i))
      && (forall i: nat :: i < |hits| && HitAt(hits, q, path, known, floor, i) ==> hits[i].score <= best[q])
      && (q in best ==>
           exists i: nat :: i < |hits| && HitAt(hits, q, path, known, floor, i) && hits[i].score == best[q])
  {
    if hits != [] {
      var n := |hits| - 1;
      var front := hits[..n];
      var before, best := BestScores(front, path, known, floor), BestScores(hits, path, known, floor);
      BestIsHighest(front, q, path, known, floor);
      assert forall i: nat :: i < n ==>
          (HitAt(hits, q, path, known, floor, i) <==> HitAt(front, q, path, known, floor, i));
      if q in before {
        var i: nat :| i < n && HitAt(front, q, path, known, floor, i) && front[i].score == before[q];
        assert HitAt(hits, q, path, known, floor, i);
      }
      if HitAt(hits, q, path, known, floor, n) {
        assert q in best;
      } else {
        assert (q in best <==> q in before) && (q in best ==> best[q] == before[q]);
      }
    }
  }

  /** A higher score, or the same score and an earlier path. */
  ghost predicate Outranks(x: Scored, y: Scored) { x.1 > y.1 || (x.1 == y.1 && x.0 != y.0 && TextLe(x.0, y.0)) }

  ghost predicate RankedAt(r: seq<Scored>, i: nat, j: nat)
    requires i < |r| && j < |r|
  {
    Outranks(r[i], r[j])
  }

  ghost predicate ListedAt(r: seq<Scored>, best: map<Path, real>, i: nat)
    requires i < |r|
  {
    r[i].0 in best && best[r[i].0] == r[i].1
  }

  ghost predicate BeatenAt(r: seq<Scored>, i: nat, s: Scored)
    requires i < |r|
  {
    Outranks(r[i], s)
  }

  /** The list holds the scored documents in rank order, as many as fit, and every scored
      document left out ranks behind every one listed. */
  lemma ListIsTop(hits: seq<Hit>, path: Path, known: set<Path>, topK: nat, floor: real)
    ensures var best, r := BestScores(hits, path, known, floor), TopK(hits, path, known, topK, floor);
      && |r| == (if |best| > topK then topK else |best|)
      && (forall i: nat :: i < |r| ==> ListedAt(r, best, i))
      && (forall i: nat, j: nat :: i < j < |r| ==> RankedAt(r, i, j))
      && (forall q, i: nat :: q in best && (q, best[q]) !in r && i < |r| ==> BeatenAt(r, i, (q, best[q])))
  {
    hide BestScores;
    var best, r := BestScores(hits, path, known, floor), TopK(hits, path, known, topK, floor);
    var scored := set p | p in best :: (p, best[p]);
    RankOrder();
    var all := Sorted(scored, RankLe);
    SortedElements(scored, RankLe);
    SortedCount(scored, RankLe);
    ScoredCount(best);
    forall i: nat | i < |r|
      ensures ListedAt(r, best, i)
    {
      assert all[i] in scored;
    }
    forall i: nat, j: nat | i < j < |r|
      ensures RankedAt(r, i, j)
    {
      SortedAscends(scored, RankLe, i, j);
    }
    forall q, i: nat | q in best && (q, best[q]) !in r && i < |r|
      ensures BeatenAt(r, i, (q, best[q]))
    {
      assert (q, best[q]) in all;
      var j: nat :| j < |all| && all[j] == (q, best[q]);
      assert forall m {:trigger all[m]} :: 0 <= m < |r| ==> all[m] == r[m];
      SortedAscends(scored, RankLe, i, j);
    }
  }

  lemma {:induction false} ScoredCount(best: map<Path, real>)
    ensures |set p | p in best :: (p, best[p])| == |best|
    decreases |best|
  {
    if best.Keys != {} {
      var q :| q in best;
      var rest := best - {q};
      ScoredCount(rest);
      var all, others := set p | p in best :: (p, best[p]), set p | p in rest :: (p, rest[p]);
      forall x
        ensures x in all <==> x in others + {(q, best[q])}
      {
        if x in all && x.0 != q { assert x.0 in rest; }
      }
      assert all == others + {(q, best[q])};
    }
  }

  ghost predicate Listed(r: seq<Scored>, q: Path) { exists i: nat :: i < |r| && r[i].0 == q }

  lemma ListedIsScored(hits: seq<Hit>, path: Path, known: set<Path>, topK: nat, floor: real, q: Path)
    ensures var best, r := BestScores(hits, path, known, floor), TopK(hits, path, known, topK, floor);
      Listed(r, q) <==> q in best && (q, best[q]) in r
  {
    hide BestScores, TopK;
    var best, r := BestScores(hits, path, known, floor), TopK(hits, path, known, topK, floor);
    ListIsTop(hits, path, known, topK, floor);
    if i: nat :| i < |r| && r[i].0 == q { assert ListedAt(r, best, i); }
  }

  /** Knowing one document more scores that one at most, and changes no other score. */
  lemma {:induction false} OneMoreScore(hits: seq<Hit>, path: Path, known: set<Path>, extra: Path, floor: real, q: Path)
    requires q != extra
    ensures Lookup(BestScores(hits, path, known + {extra}, floor), q) == Lookup(BestScores(hits, path, known, floor), q)
  {
    if hits != [] { OneMoreScore(hits[..|hits| - 1], path, known, extra, floor, q); }
  }

  lemma ListSize(hits: seq<Hit>, path: Path, known: set<Path>, topK: nat, floor: real)
    ensures var r := TopK(hits, path, known, topK, floor);
      |Elements(r)| == |r| <= topK
  {
    hide BestScores, TopK;
    var r := TopK(hits, path, known, topK, floor);
    ListIsTop(hits, path, known, topK, floor);
    forall i, j | 0 <= i < j < |r|
      ensures r[i] != r[j]
    {
      assert RankedAt(r, i, j);
    }
    DistinctCount(r);
  }

  /** A document left out although scored: the list is full of documents ranking before it. */
  lemma LeftOut(hits: seq<Hit>, path: Path, known: set<Path>, topK: nat, floor: real, q: Path)
    requires var best := BestScores(hits, path, known, floor);
      q in best && (q, best[q]) !in TopK(hits, path, known, topK, floor)
    ensures var best, r := BestScores(hits, path, known, floor), TopK(hits, path, known, topK, floor);
      && |r| == topK
      && forall s :: s in r ==> RankLe(s, (q, best[q])) && s != (q, best[q])
  {
    hide BestScores, TopK;
    var best, r := BestScores(hits, path, known, floor), TopK(hits, path, known, topK, floor);
    ListIsTop(hits, path, known, topK, floor);
    forall s | s in r
      ensures RankLe(s, (q, best[q]))
    {
      var i: nat :| i < |r| && r[i] == s;
      assert BeatenAt(r, i, (q, best[q]));
    }
    if |best| <= topK {
      AllListed(hits, path, known, topK, floor);
      assert false;
    }
  }

  lemma AllListed(hits: seq<Hit>, path: Path, known: set<Path>, topK: nat, floor: real)
    requires |BestScores(hits, path, known, floor)| <= topK
    ensures var best, r := BestScores(hits, path, known, floor), TopK(hits, path, known, topK, floor);
      forall q :: q in best ==> (q, best[q]) in r
  {
    hide BestScores;
    var best := BestScores(hits, path, known, floor);
    var scored := set p | p in best :: (p, best[p]);
    RankOrder();
    SortedElements(scored, RankLe);
    SortedCount(scored, RankLe);
    ScoredCount(best);
  }

  /** A new document can push others off a list, never onto one. */
  lemma NoneListedByAdding(hits: seq<Hit>, path: Path, known: set<Path>, extra: Path, topK: nat, floor: real, q: Path)
    requires q != extra && Listed(TopK(hits, path, known + {extra}, topK, floor), q)
    ensures Listed(TopK(hits, path, known, topK, floor), q)
  {
    hide BestScores, TopK;
    var best, best' := BestScores(hits, path, known, floor), BestScores(hits, path, known + {extra}, floor);
    var r, r' := TopK(hits, path, known, topK, floor), TopK(hits, path, known + {extra}, topK, floor);
    if extra in known {
      assert known + {extra} == known;
      return;
    }
    ListedIsScored(hits, path, known, topK, floor, q);
    ListedIsScored(hits, path, known + {extra}, topK, floor, q);
    OneMoreScore(hits, path, known, extra, floor, q);
    if (q, best[q]) !in r {
      LeftOut(hits, path, known, topK, floor, q);
      forall s | s in r
        ensures s in r'
      {
        StillListed(hits, path, known, extra, topK, floor, s, (q, best[q]));
      }
      ListSize(hits, path, known, topK, floor);
      ListSize(hits, path, known + {extra}, topK, floor);
      Crowded(Elements(r), (q, best[q]), Elements(r'));
      assert false;
    }
  }

  lemma Crowded<T>(a: set<T>, x: T, b: set<T>)
    requires a <= b && x !in a && x in b
    ensures |a| < |b|
  {
    assert b == a + {x} + (b - a - {x});
  }

  /** A document ranking before one still listed is still listed. */
  lemma StillListed(
      hits: seq<Hit>, path: Path, known: set<Path>, extra: Path, topK: nat, floor: real, s: Scored, last: Scored)
    requires s in TopK(hits, path, known, topK, floor) && RankLe(s, last) && s != last
    requires last in TopK(hits, path, known + {extra}, topK, floor)
    requires extra !in known
    ensures s in TopK(hits, path, known + {extra}, topK, floor)
  {
    hide BestScores, TopK;
    var best, best' := BestScores(hits, path, known, floor), BestScores(hits, path, known + {extra}, floor);
    var r, r' := TopK(hits, path, known, topK, floor), TopK(hits, path, known + {extra}, topK, floor);
    ListIsTop(hits, path, known, topK, floor);
    var i: nat :| i < |r| && r[i] == s;
    assert ListedAt(r, best, i);
    TopKKnown(hits, path, known, topK, floor);
    OneMoreScore(hits, path, known, extra, floor, s.0);
    RankOrder();
    assert Antisymmetric(RankLe, s, last);
    if s !in r' {
      LeftOut(hits, path, known + {extra}, topK, floor, s.0);
      assert false;
    }
  }

  ghost predicate HasHit(hits: seq<Hit>, q: Path, path: Path, known: set<Path>, floor: real) {
    exists i: nat :: i < |hits| && HitAt(hits, q, path, known, floor, i)
  }

  /** In terms of a run's parameters: at most `topK` neighbours, each with a hit at `minSimilarity` or
      above, and no document with such a hit left out unless the list is full. */
  lemma NeighboursAre(env: Env, known: set<Path>, path: Path, hits: seq<Hit>, q: Path)
    ensures var r, floor := Neighbours(env, known, path, hits), env.params.minSimilarity;
      && |r| <= env.params.topK
      && (Listed(r, q) ==> HasHit(hits, q, path, known, floor))
      && (HasHit(hits, q, path, known, floor) && !Listed(r, q) ==> |r| == env.params.topK)
  {
    hide BestScores, TopK, HitAt;
    var floor, topK := env.params.minSimilarity, env.params.topK;
    ListSize(hits, path, known, topK, floor);
    ListedIsScored(hits, path, known, topK, floor, q);
    BestIsHighest(hits, q, path, known, floor);
    if HasHit(hits, q, path, known, floor) && !Listed(Neighbours(env, known, path, hits), q) {
      LeftOut(hits, path, known, topK, floor, q);
    }
  }
}
