/** What every contradiction run keeps, whatever the judge, the files and cancellation do
    (src/contradictions.rs). */
module RunLaws {
  import opened Options
  import opened Ordering
  import opened Contradictions

  /** `q` is one of the top neighbours of `p` among the known documents. */
  ghost predicate IsNeighbour(env: Env, known: set<Path>, p: Path, q: Path) {
    env.neighbours(p).Some?
    && var ranked := Neighbours(env, known, p, env.neighbours(p).value);
       exists i :: 0 <= i < |ranked| && ranked[i].0 == q
  }

  /** The neighbour store and its limits are the same; judges, files, caps and cancellation may differ. */
  ghost predicate SameStore(a: Env, b: Env) {
    a.neighbours == b.neighbours && a.params.topK == b.params.topK && a.params.minSimilarity == b.params.minSimilarity
  }

  lemma SameNeighbours(a: Env, b: Env, known: set<Path>, p: Path, q: Path)
    requires SameStore(a, b)
    ensures IsNeighbour(a, known, p, q) <==> IsNeighbour(b, known, p, q)
  {
    if a.neighbours(p).Some? {
      assert Neighbours(a, known, p, a.neighbours(p).value) == Neighbours(b, known, p, a.neighbours(p).value);
    }
  }

  ghost predicate KnownKey(db: Db, k: PairKey) { k.0 in db.documents && k.1 in db.documents }

  /** The pair has a row holding the current hash of both documents. */
  ghost predicate CurrentRow(db: Db, k: PairKey) {
    && KnownKey(db, k) && k in db.pairs
    && db.pairs[k].hashA == db.documents[k.0] && db.pairs[k].hashB == db.documents[k.1]
  }

  ghost predicate WorkAt(db: Db, work: map<PairKey, Work>, k: PairKey)
    requires k in work
  {
    KnownKey(db, k) && work[k].hashA == db.documents[k.0] && work[k].hashB == db.documents[k.1]
  }

  /** Work items carry the current hashes. */
  ghost predicate WorkOk(db: Db, work: map<PairKey, Work>) {
    forall k :: k in work ==> WorkAt(db, work, k)
  }

  // ---- phase 1 ----

  lemma KeyOfFacts(x: Path, y: Path)
    ensures KeyOf(x, y) == KeyOf(y, x) && TextLe(KeyOf(x, y).0, KeyOf(x, y).1)
    ensures (KeyOf(x, y).0 == x && KeyOf(x, y).1 == y) || (KeyOf(x, y).0 == y && KeyOf(x, y).1 == x)
  {
    TextTotal(x, y);
  }

  ghost predicate Ranked(db: Db, path: Path, ranked: seq<Scored>) {
    path in db.documents && forall i :: 0 <= i < |ranked| ==> ranked[i].0 in db.documents
  }

  lemma {:induction false} NeedWorkOk(db: Db, judge: bool, path: Path, work: map<PairKey, Work>, ranked: seq<Scored>)
    requires Ranked(db, path, ranked) && WorkOk(db, work)
    ensures WorkOk(db, NeedRun(db, judge, path, work, ranked).work)
    ensures NeedRun(db, judge, path, work, ranked).work.Keys
            == work.Keys + Elements(NeedRun(db, judge, path, work, ranked).required)
  {
    if ranked != [] {
      var n := |ranked| - 1;
      NeedWorkOk(db, judge, path, work, ranked[..n]);
      NeedStepOk(db, judge, path, NeedRun(db, judge, path, work, ranked[..n]), ranked[n]);
    }
  }

  lemma NeedStepOk(db: Db, judge: bool, path: Path, acc: Acc, s: Scored)
    requires path in db.documents && s.0 in db.documents && WorkOk(db, acc.work)
    ensures var acc', key := NeedStep(db, judge, path, acc, s), KeyOf(path, s.0);
      var added := if PairSettled(db, key, judge) then {} else {key};
      && WorkOk(db, acc'.work)
      && acc'.work.Keys == acc.work.Keys + added && Elements(acc'.required) == Elements(acc.required) + added
  {
    var acc', key := NeedStep(db, judge, path, acc, s), KeyOf(path, s.0);
    forall k | k in acc'.work
      ensures WorkAt(db, acc'.work, k)
    {
      if k in acc.work { assert WorkAt(db, acc.work, k); }
    }
    assert Elements(acc.required + [key]) == Elements(acc.required) + {key};
  }

  /** Neighbour `s` makes `path` need the pair `k`. */
  ghost predicate NeedsAt(db: Db, judge: bool, path: Path, s: Scored, k: PairKey)
    requires path in db.documents && s.0 in db.documents
  {
    k == KeyOf(path, s.0) && !PairSettled(db, k, judge)
  }

  lemma {:induction false} NeedRequired(
      db: Db, judge: bool, path: Path, work: map<PairKey, Work>, ranked: seq<Scored>, k: PairKey)
    requires Ranked(db, path, ranked)
    ensures k in NeedRun(db, judge, path, work, ranked).required
            <==> exists i :: 0 <= i < |ranked| && NeedsAt(db, judge, path, ranked[i], k)
  {
    if ranked != [] {
      var n := |ranked| - 1;
      NeedRequired(db, judge, path, work, ranked[..n], k);
      assert (exists i :: 0 <= i < |ranked| && NeedsAt(db, judge, path, ranked[i], k))
        <==> (exists i :: 0 <= i < n && NeedsAt(db, judge, path, ranked[..n][i], k))
             || NeedsAt(db, judge, path, ranked[n], k) by {
        if i :| 0 <= i < |ranked| && NeedsAt(db, judge, path, ranked[i], k) {
          if i < n { assert NeedsAt(db, judge, path, ranked[..n][i], k); }
        }
        if i :| 0 <= i < n && NeedsAt(db, judge, path, ranked[..n][i], k) {
          assert NeedsAt(db, judge, path, ranked[i], k);
        }
      }
    }
  }

  /** Scanning `p` asks for the pair `k`: one of its top neighbours, not settled yet. */
  ghost predicate NeedsPair(env: Env, db: Db, p: Path, k: PairKey) {
    && KnownKey(db, k) && !PairSettled(db, k, env.hasJudge)
    && exists q :: IsNeighbour(env, db.documents.Keys, p, q) && k == KeyOf(p, q)
  }

  lemma NeedMeaning(env: Env, db: Db, work: map<PairKey, Work>, p: Path, k: PairKey)
    requires p in db.documents && env.neighbours(p).Some?
    ensures var ranked := Neighbours(env, db.documents.Keys, p, env.neighbours(p).value);
      && Ranked(db, p, ranked)
      && (k in NeedRun(db, env.hasJudge, p, work, ranked).required <==> NeedsPair(env, db, p, k))
  {
    var ranked := Neighbours(env, db.documents.Keys, p, env.neighbours(p).value);
    TopKKnown(env.neighbours(p).value, p, db.documents.Keys, env.params.topK, env.params.minSimilarity);
    NeedRequired(db, env.hasJudge, p, work, ranked, k);
    if i :| 0 <= i < |ranked| && NeedsAt(db, env.hasJudge, p, ranked[i], k) {
      assert IsNeighbour(env, db.documents.Keys, p, ranked[i].0);
    }
    if NeedsPair(env, db, p, k) {
      var q :| IsNeighbour(env, db.documents.Keys, p, q) && k == KeyOf(p, q);
      var i :| 0 <= i < |ranked| && ranked[i].0 == q;
      assert NeedsAt(db, env.hasJudge, p, ranked[i], k);
    }
  }

  ghost predicate NeedOk(env: Env, db: Db, need: Need) {
    && env.neighbours(need.path).Some?
    && forall k :: k in need.required <==> NeedsPair(env, db, need.path, k)
  }

  ghost predicate NeedAt(env: Env, db: Db, needs: seq<Need>, i: nat)
    requires i < |needs|
  {
    NeedOk(env, db, needs[i])
  }

  ghost predicate AskedBy(env: Env, db: Db, order: seq<Path>, k: PairKey) {
    exists p :: p in order && NeedsPair(env, db, p, k)
  }

  lemma AskedBySnoc(env: Env, db: Db, order: seq<Path>, k: PairKey)
    requires order != []
    ensures AskedBy(env, db, order, k)
            <==> AskedBy(env, db, order[..|order| - 1], k) || NeedsPair(env, db, order[|order| - 1], k)
  {
    var n := |order| - 1;
    assert order == order[..n] + [order[n]];
    if NeedsPair(env, db, order[n], k) { assert order[n] in order; }
  }

  ghost predicate KnownOrder(db: Db, order: seq<Path>) {
    forall i :: 0 <= i < |order| ==> order[i] in db.documents
  }

  lemma {:induction false} ScanFacts(env: Env, db: Db, order: seq<Path>)
    requires KnownOrder(db, order)
    ensures var sc := ScanRun(env, db, order);
      && WorkOk(db, sc.work)
      && (forall k :: k in sc.work <==> AskedBy(env, db, order, k))
      && (forall i: nat :: i < |sc.needs| ==> NeedAt(env, db, sc.needs, i))
  {
    if order != [] {
      var n := |order| - 1;
      var before, p := ScanRun(env, db, order[..n]), order[n];
      ScanFacts(env, db, order[..n]);
      ScanDocFacts(env, db, before, p);
      forall k
        ensures k in ScanRun(env, db, order).work <==> AskedBy(env, db, order, k)
      {
        AskedBySnoc(env, db, order, k);
      }
    }
  }

  lemma ScanDocFacts(env: Env, db: Db, sc: Scan, p: Path)
    requires p in db.documents && WorkOk(db, sc.work)
    requires forall i: nat :: i < |sc.needs| ==> NeedAt(env, db, sc.needs, i)
    ensures var sc' := ScanDoc(env, db, sc, p);
      && WorkOk(db, sc'.work)
      && (forall k :: k in sc'.work <==> k in sc.work || NeedsPair(env, db, p, k))
      && (forall i: nat :: i < |sc'.needs| ==> NeedAt(env, db, sc'.needs, i))
  {
    var sc' := ScanDoc(env, db, sc, p);
    match env.neighbours(p)
    case None =>
    case Some(hits) =>
      var ranked := Neighbours(env, db.documents.Keys, p, hits);
      NeedMeaning(env, db, sc.work, p, ("", ""));
      var acc := NeedRun(db, env.hasJudge, p, sc.work, ranked);
      NeedWorkOk(db, env.hasJudge, p, sc.work, ranked);
      forall k
        ensures k in acc.required <==> NeedsPair(env, db, p, k)
      {
        NeedMeaning(env, db, sc.work, p, k);
      }
      assert NeedOk(env, db, Need(p, acc.required));
      forall i: nat | i < |sc'.needs|
        ensures NeedAt(env, db, sc'.needs, i)
      {
        if i < |sc.needs| { assert NeedAt(env, db, sc.needs, i); }
      }
  }

  ghost predicate HasNeed(needs: seq<Need>, p: Path) {
    exists i :: 0 <= i < |needs| && needs[i].path == p
  }

  lemma HasNeedSnoc(needs: seq<Need>, need: Need, p: Path)
    ensures HasNeed(needs + [need], p) <==> HasNeed(needs, p) || need.path == p
  {
    if i :| 0 <= i < |needs| && needs[i].path == p { assert (needs + [need])[i].path == p; }
    if need.path == p { assert (needs + [need])[|needs|].path == p; }
    if i :| 0 <= i < |needs + [need]| && (needs + [need])[i].path == p {
      if i < |needs| { assert needs[i].path == p; }
    }
  }

  /** Every visited document whose lookup works has an entry in the needs, and no other. */
  lemma {:induction false} ScanNeeds(env: Env, db: Db, order: seq<Path>, p: Path)
    requires KnownOrder(db, order)
    ensures HasNeed(ScanRun(env, db, order).needs, p) <==> p in order && env.neighbours(p).Some?
  {
    if order != [] {
      var n := |order| - 1;
      var before, after := ScanRun(env, db, order[..n]).needs, ScanRun(env, db, order).needs;
      ScanNeeds(env, db, order[..n], p);
      assert order == order[..n] + [order[n]];
      if env.neighbours(order[n]).Some? {
        HasNeedSnoc(before, after[|before|], p);
        assert after == before + [after[|before|]];
      }
    }
  }

  // ---- phase 3 ----

  ghost predicate KeysIn(work: map<PairKey, Work>, keys: seq<PairKey>) {
    forall i :: 0 <= i < |keys| ==> keys[i] in work
  }

  /** One round writes at most the row of its own pair, with the work item's hashes. */
  lemma EvalStepRows(env: Env, ev: Eval, key: PairKey, w: Work, round: nat)
    ensures var ev' := EvalStep(env, ev, key, w, round);
      || (ev'.pairs == ev.pairs && ev'.evaluated == ev.evaluated)
      || (exists row :: ev'.pairs == ev.pairs[key := row] && ev'.evaluated == ev.evaluated + [key]
                        && row.hashA == w.hashA && row.hashB == w.hashB)
  {
    var out := EvaluatePair(env, key, w);
    if !out.Skipped? { assert out.row.hashA == w.hashA && out.row.hashB == w.hashB; }
  }

  /** What was evaluated got a row with the work item's hashes; every other row is untouched. */
  lemma {:induction false} EvalRows(env: Env, start: Eval, work: map<PairKey, Work>, keys: seq<PairKey>, k: PairKey)
    requires KeysIn(work, keys) && start.evaluated == []
    ensures var ev := EvalRun(env, start, work, keys);
      && (k !in ev.evaluated ==> Lookup(ev.pairs, k) == Lookup(start.pairs, k))
      && (k in ev.evaluated ==>
           && k in keys && k in work && k in ev.pairs
           && ev.pairs[k].hashA == work[k].hashA && ev.pairs[k].hashB == work[k].hashB)
  {
    if keys != [] {
      var n := |keys| - 1;
      EvalRows(env, start, work, keys[..n], k);
      EvalStepRows(env, EvalRun(env, start, work, keys[..n]), keys[n], work[keys[n]], n);
      assert keys[n] in keys;
    }
  }

  /** The run never evaluates more pairs than the cap, and none twice. */
  lemma {:induction false} EvalCap(env: Env, start: Eval, work: map<PairKey, Work>, keys: seq<PairKey>)
    requires KeysIn(work, keys) && start.evaluated == []
    requires forall i, j :: 0 <= i < j < |keys| ==> keys[i] != keys[j]
    ensures var ev := EvalRun(env, start, work, keys);
      && |ev.evaluated| <= env.params.maxPairs
      && (forall i, j :: 0 <= i < j < |ev.evaluated| ==> ev.evaluated[i] != ev.evaluated[j])
      && (forall i :: 0 <= i < |ev.evaluated| ==> ev.evaluated[i] in keys)
  {
    if keys != [] {
      var n := |keys| - 1;
      EvalCap(env, start, work, keys[..n]);
      assert keys == keys[..n] + [keys[n]];
      assert keys[n] !in keys[..n];
    }
  }

  // ---- phase 4 ----

  ghost predicate Known(db: Db, done: seq<Path>) {
    forall p :: p in done ==> p in db.documents
  }

  ghost predicate StaleAt(db: Db, k: PairKey, p: Path)
    requires p in db.documents && k in db.pairs
  {
    StaleFor(k, db.pairs[k], p, db.documents[p])
  }

  /** Some document of `done` finds the row stale. */
  ghost predicate Condemned(db: Db, k: PairKey, done: seq<Path>)
    requires Known(db, done) && k in db.pairs
  {
    exists p :: p in done && StaleAt(db, k, p)
  }

  lemma CondemnedSnoc(db: Db, k: PairKey, done: seq<Path>)
    requires Known(db, done) && k in db.pairs && done != []
    ensures Condemned(db, k, done) <==> Condemned(db, k, done[..|done| - 1]) || StaleAt(db, k, done[|done| - 1])
  {
    assert done == done[..|done| - 1] + [done[|done| - 1]];
  }

  /** Dropping removes exactly the rows some done document finds stale, and only unmarks. */
  lemma {:induction false} DropStaleRows(db: Db, done: seq<Path>, k: PairKey)
    requires Known(db, done)
    ensures var r := DropStale(db, done);
      && (k in r.pairs <==> k in db.pairs && !Condemned(db, k, done))
      && (k in r.pairs ==> r.pairs[k] == db.pairs[k])
  {
    if done != [] {
      DropStaleRows(db, done[..|done| - 1], k);
      if k in db.pairs { CondemnedSnoc(db, k, done); }
    }
  }

  /** The `i`th done document drops the row `k`, whose other end is `p`. */
  ghost predicate DropsFor(db: Db, done: seq<Path>, p: Path, i: nat, k: PairKey)
    requires Known(db, done)
  {
    i < |done| && k in db.pairs && StaleAt(db, k, done[i]) && Other(k, done[i]) == p && !Condemned(db, k, done[..i])
  }

  ghost predicate LosesMark(db: Db, done: seq<Path>, p: Path)
    requires Known(db, done)
  {
    exists i: nat, k :: DropsFor(db, done, p, i, k)
  }

  lemma LosesMarkSnoc(db: Db, done: seq<Path>, p: Path)
    requires Known(db, done) && done != []
    ensures var n := |done| - 1;
      LosesMark(db, done, p) <==> LosesMark(db, done[..n], p) || exists k :: DropsFor(db, done, p, n, k)
  {
    var n := |done| - 1;
    if i: nat, k :| DropsFor(db, done, p, i, k) {
      if i < n { assert done[..n][..i] == done[..i] && DropsFor(db, done[..n], p, i, k); }
    }
    if i: nat, k :| DropsFor(db, done[..n], p, i, k) {
      assert done[..n][..i] == done[..i] && DropsFor(db, done, p, i, k);
    }
  }

  /** Exactly which documents lose their mark: the other end of a row, for the first done document
      that finds the row stale. Marks that stay are unchanged. */
  lemma {:induction false} DropStaleMarks(db: Db, done: seq<Path>, p: Path)
    requires Known(db, done)
    ensures var r := DropStale(db, done);
      && (p in r.analyzed <==> p in db.analyzed && !LosesMark(db, done, p))
      && (p in r.analyzed ==> r.analyzed[p] == db.analyzed[p])
  {
    if done != [] {
      var n := |done| - 1;
      DropStaleMarks(db, done[..n], p);
      LosesMarkSnoc(db, done, p);
      LastDropMarks(db, done, p);
    }
  }

  lemma LastDropMarks(db: Db, done: seq<Path>, p: Path)
    requires Known(db, done) && done != []
    ensures var n := |done| - 1;
      var before, after := DropStale(db, done[..n]), DropStale(db, done);
      && (p in after.analyzed <==> p in before.analyzed && !exists k :: DropsFor(db, done, p, n, k))
      && (p in after.analyzed ==> after.analyzed[p] == before.analyzed[p])
  {
    hide Condemned;
    var n := |done| - 1;
    var before, d := DropStale(db, done[..n]), done[n];
    forall k
      ensures DropsFor(db, done, p, n, k) <==> k in before.pairs && StaleAt(before, k, d) && Other(k, d) == p
    {
      DropStaleRows(db, done[..n], k);
    }
    var stale := set k | k in before.pairs && StaleFor(k, before.pairs[k], d, before.documents[d]);
    var partners := set k | k in stale :: Other(k, d);
    assert p in partners <==> exists k :: DropsFor(db, done, p, n, k) by {
      if k :| DropsFor(db, done, p, n, k) { assert k in stale; }
      if p in partners {
        var k :| k in stale && Other(k, d) == p;
        assert StaleAt(before, k, d) && DropsFor(db, done, p, n, k);
      }
    }
  }

  /** In particular, if a done document `q` finds a row stale and no done document is the row's
      other end, then that end loses its mark. */
  lemma DropStaleReopens(db: Db, done: seq<Path>, k: PairKey, q: Path)
    requires Known(db, done) && k in db.pairs && q in done && StaleAt(db, k, q)
    requires k.0 != k.1 && Other(k, q) !in done
    ensures Other(k, q) !in DropStale(db, done).analyzed
  {
    var i := FirstStale(db, done, k, q);
    assert DropsFor(db, done, Other(k, q), i, k);
    DropStaleMarks(db, done, Other(k, q));
  }

  lemma {:induction false} FirstStale(db: Db, done: seq<Path>, k: PairKey, q: Path) returns (i: nat)
    requires Known(db, done) && k in db.pairs && q in done && StaleAt(db, k, q) && Other(k, q) !in done
    ensures i < |done| && done[i] == q && StaleAt(db, k, done[i]) && !Condemned(db, k, done[..i])
  {
    var n := |done| - 1;
    assert done == done[..n] + [done[n]];
    if q in done[..n] {
      i := FirstStale(db, done[..n], k, q);
      assert done[..n][..i] == done[..i];
    } else {
      i := n;
      assert forall p :: p in done[..n] && StaleAt(db, k, p) ==> p == q || p == Other(k, q);
    }
  }

  // ---- marking is sound ----

  lemma WorkFacts(env: Env, db: Db)
    ensures WorkOk(db, WorkOf(env, db))
  {
    ScanFacts(env, db, ScanOrder(db)[..Visited(env, db)]);
    var sc := Scanned(env, db).work;
    forall k | k in WorkOf(env, db)
      ensures WorkAt(db, WorkOf(env, db), k)
    {
      if k in sc { assert WorkAt(db, sc, k); }
    }
  }

  /** A pair evaluated in this run has a row with both current hashes afterwards. */
  lemma EvaluatedRowIsCurrent(env: Env, db: Db, k: PairKey)
    ensures var ev := Evaluated(env, db);
      && (k in ev.evaluated ==> CurrentRow(db.(pairs := ev.pairs), k))
      && (k !in ev.evaluated ==> Lookup(ev.pairs, k) == Lookup(db.pairs, k))
  {
    WorkFacts(env, db);
    EvalRows(env, StartOf(env, db), WorkOf(env, db), KeyOrder(WorkOf(env, db)), k);
    if k in Evaluated(env, db).evaluated { assert WorkAt(db, WorkOf(env, db), k); }
  }

  /** A pair settled beforehand, or evaluated now, has a row with both current hashes. */
  lemma SettledRowIsCurrent(env: Env, db: Db, k: PairKey)
    requires KnownKey(db, k) && (PairSettled(db, k, env.hasJudge) || k in Evaluated(env, db).evaluated)
    ensures CurrentRow(db.(pairs := Evaluated(env, db).pairs), k)
  {
    EvaluatedRowIsCurrent(env, db, k);
  }

  /** A done document was scanned and all it needs was evaluated. */
  lemma DoneHasNeed(env: Env, db: Db, p: Path)
    requires p in Done(env, db)
    ensures p in db.documents && env.neighbours(p).Some?
    ensures forall k :: NeedsPair(env, db, p, k) ==> k in Evaluated(env, db).evaluated
  {
    var needs, settled := Scanned(env, db).needs, Elements(Evaluated(env, db).evaluated);
    DoneKnown(env, db);
    DoneIsNeeded(needs, settled, p);
    var i: nat :| i < |needs| && needs[i].path == p
                  && forall j :: 0 <= j < |needs[i].required| ==> needs[i].required[j] in settled;
    ScanFacts(env, db, ScanOrder(db)[..Visited(env, db)]);
    assert NeedAt(env, db, needs, i);
  }

  lemma NeighbourKnown(env: Env, db: Db, p: Path, q: Path)
    requires p in db.documents && IsNeighbour(env, db.documents.Keys, p, q)
    ensures q in db.documents && p != q && KnownKey(db, KeyOf(p, q))
  {
    TopKKnown(env.neighbours(p).value, p, db.documents.Keys, env.params.topK, env.params.minSimilarity);
    KeyOfFacts(p, q);
  }

  lemma DoneMeaning(env: Env, db: Db, p: Path, q: Path)
    requires p in Done(env, db) && IsNeighbour(env, db.documents.Keys, p, q)
    ensures CurrentRow(db.(pairs := Evaluated(env, db).pairs), KeyOf(p, q))
  {
    DoneHasNeed(env, db, p);
    NeighbourKnown(env, db, p, q);
    assert PairSettled(db, KeyOf(p, q), env.hasJudge) || NeedsPair(env, db, p, KeyOf(p, q));
    SettledRowIsCurrent(env, db, KeyOf(p, q));
  }

  ghost predicate Analysed(db: Db, p: Path) {
    p in db.documents && Lookup(db.analyzed, p) == Some(db.documents[p])
  }

  lemma NewMarksAreDone(env: Env, db: Db, p: Path)
    requires Analysed(DbAfter(env, db), p) && p !in Done(env, db)
    ensures Analysed(db, p)
  {
    DoneKnown(env, db);
    DropStaleMarks(Marked(env, db), Done(env, db), p);
  }

  lemma RowsAfter(env: Env, db: Db, k: PairKey)
    ensures Known(Marked(env, db), Done(env, db))
    ensures k in DbAfter(env, db).pairs <==>
            k in Marked(env, db).pairs && !Condemned(Marked(env, db), k, Done(env, db))
    ensures k in DbAfter(env, db).pairs ==> DbAfter(env, db).pairs[k] == Marked(env, db).pairs[k]
  {
    DoneKnown(env, db);
    DropStaleRows(Marked(env, db), Done(env, db), k);
  }

  lemma DoneIsCovered(env: Env, db: Db, p: Path, q: Path)
    requires p in Done(env, db) && IsNeighbour(env, db.documents.Keys, p, q)
    ensures CurrentRow(DbAfter(env, db), KeyOf(p, q))
  {
    DoneMeaning(env, db, p, q);
    RowsAfter(env, db, KeyOf(p, q));
  }

  /** Under any cap, judge failures, unreadable files and cancellation: a document newly marked
      analysed has a row with both current hashes for every one of its top neighbours, and no
      remaining row has an outdated hash for it. */
  lemma MarkingIsSound(env: Env, db: Db, p: Path)
    requires Analysed(Run(env, db).db, p) && !Analysed(Prune(db), p)
    ensures var r := Run(env, db).db;
      && (forall q :: IsNeighbour(env, r.documents.Keys, p, q) ==> CurrentRow(r, KeyOf(p, q)))
      && (forall k :: k in r.pairs ==> !StaleAt(r, k, p))
  {
    var start := Prune(db);
    if p !in Done(env, start) { NewMarksAreDone(env, start, p); }
    forall q | IsNeighbour(env, start.documents.Keys, p, q)
      ensures CurrentRow(DbAfter(env, start), KeyOf(p, q))
    {
      DoneIsCovered(env, start, p, q);
    }
    forall k | k in DbAfter(env, start).pairs
      ensures !StaleAt(DbAfter(env, start), k, p)
    {
      RowsAfter(env, start, k);
      assert !StaleAt(Marked(env, start), k, p);
    }
  }

  lemma EvaluatedDistinct(env: Env, db: Db)
    ensures |Evaluated(env, db).evaluated| <= env.params.maxPairs
    ensures |Elements(Evaluated(env, db).evaluated)| == |Evaluated(env, db).evaluated|
  {
    var work := WorkOf(env, db);
    PairOrder();
    forall i, j | 0 <= i < j < |KeyOrder(work)|
      ensures KeyOrder(work)[i] != KeyOrder(work)[j]
    {
      SortedAscends(work.Keys, PairLe, i, j);
    }
    EvalCap(env, StartOf(env, db), work, KeyOrder(work));
    DistinctCount(Evaluated(env, db).evaluated);
  }

  /** What the run reports adds up: pairs evaluated, skipped and deferred are all the work, and
      never more than the cap are evaluated. */
  lemma CountsAddUp(env: Env, db: Db)
    ensures var s, start := Run(env, db).summary, Prune(db);
      && s.pairsEvaluated + Evaluated(env, start).skipped + s.deferredPairs == |WorkOf(env, start)|
      && s.pairsEvaluated <= env.params.maxPairs
      && s.pairsEvaluated == |Elements(Evaluated(env, start).evaluated)|
  {
    EvaluatedDistinct(env, Prune(db));
  }
}
