/** Runs over an unchanged corpus (src/contradictions.rs): each pair is evaluated once, in path
    order, a cap's worth per run, and then nothing is left to do. */
module Convergence {
  import opened Ordering
  import opened Contradictions
  import opened RunLaws

  /** Lookups work, files are readable, the judge never fails and nothing is cancelled. */
  ghost predicate Good(env: Env) {
    && (forall p :: env.neighbours(p).Some?)
    && (forall p :: env.read(p) == Text)
    && (forall k :: env.judge(k).Verdict?)
    && (forall i :: !env.cancelScan(i) && !env.cancelPair(i))
    && env.params.maxPairs >= 1
  }

  lemma {:induction false} NeverCancelled(cancel: nat -> bool, n: nat, i: nat)
    requires i <= n && forall j :: !cancel(j)
    ensures RoundsBefore(cancel, n, i) == n
    decreases n - i
  {
    if i < n { NeverCancelled(cancel, n, i + 1); }
  }

  /** What a good run has to evaluate. */
  ghost predicate Pending(env: Env, db: Db, k: PairKey) {
    || AskedBy(env, db, ScanOrder(db), k)
    || (env.hasJudge && k in db.pairs && Retried(db, k))
  }

  lemma GoodWork(env: Env, db: Db)
    requires Good(env)
    ensures ScanOrder(db)[..Visited(env, db)] == ScanOrder(db)
    ensures forall k :: k in WorkOf(env, db) <==> Pending(env, db, k)
  {
    NeverCancelled(env.cancelScan, |ScanOrder(db)|, 0);
    assert ScanOrder(db)[..|ScanOrder(db)|] == ScanOrder(db);
    ScanFacts(env, db, ScanOrder(db));
  }

  /** A row that settles its pair for good: judged, or nobody to judge. */
  ghost predicate Final(env: Env, row: Row) { row.verdict == Candidate ==> !env.hasJudge }

  /** A good evaluation loop takes the first pairs up to the cap and gives each a final row. */
  lemma {:induction false} GoodEval(env: Env, start: Eval, work: map<PairKey, Work>, keys: seq<PairKey>)
    requires Good(env) && KeysIn(work, keys)
    requires start.evaluated == [] && !start.stopped
    ensures var ev := EvalRun(env, start, work, keys);
      && ev.evaluated == keys[..Min(|keys|, env.params.maxPairs)]
      && (ev.stopped <==> |keys| > env.params.maxPairs)
  {
    if keys != [] {
      var n := |keys| - 1;
      GoodEval(env, start, work, keys[..n]);
      assert EvaluatePair(env, keys[n], work[keys[n]]).Stored?;
      var m := Min(n, env.params.maxPairs);
      assert keys[..n][..m] == keys[..m];
      if n < env.params.maxPairs { assert keys[..n] + [keys[n]] == keys[..n + 1]; }
    }
  }

  lemma {:induction false} GoodRows(env: Env, start: Eval, work: map<PairKey, Work>, keys: seq<PairKey>, k: PairKey)
    requires Good(env) && KeysIn(work, keys) && start.evaluated == []
    requires k in EvalRun(env, start, work, keys).evaluated
    ensures k in EvalRun(env, start, work, keys).pairs && Final(env, EvalRun(env, start, work, keys).pairs[k])
  {
    if keys != [] {
      var n := |keys| - 1;
      var before := EvalRun(env, start, work, keys[..n]);
      if k in before.evaluated { GoodRows(env, start, work, keys[..n], k); }
      assert EvaluatePair(env, keys[n], work[keys[n]]).Stored?;
    }
  }

  lemma GoodRun(env: Env, db: Db)
    requires Good(env)
    ensures var keys := KeyOrder(WorkOf(env, db));
      Evaluated(env, db).evaluated == keys[..Min(|keys|, env.params.maxPairs)]
  {
    NeverCancelled(env.cancelScan, |ScanOrder(db)|, 0);
    GoodEval(env, StartOf(env, db), WorkOf(env, db), KeyOrder(WorkOf(env, db)));
  }

  // ---- what a run leaves for the next ----

  /** What the run did to one pair. */
  lemma SettledAfter(env: Env, db: Db, k: PairKey)
    requires Good(env) && KnownKey(db, k)
    ensures DbAfter(env, db).documents == db.documents
    ensures PairSettled(DbAfter(env, db), k, env.hasJudge)
            <==> PairSettled(db, k, env.hasJudge) || k in Evaluated(env, db).evaluated
  {
    DoneKnown(env, db);
    RowsAfter(env, db, k);
    EvaluatedRowIsCurrent(env, db, k);
    if k in Evaluated(env, db).evaluated {
      GoodRows(env, StartOf(env, db), WorkOf(env, db), KeyOrder(WorkOf(env, db)), k);
    }
  }

  /** The stored marks, with the stored rows the run does not rewrite. */
  ghost function Unwritten(env: Env, db: Db): (r: Db)
    ensures r.documents == db.documents && r.analyzed == db.analyzed
  {
    db.(pairs := db.pairs - Elements(Evaluated(env, db).evaluated))
  }

  /** An analysed document that a stored row, outdated for a document the run finishes, reopens. */
  ghost predicate Reopened(env: Env, db: Db, p: Path) {
    DoneKnown(env, db);
    Analysed(db, p) && LosesMark(Unwritten(env, db), Done(env, db), p)
  }

  /** A row just written is current, so only rows not rewritten are dropped. */
  lemma StaleIsKept(env: Env, db: Db, k: PairKey, p: Path)
    requires p in db.documents
    ensures (k in Marked(env, db).pairs && StaleAt(Marked(env, db), k, p))
            <==> (k in Unwritten(env, db).pairs && StaleAt(Unwritten(env, db), k, p))
  {
    hide Evaluated, Done;
    DoneKnown(env, db);
    EvaluatedRowIsCurrent(env, db, k);
  }

  lemma CondemnedIsKept(env: Env, db: Db, done: seq<Path>, k: PairKey)
    requires Known(db, done) && k in Marked(env, db).pairs && k in Unwritten(env, db).pairs
    ensures Condemned(Marked(env, db), k, done) <==> Condemned(Unwritten(env, db), k, done)
  {
    hide Marked, Unwritten, StaleAt;
    forall p | p in done
      ensures StaleAt(Marked(env, db), k, p) <==> StaleAt(Unwritten(env, db), k, p)
    {
      StaleIsKept(env, db, k, p);
    }
  }

  lemma DropsIsKept(env: Env, db: Db, done: seq<Path>, p: Path, i: nat, k: PairKey)
    requires Known(db, done) && Known(Marked(env, db), done) && Known(Unwritten(env, db), done)
    ensures DropsFor(Marked(env, db), done, p, i, k) <==> DropsFor(Unwritten(env, db), done, p, i, k)
  {
    hide Marked, Unwritten, StaleAt, Condemned;
    if i < |done| {
      StaleIsKept(env, db, k, done[i]);
      if k in Marked(env, db).pairs && k in Unwritten(env, db).pairs { CondemnedIsKept(env, db, done[..i], k); }
    }
  }

  lemma LosesIsKept(env: Env, db: Db, done: seq<Path>, p: Path)
    requires Known(db, done) && Known(Marked(env, db), done) && Known(Unwritten(env, db), done)
    ensures LosesMark(Marked(env, db), done, p) <==> LosesMark(Unwritten(env, db), done, p)
  {
    hide Marked, Unwritten, DropsFor;
    forall i: nat, k
      ensures DropsFor(Marked(env, db), done, p, i, k) <==> DropsFor(Unwritten(env, db), done, p, i, k)
    {
      DropsIsKept(env, db, done, p, i, k);
    }
  }

  lemma MarkedAre(env: Env, db: Db, p: Path)
    ensures Analysed(Marked(env, db), p) <==> p in Done(env, db) || Analysed(db, p)
  {
    DoneKnown(env, db);
  }

  /** A document finished now, or analysed before and not reopened, is analysed afterwards. */
  lemma AnalysedAfter(env: Env, db: Db, p: Path)
    ensures p !in Done(env, db) ==> (Analysed(DbAfter(env, db), p) <==> Analysed(db, p) && !Reopened(env, db, p))
    ensures p in Changed(db) <==> p in db.documents && !Analysed(db, p)
  {
    hide Evaluated, Done;
    DoneKnown(env, db);
    DropStaleMarks(Marked(env, db), Done(env, db), p);
    LosesIsKept(env, db, Done(env, db), p);
  }

  lemma NeedsAfter(env: Env, db: Db, p: Path, k: PairKey)
    requires Good(env)
    ensures NeedsPair(env, DbAfter(env, db), p, k)
            <==> NeedsPair(env, db, p, k) && k !in Evaluated(env, db).evaluated
  {
    DoneKnown(env, db);
    if KnownKey(db, k) { SettledAfter(env, db, k); }
  }

  /** A pair the run did not evaluate keeps its row if that is current, and gains none. */
  lemma RowKept(env: Env, db: Db, k: PairKey)
    requires k !in Evaluated(env, db).evaluated
    ensures k in DbAfter(env, db).pairs ==> k in db.pairs && DbAfter(env, db).pairs[k] == db.pairs[k]
    ensures CurrentRow(db, k) ==> k in DbAfter(env, db).pairs
  {
    DoneKnown(env, db);
    EvaluatedRowIsCurrent(env, db, k);
    RowsAfter(env, db, k);
    assert Marked(env, db).pairs == Evaluated(env, db).pairs;
  }

  lemma RetriedAfter(env: Env, db: Db, k: PairKey)
    requires Good(env) && env.hasJudge
    ensures (k in DbAfter(env, db).pairs && Retried(DbAfter(env, db), k))
            <==> (k in db.pairs && Retried(db, k) && k !in Evaluated(env, db).evaluated)
  {
    DocumentsKept(env, db);
    if k in Evaluated(env, db).evaluated {
      if KnownKey(db, k) { SettledAfter(env, db, k); }
    } else {
      RowKept(env, db, k);
    }
  }

  lemma DocumentsKept(env: Env, db: Db)
    ensures DbAfter(env, db).documents == db.documents
  {
    DoneKnown(env, db);
  }

  lemma NextAsked(env: Env, db: Db, p: Path, k: PairKey)
    requires Good(env)
    ensures (p in ScanOrder(DbAfter(env, db)) && NeedsPair(env, DbAfter(env, db), p, k))
            <==> k !in Evaluated(env, db).evaluated && NeedsPair(env, db, p, k)
                 && (p in ScanOrder(db) || Reopened(env, db, p))
  {
    hide Evaluated, Done, DbAfter, NeedsPair, LosesMark;
    DocumentsKept(env, db);
    DoneKnown(env, db);
    ScanOrderIsChanged(db);
    ScanOrderIsChanged(DbAfter(env, db));
    AnalysedAfter(env, db, p);
    NeedsAfter(env, db, p, k);
    if p in Done(env, db) { DoneHasNeed(env, db, p); }
  }

  /** The next run's work: this run's, and what reopened documents need, minus what was evaluated. */
  lemma NextPending(env: Env, db: Db, k: PairKey)
    requires Good(env)
    ensures Pending(env, DbAfter(env, db), k)
            <==> k !in Evaluated(env, db).evaluated
                 && (Pending(env, db, k) || exists p :: Reopened(env, db, p) && NeedsPair(env, db, p, k))
  {
    hide DbAfter, Evaluated, NeedsPair, Reopened, Retried, ScanOrder;
    var next := DbAfter(env, db);
    if env.hasJudge { RetriedAfter(env, db, k); }
    if p :| p in ScanOrder(next) && NeedsPair(env, next, p, k) { NextAsked(env, db, p, k); }
    if p :| NeedsPair(env, db, p, k) && (p in ScanOrder(db) || Reopened(env, db, p)) { NextAsked(env, db, p, k); }
  }

  // ---- a corpus with no outdated rows ----

  /** Every row between known documents holds their current hashes: so from the first run over
      a corpus on, as long as nothing changes. */
  ghost predicate UpToDate(db: Db) {
    forall k :: k in db.pairs ==> UpToDateAt(db, k)
  }

  ghost predicate UpToDateAt(db: Db, k: PairKey) { KnownKey(db, k) ==> CurrentRow(db, k) }

  lemma PruneUpToDate(db: Db)
    requires UpToDate(db)
    ensures Tidy(Prune(db))
  {
    forall k | k in Prune(db).pairs
      ensures UpToDateAt(Prune(db), k)
    {
      assert UpToDateAt(db, k);
    }
  }

  lemma {:induction false} NothingDropped(db: Db, done: seq<Path>)
    requires Known(db, done)
    requires forall k, p :: k in db.pairs && p in done ==> !StaleAt(db, k, p)
    ensures DropStale(db, done) == db
  {
    if done != [] {
      var n := |done| - 1;
      assert done[n] in done;
      NothingDropped(db, done[..n]);
      var stale := set k | k in db.pairs && StaleFor(k, db.pairs[k], done[n], db.documents[done[n]]);
      assert stale == {} by {
        forall k | k in db.pairs
          ensures k !in stale
        {
          assert !StaleAt(db, k, done[n]);
        }
      }
      assert db.pairs - stale == db.pairs;
    }
  }

  /** A state a run starts from with nothing to prune and nothing outdated. */
  ghost predicate Tidy(db: Db) { Prune(db) == db && UpToDate(db) }

  lemma TidyKeys(db: Db, k: PairKey)
    requires Tidy(db) && k in db.pairs && db.documents != map[]
    ensures CurrentRow(db, k)
  {
    assert k in Prune(db).pairs && UpToDateAt(db, k);
  }

  lemma TidyNothingStale(env: Env, db: Db, k: PairKey, p: Path)
    requires Tidy(db) && p in Done(env, db) && k in Marked(env, db).pairs
    ensures p in db.documents && !StaleAt(Marked(env, db), k, p)
  {
    hide Evaluated, Done, Prune;
    DoneKnown(env, db);
    EvaluatedRowIsCurrent(env, db, k);
    if k !in Evaluated(env, db).evaluated { TidyKeys(db, k); }
  }

  lemma TidyDropsNothing(env: Env, db: Db)
    requires Tidy(db)
    ensures DbAfter(env, db) == Marked(env, db)
  {
    DoneKnown(env, db);
    forall k, p | k in Marked(env, db).pairs && p in Done(env, db)
      ensures !StaleAt(Marked(env, db), k, p)
    {
      TidyNothingStale(env, db, k, p);
    }
    NothingDropped(Marked(env, db), Done(env, db));
  }

  lemma PruneIdle(db: Db)
    requires forall p :: p in db.analyzed ==> p in db.documents
    requires forall k :: k in db.pairs ==> KnownKey(db, k)
    ensures Prune(db) == db
  {
  }

  lemma TidyAfter(env: Env, db: Db)
    requires Tidy(db)
    ensures Tidy(DbAfter(env, db))
  {
    hide Evaluated, Done;
    var r := DbAfter(env, db);
    TidyDropsNothing(env, db);
    DoneKnown(env, db);
    forall k | k in r.pairs && (KnownKey(r, k) || db.documents != map[])
      ensures CurrentRow(r, k)
    {
      EvaluatedRowIsCurrent(env, db, k);
      if k !in Evaluated(env, db).evaluated && db.documents != map[] { TidyKeys(db, k); }
    }
    if db.documents != map[] {
      assert forall p :: p in db.analyzed ==> p in Prune(db).analyzed;
      PruneIdle(r);
    }
  }
}
